/**
 The destructive pipeline: *arr deletes, hardlink re-check, qBittorrent delete, for each
 candidate of a live run in rank order.

 Everything the pipeline does to the outside world is one entry of `log`.  What the world
 answers to the n-th entry is fixed by an arbitrary Env, so a theorem over all Envs covers
 every pattern of store failures, transient and hard API errors, stop requests and changes
 made to the filesystem by others.
 */
module Reaper {
  import opened Basics

  type Hash = string
  type Kind = string
  type Path = string
  type Inode = nat
  type ActionId = nat

  datatype Link = Link(kind: Kind, fileID: int)
  datatype Item = Item(rank: nat, hash: Hash, size: int)

  datatype Outcome = Ok | Transient | Hard
  datatype Target = ArrFile(link: Link) | Torrent(hash: Hash)
  datatype StatResult = Absent | Linked(nlink: nat) | StatError

  datatype AuditStep = ArrDelete | NlinkCheck | QbitDelete
  datatype AuditOutcome = OK | Failed | Skipped | NotAttempted
  datatype Row = Row(action: ActionId, step: AuditStep, kind: Kind, fileID: int, outcome: AuditOutcome)

  datatype ActionStatus =
    | Succeeded | AbortedArrFail | AbortedNlinkCheck | SkippedCrossSeed | FailedQbit

  datatype RunStatus = Running | Completed | Stopped

  datatype Trigger = DiskPressure | HTTP | CLI | OtherTrigger
  datatype RunRecord = RunRecord(live: bool, trigger: Trigger, items: seq<Item>)

  /** One call to the store, an *arr, qBittorrent or the filesystem, with its answer. */
  datatype Event =
    | RunRead(run: Option<RunRecord>)
    | RunMarked(runStatus: RunStatus, stored: bool)
    | Inserted(item: Item, stored: bool)          // its index in the log is the action's id
    | LinksRead(action: ActionId, links: Option<seq<Link>>)
    | Deleted(action: ActionId, target: Target, outcome: Outcome)
    | SavePathRead(action: ActionId, dir: Option<Path>)
    | FilesRead(action: ActionId, files: Option<seq<string>>)
    | Stated(action: ActionId, path: Path, result: StatResult)
    | Audited(row: Row, stored: bool)
    | Finished(action: ActionId, status: ActionStatus, freed: int, stored: bool)
    | Forgot(action: ActionId, stored: bool)

  type Log = seq<Event>

  /** Names on the watched volume; the link count of an inode is its number of names. */
  datatype FS = FS(names: map<Path, Inode>, size: Inode -> nat) {
    function Stat(p: Path): StatResult {
      if p !in names then Absent else Linked(|set q | q in names && names[q] == names[p]|)
    }

    /** Bytes on disk: every inode with a name, once. */
    ghost function Used(): int { Sum(names.Values, i => size(i)) }

    function Without(paths: set<Path>): FS { FS(names - paths, size) }
  }

  /** The world's answers, by log index. */
  datatype Env = Env(
    run: nat -> Option<RunRecord>,
    stored: nat -> bool,
    links: nat -> Option<seq<Link>>,
    deletion: nat -> Outcome,
    savePath: nat -> Option<Path>,
    files: nat -> Option<seq<string>>,
    fs: nat -> FS,
    statFails: nat -> bool,
    stopRequested: nat -> bool,
    actable: Kind -> bool)

  /** Attempts of one retried write; the actor keeps the default of the retry helper. */
  const MAX_ATTEMPTS := 3

  // ---------------------------------------------------------------- specification

  function Audit(env: Env, log: Log, row: Row): Log {
    log + [Audited(row, env.stored(|log|))]
  }

  function Finish(env: Env, log: Log, id: ActionId, status: ActionStatus, freed: int): Log {
    log + [Finished(id, status, freed, env.stored(|log|))]
  }

  /** Up to `k` attempts; only a transient failure is tried again. */
  function Attempt(env: Env, log: Log, id: ActionId, target: Target, k: nat): (r: (Log, bool))
    requires k > 0
    decreases k
  {
    var o := env.deletion(|log|);
    var log' := log + [Deleted(id, target, o)];
    if o == Transient && k > 1 then Attempt(env, log', id, target, k - 1) else (log', o == Ok)
  }

  function LinkRow(id: ActionId, lk: Link, o: AuditOutcome): Row {
    Row(id, ArrDelete, lk.kind, lk.fileID, o)
  }

  function Remaining(env: Env, log: Log, id: ActionId, rest: seq<Link>): Log
    decreases |rest|
  {
    if rest == [] then log
    else Remaining(env, Audit(env, log, LinkRow(id, rest[0], NotAttempted)), id, rest[1..])
  }

  function ArrDeletes(env: Env, log: Log, id: ActionId, links: seq<Link>): (Log, bool)
    decreases |links|
  {
    if links == [] then (log, true) else
    var (log1, ok) := Attempt(env, log, id, ArrFile(links[0]), MAX_ATTEMPTS);
    if !ok then
      (Remaining(env, Audit(env, log1, LinkRow(id, links[0], Failed)), id, links[1..]), false)
    else ArrDeletes(env, Audit(env, log1, LinkRow(id, links[0], OK)), id, links[1..])
  }

  /** The first link whose *arr has no deleter, or |links|. */
  function FirstUnactable(env: Env, links: seq<Link>): (i: nat)
    ensures i <= |links|
    ensures forall j :: 0 <= j < i ==> env.actable(links[j].kind)
    ensures i < |links| ==> !env.actable(links[i].kind)
    decreases |links|
  {
    if links == [] || !env.actable(links[0].kind) then 0 else 1 + FirstUnactable(env, links[1..])
  }

  function Fanout(env: Env, log: Log, id: ActionId, links: seq<Link>): (Log, bool) {
    var i := FirstUnactable(env, links);
    if i < |links| then
      (Remaining(env, Audit(env, log, LinkRow(id, links[i], Skipped)), id, links[i+1..]), false)
    else ArrDeletes(env, log, id, links)
  }

  function Join(dir: Path, name: string): Path { dir + "/" + name }

  datatype Verdict = Clear | Conflict | CheckFailed

  function Sweep(env: Env, log: Log, id: ActionId, dir: Path, files: seq<string>): (Log, Verdict)
    decreases |files|
  {
    if files == [] then (log, Clear) else
    var r := if env.statFails(|log|) then StatError else env.fs(|log|).Stat(Join(dir, files[0]));
    var log' := log + [Stated(id, Join(dir, files[0]), r)];
    match r
    case StatError => (log', CheckFailed)
    case Absent => Sweep(env, log', id, dir, files[1..])
    case Linked(n) => if n > 1 then (log', Conflict) else Sweep(env, log', id, dir, files[1..])
  }

  function CheckRow(id: ActionId, v: Verdict): Row {
    Row(id, NlinkCheck, "", 0, match v case Clear => OK case Conflict => Skipped case CheckFailed => Failed)
  }

  function CheckNlink(env: Env, log: Log, id: ActionId): (Log, Verdict) {
    var dir := env.savePath(|log|);
    var log1 := log + [SavePathRead(id, dir)];
    if dir == None then (Audit(env, log1, CheckRow(id, CheckFailed)), CheckFailed) else
    var files := env.files(|log1|);
    var log2 := log1 + [FilesRead(id, files)];
    if files == None || files.value == [] then (Audit(env, log2, CheckRow(id, CheckFailed)), CheckFailed) else
    var (log3, v) := Sweep(env, log2, id, dir.value, files.value);
    (Audit(env, log3, CheckRow(id, v)), v)
  }

  function QbitRow(id: ActionId, ok: bool): Row {
    Row(id, QbitDelete, "", 0, if ok then OK else Failed)
  }

  /** After a clear check: delete the torrent, finish, forget. */
  function Reap(env: Env, log: Log, id: ActionId, item: Item): Log {
    var (log1, ok) := Attempt(env, log, id, Torrent(item.hash), MAX_ATTEMPTS);
    var log2 := Audit(env, log1, QbitRow(id, ok));
    if !ok then Finish(env, log2, id, FailedQbit, 0) else
    var log3 := Finish(env, log2, id, Succeeded, item.size);
    if !env.stored(|log2|) then log3 else log3 + [Forgot(id, env.stored(|log3|))]
  }

  function Candidate(env: Env, log: Log, item: Item): Log {
    var id := |log|;
    var log1 := log + [Inserted(item, env.stored(|log|))];
    if !env.stored(|log|) then log1 else
    var links := env.links(|log1|);
    var log2 := log1 + [LinksRead(id, links)];
    if links == None then
      Finish(env, Audit(env, log2, Row(id, ArrDelete, "", 0, Failed)), id, AbortedArrFail, 0) else
    ActOnLinks(env, log2, id, item, links.value)
  }

  /** The rest of a candidate whose links are known. */
  function ActOnLinks(env: Env, log: Log, id: ActionId, item: Item, links: seq<Link>): Log {
    var (log1, ok) := Fanout(env, log, id, links);
    if ok then CheckAndSettle(env, log1, id, item) else Finish(env, log1, id, AbortedArrFail, 0)
  }

  function CheckAndSettle(env: Env, log: Log, id: ActionId, item: Item): Log {
    var (log1, v) := CheckNlink(env, log, id);
    Settle(env, log1, id, item, v)
  }

  /** What follows the link-count check. */
  function Settle(env: Env, log: Log, id: ActionId, item: Item, v: Verdict): Log {
    match v
    case CheckFailed => Finish(env, log, id, AbortedNlinkCheck, 0)
    case Conflict => Finish(env, log, id, SkippedCrossSeed, 0)
    case Clear => Reap(env, log, id, item)
  }

  /** The candidate loop from item `i`: the log, how far it got, whether an operator stopped it. */
  function Loop(env: Env, log: Log, items: seq<Item>, limit: int, i: nat): (r: (Log, nat, bool))
    requires i <= |items|
    ensures i <= r.1 <= |items|
    decreases |items| - i
  {
    if i == |items| then (log, i, false)
    else if env.stopRequested(|log|) then (log, i, true)
    else if limit > 0 && i >= limit then (log, i, false)
    else Loop(env, Candidate(env, log, items[i]), items, limit, i + 1)
  }

  predicate Allowed(run: RunRecord) { run.live && run.trigger != OtherTrigger }

  /** Whether a call of Execute with this log returns without an error: the run was not live, or
      its last mark was stored. */
  predicate EndsWell(log: Log) {
    log != [] &&
    match log[|log| - 1]
    case RunRead(run) => run.Some? && !run.value.live
    case RunMarked(_, stored) => stored
    case _ => false
  }

  /** The log of one Execute call, from an empty log. */
  function ExecuteLog(env: Env, limit: int): Log {
    var run := env.run(0);
    var log := [RunRead(run)];
    if run == None || !Allowed(run.value) then log else
    var log1 := log + [RunMarked(Running, env.stored(1))];
    if !env.stored(1) then log1 else
    var (log2, _, stopped) := Loop(env, log1, run.value.items, limit, 0);
    log2 + [RunMarked(if stopped then Stopped else Completed, env.stored(|log2|))]
  }

  // ---------------------------------------------------------------- the actor

  /** The Actor; `log` is everything it has done to the world. */
  class Actor {
    const env: Env
    const limit: int   // MaxDeletionsPerRun; 0 means unlimited
    var log: Log

    constructor (env: Env, limit: int)
      ensures this.env == env && this.limit == limit && log == []
    {
      this.env, this.limit, log := env, limit, [];
    }

    method AuditRow(row: Row)
      modifies this
      ensures log == Audit(env, old(log), row)
    {
      log := log + [Audited(row, env.stored(|log|))];
    }

    /** False when the terminal status could not be stored. */
    method FinishAction(id: ActionId, status: ActionStatus, freed: int) returns (stored: bool)
      modifies this
      ensures log == Finish(env, old(log), id, status, freed)
      ensures stored == env.stored(|old(log)|)
    {
      stored := env.stored(|log|);
      log := log + [Finished(id, status, freed, stored)];
    }

    /** retry.Do around one delete. */
    method Do(id: ActionId, target: Target, maxAttempts: nat) returns (ok: bool)
      requires maxAttempts > 0
      modifies this
      ensures (log, ok) == Attempt(env, old(log), id, target, maxAttempts)
    {
      ok := false;
      var attempt := 0;
      while attempt < maxAttempts
        invariant attempt < maxAttempts
        invariant Attempt(env, log, id, target, maxAttempts - attempt)
                  == Attempt(env, old(log), id, target, maxAttempts)
        decreases maxAttempts - attempt
      {
        var o := env.deletion(|log|);
        log := log + [Deleted(id, target, o)];
        if o == Ok { return true; }
        if o != Transient || attempt == maxAttempts - 1 { return false; }
        attempt := attempt + 1;
      }
    }

    method MarkRemaining(id: ActionId, rest: seq<Link>)
      modifies this
      ensures log == Remaining(env, old(log), id, rest)
    {
      for i := 0 to |rest|
        invariant Remaining(env, log, id, rest[i..]) == Remaining(env, old(log), id, rest)
      {
        AuditRow(LinkRow(id, rest[i], NotAttempted));
        assert rest[i..][1..] == rest[i+1..];
      }
    }

    method FanoutArr(id: ActionId, links: seq<Link>) returns (ok: bool)
      modifies this
      ensures (log, ok) == Fanout(env, old(log), id, links)
    {
      for i := 0 to |links|
        invariant log == old(log)
        invariant FirstUnactable(env, links) == i + FirstUnactable(env, links[i..])
      {
        if !env.actable(links[i].kind) {
          AuditRow(LinkRow(id, links[i], Skipped));
          MarkRemaining(id, links[i+1..]);
          return false;
        }
        assert links[i..][1..] == links[i+1..];
      }
      assert links[0..] == links;
      for i := 0 to |links|
        invariant ArrDeletes(env, log, id, links[i..]) == ArrDeletes(env, old(log), id, links)
      {
        assert links[i..][1..] == links[i+1..];
        var deleted := Do(id, ArrFile(links[i]), MAX_ATTEMPTS);
        if !deleted {
          AuditRow(LinkRow(id, links[i], Failed));
          MarkRemaining(id, links[i+1..]);
          return false;
        }
        AuditRow(LinkRow(id, links[i], OK));
      }
      return true;
    }

    method Check(id: ActionId) returns (v: Verdict)
      modifies this
      ensures (log, v) == CheckNlink(env, old(log), id)
    {
      var dir := env.savePath(|log|);
      log := log + [SavePathRead(id, dir)];
      if dir == None { AuditRow(CheckRow(id, CheckFailed)); return CheckFailed; }
      var files := env.files(|log|);
      log := log + [FilesRead(id, files)];
      if files == None || files.value == [] { AuditRow(CheckRow(id, CheckFailed)); return CheckFailed; }
      ghost var listed := log;
      var checked, gone := 0, 0;
      for i := 0 to |files.value|
        invariant Sweep(env, log, id, dir.value, files.value[i..])
                  == Sweep(env, listed, id, dir.value, files.value)
        invariant checked + gone == i
      {
        assert files.value[i..][1..] == files.value[i+1..];
        var path := Join(dir.value, files.value[i]);
        var r := if env.statFails(|log|) then StatError else env.fs(|log|).Stat(path);
        log := log + [Stated(id, path, r)];
        if r == Absent {
          gone := gone + 1;
          continue;
        }
        if r == StatError { AuditRow(CheckRow(id, CheckFailed)); return CheckFailed; }
        checked := checked + 1;
        if r.nlink > 1 { AuditRow(CheckRow(id, Conflict)); return Conflict; }
      }
      AuditRow(CheckRow(id, Clear));
      return Clear;
    }

    method ProcessCandidate(item: Item)
      modifies this
      ensures log == Candidate(env, old(log), item)
    {
      var id := |log|;
      var inserted := env.stored(|log|);
      log := log + [Inserted(item, inserted)];
      if !inserted { return; }
      var links := env.links(|log|);
      log := log + [LinksRead(id, links)];
      if links == None {
        AuditRow(Row(id, ArrDelete, "", 0, Failed));
        var _ := FinishAction(id, AbortedArrFail, 0);
        return;
      }
      var fanned := FanoutArr(id, links.value);
      if !fanned { var _ := FinishAction(id, AbortedArrFail, 0); return; }
      var v := Check(id);
      if v == CheckFailed {
        var _ := FinishAction(id, AbortedNlinkCheck, 0);
        return;
      } else if v == Conflict {
        var _ := FinishAction(id, SkippedCrossSeed, 0);
        return;
      }
      var reaped := Do(id, Torrent(item.hash), MAX_ATTEMPTS);
      if !reaped {
        AuditRow(QbitRow(id, false));
        var _ := FinishAction(id, FailedQbit, 0);
        return;
      }
      AuditRow(QbitRow(id, true));
      var finished := FinishAction(id, Succeeded, item.size);
      if !finished { return; }
      log := log + [Forgot(id, env.stored(|log|))];
    }

    /** `ok` is false when Execute returns an error. */
    method Execute() returns (ok: bool)
      requires log == []
      modifies this
      ensures log == ExecuteLog(env, limit) && ok == EndsWell(log)
    {
      var run := env.run(0);
      log := [RunRead(run)];
      if run == None { return false; }
      if !run.value.live { return true; }
      if run.value.trigger !in {DiskPressure, HTTP, CLI} { return false; }
      var marked := env.stored(1);
      log := log + [RunMarked(Running, marked)];
      if !marked { return false; }
      var items := run.value.items;
      ghost var started := log;
      var stopped := false;
      var i := 0;
      while i < |items|
        invariant i <= |items| && !stopped
        invariant Loop(env, log, items, limit, i) == Loop(env, started, items, limit, 0)
      {
        if env.stopRequested(|log|) {
          stopped := true;
          break;
        }
        if limit > 0 && i >= limit { break; }
        ProcessCandidate(items[i]);
        i := i + 1;
      }
      assert Loop(env, started, items, limit, 0) == (log, i, stopped);
      var stored := env.stored(|log|);
      if stopped {
        log := log + [RunMarked(Stopped, stored)];
        return stored;
      }
      log := log + [RunMarked(Completed, stored)];
      return stored;
    }
  }
}
