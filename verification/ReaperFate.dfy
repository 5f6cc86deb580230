/**
 What becomes of an action, read off the world's answers alone: when a retried call succeeds, when
 the hardlink check is clear, and so which status every action of every run ends with.
 */
module ReaperFate {
  import opened Basics
  import opened Reaper
  import opened ReaperSafety
  import A = ReaperAudit
  import ReaperRun

  // ---------------------------------------------------------------- retried calls

  /** From log position `n` on, the attempt numbered `i` is accepted, after transient failures only. */
  ghost predicate AcceptedAt(env: Env, n: nat, i: nat) {
    env.deletion(n + i) == Ok && forall j :: n <= j < n + i ==> env.deletion(j) == Transient
  }

  ghost predicate Accepted(env: Env, n: nat, k: nat) { exists i: nat :: i < k && AcceptedAt(env, n, i) }

  /** A call makes the attempts that the world's answers ask for and no other: it goes on exactly
      while they are transient and attempts are left. */
  lemma {:induction false} AttemptExactly(env: Env, log: Log, id: ActionId, target: Target, k: nat)
    requires k > 0
    ensures var (r, ok) := Attempt(env, log, id, target, k);
      && log < r && |r| <= |log| + k
      && (forall j :: |log| <= j < |r| ==> r[j] == Deleted(id, target, env.deletion(j)))
      && (forall j :: |log| <= j < |r| - 1 ==> env.deletion(j) == Transient)
      && (|r| < |log| + k ==> env.deletion(|r| - 1) != Transient)
      && (ok <==> env.deletion(|r| - 1) == Ok)
    decreases k
  {
    var o := env.deletion(|log|);
    if o == Transient && k > 1 {
      AttemptExactly(env, log + [Deleted(id, target, o)], id, target, k - 1);
    }
  }

  /** It succeeds if and only if an attempt within the budget is accepted after transient ones only,
      and then ends there. */
  lemma SucceedsExactly(env: Env, log: Log, id: ActionId, target: Target, k: nat)
    requires k > 0
    ensures var (r, ok) := Attempt(env, log, id, target, k);
      && (ok <==> Accepted(env, |log|, k))
      && (forall i: nat :: i < k && AcceptedAt(env, |log|, i) ==> |r| == |log| + i + 1)
  {
    var (r, ok) := Attempt(env, log, id, target, k);
    AttemptExactly(env, log, id, target, k);
    var n: nat := |r| - 1 - |log|;
    if ok { assert AcceptedAt(env, |log|, n); }
    forall i: nat | i < k && AcceptedAt(env, |log|, i) ensures i == n {
      assert env.deletion(|log| + i) == Ok && env.deletion(|log| + n) == env.deletion(|r| - 1);
    }
  }

  /** The actor's calls have three attempts: two transient failures are survived, three are not. */
  lemma ThirdAttemptCounts(env: Env, log: Log, id: ActionId, target: Target)
    requires env.deletion(|log|) == Transient && env.deletion(|log| + 1) == Transient
    ensures var (r, ok) := Attempt(env, log, id, target, MAX_ATTEMPTS);
      |r| == |log| + 3 && (ok <==> env.deletion(|log| + 2) == Ok)
  {
    AttemptExactly(env, log, id, target, MAX_ATTEMPTS);
  }

  // ---------------------------------------------------------------- the hardlink check

  /** The stat at position `n` works and finds no file, or one with no other name. */
  predicate SafeStat(env: Env, n: nat, p: Path) {
    !env.statFails(n)
    && match env.fs(n).Stat(p) case Absent => true case Linked(nlink) => nlink <= 1 case StatError => false
  }

  /** The stat finds a file with another name. */
  predicate SharedStat(env: Env, n: nat, p: Path) {
    !env.statFails(n) && env.fs(n).Stat(p).Linked? && env.fs(n).Stat(p).nlink > 1
  }

  /** The first `m` files are safe, their stats starting at position `n`. */
  ghost predicate SafeUpTo(env: Env, n: nat, dir: Path, files: seq<string>, m: nat)
    requires m <= |files|
  {
    forall i :: 0 <= i < m ==> SafeStat(env, n + i, Join(dir, files[i]))
  }

  /** The first file that is not safe has another name. */
  ghost predicate FirstIsShared(env: Env, n: nat, dir: Path, files: seq<string>) {
    exists i: nat :: i < |files| && SafeUpTo(env, n, dir, files, i) && SharedStat(env, n + i, Join(dir, files[i]))
  }

  lemma {:induction false} SweepExactly(env: Env, log: Log, id: ActionId, dir: Path, files: seq<string>)
    ensures var (r, v) := Sweep(env, log, id, dir, files);
      && (v == Clear <==> SafeUpTo(env, |log|, dir, files, |files|))
      && (v == Conflict <==> FirstIsShared(env, |log|, dir, files))
      && (v == Clear ==> |r| == |log| + |files|)
    decreases |files|
  {
    if files != [] {
      var n, p := |log|, Join(dir, files[0]);
      var s := if env.statFails(n) then StatError else env.fs(n).Stat(p);
      if SafeStat(env, n, p) {
        var next := log + [Stated(id, p, s)];
        assert Sweep(env, log, id, dir, files) == Sweep(env, next, id, dir, files[1..]);
        SweepExactly(env, next, id, dir, files[1..]);
        FirstIsSafe(env, n, dir, files);
      } else if SharedStat(env, n, p) {
        assert SafeUpTo(env, n, dir, files, 0) && SharedStat(env, n + 0, Join(dir, files[0]));
      } else {
        FirstFails(env, n, dir, files);
      }
    }
  }

  lemma SafeFromSecond(env: Env, n: nat, dir: Path, files: seq<string>, m: nat)
    requires m < |files| && SafeStat(env, n, Join(dir, files[0]))
    ensures SafeUpTo(env, n, dir, files, m + 1) <==> SafeUpTo(env, n + 1, dir, files[1..], m)
  {
    var rest := files[1..];
    if SafeUpTo(env, n, dir, files, m + 1) {
      forall i | 0 <= i < m ensures SafeStat(env, n + 1 + i, Join(dir, rest[i])) {
        assert SafeStat(env, n + (i + 1), Join(dir, files[i + 1]));
      }
    }
    if SafeUpTo(env, n + 1, dir, rest, m) {
      forall i | 0 <= i < m + 1 ensures SafeStat(env, n + i, Join(dir, files[i])) {
        if i > 0 { assert SafeStat(env, n + 1 + (i - 1), Join(dir, rest[i - 1])); }
      }
    }
  }

  lemma FirstIsSafe(env: Env, n: nat, dir: Path, files: seq<string>)
    requires files != [] && SafeStat(env, n, Join(dir, files[0]))
    ensures SafeUpTo(env, n, dir, files, |files|) <==> SafeUpTo(env, n + 1, dir, files[1..], |files| - 1)
    ensures FirstIsShared(env, n, dir, files) <==> FirstIsShared(env, n + 1, dir, files[1..])
  {
    var rest := files[1..];
    SafeFromSecond(env, n, dir, files, |files| - 1);
    if i: nat :| i < |files| && SafeUpTo(env, n, dir, files, i) && SharedStat(env, n + i, Join(dir, files[i])) {
      SafeFromSecond(env, n, dir, files, i - 1);
      assert SafeUpTo(env, n + 1, dir, rest, i - 1) && SharedStat(env, n + 1 + (i - 1), Join(dir, rest[i - 1]));
    }
    if i: nat :| i < |rest| && SafeUpTo(env, n + 1, dir, rest, i) && SharedStat(env, n + 1 + i, Join(dir, rest[i])) {
      SafeFromSecond(env, n, dir, files, i);
      assert SafeUpTo(env, n, dir, files, i + 1) && SharedStat(env, n + (i + 1), Join(dir, files[i + 1]));
    }
  }

  lemma FirstFails(env: Env, n: nat, dir: Path, files: seq<string>)
    requires files != [] && !SafeStat(env, n, Join(dir, files[0])) && !SharedStat(env, n, Join(dir, files[0]))
    ensures !SafeUpTo(env, n, dir, files, |files|) && !FirstIsShared(env, n, dir, files)
  {
    forall i: nat | 0 < i <= |files| ensures !SafeUpTo(env, n, dir, files, i) {
      assert !SafeStat(env, n + 0, Join(dir, files[0]));
    }
  }

  /** At position `c` the torrent's directory and a nonempty list of its files are known. */
  predicate Listed(env: Env, c: nat) {
    env.savePath(c).Some? && env.files(c + 1).Some? && env.files(c + 1).value != []
  }

  /** All the files listed are safe; file `i` is statted at position `c + 2 + i`. */
  ghost predicate AllSafe(env: Env, c: nat) {
    Listed(env, c) && SafeUpTo(env, c + 2, env.savePath(c).value, env.files(c + 1).value, |env.files(c + 1).value|)
  }

  ghost predicate Shared(env: Env, c: nat) {
    Listed(env, c) && FirstIsShared(env, c + 2, env.savePath(c).value, env.files(c + 1).value)
  }

  /** The check is clear exactly when the files are listed and all safe, and a conflict exactly when
      the first one that is not safe has another name; in every other case it failed. */
  lemma CheckExactly(env: Env, log: Log, id: ActionId)
    ensures var (r, v) := CheckNlink(env, log, id);
      && (v == Clear <==> AllSafe(env, |log|))
      && (v == Conflict <==> Shared(env, |log|))
      && (v == Clear ==> |r| == |log| + 3 + |env.files(|log| + 1).value|)
  {
    if Listed(env, |log|) {
      var dir, files := env.savePath(|log|), env.files(|log| + 1);
      var log2 := log + [SavePathRead(id, dir)] + [FilesRead(id, files)];
      SweepExactly(env, log2, id, dir.value, files.value);
    }
  }

  // ---------------------------------------------------------------- the fan-out

  /** Where the log stands when the deletes of `m` links, the first at position `n`, all succeeded;
      each is followed by its audit row. */
  ghost function LinksEnd(env: Env, n: nat, m: nat): Option<nat>
    decreases m
  {
    if m == 0 then Some(n)
    else if !Accepted(env, n, 3) then None
    else
      var i: nat :| i < 3 && AcceptedAt(env, n, i);
      LinksEnd(env, n + i + 2, m - 1)
  }

  lemma LinksEndStep(env: Env, n: nat, m: nat, i: nat)
    requires m > 0 && i < 3 && AcceptedAt(env, n, i)
    ensures LinksEnd(env, n, m) == LinksEnd(env, n + i + 2, m - 1)
  {
    forall j: nat | AcceptedAt(env, n, j) ensures j == i {
      assert env.deletion(n + i) == Ok && env.deletion(n + j) == Ok;
    }
  }

  /** The log after the first link's accepted delete and its audit row. */
  function AfterFirst(env: Env, log: Log, id: ActionId, links: seq<Link>): Log
    requires links != []
  {
    Audit(env, Attempt(env, log, id, ArrFile(links[0]), MAX_ATTEMPTS).0, LinkRow(id, links[0], OK))
  }

  lemma FirstLinkGone(env: Env, log: Log, id: ActionId, links: seq<Link>)
    requires links != [] && Attempt(env, log, id, ArrFile(links[0]), MAX_ATTEMPTS).1
    ensures ArrDeletes(env, log, id, links) == ArrDeletes(env, AfterFirst(env, log, id, links), id, links[1..])
  {
  }

  lemma FirstLinkEnds(env: Env, log: Log, id: ActionId, links: seq<Link>)
    requires links != [] && Attempt(env, log, id, ArrFile(links[0]), MAX_ATTEMPTS).1
    ensures LinksEnd(env, |log|, |links|) == LinksEnd(env, |AfterFirst(env, log, id, links)|, |links| - 1)
  {
    SucceedsExactly(env, log, id, ArrFile(links[0]), MAX_ATTEMPTS);
    var i: nat :| i < 3 && AcceptedAt(env, |log|, i);
    LinksEndStep(env, |log|, |links|, i);
  }

  lemma {:induction false} ArrDeletesExactly(env: Env, log: Log, id: ActionId, links: seq<Link>)
    ensures var (r, ok) := ArrDeletes(env, log, id, links);
      && (ok <==> LinksEnd(env, |log|, |links|).Some?)
      && (ok ==> LinksEnd(env, |log|, |links|) == Some(|r|))
    decreases |links|
  {
    if links != [] {
      if Attempt(env, log, id, ArrFile(links[0]), MAX_ATTEMPTS).1 {
        FirstLinkGone(env, log, id, links);
        FirstLinkEnds(env, log, id, links);
        ArrDeletesExactly(env, AfterFirst(env, log, id, links), id, links[1..]);
      } else {
        SucceedsExactly(env, log, id, ArrFile(links[0]), MAX_ATTEMPTS);
      }
    }
  }

  /** Every link has a deleter, and every delete is accepted. */
  ghost predicate Fanned(env: Env, n: nat, links: seq<Link>) {
    (forall lk :: lk in links ==> env.actable(lk.kind)) && LinksEnd(env, n, |links|).Some?
  }

  lemma FanoutExactly(env: Env, log: Log, id: ActionId, links: seq<Link>)
    ensures var (r, ok) := Fanout(env, log, id, links);
      && (ok <==> Fanned(env, |log|, links))
      && (ok ==> LinksEnd(env, |log|, |links|) == Some(|r|))
  {
    var i := FirstUnactable(env, links);
    if i < |links| {
      assert links[i] in links;
    } else {
      ArrDeletesExactly(env, log, id, links);
    }
  }

  // ---------------------------------------------------------------- one action

  /** Its links are known and all deleted by position `c`, where the check begins. */
  ghost predicate LinksGoneAt(env: Env, n: nat, c: nat) {
    && env.links(n + 1).Some? && Fanned(env, n + 2, env.links(n + 1).value)
    && LinksEnd(env, n + 2, |env.links(n + 1).value|) == Some(c)
  }

  /** How an action inserted at position `n` ends. */
  ghost function Fate(env: Env, n: nat): ActionStatus {
    if !exists c: nat :: LinksGoneAt(env, n, c) then AbortedArrFail else
    var c: nat :| LinksGoneAt(env, n, c);
    if Shared(env, c) then SkippedCrossSeed
    else if !AllSafe(env, c) then AbortedNlinkCheck
    else if Accepted(env, c + 3 + |env.files(c + 1).value|, 3) then Succeeded
    else FailedQbit
  }

  lemma FateIs(env: Env, n: nat, c: nat)
    requires LinksGoneAt(env, n, c)
    ensures Fate(env, n) ==
      if Shared(env, c) then SkippedCrossSeed
      else if !AllSafe(env, c) then AbortedNlinkCheck
      else if Accepted(env, c + 3 + |env.files(c + 1).value|, 3) then Succeeded
      else FailedQbit
  {
  }

  /** The action's status was written at `e`. */
  predicate EndsAt(env: Env, log: Log, id: ActionId, item: Item, status: ActionStatus, e: nat) {
    id < e < |log| && log[e] == Finished(id, status, if status == Succeeded then item.size else 0, env.stored(e))
  }

  predicate IsReap(e: Event, id: ActionId, item: Item) {
    e.Deleted? && e.action == id && e.target == Torrent(item.hash)
  }

  /** The stored action `id` has met its fate in the log: that is its status, and a delete of its
      torrent was sent exactly when its links were gone and its files all safe. */
  ghost predicate Met(env: Env, log: Log, id: ActionId, item: Item) {
    && (exists e: nat :: EndsAt(env, log, id, item, Fate(env, id), e))
    && ((exists j: nat :: id < j < |log| && IsReap(log[j], id, item))
        <==> Fate(env, id) == Succeeded || Fate(env, id) == FailedQbit)
  }

  lemma EndIsMet(env: Env, log: Log, mid: Log, item: Item, status: ActionStatus, freed: int)
    requires log < mid && status == Fate(env, |log|) && status != Succeeded && status != FailedQbit && freed == 0
    requires forall k :: |log| <= k < |mid| ==> !IsReap(mid[k], |log|, item)
    ensures Met(env, Finish(env, mid, |log|, status, freed), |log|, item)
  {
    var r := Finish(env, mid, |log|, status, freed);
    assert EndsAt(env, r, |log|, item, status, |mid|);
    forall j: nat | |log| < j < |r| ensures !IsReap(r[j], |log|, item) {
      if j < |mid| { assert r[j] == mid[j]; }
    }
  }

  lemma ReapMeets(env: Env, log: Log, mid: Log, item: Item)
    requires log < mid
    requires Fate(env, |log|) == if Accepted(env, |mid|, 3) then Succeeded else FailedQbit
    ensures Met(env, Reap(env, mid, |log|, item), |log|, item)
  {
    var id, target := |log|, Torrent(item.hash);
    var (log1, ok) := Attempt(env, mid, id, target, MAX_ATTEMPTS);
    AttemptExactly(env, mid, id, target, MAX_ATTEMPTS);
    SucceedsExactly(env, mid, id, target, MAX_ATTEMPTS);
    var r := Reap(env, mid, id, item);
    assert r[|mid|] == log1[|mid|] && IsReap(r[|mid|], id, item);
    assert EndsAt(env, r, id, item, Fate(env, id), |log1| + 1);
  }

  lemma CandidateMeets(env: Env, log: Log, item: Item)
    requires env.stored(|log|)
    ensures Met(env, Candidate(env, log, item), |log|, item)
  {
    var id := |log|;
    var links := env.links(id + 1);
    var log2 := log + [Inserted(item, true)] + [LinksRead(id, links)];
    if links == None {
      EndIsMet(env, log, Audit(env, log2, Row(id, ArrDelete, "", 0, Failed)), item, AbortedArrFail, 0);
    } else {
      LinkedMeets(env, log, log2, item, links.value);
    }
  }

  lemma LinkedMeets(env: Env, log: Log, log2: Log, item: Item, links: seq<Link>)
    requires log < log2 && |log2| == |log| + 2 && env.links(|log| + 1) == Some(links)
    requires !log2[|log|].Deleted? && !log2[|log| + 1].Deleted?
    ensures Met(env, ActOnLinks(env, log2, |log|, item, links), |log|, item)
  {
    var id := |log|;
    var (log3, ok) := Fanout(env, log2, id, links);
    FanoutExactly(env, log2, id, links);
    FanoutAppends(env, log2, id, links);
    NoReapYet(log, log2, log3, item);
    if ok {
      assert LinksGoneAt(env, id, |log3|);
      FateIs(env, id, |log3|);
      CheckedMeets(env, log, log3, item);
    } else {
      EndIsMet(env, log, log3, item, AbortedArrFail, 0);
    }
  }

  lemma NoReapYet(log: Log, mid: Log, more: Log, item: Item)
    requires log <= mid <= more && NoReapNoStart(more, |mid|)
    requires forall k :: |log| <= k < |mid| ==> !IsReap(mid[k], |log|, item)
    ensures forall k :: |log| <= k < |more| ==> !IsReap(more[k], |log|, item)
  {
    forall k | |log| <= k < |more| ensures !IsReap(more[k], |log|, item) {
      if k < |mid| { assert more[k] == mid[k]; }
    }
  }

  lemma CheckedMeets(env: Env, log: Log, log3: Log, item: Item)
    requires log < log3 && LinksGoneAt(env, |log|, |log3|)
    requires forall k :: |log| <= k < |log3| ==> !IsReap(log3[k], |log|, item)
    ensures Met(env, CheckAndSettle(env, log3, |log|, item), |log|, item)
  {
    var (log4, v) := CheckNlink(env, log3, |log|);
    CheckExactly(env, log3, |log|);
    CheckAppends(env, log3, |log|);
    NoReapYet(log, log3, log4, item);
    FateIs(env, |log|, |log3|);
    match v
    case CheckFailed => EndIsMet(env, log, log4, item, AbortedNlinkCheck, 0);
    case Conflict => EndIsMet(env, log, log4, item, SkippedCrossSeed, 0);
    case Clear => ReapMeets(env, log, log4, item);
  }

  // ---------------------------------------------------------------- every action of every run

  ghost predicate AllMet(env: Env, log: Log) {
    forall k: nat :: k < |log| && log[k].Inserted? && env.stored(k) ==> Met(env, log, k, log[k].item)
  }

  /** Entries of other actions change nothing. */
  lemma StillMet(env: Env, log: Log, more: Log, k: nat)
    requires log <= more && k < |log| && log[k].Inserted? && Met(env, log, k, log[k].item)
    requires forall j: nat :: |log| <= j < |more| ==> A.Owner(more, j) != Some(k)
    ensures Met(env, more, k, log[k].item)
  {
    var item := log[k].item;
    var e: nat :| EndsAt(env, log, k, item, Fate(env, k), e);
    assert EndsAt(env, more, k, item, Fate(env, k), e);
    if j: nat :| k < j < |log| && IsReap(log[j], k, item) { assert IsReap(more[j], k, item); }
    if j: nat :| k < j < |more| && IsReap(more[j], k, item) {
      assert A.Owner(more, j) == Some(k);
      assert j < |log| && IsReap(log[j], k, item);
    }
  }

  lemma CandidateKeepsMet(env: Env, log: Log, item: Item)
    requires AllMet(env, log)
    ensures AllMet(env, Candidate(env, log, item))
  {
    var r := Candidate(env, log, item);
    CandidateJustified(env, log, item);
    ReaperRun.CandidateOwns(env, log, item);
    forall k: nat | k < |r| && r[k].Inserted? && env.stored(k) ensures Met(env, r, k, r[k].item) {
      if k < |log| {
        assert r[k] == log[k];
        forall j: nat | |log| <= j < |r| ensures A.Owner(r, j) != Some(k) { assert A.Owner(r, j) == Some(|log|); }
        StillMet(env, log, r, k);
      } else {
        CandidateMeets(env, log, item);
      }
    }
  }

  /** In every run, under every failure, every stored action meets the fate that the world's answers
      give it. */
  lemma EveryActionMeetsItsFate(env: Env, limit: int)
    ensures AllMet(env, ExecuteLog(env, limit))
  {
    var run := env.run(0);
    if run != None && Allowed(run.value) && env.stored(1) {
      var log, items := [RunRead(run)] + [RunMarked(Running, env.stored(1))], run.value.items;
      var inv := (l: Log, k: nat) => AllMet(env, l);
      forall l: Log, k: nat | k < |items| && inv(l, k) ensures inv(Candidate(env, l, items[k]), k + 1) {
        CandidateKeepsMet(env, l, items[k]);
      }
      LoopKeeps(env, log, items, limit, 0, inv);
      var (log2, _, stopped) := Loop(env, log, items, limit, 0);
      MarkKeepsMet(env, log2, RunMarked(if stopped then Stopped else Completed, env.stored(|log2|)));
    }
  }

  lemma MarkKeepsMet(env: Env, log: Log, mark: Event)
    requires AllMet(env, log) && mark.RunMarked?
    ensures AllMet(env, log + [mark])
  {
    var r := log + [mark];
    forall k: nat | k < |r| && r[k].Inserted? && env.stored(k) ensures Met(env, r, k, r[k].item) {
      assert r[k] == log[k];
      StillMet(env, log, r, k);
    }
  }

  /** So a torrent whose links are gone and whose files are all absent or singly linked is deleted,
      and with a delete that is accepted within three attempts the action succeeds. */
  lemma SafeIsReaped(env: Env, limit: int, k: nat, c: nat)
    requires k < |ExecuteLog(env, limit)| && ExecuteLog(env, limit)[k].Inserted? && env.stored(k)
    requires LinksGoneAt(env, k, c) && AllSafe(env, c)
    ensures var log := ExecuteLog(env, limit);
      && (exists j: nat :: k < j < |log| && IsReap(log[j], k, log[k].item))
      && (Accepted(env, c + 3 + |env.files(c + 1).value|, 3) ==>
            exists e: nat :: EndsAt(env, log, k, log[k].item, Succeeded, e))
  {
    EveryActionMeetsItsFate(env, limit);
    FateIs(env, k, c);
    SafeIsNotShared(env, c);
  }

  lemma SafeIsNotShared(env: Env, c: nat)
    requires AllSafe(env, c)
    ensures !Shared(env, c)
  {
    var dir, files := env.savePath(c).value, env.files(c + 1).value;
    forall i: nat | i < |files| ensures !SharedStat(env, c + 2 + i, Join(dir, files[i])) {
      assert SafeStat(env, c + 2 + i, Join(dir, files[i]));
    }
  }
}
