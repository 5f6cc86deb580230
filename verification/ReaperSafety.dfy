/**
 Hardlink safety over whole runs: no torrent is deleted from qBittorrent unless the log
 shows, before the delete and for the same action, every *arr link deleted and every listed
 file absent or with a single name; and such a delete frees exactly the torrent's inodes.
 */
module ReaperSafety {
  import opened Basics
  import opened Reaper

  predicate Safe(r: StatResult) {
    r.Absent? || (r.Linked? && r.nlink <= 1)
  }

  /** Entry `k` is the volume's true answer for the file `k - from`, and that answer is safe. */
  predicate FileSafe(env: Env, log: Log, k: nat, from: nat, id: ActionId, dir: Path, files: seq<string>)
    requires from <= k < |log| && k - from < |files|
  {
    var p := Join(dir, files[k - from]);
    log[k] == Stated(id, p, env.fs(k).Stat(p)) && Safe(log[k].result)
  }

  /** A clear hardlink check of action `id` stands in the log, its stats starting at `f`. */
  ghost predicate Checked(env: Env, log: Log, f: nat, id: ActionId, dir: Path, files: seq<string>) {
    && 2 <= f && f + |files| <= |log|
    && log[f - 2] == SavePathRead(id, Some(dir))
    && log[f - 1] == FilesRead(id, Some(files)) && files != []
    && (forall k :: f <= k < f + |files| ==> FileSafe(env, log, k, f, id, dir, files))
  }

  /** Every link was deleted between `from` and `to`. */
  ghost predicate LinksGone(log: Log, from: nat, to: nat, id: ActionId, links: seq<Link>) {
    to <= |log|
    && forall x :: x in links ==> exists j :: from <= j < to && log[j] == Deleted(id, ArrFile(x), Ok)
  }

  /** What must stand in the log before entry `k` for the delete at `k` to be justified:
      the action's links at `l`, all deleted before the hardlink check whose stats start
      at `f`, and that check done before `k`. */
  ghost predicate JustifiedBy(
    env: Env, log: Log, k: nat, l: nat, f: nat, links: seq<Link>, dir: Path, files: seq<string>)
    requires k < |log| && log[k].Deleted?
  {
    var id := log[k].action;
    && id < l < f && f + |files| <= k
    && log[id].Inserted? && log[id].stored && log[k].target == Torrent(log[id].item.hash)
    && log[l] == LinksRead(id, Some(links))
    && LinksGone(log, l, f, id, links)
    && Checked(env, log, f, id, dir, files)
  }

  ghost predicate Justified(env: Env, log: Log, k: nat)
    requires k < |log| && log[k].Deleted?
  {
    exists l: nat, f: nat, links, dir, files :: JustifiedBy(env, log, k, l, f, links, dir, files)
  }

  lemma CheckedExtends(env: Env, log: Log, more: Log, f: nat, id: ActionId, dir: Path, files: seq<string>)
    requires log <= more && Checked(env, log, f, id, dir, files)
    ensures Checked(env, more, f, id, dir, files)
  {
    assert more[f - 2] == log[f - 2] && more[f - 1] == log[f - 1];
    forall k | f <= k < f + |files| ensures FileSafe(env, more, k, f, id, dir, files) {
      assert FileSafe(env, log, k, f, id, dir, files);
      assert more[k] == log[k];
    }
  }

  lemma LinksGoneExtends(log: Log, more: Log, from: nat, to: nat, id: ActionId, links: seq<Link>)
    requires log <= more && LinksGone(log, from, to, id, links)
    ensures LinksGone(more, from, to, id, links)
  {
    forall x | x in links
      ensures exists j :: from <= j < to && more[j] == Deleted(id, ArrFile(x), Ok)
    {
      var j :| from <= j < to && log[j] == Deleted(id, ArrFile(x), Ok);
      assert more[j] == log[j];
    }
  }

  ghost predicate AllJustified(env: Env, log: Log) {
    forall k :: 0 <= k < |log| && log[k].Deleted? && log[k].target.Torrent? ==> Justified(env, log, k)
  }

  /** From `n` on no torrent is deleted or forgotten and no action starts or ends. */
  predicate NoReapNoStart(log: Log, n: nat) {
    forall k :: n <= k < |log| ==>
      !(log[k].Deleted? && log[k].target.Torrent?) && !log[k].Inserted?
      && !log[k].Finished? && !log[k].Forgot?
  }

  lemma {:induction false} RemainingAppends(env: Env, log: Log, id: ActionId, rest: seq<Link>)
    ensures var r := Remaining(env, log, id, rest);
            log <= r && forall k :: |log| <= k < |r| ==> r[k].Audited?
    decreases |rest|
  {
    if rest != [] {
      RemainingAppends(env, Audit(env, log, LinkRow(id, rest[0], NotAttempted)), id, rest[1..]);
    }
  }

  lemma {:induction false} AttemptAppends(env: Env, log: Log, id: ActionId, target: Target, k: nat)
    requires k > 0
    ensures var (r, ok) := Attempt(env, log, id, target, k);
            && log < r
            && (forall j :: |log| <= j < |r| ==>
                  r[j].Deleted? && r[j].action == id && r[j].target == target)
            && (forall j :: |log| <= j < |r| - 1 ==> r[j].outcome == Transient)
            && (ok <==> r[|r| - 1].outcome == Ok)
            && |r| <= |log| + k
    decreases k
  {
    var o := env.deletion(|log|);
    if o == Transient && k > 1 {
      AttemptAppends(env, log + [Deleted(id, target, o)], id, target, k - 1);
    }
  }

  lemma {:induction false} ArrDeletesAppend(env: Env, log: Log, id: ActionId, links: seq<Link>)
    ensures var (r, ok) := ArrDeletes(env, log, id, links);
            && log <= r
            && NoReapNoStart(r, |log|)
            && (ok ==> LinksGone(r, |log|, |r|, id, links))
    decreases |links|
  {
    if links != [] {
      var (log1, ok) := Attempt(env, log, id, ArrFile(links[0]), MAX_ATTEMPTS);
      AttemptAppends(env, log, id, ArrFile(links[0]), MAX_ATTEMPTS);
      if !ok {
        RemainingAppends(env, Audit(env, log1, LinkRow(id, links[0], Failed)), id, links[1..]);
      } else {
        var log2 := Audit(env, log1, LinkRow(id, links[0], OK));
        assert log2[|log1| - 1] == Deleted(id, ArrFile(links[0]), Ok);
        ArrDeletesAppend(env, log2, id, links[1..]);
        var (r, done) := ArrDeletes(env, log2, id, links[1..]);
        if done {
          forall x | x in links
            ensures exists j :: |log| <= j < |r| && r[j] == Deleted(id, ArrFile(x), Ok)
          {
            if x == links[0] {
              assert r[|log1| - 1] == log2[|log1| - 1] == Deleted(id, ArrFile(x), Ok);
            } else {
              assert x in links[1..];
            }
          }
        }
      }
    }
  }

  lemma FanoutAppends(env: Env, log: Log, id: ActionId, links: seq<Link>)
    ensures var (r, ok) := Fanout(env, log, id, links);
            && log <= r
            && NoReapNoStart(r, |log|)
            && (ok ==> LinksGone(r, |log|, |r|, id, links))
  {
    var i := FirstUnactable(env, links);
    if i < |links| {
      RemainingAppends(env, Audit(env, log, LinkRow(id, links[i], Skipped)), id, links[i+1..]);
    } else {
      ArrDeletesAppend(env, log, id, links);
    }
  }

  lemma {:induction false} SweepAppends(env: Env, log: Log, id: ActionId, dir: Path, files: seq<string>)
    ensures var (r, v) := Sweep(env, log, id, dir, files);
            && log <= r
            && (forall k :: |log| <= k < |r| ==> r[k].Stated?)
            && (v == Clear ==>
                  |r| == |log| + |files|
                  && forall k :: |log| <= k < |r| ==> FileSafe(env, r, k, |log|, id, dir, files))
    decreases |files|
  {
    if files != [] {
      var r0 := if env.statFails(|log|) then StatError else env.fs(|log|).Stat(Join(dir, files[0]));
      var log' := log + [Stated(id, Join(dir, files[0]), r0)];
      if Safe(r0) {
        SweepAppends(env, log', id, dir, files[1..]);
        var (r, v) := Sweep(env, log', id, dir, files[1..]);
        if v == Clear {
          forall k | |log| <= k < |r| ensures FileSafe(env, r, k, |log|, id, dir, files) {
            if k == |log| {
              assert r[k] == log'[k];
            } else {
              assert FileSafe(env, r, k, |log'|, id, dir, files[1..]);
            }
          }
        }
      }
    }
  }

  /** What a clear hardlink check leaves behind. */
  lemma CheckAppends(env: Env, log: Log, id: ActionId)
    ensures var (r, v) := CheckNlink(env, log, id);
            && log <= r
            && NoReapNoStart(r, |log|)
            && (v == Clear ==> exists f: nat, dir, files :: f == |log| + 2 && Checked(env, r, f, id, dir, files))
  {
    var (r, v) := CheckNlink(env, log, id);
    var dir := env.savePath(|log|);
    var log1 := log + [SavePathRead(id, dir)];
    var files := env.files(|log1|);
    if dir != None && files != None && files.value != [] {
      var log2 := log1 + [FilesRead(id, files)];
      SweepAppends(env, log2, id, dir.value, files.value);
      if v == Clear {
        var swept := Sweep(env, log2, id, dir.value, files.value).0;
        assert swept[|log|] == log2[|log|] && swept[|log| + 1] == log2[|log| + 1];
        var f := |log2|;
        forall k | f <= k < f + |files.value|
          ensures FileSafe(env, r, k, f, id, dir.value, files.value)
        {
          assert r[k] == swept[k];
          assert FileSafe(env, swept, k, f, id, dir.value, files.value);
        }
        assert Checked(env, r, f, id, dir.value, files.value);
      }
    }
  }

  lemma ReapAppends(env: Env, log: Log, id: ActionId, item: Item)
    ensures var r := Reap(env, log, id, item);
            && log <= r
            && (forall k :: |log| <= k < |r| ==> !r[k].Inserted?)
            && (forall k :: |log| <= k < |r| && r[k].Deleted? ==>
                  r[k].action == id && r[k].target == Torrent(item.hash))
  {
    AttemptAppends(env, log, id, Torrent(item.hash), MAX_ATTEMPTS);
  }

  /** The last leg: links all deleted in `log3`, hardlink check clear in `log4`. */
  lemma ReapJustified(env: Env, log3: Log, log4: Log, item: Item, id: ActionId, links: seq<Link>)
    requires id + 2 <= |log3| && log3 <= log4
    requires log3[id] == Inserted(item, true) && log3[id + 1] == LinksRead(id, Some(links))
    requires LinksGone(log3, id + 2, |log3|, id, links) && NoReapNoStart(log3, id + 1)
    requires CheckNlink(env, log3, id) == (log4, Clear)
    ensures var r := Reap(env, log4, id, item);
            log4 <= r
            && (forall k :: id < k < |r| ==> !r[k].Inserted?)
            && forall k :: id <= k < |r| && r[k].Deleted? && r[k].target.Torrent? ==> Justified(env, r, k)
  {
    var r := Reap(env, log4, id, item);
    CheckAppends(env, log3, id);
    ReapAppends(env, log4, id, item);
    var f: nat, dir, files :| f == |log3| + 2 && Checked(env, log4, f, id, dir, files);
    CheckedExtends(env, log4, r, f, id, dir, files);
    LinksGoneExtends(log3, r, id + 2, |log3|, id, links);
    assert LinksGone(r, id + 1, f, id, links);
    assert r[id] == log3[id] && r[id + 1] == log3[id + 1];
    assert forall j :: id <= j < |log4| ==> r[j] == log4[j] && (j < |log3| ==> r[j] == log3[j]);
    forall k | id <= k < |r| && r[k].Deleted? && r[k].target.Torrent? ensures Justified(env, r, k) {
      assert JustifiedBy(env, r, k, id + 1, f, links, dir, files);
    }
  }

  lemma CandidateJustified(env: Env, log: Log, item: Item)
    ensures var r := Candidate(env, log, item);
            && log < r && r[|log|].Inserted? && r[|log|].item == item
            && (forall k :: |log| < k < |r| ==> !r[k].Inserted?)
            && forall k :: |log| <= k < |r| && r[k].Deleted? && r[k].target.Torrent? ==> Justified(env, r, k)
  {
    var id := |log|;
    var log1 := log + [Inserted(item, env.stored(|log|))];
    var links := env.links(|log1|);
    if env.stored(|log|) && links != None {
      var log2 := log1 + [LinksRead(id, links)];
      var (log3, ok) := Fanout(env, log2, id, links.value);
      FanoutAppends(env, log2, id, links.value);
      assert log2[id] == log3[id] && log2[id + 1] == log3[id + 1];
      if ok { SettleJustified(env, log3, item, id, links.value); }
    }
  }

  lemma SettleJustified(env: Env, log3: Log, item: Item, id: ActionId, links: seq<Link>)
    requires id + 2 <= |log3| && log3[id] == Inserted(item, true) && log3[id + 1] == LinksRead(id, Some(links))
    requires LinksGone(log3, id + 2, |log3|, id, links) && NoReapNoStart(log3, id + 1)
    ensures var r := CheckAndSettle(env, log3, id, item);
            log3 <= r
            && (forall k :: id < k < |r| ==> !r[k].Inserted?)
            && forall k :: id <= k < |r| && r[k].Deleted? && r[k].target.Torrent? ==> Justified(env, r, k)
  {
    CheckAppends(env, log3, id);
    var (log4, v) := CheckNlink(env, log3, id);
    if v == Clear { ReapJustified(env, log3, log4, item, id, links); }
  }

  lemma JustifiedExtends(env: Env, log: Log, more: Log)
    requires log <= more && AllJustified(env, log)
    ensures forall k :: 0 <= k < |log| && log[k].Deleted? && log[k].target.Torrent? ==> Justified(env, more, k)
  {
    forall k | 0 <= k < |log| && log[k].Deleted? && log[k].target.Torrent? ensures Justified(env, more, k) {
      var l: nat, f: nat, links, dir, files :| JustifiedBy(env, log, k, l, f, links, dir, files);
      CheckedExtends(env, log, more, f, log[k].action, dir, files);
      LinksGoneExtends(log, more, l, f, log[k].action, links);
      assert JustifiedBy(env, more, k, l, f, links, dir, files);
    }
  }

  /** Every candidate the loop may process keeps `inv`, a property of the log and of how many
      items were started. */
  ghost predicate StepKeeps(env: Env, items: seq<Item>, limit: int, inv: (Log, nat) -> bool) {
    forall l: Log, k: nat {:trigger Candidate(env, l, items[k])} ::
      k < |items| && inv(l, k) && !env.stopRequested(|l|) && !(limit > 0 && k >= limit)
      ==> inv(Candidate(env, l, items[k]), k + 1)
  }

  /** What every candidate keeps the whole loop keeps; and why it ends where it does. */
  lemma {:induction false} LoopKeeps(env: Env, log: Log, items: seq<Item>, limit: int, i: nat, inv: (Log, nat) -> bool)
    requires i <= |items| && inv(log, i) && StepKeeps(env, items, limit, inv)
    ensures var (r, m, stopped) := Loop(env, log, items, limit, i);
      && m <= |items| && inv(r, m)
      && (stopped <==> m < |items| && env.stopRequested(|r|))
      && (m < |items| && !stopped ==> limit > 0 && m >= limit)
    decreases |items| - i
  {
    if i < |items| && !env.stopRequested(|log|) && !(limit > 0 && i >= limit) {
      LoopKeeps(env, Candidate(env, log, items[i]), items, limit, i + 1, inv);
    }
  }

  lemma LoopJustified(env: Env, log: Log, items: seq<Item>, limit: int)
    requires AllJustified(env, log)
    ensures AllJustified(env, Loop(env, log, items, limit, 0).0)
  {
    var inv := (l: Log, k: nat) => AllJustified(env, l);
    forall l: Log, k: nat | k < |items| && inv(l, k) ensures inv(Candidate(env, l, items[k]), k + 1) {
      CandidateJustified(env, l, items[k]);
      JustifiedExtends(env, l, Candidate(env, l, items[k]));
    }
    LoopKeeps(env, log, items, limit, 0, inv);
  }

  /** In every run, under every failure pattern, every qBittorrent delete is justified by
      the entries before it. */
  lemma EveryReapIsJustified(env: Env, limit: int)
    ensures AllJustified(env, ExecuteLog(env, limit))
  {
    var run := env.run(0);
    if run != None && Allowed(run.value) && env.stored(1) {
      var log := [RunRead(run), RunMarked(Running, env.stored(1))];
      assert log == [RunRead(run)] + [RunMarked(Running, env.stored(1))];
      LoopJustified(env, log, run.value.items, limit);
      var (log2, _, stopped) := Loop(env, log, run.value.items, limit, 0);
      JustifiedExtends(env, log2, ExecuteLog(env, limit));
    }
  }

  // ---------------------------------------------------------------- forgetting

  /** A torrent is forgotten right after its success was stored, and only then. */
  ghost predicate ForgetsReaped(log: Log) {
    && (forall k :: 0 <= k < |log| && log[k].Forgot? ==> k > 0 && SuccessStored(log[k - 1], log[k].action))
    && (forall k :: 0 <= k < |log| && log[k].Finished? && SuccessStored(log[k], log[k].action) ==>
          k + 1 < |log| && log[k + 1].Forgot? && log[k + 1].action == log[k].action)
  }

  predicate SuccessStored(e: Event, id: ActionId) {
    e.Finished? && e.action == id && e.status == Succeeded && e.stored
  }

  /** What may follow: entries that neither end nor forget, then at most one more that is not a
      stored success. */
  lemma ForgetsExtends(log: Log, mid: Log, last: Log)
    requires ForgetsReaped(log) && log <= mid <= last && |last| <= |mid| + 1
    requires forall k :: |log| <= k < |mid| ==> !mid[k].Finished? && !mid[k].Forgot?
    requires |last| > |mid| ==>
      !last[|mid|].Forgot? && !(last[|mid|].Finished? && SuccessStored(last[|mid|], last[|mid|].action))
    ensures ForgetsReaped(last)
  {
    forall k | 0 <= k < |last| && last[k].Forgot? ensures k > 0 && SuccessStored(last[k - 1], last[k].action) {
      assert k < |log| && log[k] == last[k] && log[k - 1] == last[k - 1];
    }
    forall k | 0 <= k < |last| && last[k].Finished? && SuccessStored(last[k], last[k].action)
      ensures k + 1 < |last| && last[k + 1].Forgot? && last[k + 1].action == last[k].action
    {
      assert k < |log| && log[k] == last[k] && log[k + 1] == last[k + 1];
    }
  }

  lemma ReapForgets(env: Env, log: Log, mid: Log, id: ActionId, item: Item)
    requires ForgetsReaped(log) && log <= mid
    requires forall k :: |log| <= k < |mid| ==> !mid[k].Finished? && !mid[k].Forgot?
    ensures ForgetsReaped(Reap(env, mid, id, item))
  {
    AttemptAppends(env, mid, id, Torrent(item.hash), MAX_ATTEMPTS);
    var (log1, ok) := Attempt(env, mid, id, Torrent(item.hash), MAX_ATTEMPTS);
    var log2 := Audit(env, log1, QbitRow(id, ok));
    assert forall k :: |log| <= k < |log2| ==> !log2[k].Finished? && !log2[k].Forgot? by {
      assert forall k :: |log| <= k < |mid| ==> log2[k] == mid[k];
    }
    if !ok || !env.stored(|log2|) {
      ForgetsExtends(log, log2, Reap(env, mid, id, item));
    } else {
      SuccessThenForget(log, log2, id, item.size, env.stored(|log2| + 1));
    }
  }

  lemma SuccessThenForget(log: Log, mid: Log, id: ActionId, freed: int, stored: bool)
    requires ForgetsReaped(log) && log <= mid
    requires forall k :: |log| <= k < |mid| ==> !mid[k].Finished? && !mid[k].Forgot?
    ensures ForgetsReaped(mid + [Finished(id, Succeeded, freed, true)] + [Forgot(id, stored)])
  {
    ForgetsExtends(log, mid, mid);
    var r := mid + [Finished(id, Succeeded, freed, true)] + [Forgot(id, stored)];
    assert r[|mid|] == Finished(id, Succeeded, freed, true) && r[|mid| + 1] == Forgot(id, stored);
    assert forall k :: 0 <= k < |mid| ==> r[k] == mid[k];
  }

  lemma CandidateForgets(env: Env, log: Log, item: Item)
    requires ForgetsReaped(log)
    ensures ForgetsReaped(Candidate(env, log, item))
  {
    var id := |log|;
    var log1 := log + [Inserted(item, env.stored(|log|))];
    var links := env.links(|log1|);
    var log2 := log1 + [LinksRead(id, links)];
    if !env.stored(|log|) {
      ForgetsExtends(log, log1, log1);
    } else if links == None {
      var mid := Audit(env, log2, Row(id, ArrDelete, "", 0, Failed));
      ForgetsExtends(log, mid, Finish(env, mid, id, AbortedArrFail, 0));
    } else {
      var (log3, ok) := Fanout(env, log2, id, links.value);
      FanoutAppends(env, log2, id, links.value);
      QuietSince(log, log2, log3);
      if !ok {
        ForgetsExtends(log, log3, Finish(env, log3, id, AbortedArrFail, 0));
      } else {
        SettleForgets(env, log, log3, id, item);
      }
    }
  }

  /** Neither an ending nor a forgetting in either stretch. */
  lemma QuietSince(log: Log, mid: Log, more: Log)
    requires log <= mid <= more && NoReapNoStart(more, |mid|)
    requires forall k :: |log| <= k < |mid| ==> !mid[k].Finished? && !mid[k].Forgot?
    ensures forall k :: |log| <= k < |more| ==> !more[k].Finished? && !more[k].Forgot?
  {
    forall k | |log| <= k < |more| ensures !more[k].Finished? && !more[k].Forgot? {
      if k < |mid| { assert more[k] == mid[k]; }
    }
  }

  lemma SettleForgets(env: Env, log: Log, log3: Log, id: ActionId, item: Item)
    requires ForgetsReaped(log) && log <= log3
    requires forall k :: |log| <= k < |log3| ==> !log3[k].Finished? && !log3[k].Forgot?
    ensures ForgetsReaped(CheckAndSettle(env, log3, id, item))
  {
    var (log4, v) := CheckNlink(env, log3, id);
    CheckAppends(env, log3, id);
    QuietSince(log, log3, log4);
    if v == Clear {
      ReapForgets(env, log, log4, id, item);
    } else {
      ForgetsExtends(log, log4, Settle(env, log4, id, item, v));
    }
  }

  lemma LoopForgets(env: Env, log: Log, items: seq<Item>, limit: int)
    requires ForgetsReaped(log)
    ensures ForgetsReaped(Loop(env, log, items, limit, 0).0)
  {
    var inv := (l: Log, k: nat) => ForgetsReaped(l);
    forall l: Log, k: nat | k < |items| && inv(l, k) ensures inv(Candidate(env, l, items[k]), k + 1) {
      CandidateForgets(env, l, items[k]);
    }
    LoopKeeps(env, log, items, limit, 0, inv);
  }

  /** In every run a torrent is evicted from the store exactly after its deletion was recorded
      as a success. */
  lemma OnlyTheReapedAreForgotten(env: Env, limit: int)
    ensures ForgetsReaped(ExecuteLog(env, limit))
  {
    var run := env.run(0);
    if run != None && Allowed(run.value) && env.stored(1) {
      var log := [RunRead(run)] + [RunMarked(Running, env.stored(1))];
      LoopForgets(env, log, run.value.items, limit);
      var (log2, _, stopped) := Loop(env, log, run.value.items, limit, 0);
      ForgetsExtends(log2, log2, ExecuteLog(env, limit));
    }
  }

  /** A run that is not live, or not from disk pressure, a request or the command line, touches
      nothing; any other is marked at least. */
  lemma RefusedRunsDoNothing(env: Env, limit: int)
    ensures var run := env.run(0);
      ExecuteLog(env, limit) == [RunRead(run)] <==>
        run == None || !run.value.live || run.value.trigger !in {DiskPressure, HTTP, CLI}
  {
    var run := env.run(0);
    if run != None && Allowed(run.value) {
      if env.stored(1) {
        var log := [RunRead(run)] + [RunMarked(Running, env.stored(1))];
        LoopGrows(env, log, run.value.items, limit);
      }
      assert |ExecuteLog(env, limit)| > 1;
    }
  }

  /** Execute returns without an error exactly when the run could be read and was not live, or was
      from an allowed trigger and its first and last marks were stored. */
  lemma ReturnsExactly(env: Env, limit: int)
    ensures var run, log := env.run(0), ExecuteLog(env, limit);
      && |log| > 0
      && (EndsWell(log) <==>
            run.Some? && (run.value.live ==>
              run.value.trigger in {DiskPressure, HTTP, CLI} && env.stored(1) && env.stored(|log| - 1)))
  {
  }

  // ---------------------------------------------------------------- the filesystem

  /** The inodes named by `paths`. */
  ghost function Inodes(fs: FS, paths: set<Path>): set<Inode> {
    set p | p in paths && p in fs.names :: fs.names[p]
  }

  lemma SingleName(fs: FS, p: Path, q: Path)
    requires p in fs.names && q in fs.names && fs.names[p] == fs.names[q]
    requires Safe(fs.Stat(p))
    ensures p == q
  {
    var names := set n | n in fs.names && fs.names[n] == fs.names[p];
    if p != q {
      assert {p, q} <= names;
      AtLeastTwo(names, p, q);
    }
  }

  lemma AtLeastTwo(s: set<Path>, p: Path, q: Path)
    requires p in s && q in s && p != q
    ensures |s| >= 2
  {
    assert |s - {p}| == |s| - 1 && q in s - {p};
  }

  /** Removing `paths` removes no name of an inode that has another name, keeps every other
      inode, and frees exactly the bytes of the inodes it removes. */
  ghost predicate Harmless(fs: FS, paths: set<Path>) {
    && (forall p, q :: p in paths && p in fs.names && q in fs.names ==>
          fs.names[p] == fs.names[q] ==> p == q)
    && fs.Without(paths).names.Values == fs.names.Values - Inodes(fs, paths)
    && fs.Used() - fs.Without(paths).Used() == Sum(Inodes(fs, paths), i => fs.size(i))
  }

  lemma RemovalIsHarmless(fs: FS, paths: set<Path>)
    requires forall p :: p in paths ==> Safe(fs.Stat(p))
    ensures Harmless(fs, paths)
  {
    forall p, q | p in paths && p in fs.names && q in fs.names && fs.names[p] == fs.names[q]
      ensures p == q
    {
      SingleName(fs, p, q);
    }
    var rest := fs.Without(paths);
    forall i ensures i in rest.names.Values <==> i in fs.names.Values - Inodes(fs, paths) {
      if i in rest.names.Values {
        var q :| q in rest.names && rest.names[q] == i;
        assert q in fs.names && fs.names[q] == i;
      }
      if i in fs.names.Values - Inodes(fs, paths) {
        var q :| q in fs.names && fs.names[q] == i;
        assert q !in paths;
        assert q in rest.names;
      }
    }
    var size := (i: Inode) => fs.size(i) as int;
    SumSplit(fs.names.Values - Inodes(fs, paths), Inodes(fs, paths), size);
    assert Inodes(fs, paths) <= fs.names.Values by {
      forall i | i in Inodes(fs, paths) ensures i in fs.names.Values {
        var p :| p in paths && p in fs.names && fs.names[p] == i;
      }
    }
    assert fs.names.Values == fs.names.Values - Inodes(fs, paths) + Inodes(fs, paths);
    SumSame(fs.names.Values, size, i => fs.size(i));
    SumSame(rest.names.Values, size, i => fs.size(i));
    SumSame(Inodes(fs, paths), size, i => fs.size(i));
  }

  /** The paths of a torrent's files. */
  ghost function PathsOf(dir: Path, files: seq<string>): set<Path> {
    set i | 0 <= i < |files| :: Join(dir, files[i])
  }

  /** The reap at `k` is justified, and if nobody else changes the volume from the first
      stat to the delete, it breaks no other name and frees exactly its own inodes. */
  ghost predicate ReapedSafely(env: Env, log: Log, k: nat)
    requires k < |log| && log[k].Deleted?
  {
    exists l: nat, f: nat, links, dir, files ::
      JustifiedBy(env, log, k, l, f, links, dir, files)
      && ((forall n :: f <= n <= k ==> env.fs(n) == env.fs(k)) ==>
            Harmless(env.fs(k), PathsOf(dir, files)))
  }

  lemma JustifiedIsSafe(
    env: Env, log: Log, k: nat, l: nat, f: nat, links: seq<Link>, dir: Path, files: seq<string>)
    requires k < |log| && log[k].Deleted?
    requires JustifiedBy(env, log, k, l, f, links, dir, files)
    requires forall n :: f <= n <= k ==> env.fs(n) == env.fs(k)
    ensures Harmless(env.fs(k), PathsOf(dir, files))
  {
    var fs, paths := env.fs(k), PathsOf(dir, files);
    forall p | p in paths ensures Safe(fs.Stat(p)) {
      var i :| 0 <= i < |files| && p == Join(dir, files[i]);
      var n := f + i;
      assert FileSafe(env, log, n, f, log[k].action, dir, files);
      assert env.fs(n) == fs;
    }
    RemovalIsHarmless(fs, paths);
  }

  /** The hardlink safety theorem, for every run under every Env. */
  lemma HardlinkSafety(env: Env, limit: int, k: nat)
    requires var log := ExecuteLog(env, limit);
             k < |log| && log[k].Deleted? && log[k].target.Torrent?
    ensures ReapedSafely(env, ExecuteLog(env, limit), k)
  {
    var log := ExecuteLog(env, limit);
    EveryReapIsJustified(env, limit);
    var l: nat, f: nat, links, dir, files :| JustifiedBy(env, log, k, l, f, links, dir, files);
    if forall n :: f <= n <= k ==> env.fs(n) == env.fs(k) {
      JustifiedIsSafe(env, log, k, l, f, links, dir, files);
    }
  }

  lemma LoopGrows(env: Env, log: Log, items: seq<Item>, limit: int)
    ensures log <= Loop(env, log, items, limit, 0).0
  {
    var inv := (l: Log, k: nat) => log <= l;
    forall l: Log, k: nat | k < |items| && inv(l, k) ensures inv(Candidate(env, l, items[k]), k + 1) {
      CandidateJustified(env, l, items[k]);
    }
    LoopKeeps(env, log, items, limit, 0, inv);
  }
}
