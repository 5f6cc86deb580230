/** Theorems about whole runs of the actor: prefix of the plan, stops, bytes, audit trail. */
module ReaperRun {
  import opened Basics
  import opened Reaper
  import opened ReaperAudit
  import Safety = ReaperSafety

  /** How far a run got, whatever failed: `m` items were started, in plan order. */
  ghost predicate Progress(env: Env, limit: int, items: seq<Item>, log: Log, m: nat) {
    && m <= |items| && |log| > 0 && log[|log| - 1].RunMarked?
    && Collect(log, Chosen()) == items[..m]
    && (limit > 0 ==> m <= limit)
    && (log[|log| - 1].runStatus == Stopped <==> m < |items| && env.stopRequested(|log| - 1))
    && (log[|log| - 1].runStatus != Stopped ==> log[|log| - 1].runStatus == Completed)
    && (m < |items| && log[|log| - 1].runStatus == Completed ==> limit > 0 && m == limit)
  }

  /** No action starts once a stop has been requested. */
  ghost predicate NoStartAfterStop(env: Env, log: Log) {
    forall k :: 0 <= k < |log| && log[k].Inserted? ==> !env.stopRequested(k)
  }

  /** The candidate loop ended with `r` after `m` items. */
  ghost predicate Walked(env: Env, r: Log, items: seq<Item>, limit: int, m: nat, stopped: bool) {
    && m <= |items| && NoStartAfterStop(env, r)
    && Collect(r, Chosen()) == items[..m]
    && (limit > 0 ==> m <= limit)
    && (stopped <==> m < |items| && env.stopRequested(|r|))
    && (m < |items| && !stopped ==> limit > 0 && m == limit)
  }

  lemma LoopProgress(env: Env, log: Log, items: seq<Item>, limit: int)
    requires NoStartAfterStop(env, log) && Collect(log, Chosen()) == []
    ensures var (r, m, stopped) := Loop(env, log, items, limit, 0);
            log <= r && Walked(env, r, items, limit, m, stopped)
  {
    var inv := (l: Log, k: nat) => Started(env, log, l, items, limit, k);
    forall l: Log, k: nat | k < |items| && inv(l, k) && !env.stopRequested(|l|) && !(limit > 0 && k >= limit)
      ensures inv(Candidate(env, l, items[k]), k + 1)
    {
      StartedStep(env, log, l, items, limit, k);
    }
    assert items[..0] == [];
    Safety.LoopKeeps(env, log, items, limit, 0, inv);
  }

  lemma StartedStep(env: Env, log: Log, l: Log, items: seq<Item>, limit: int, k: nat)
    requires k < |items| && Started(env, log, l, items, limit, k)
    requires !env.stopRequested(|l|) && !(limit > 0 && k >= limit)
    ensures Started(env, log, Candidate(env, l, items[k]), items, limit, k + 1)
  {
    var next := CandidateStarts(env, l, items[k]);
    OneMoreItem(items, k);
  }

  lemma OneMoreItem(items: seq<Item>, k: nat)
    requires k < |items|
    ensures items[..k] + [items[k]] == items[..k + 1]
  {
  }

  /** The first `k` items have been started, within the cap and never while a stop was pending. */
  ghost predicate Started(env: Env, log: Log, l: Log, items: seq<Item>, limit: int, k: nat) {
    && k <= |items| && log <= l && NoStartAfterStop(env, l)
    && Collect(l, Chosen()) == items[..k] && (limit > 0 ==> k <= limit)
  }

  /** A candidate starts its own action and no other. */
  lemma CandidateStarts(env: Env, log: Log, item: Item) returns (next: Log)
    requires NoStartAfterStop(env, log) && !env.stopRequested(|log|)
    ensures next == Candidate(env, log, item)
    ensures log <= next && NoStartAfterStop(env, next) && Collect(next, Chosen()) == Collect(log, Chosen()) + [item]
  {
    next := Candidate(env, log, item);
    Safety.CandidateJustified(env, log, item);
    StartsOne(env, log, next, item);
  }

  lemma StartsOne(env: Env, log: Log, next: Log, item: Item)
    requires NoStartAfterStop(env, log) && !env.stopRequested(|log|)
    requires log < next && next[|log|].Inserted? && next[|log|].item == item
    requires forall k :: |log| < k < |next| ==> !next[k].Inserted?
    ensures NoStartAfterStop(env, next) && Collect(next, Chosen()) == Collect(log, Chosen()) + [item]
  {
    var start := next[..|log| + 1];
    assert start == log + [next[|log|]];
    CollectOne(log, next[|log|], Chosen());
    CollectNone(start, next, Chosen());
    forall k | 0 <= k < |next| && next[k].Inserted? ensures !env.stopRequested(k) {
      if k < |log| { assert log[k] == next[k]; }
    }
  }

  /** In every run that starts, under any failures: the items started are a prefix of the
      plan within the cap; the run ends "stopped" exactly when an item remained and a stop
      was pending at the boundary, and "completed" otherwise; and no action starts at or
      after a moment at which a stop is pending. */
  lemma RunProgress(env: Env, limit: int)
    requires env.run(0).Some? && Allowed(env.run(0).value) && env.stored(1)
    ensures exists m: nat :: Progress(env, limit, env.run(0).value.items, ExecuteLog(env, limit), m)
    ensures NoStartAfterStop(env, ExecuteLog(env, limit))
  {
    var items := env.run(0).value.items;
    var log := [RunRead(env.run(0))] + [RunMarked(Running, env.stored(1))];
    CollectNone([], log, Chosen());
    assert items[..0] == [];
    LoopProgress(env, log, items, limit);
    var (r, m, stopped) := Loop(env, log, items, limit, 0);
    var mark := RunMarked(if stopped then Stopped else Completed, env.stored(|r|));
    MarkedProgress(env, r, items, limit, m, stopped, mark);
    assert ExecuteLog(env, limit) == r + [mark];
  }

  // ---------------------------------------------------------------- whose entry it is

  lemma OwnsJoin(a: Log, b: Log, c: Log, id: ActionId)
    requires OwnedBy(a, b, id) && OwnedBy(b, c, id)
    ensures OwnedBy(a, c, id)
  {
    forall k | |a| <= k < |c| ensures Owner(c, k) == Some(id) {
      if k < |b| { assert c[k] == b[k] && Owner(b, k) == Some(id); }
    }
  }

  lemma {:induction false} RemainingOwns(env: Env, log: Log, id: ActionId, rest: seq<Link>)
    ensures OwnedBy(log, Remaining(env, log, id, rest), id)
    decreases |rest|
  {
    if rest != [] {
      var next := Audit(env, log, LinkRow(id, rest[0], NotAttempted));
      RemainingOwns(env, next, id, rest[1..]);
      OwnsJoin(log, next, Remaining(env, next, id, rest[1..]), id);
    }
  }

  lemma {:induction false} AttemptOwns(env: Env, log: Log, id: ActionId, target: Target, k: nat)
    requires k > 0
    ensures OwnedBy(log, Attempt(env, log, id, target, k).0, id)
    decreases k
  {
    var o := env.deletion(|log|);
    var next := log + [Deleted(id, target, o)];
    if o == Transient && k > 1 {
      AttemptOwns(env, next, id, target, k - 1);
      OwnsJoin(log, next, Attempt(env, next, id, target, k - 1).0, id);
    }
  }

  lemma {:induction false} ArrDeletesOwn(env: Env, log: Log, id: ActionId, links: seq<Link>)
    ensures OwnedBy(log, ArrDeletes(env, log, id, links).0, id)
    decreases |links|
  {
    if links != [] {
      var (log1, ok) := Attempt(env, log, id, ArrFile(links[0]), MAX_ATTEMPTS);
      AttemptOwns(env, log, id, ArrFile(links[0]), MAX_ATTEMPTS);
      var log2 := Audit(env, log1, LinkRow(id, links[0], if ok then OK else Failed));
      OwnsJoin(log, log1, log2, id);
      if ok {
        ArrDeletesOwn(env, log2, id, links[1..]);
        OwnsJoin(log, log2, ArrDeletes(env, log2, id, links[1..]).0, id);
      } else {
        RemainingOwns(env, log2, id, links[1..]);
        OwnsJoin(log, log2, Remaining(env, log2, id, links[1..]), id);
      }
    }
  }

  lemma FanoutOwns(env: Env, log: Log, id: ActionId, links: seq<Link>)
    ensures OwnedBy(log, Fanout(env, log, id, links).0, id)
  {
    var i := FirstUnactable(env, links);
    if i < |links| {
      var next := Audit(env, log, LinkRow(id, links[i], Skipped));
      RemainingOwns(env, next, id, links[i + 1..]);
      OwnsJoin(log, next, Remaining(env, next, id, links[i + 1..]), id);
    } else {
      ArrDeletesOwn(env, log, id, links);
    }
  }

  lemma {:induction false} SweepOwns(env: Env, log: Log, id: ActionId, dir: Path, files: seq<string>)
    ensures OwnedBy(log, Sweep(env, log, id, dir, files).0, id)
    decreases |files|
  {
    if files != [] {
      var r := if env.statFails(|log|) then StatError else env.fs(|log|).Stat(Join(dir, files[0]));
      var next := log + [Stated(id, Join(dir, files[0]), r)];
      if r.Absent? || (r.Linked? && r.nlink <= 1) {
        SweepOwns(env, next, id, dir, files[1..]);
        OwnsJoin(log, next, Sweep(env, next, id, dir, files[1..]).0, id);
      }
    }
  }

  lemma CheckOwns(env: Env, log: Log, id: ActionId)
    ensures OwnedBy(log, CheckNlink(env, log, id).0, id)
  {
    var dir := env.savePath(|log|);
    var log1 := log + [SavePathRead(id, dir)];
    var files := env.files(|log1|);
    var log2 := log1 + [FilesRead(id, files)];
    OwnsJoin(log, log1, log2, id);
    if dir == None {
      OwnsJoin(log, log1, Audit(env, log1, CheckRow(id, CheckFailed)), id);
    } else if files == None || files.value == [] {
      OwnsJoin(log, log2, Audit(env, log2, CheckRow(id, CheckFailed)), id);
    } else {
      var (log3, v) := Sweep(env, log2, id, dir.value, files.value);
      SweepOwns(env, log2, id, dir.value, files.value);
      OwnsJoin(log, log2, log3, id);
      OwnsJoin(log, log3, Audit(env, log3, CheckRow(id, v)), id);
    }
  }

  lemma ReapOwns(env: Env, log: Log, id: ActionId, item: Item)
    ensures OwnedBy(log, Reap(env, log, id, item), id)
  {
    var (log1, ok) := Attempt(env, log, id, Torrent(item.hash), MAX_ATTEMPTS);
    AttemptOwns(env, log, id, Torrent(item.hash), MAX_ATTEMPTS);
    var log2 := Audit(env, log1, QbitRow(id, ok));
    OwnsJoin(log, log1, log2, id);
    OwnsJoin(log, log2, Reap(env, log, id, item), id);
  }

  lemma CandidateOwns(env: Env, log: Log, item: Item)
    ensures OwnedBy(log, Candidate(env, log, item), |log|)
  {
    var id := |log|;
    var log1 := log + [Inserted(item, env.stored(|log|))];
    if env.stored(|log|) {
      var links := env.links(|log1|);
      var log2 := log1 + [LinksRead(id, links)];
      OwnsJoin(log, log1, log2, id);
      if links != None { LinkedOwns(env, log, log2, id, item, links.value); }
    }
  }

  lemma LinkedOwns(env: Env, log: Log, log2: Log, id: ActionId, item: Item, links: seq<Link>)
    requires OwnedBy(log, log2, id)
    ensures OwnedBy(log, ActOnLinks(env, log2, id, item, links), id)
  {
    var (log3, ok) := Fanout(env, log2, id, links);
    FanoutOwns(env, log2, id, links);
    OwnsJoin(log, log2, log3, id);
    if !ok {
      OwnsJoin(log, log3, Finish(env, log3, id, AbortedArrFail, 0), id);
    } else {
      var (log4, v) := CheckNlink(env, log3, id);
      CheckOwns(env, log3, id);
      OwnsJoin(log, log3, log4, id);
      if v == Clear { ReapOwns(env, log4, id, item); }
      OwnsJoin(log, log4, Settle(env, log4, id, item, v), id);
    }
  }

  /** The last action inserted before entry `k`, or at it, owns it. */
  ghost predicate InFlight(log: Log, k: nat)
    requires k < |log|
  {
    exists id: nat :: LastStarted(log, k, id) && Owner(log, k) == Some(id)
  }

  ghost predicate LastStarted(log: Log, k: nat, id: nat)
    requires k < |log|
  {
    id <= k && log[id].Inserted? && forall j :: id < j <= k ==> !log[j].Inserted?
  }

  /** After the opening, every entry belongs to the action in flight. */
  ghost predicate InOrder(log: Log) {
    forall k :: 2 <= k < |log| ==> InFlight(log, k)
  }

  lemma CandidateInOrder(env: Env, log: Log, item: Item)
    requires InOrder(log)
    ensures InOrder(Candidate(env, log, item))
  {
    var next := Candidate(env, log, item);
    Safety.CandidateJustified(env, log, item);
    CandidateOwns(env, log, item);
    StaysInOrder(log, next);
  }

  lemma StaysInOrder(log: Log, next: Log)
    requires InOrder(log) && log < next && next[|log|].Inserted? && OwnedBy(log, next, |log|)
    requires forall k :: |log| < k < |next| ==> !next[k].Inserted?
    ensures InOrder(next)
  {
    forall k | 2 <= k < |next| ensures InFlight(next, k) {
      if k < |log| {
        assert InFlight(log, k);
        var id: nat :| LastStarted(log, k, id) && Owner(log, k) == Some(id);
        assert forall j :: 0 <= j <= k ==> next[j] == log[j];
        assert LastStarted(next, k, id) && Owner(next, k) == Some(id);
      } else {
        assert LastStarted(next, k, |log|);
      }
    }
  }

  lemma LoopInOrder(env: Env, log: Log, items: seq<Item>, limit: int)
    requires InOrder(log)
    ensures InOrder(Loop(env, log, items, limit, 0).0)
  {
    var inv := (l: Log, k: nat) => InOrder(l);
    forall l: Log, k: nat | k < |items| && inv(l, k) ensures inv(Candidate(env, l, items[k]), k + 1) {
      CandidateInOrder(env, l, items[k]);
    }
    Safety.LoopKeeps(env, log, items, limit, 0, inv);
  }

  /** In every run each entry between the opening and the final mark belongs to the action
      started last. */
  lemma EntriesAreInFlight(env: Env, limit: int, k: nat)
    requires 2 <= k < |ExecuteLog(env, limit)| - 1
    ensures InFlight(ExecuteLog(env, limit), k)
  {
    var log := [RunRead(env.run(0))] + [RunMarked(Running, env.stored(1))];
    var r := Loop(env, log, env.run(0).value.items, limit, 0).0;
    LoopInOrder(env, log, env.run(0).value.items, limit);
    var end := ExecuteLog(env, limit);
    assert r <= end && |end| == |r| + 1;
    assert InFlight(r, k);
    var id: nat :| LastStarted(r, k, id) && Owner(r, k) == Some(id);
    assert forall j :: 0 <= j <= k ==> end[j] == r[j];
    assert LastStarted(end, k, id) && Owner(end, k) == Some(id);
  }

  /** A stop is never withdrawn: from the first moment it is pending no action starts, every
      later entry but the opening and the final mark belongs to the candidate then in flight,
      and the run ends "stopped" exactly when another item remained. */
  lemma StopFinishesOnlyTheCandidateInFlight(env: Env, limit: int, n: nat, k: nat)
    requires forall a, b :: a <= b && env.stopRequested(a) ==> env.stopRequested(b)
    requires env.stopRequested(n) && n <= k < |ExecuteLog(env, limit)|
    ensures var log := ExecuteLog(env, limit);
      && !log[k].Inserted?
      && (2 <= k < |log| - 1 ==>
            exists id: nat :: id < n && LastStarted(log, k, id) && Owner(log, k) == Some(id))
    ensures env.run(0).Some? && Allowed(env.run(0).value) && env.stored(1) ==>
      var log, items := ExecuteLog(env, limit), env.run(0).value.items;
      && log[|log| - 1].RunMarked?
      && (log[|log| - 1].runStatus == Stopped <==> |Collect(log, Chosen())| < |items|)
  {
    if env.run(0).Some? && Allowed(env.run(0).value) && env.stored(1) {
      var log, items := ExecuteLog(env, limit), env.run(0).value.items;
      RunProgress(env, limit);
      var m: nat :| Progress(env, limit, items, log, m);
      assert env.stopRequested(|log| - 1);
      assert |Collect(log, Chosen())| == m;
      if 2 <= k < |log| - 1 { EntriesAreInFlight(env, limit, k); }
    }
  }

  // ---------------------------------------------------------------- with a working store

  ghost predicate AllTold(env: Env, log: Log) {
    forall k :: 0 <= k < |log| && log[k].Inserted? ==> Told(env, log, k)
  }

  lemma ToldExtends(env: Env, log: Log, more: Log, k: nat)
    requires log <= more && k < |log| && log[k].Inserted? && Told(env, log, k)
    requires forall j :: |log| <= j < |more| ==> Owner(more, j) != Some(k)
    ensures Told(env, more, k)
  {
    var s :| ToldBy(env, log, k, s);
    Untouched(log, more, k);
    assert more[k + 1] == log[k + 1];
    assert ToldBy(env, more, k, s);
  }

  /** Freed bytes as the stored actions report them. */
  function Freed(ends: seq<End>): int {
    if ends == [] then 0 else Freed(ends[..|ends| - 1]) + ends[|ends| - 1].freed
  }

  function Sizes(items: seq<Item>): int {
    if items == [] then 0 else Sizes(items[..|items| - 1]) + items[|items| - 1].size
  }

  /** One stored end per started item, claiming its size exactly when it succeeded. */
  ghost predicate Matches(ends: seq<End>, items: seq<Item>) {
    |ends| == |items|
    && forall j :: 0 <= j < |ends| ==> ends[j] == EndOf(items[j], ends[j].status)
  }

  lemma LoopTold(env: Env, log: Log, items: seq<Item>, limit: int)
    requires AllStored(env) && Ordered(log) && AllTold(env, log) && Collect(log, Claim()) == []
    ensures var (r, m, _) := Loop(env, log, items, limit, 0);
            Ordered(r) && AllTold(env, r) && Matches(Collect(r, Claim()), items[..m])
  {
    var inv := (l: Log, k: nat) => ToldSoFar(env, l, items, k);
    forall l: Log, k: nat | k < |items| && inv(l, k) ensures inv(Candidate(env, l, items[k]), k + 1) {
      CandidateAllTold(env, l, items[k], items[..k]);
      assert items[..k + 1] == items[..k] + [items[k]];
    }
    Safety.LoopKeeps(env, log, items, limit, 0, inv);
  }

  ghost predicate ToldSoFar(env: Env, l: Log, items: seq<Item>, k: nat) {
    k <= |items| && Ordered(l) && AllTold(env, l) && Matches(Collect(l, Claim()), items[..k])
  }

  lemma CandidateAllTold(env: Env, log: Log, item: Item, before: seq<Item>)
    requires AllStored(env) && Ordered(log) && AllTold(env, log) && Matches(Collect(log, Claim()), before)
    ensures var next := Candidate(env, log, item);
            Ordered(next) && AllTold(env, next) && Matches(Collect(next, Claim()), before + [item])
  {
    Safety.CandidateJustified(env, log, item);
    var s := CandidateTold(env, log, item);
    OneMoreTold(env, log, Candidate(env, log, item), s);
  }

  lemma OneMoreTold(env: Env, log: Log, next: Log, s: Story)
    requires Ordered(log) && AllTold(env, log) && log < next && OwnedBy(log, next, |log|)
    requires ToldBy(env, next, |log|, s) && forall k :: |log| < k < |next| ==> !next[k].Inserted?
    ensures Ordered(next) && AllTold(env, next)
  {
    forall k | 0 <= k < |next| && Owner(next, k).Some? ensures Owner(next, k).value <= k {
      if k < |log| { assert log[k] == next[k]; assert Owner(log, k) == Owner(next, k); }
    }
    forall k | 0 <= k < |next| && next[k].Inserted? ensures Told(env, next, k) {
      if k < |log| {
        assert log[k] == next[k];
        ToldExtends(env, log, next, k);
      } else {
        assert k == |log| && ToldBy(env, next, k, s);
      }
    }
  }

  lemma ExecuteTold(env: Env, limit: int)
    requires AllStored(env) && env.run(0).Some? && Allowed(env.run(0).value)
    ensures var log := ExecuteLog(env, limit);
            AllTold(env, log)
            && exists m: nat :: Progress(env, limit, env.run(0).value.items, log, m)
                 && Matches(Collect(log, Claim()), env.run(0).value.items[..m])
  {
    var items := env.run(0).value.items;
    var log := [RunRead(env.run(0))] + [RunMarked(Running, env.stored(1))];
    OpeningTold(env, log);
    assert items[..0] == [];
    LoopTold(env, log, items, limit);
    LoopProgress(env, log, items, limit);
    var (r, m, stopped) := Loop(env, log, items, limit, 0);
    var mark := RunMarked(if stopped then Stopped else Completed, env.stored(|r|));
    MarkTold(env, r, mark);
    MarkedProgress(env, r, items, limit, m, stopped, mark);
    assert ExecuteLog(env, limit) == r + [mark];
  }

  lemma MarkedProgress(env: Env, r: Log, items: seq<Item>, limit: int, m: nat, stopped: bool, mark: Event)
    requires Walked(env, r, items, limit, m, stopped)
    requires mark.RunMarked? && mark.runStatus == if stopped then Stopped else Completed
    ensures Progress(env, limit, items, r + [mark], m) && NoStartAfterStop(env, r + [mark])
  {
    CollectOne(r, mark, Chosen());
    forall k | 0 <= k < |r| + 1 && (r + [mark])[k].Inserted? ensures !env.stopRequested(k) {
      assert r[k] == (r + [mark])[k];
    }
  }

  lemma OpeningTold(env: Env, log: Log)
    requires |log| == 2 && log[0].RunRead? && log[1].RunMarked?
    ensures Ordered(log) && AllTold(env, log) && NoStartAfterStop(env, log)
    ensures Collect(log, Claim()) == [] && Collect(log, Chosen()) == []
  {
    CollectNone([], log, Claim());
    CollectNone([], log, Chosen());
  }

  lemma MarkTold(env: Env, r: Log, mark: Event)
    requires AllTold(env, r) && mark.RunMarked?
    ensures AllTold(env, r + [mark])
    ensures Collect(r + [mark], Claim()) == Collect(r, Claim()) && Collect(r + [mark], Chosen()) == Collect(r, Chosen())
  {
    var end := r + [mark];
    CollectOne(r, mark, Claim());
    CollectOne(r, mark, Chosen());
    forall k | 0 <= k < |end| && end[k].Inserted? ensures Told(env, end, k) {
      assert r[k] == end[k];
      ToldExtends(env, r, end, k);
    }
  }

  /** The audit trail is faithful for every action of every run whose store works. */
  lemma AuditIsFaithful(env: Env, limit: int, k: nat)
    requires AllStored(env)
    requires k < |ExecuteLog(env, limit)| && ExecuteLog(env, limit)[k].Inserted?
    ensures Told(env, ExecuteLog(env, limit), k)
  {
    ExecuteTold(env, limit);
  }

  lemma {:induction false} FreedBounded(ends: seq<End>, items: seq<Item>)
    requires Matches(ends, items) && forall x :: x in items ==> x.size >= 0
    ensures 0 <= Freed(ends) <= Sizes(items)
    ensures (forall e :: e in ends ==> e.status == Succeeded) ==> Freed(ends) == Sizes(items)
    ensures (forall x :: x in items ==> x.size > 0) && Freed(ends) == Sizes(items) ==>
              forall e :: e in ends ==> e.status == Succeeded
    decreases |ends|
  {
    if ends != [] {
      var n := |ends| - 1;
      FreedBounded(ends[..n], items[..n]);
      assert ends[n] == EndOf(items[n], ends[n].status);
      assert items[n] in items && ends[n] in ends;
      assert forall e :: e in ends[..n] ==> e in ends;
      assert forall e :: e in ends ==> e in ends[..n] || e == ends[n];
    }
  }

  lemma {:induction false} PrefixSizes(items: seq<Item>, m: nat)
    requires m <= |items| && forall x :: x in items ==> x.size >= 0
    ensures Sizes(items[..m]) <= Sizes(items)
    ensures (forall x :: x in items ==> x.size > 0) && m < |items| ==> Sizes(items[..m]) < Sizes(items)
    decreases |items|
  {
    var n := |items| - 1;
    if m == |items| {
      assert items[..m] == items;
    } else {
      assert items[..n][..m] == items[..m];
      assert items[n] in items;
      PrefixSizes(items[..n], m);
    }
  }

  /** Bytes are conserved: a run never claims more than its plan's sizes, claims them all
      when every planned item succeeded, and, when no planned item is empty, only then. */
  lemma BytesConserved(env: Env, limit: int)
    requires AllStored(env) && env.run(0).Some? && Allowed(env.run(0).value)
    requires forall x :: x in env.run(0).value.items ==> x.size >= 0
    ensures var items, ends := env.run(0).value.items, Collect(ExecuteLog(env, limit), Claim());
            var all := |ends| == |items| && forall e :: e in ends ==> e.status == Succeeded;
            && 0 <= Freed(ends) <= Sizes(items)
            && (all ==> Freed(ends) == Sizes(items))
            && ((forall x :: x in items ==> x.size > 0) ==> (Freed(ends) == Sizes(items) <==> all))
  {
    var items, ends := env.run(0).value.items, Collect(ExecuteLog(env, limit), Claim());
    ExecuteTold(env, limit);
    var m: nat :| Progress(env, limit, items, ExecuteLog(env, limit), m) && Matches(ends, items[..m]);
    assert forall x :: x in items[..m] ==> x in items;
    FreedBounded(ends, items[..m]);
    PrefixSizes(items, m);
    assert |ends| == |items| ==> items[..m] == items;
  }
}
