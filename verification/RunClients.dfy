/**
 The HTTP handlers as clients of the run lock: the trigger takes the slot, records the run, arms
 the stop registry and hands the slot to the goroutine that executes the run and releases it.
 */
module RunClients {
  import opened Basics
  import opened RunLock
  import opened RunStore
  import P = Planner
  import R = Reaper

  /** What the trigger answers. */
  datatype Reply = NoVolume | PlanFailed | Busy | StoreFailed | Recorded | Launched

  /** What goes wrong: the flock call, inserting the run or its items, the unflock call. */
  datatype Faults = Faults(flock: bool, run: bool, items: bool, unlock: bool)

  /** The lock can be taken: the channel is free and flock, if there is a file, grants it. */
  ghost predicate Free(lock: Lock, flockFails: bool)
    reads lock, lock.file
  {
    && !lock.ch
    && (lock.file != null ==> !flockFails && (lock.file.owner == None || lock.file.owner == Some(lock.pid)))
  }

  /** `plan` is what planning gave before the slot was asked for (None when it failed), `id` the
      run recorded.  `t` is the handler's goroutine, `u` the one that will execute the run;
      `cancel` names the run's context by the hold it will belong to. */
  method HandlePostRun(lock: Lock, runs: Runs, volume: P.Volume, plan: Option<P.RunPlan>, live: bool, faults: Faults,
                       cancel: Hold, ghost filed: Pid -> bool, ghost s: State, ghost t: Tid, ghost u: Tid)
    returns (reply: Reply, id: Option<RunId>, ghost steps: seq<Step>)
    requires lock.Shows(s) && lock.Filed(filed) && runs.Valid()
    requires t.pid == u.pid == lock.pid && t != u && t !in s.stage && u !in s.stage && cancel == s.next
    modifies lock, lock.file, runs
    ensures runs.Valid() && Run(UnlockThenDrain, filed, s, steps).Some?
    ensures lock.Shows(Run(UnlockThenDrain, filed, s, steps).value)
    ensures reply == NoVolume <==> volume.path == ""
    ensures reply == PlanFailed <==> volume.path != "" && plan == None
    ensures reply == Busy <==> volume.path != "" && plan.Some? && live && !old(Free(lock, faults.flock))
    ensures reply == StoreFailed <==>
      volume.path != "" && plan.Some? && (live ==> old(Free(lock, faults.flock)))
      && (faults.run || (faults.items && plan.value.items != []))
    ensures reply == Recorded ==> !live
    ensures !live ==> steps == []
    ensures reply == StoreFailed && live ==>
      steps == [Send(t), FlockOk(t)] + [Clear(t), Unflock(t, faults.unlock), Drain(t)]
    ensures reply == Launched ==> live && id.Some?
    ensures reply == Launched ==> Launches(filed, lock.pid, id.value, s, Run(UnlockThenDrain, filed, s, steps).value, u)
    ensures reply == Launched ==> steps == [Send(t), FlockOk(t)] + [Arm(t, id.value), Handoff(t, u)]
    ensures reply != Launched ==> Run(UnlockThenDrain, filed, s, steps).value.stage == s.stage
    ensures reply == Busy ==> Run(UnlockThenDrain, filed, s, steps).value == s
    ensures id.Some? && live ==> Send(t) in steps && FlockOk(t) in steps
    ensures id.Some? <==> reply == Launched || reply == Recorded || (reply == StoreFailed && !faults.run)
    ensures id == None ==> runs.entries == old(runs.entries)
    ensures id.Some? ==>
      && id.value !in old(runs.entries)
      && runs.entries == old(runs.entries)[id.value :=
           Entry(live, R.HTTP, if reply == StoreFailed then [] else plan.value.items)]
  {
    steps, id := [], None;
    if volume.path == "" { return NoVolume, None, []; }
    if plan == None { return PlanFailed, None, []; }
    if live {
      reply, id, steps := PostLive(lock, runs, plan.value, faults, cancel, filed, s, t, u);
      return reply, id, steps;
    }
    var stored;
    id, stored := Record(runs, false, plan.value.items, faults);
    return if stored then Recorded else StoreFailed, id, [];
  }

  /** The live half of it: nothing is recorded without the slot. */
  method PostLive(lock: Lock, runs: Runs, plan: P.RunPlan, faults: Faults, cancel: Hold,
                  ghost filed: Pid -> bool, ghost s: State, ghost t: Tid, ghost u: Tid)
    returns (reply: Reply, id: Option<RunId>, ghost steps: seq<Step>)
    requires lock.Shows(s) && lock.Filed(filed) && runs.Valid()
    requires t.pid == u.pid == lock.pid && t != u && t !in s.stage && u !in s.stage && cancel == s.next
    modifies lock, lock.file, runs
    ensures runs.Valid() && Run(UnlockThenDrain, filed, s, steps).Some?
    ensures lock.Shows(Run(UnlockThenDrain, filed, s, steps).value)
    ensures reply == Busy <==> !old(Free(lock, faults.flock))
    ensures reply == StoreFailed <==> reply != Busy && (faults.run || (faults.items && plan.items != []))
    ensures reply == Launched || reply == Busy || reply == StoreFailed
    ensures reply == Busy ==> Run(UnlockThenDrain, filed, s, steps).value == s
    ensures reply == StoreFailed ==>
      steps == [Send(t), FlockOk(t)] + [Clear(t), Unflock(t, faults.unlock), Drain(t)]
      && Run(UnlockThenDrain, filed, s, steps).value.stage == s.stage
    ensures reply == Launched ==>
      id.Some? && steps == [Send(t), FlockOk(t)] + [Arm(t, id.value), Handoff(t, u)]
      && Launches(filed, lock.pid, id.value, s, Run(UnlockThenDrain, filed, s, steps).value, u)
    ensures id.Some? <==> reply == Launched || (reply == StoreFailed && !faults.run)
    ensures id == None ==> runs.entries == old(runs.entries)
    ensures id.Some? ==>
      && id.value !in old(runs.entries)
      && runs.entries == old(runs.entries)[id.value :=
           Entry(true, R.HTTP, if reply == StoreFailed then [] else plan.items)]
  {
    var ok, stored;
    ok, steps := lock.TryAcquire(faults.flock, filed, s, t);
    if !ok { return Busy, None, steps; }
    Acquired(filed, s, t);
    id, stored := Record(runs, true, plan.items, faults);
    if !stored {
      steps := Abandon(lock, faults.unlock, filed, s, t);
      return StoreFailed, id, steps;
    }
    steps := Launch(lock, id.value, cancel, filed, s, t, u);
    return Launched, id, steps;
  }

  /** Inserts the run, then its items. */
  method Record(runs: Runs, live: bool, items: seq<P.RunItem>, faults: Faults) returns (id: Option<RunId>, stored: bool)
    requires runs.Valid()
    modifies runs
    ensures runs.Valid()
    ensures id == None <==> faults.run
    ensures stored <==> !faults.run && !(faults.items && items != [])
    ensures id == None ==> runs.entries == old(runs.entries)
    ensures id.Some? ==>
      && id.value !in old(runs.entries)
      && runs.entries == old(runs.entries)[id.value := Entry(live, R.HTTP, if stored then items else [])]
  {
    id := runs.InsertRun(live, R.HTTP, faults.run);
    if id == None { return None, false; }
    stored := runs.InsertRunItems(id.value, items, faults.items);
  }

  /** The deferred release of a slot that was not handed on. */
  method Abandon(lock: Lock, unlock: bool, ghost filed: Pid -> bool, ghost s: State, ghost t: Tid)
    returns (ghost steps: seq<Step>)
    requires Run(UnlockThenDrain, filed, s, [Send(t), FlockOk(t)]) == Some(AfterAcquire(filed, s, t))
    requires lock.Shows(AfterAcquire(filed, s, t)) && lock.Filed(filed) && t.pid == lock.pid && t !in s.stage
    modifies lock, lock.file
    ensures steps == [Send(t), FlockOk(t)] + [Clear(t), Unflock(t, unlock), Drain(t)]
    ensures Run(UnlockThenDrain, filed, s, steps).Some?
    ensures lock.Shows(Run(UnlockThenDrain, filed, s, steps).value)
    ensures Run(UnlockThenDrain, filed, s, steps).value.stage == s.stage
  {
    ghost var s1 := AfterAcquire(filed, s, t);
    lock.Release(unlock, filed, s1, t);
    steps := [Send(t), FlockOk(t)] + [Clear(t), Unflock(t, unlock), Drain(t)];
    RunJoin(UnlockThenDrain, filed, s, [Send(t), FlockOk(t)], [Clear(t), Unflock(t, unlock), Drain(t)]);
    assert s1.stage - {t} == s.stage;
  }

  /** Arms the registry, then starts the executing goroutine, which takes the slot over. */
  method Launch(lock: Lock, id: RunId, cancel: Hold,
                ghost filed: Pid -> bool, ghost s: State, ghost t: Tid, ghost u: Tid)
    returns (ghost steps: seq<Step>)
    requires Run(UnlockThenDrain, filed, s, [Send(t), FlockOk(t)]) == Some(AfterAcquire(filed, s, t))
    requires lock.Shows(AfterAcquire(filed, s, t)) && cancel == s.next
    requires t.pid == u.pid == lock.pid && t != u && t !in s.stage && u !in s.stage
    modifies lock
    ensures steps == [Send(t), FlockOk(t)] + [Arm(t, id), Handoff(t, u)]
    ensures Run(UnlockThenDrain, filed, s, steps).Some?
    ensures lock.Shows(Run(UnlockThenDrain, filed, s, steps).value)
    ensures Launches(filed, lock.pid, id, s, Run(UnlockThenDrain, filed, s, steps).value, u)
  {
    ghost var s1 := AfterAcquire(filed, s, t);
    lock.Arm(id, cancel, filed, s1, t);
    steps := [Send(t), FlockOk(t)] + [Arm(t, id), Handoff(t, u)];
    RunTwo(UnlockThenDrain, filed, s1, Arm(t, id), Handoff(t, u));
    RunJoin(UnlockThenDrain, filed, s, [Send(t), FlockOk(t)], [Arm(t, id), Handoff(t, u)]);
    assert s1.stage - {t} == s.stage;
  }

  /** The executing goroutine, and no other, has come to hold the slot, armed for this run. */
  ghost predicate Launches(filed: Pid -> bool, pid: Pid, id: RunId, s: State, after: State, u: Tid) {
    && pid in after.slot && pid in after.armed && after.armed[pid].run == id
    && (filed(pid) ==> after.flock == Some(pid))
    && after.stage == s.stage[u := Holding(after.armed[pid].hold)]
  }

  ghost function AfterAcquire(filed: Pid -> bool, s: State, t: Tid): State {
    s.(stage := s.stage[t := Holding(s.next)], slot := s.slot + {t.pid}, next := s.next + 1,
       flock := if filed(t.pid) then Some(t.pid) else s.flock)
  }

  lemma Acquired(filed: Pid -> bool, s: State, t: Tid)
    requires Run(UnlockThenDrain, filed, s, [Send(t), FlockOk(t)]).Some?
    ensures Run(UnlockThenDrain, filed, s, [Send(t), FlockOk(t)]) == Some(AfterAcquire(filed, s, t))
  {
    assert [Send(t), FlockOk(t)][1..] == [FlockOk(t)];
    assert Enabled(UnlockThenDrain, filed, s, Send(t));
    var s1 := Apply(UnlockThenDrain, filed, s, Send(t));
    RunTwo(UnlockThenDrain, filed, s, Send(t), FlockOk(t));
    assert s1.stage[t := Holding(s.next)] == s.stage[t := Holding(s.next)];
  }

  /** The goroutine that executes the run `id`: what the actor reads of it, if that succeeds, is
      what is recorded.  It marks the run aborted when Execute returns an error (None when it does
      not try, else whether that was stored), and always gives the slot back. */
  method ExecuteRunAsync(lock: Lock, runs: Runs, id: RunId, actor: R.Actor, abortedStored: bool, unlocked: bool,
                         ghost filed: Pid -> bool, ghost s: State, ghost u: Tid)
    returns (aborted: Option<bool>, ghost steps: seq<Step>)
    requires lock.Shows(s) && lock.Filed(filed) && lock.pid in s.slot && actor.log == []
    requires u.pid == lock.pid && u in s.stage && s.stage[u].Holding?
    requires lock.file != null ==> s.flock == Some(lock.pid)
    requires actor.env.run(0).Some? ==> actor.env.run(0) == runs.Read(id)
    modifies lock, lock.file, actor
    ensures actor.log == R.ExecuteLog(actor.env, actor.limit)
    ensures aborted == if R.EndsWell(actor.log) then None else Some(abortedStored)
    ensures steps == [Clear(u), Unflock(u, unlocked), Drain(u)]
    ensures Run(UnlockThenDrain, filed, s, steps).Some?
    ensures lock.Shows(Run(UnlockThenDrain, filed, s, steps).value)
    ensures !lock.ch && Run(UnlockThenDrain, filed, s, steps).value.stage == s.stage - {u}
  {
    aborted := None;
    var ok := actor.Execute();
    if !ok { aborted := Some(abortedStored); }
    lock.Release(unlocked, filed, s, u);
    steps := [Clear(u), Unflock(u, unlocked), Drain(u)];
  }

  datatype RunStatus = Pending | Running | Finished
  datatype StopReply = NotFound | NotInProgress | NotControllable | Accepted

  /** `status` is the stored status of the run, if it exists. */
  method HandleStopRun(lock: Lock, status: Option<RunStatus>, id: RunId, ghost filed: Pid -> bool, ghost s: State)
    returns (reply: StopReply, cancelled: Option<Hold>)
    requires lock.Shows(s)
    ensures cancelled.Some? <==> reply == Accepted
    ensures reply == Accepted <==>
      (status == Some(Pending) || status == Some(Running)) && lock.pid in s.armed && s.armed[lock.pid].run == id
    ensures reply == Accepted ==> cancelled == Some(s.armed[lock.pid].hold)
    ensures reply == NotFound <==> status == None
  {
    if status == None { return NotFound, None; }
    if status == Some(Finished) { return NotInProgress, None; }
    assert status.value.Pending? || status.value.Running?;
    var ok;
    ok, cancelled := lock.RequestStop(id, filed, s);
    return if ok then Accepted else NotControllable, cancelled;
  }
}
