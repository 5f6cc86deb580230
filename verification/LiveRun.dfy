/** One live run from the request to the freed slot, and two that were planned together. */
module LiveRun {
  import opened Basics
  import opened RunLock
  import opened RunStore
  import opened RunClients
  import P = Planner
  import R = Reaper
  import A = ReaperAudit
  import ReaperRun

  /** What is recorded of a live plan, as the actor reads it. */
  function LiveRecord(plan: P.RunPlan): R.RunRecord { R.RunRecord(true, R.HTTP, AsItems(plan.items)) }

  /** Whatever the world answers, a run of the recorded plan starts actions for the first of the
      planned items, in rank order, with the hash and the size planned, and for nothing else. */
  lemma ActsOnThePlan(env: R.Env, limit: int, plan: P.RunPlan)
    requires env.run(0).Some? ==> env.run(0) == Some(LiveRecord(plan))
    ensures A.Collect(R.ExecuteLog(env, limit), A.Chosen()) <= AsItems(plan.items)
    ensures var started := A.Collect(R.ExecuteLog(env, limit), A.Chosen());
      && |started| <= |plan.items|
      && forall k :: 0 <= k < |started| ==>
           started[k].rank == plan.items[k].rank && started[k].hash == plan.items[k].hash
           && started[k].size == plan.items[k].sizeBytes
  {
    if env.run(0).Some? && env.stored(1) {
      ReaperRun.RunProgress(env, limit);
      var m: nat :| ReaperRun.Progress(env, limit, AsItems(plan.items), R.ExecuteLog(env, limit), m);
    } else {
      A.CollectNone([], R.ExecuteLog(env, limit), A.Chosen());
    }
  }

  lemma Freed(filed: Pid -> bool, s: State, steps: seq<Step>, held: State, rest: seq<Step>, u: Tid)
    requires Run(UnlockThenDrain, filed, s, steps) == Some(held) && Run(UnlockThenDrain, filed, held, rest).Some?
    requires u !in s.stage && held.stage.Keys == s.stage.Keys + {u}
    requires forall x :: x in s.stage ==> held.stage[x] == s.stage[x]
    requires Run(UnlockThenDrain, filed, held, rest).value.stage == held.stage - {u}
    ensures Run(UnlockThenDrain, filed, s, steps + rest) == Run(UnlockThenDrain, filed, held, rest)
    ensures held.stage - {u} == s.stage
  {
    RunJoin(UnlockThenDrain, filed, s, steps, rest);
  }

  /** A request that launches executes its own plan and frees the slot; one that does not launch
      acts on nothing.  The actor's first read gives what was recorded, if it succeeds. */
  method PostAndExecute(lock: Lock, runs: Runs, volume: P.Volume, plan: Option<P.RunPlan>, live: bool, faults: Faults,
                        cancel: Hold, actor: R.Actor, abortedStored: bool,
                        ghost filed: Pid -> bool, ghost s: State, ghost t: Tid, ghost u: Tid)
    returns (reply: Reply, aborted: Option<bool>, ghost steps: seq<Step>)
    requires lock.Shows(s) && lock.Filed(filed) && runs.Valid() && actor.log == []
    requires t.pid == u.pid == lock.pid && t != u && t !in s.stage && u !in s.stage && cancel == s.next
    requires actor.env.run(0).Some? && plan.Some? ==> actor.env.run(0) == Some(LiveRecord(plan.value))
    modifies lock, lock.file, runs, actor
    ensures reply == Launched <==>
      volume.path != "" && plan.Some? && live && old(Free(lock, faults.flock))
      && !faults.run && !(faults.items && plan.value.items != [])
    ensures reply != Launched ==> actor.log == [] && aborted == None
    ensures reply == Launched ==> plan.Some? && actor.log == R.ExecuteLog(actor.env, actor.limit)
    ensures reply == Launched ==> A.Collect(actor.log, A.Chosen()) <= AsItems(plan.value.items)
    ensures reply == Launched ==> (aborted == None <==> R.EndsWell(actor.log))
    ensures Run(UnlockThenDrain, filed, s, steps).Some?
    ensures lock.Shows(Run(UnlockThenDrain, filed, s, steps).value)
    ensures Run(UnlockThenDrain, filed, s, steps).value.stage == s.stage
  {
    var id;
    aborted := None;
    reply, id, steps := HandlePostRun(lock, runs, volume, plan, live, faults, cancel, filed, s, t, u);
    if reply == Launched {
      ghost var held := Run(UnlockThenDrain, filed, s, steps).value;
      ghost var rest;
      aborted, rest := ExecuteRunAsync(lock, runs, id.value, actor, abortedStored, faults.unlock, filed, held, u);
      Freed(filed, s, steps, held, rest, u);
      steps := steps + rest;
      ActsOnThePlan(actor.env, actor.limit, plan.value);
    }
  }

  /** Two triggers that planned from the same library, before either of them executed, act on the
      same torrents: what one run starts begins what the other one starts. */
  lemma PlannedTogetherActAlike(
    env1: R.Env, limit1: int, env2: R.Env, limit2: int,
    lib: P.Library, rows: seq<P.ScoreRow>, need: int, a: P.RunPlan, b: P.RunPlan)
    requires P.Elected(lib, rows, need, a) && P.Elected(lib, rows, need, b) && a.freePctAtFire == b.freePctAtFire
    requires env1.run(0).Some? ==> env1.run(0) == Some(LiveRecord(a))
    requires env2.run(0).Some? ==> env2.run(0) == Some(LiveRecord(b))
    ensures var x := A.Collect(R.ExecuteLog(env1, limit1), A.Chosen());
      var y := A.Collect(R.ExecuteLog(env2, limit2), A.Chosen());
      x <= y || y <= x
  {
    P.PlanIsDetermined(lib, rows, need, a, b);
    ActsOnThePlan(env1, limit1, a);
    ActsOnThePlan(env2, limit2, b);
  }
}
