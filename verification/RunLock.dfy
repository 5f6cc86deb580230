/**
 The single-run guard: a capacity-1 channel per process layered over one OS file lock.

 A process is identified by its pid and holds one Lock; each Lock opened with a path has
 its own open file, so the OS lock is recorded as the pid that owns it, and a second
 attempt through the same open file succeeds.  Every channel operation, flock call and
 registry update is one atomic step; goroutines of any number of processes interleave
 freely, and a process may crash at any point.
 */
module RunLock {
  import opened Basics

  type Pid = nat

  /** A hold: one successful TryAcquire, numbered when it succeeds. */
  type Hold = nat

  datatype Tid = Tid(pid: Pid, gid: nat)

  /** Where a goroutine is inside TryAcquire .. Release; goroutines outside are absent. */
  datatype Stage =
    | Sent              // token in the channel, flock not yet tried
    | RollingBack       // flock refused, token still to be taken back
    | Holding(hold: Hold)
    | Cleared(hold: Hold)  // Release: registry cleared
    | Half                 // Release: one of unflock / channel drain done

  datatype Armed = Armed(run: RunId, hold: Hold)

  datatype State = State(
    stage: map<Tid, Stage>,
    slot: set<Pid>,          // processes whose channel is full
    flock: Option<Pid>,
    armed: map<Pid, Armed>,  // the runID/cancel registry of each process
    cancelled: set<Hold>,    // holds whose context was cancelled through RequestStop
    next: Hold,
    unlockFailed: bool       // some unflock call returned an error
  )

  const INIT := State(map[], {}, None, map[], {}, 0, false)

  datatype ReleaseOrder = UnlockThenDrain | DrainThenUnlock

  datatype Step =
    | Send(t: Tid)
    | FlockOk(t: Tid)
    | FlockRefused(t: Tid)
    | Rollback(t: Tid)
    | Arm(t: Tid, run: RunId)
    | Handoff(t: Tid, to: Tid)        // the holder passes the slot to another goroutine
    | RequestStop(pid: Pid, run: RunId)
    | Clear(t: Tid)
    | Unflock(t: Tid, ok: bool)
    | Drain(t: Tid)
    | Crash(pid: Pid)

  predicate At(s: State, t: Tid, g: Stage) {
    t in s.stage && s.stage[t] == g
  }

  /** Which steps can happen; `filed` are the processes whose Lock has a file. */
  predicate Enabled(order: ReleaseOrder, filed: Pid -> bool, s: State, step: Step) {
    match step
    case Send(t) => t !in s.stage && t.pid !in s.slot
    case FlockOk(t) => At(s, t, Sent) && (filed(t.pid) ==> s.flock == None || s.flock == Some(t.pid))
    case FlockRefused(t) => At(s, t, Sent) && filed(t.pid)
    case Rollback(t) => At(s, t, RollingBack) && t.pid in s.slot
    case Arm(t, _) => t in s.stage && s.stage[t].Holding?
    case Handoff(t, u) => t in s.stage && s.stage[t].Holding? && u !in s.stage && t.pid == u.pid
    case RequestStop(_, _) => true
    case Clear(t) => t in s.stage && s.stage[t].Holding?
    case Unflock(t, _) =>
      t in s.stage && (if order == UnlockThenDrain then s.stage[t].Cleared? else s.stage[t] == Half)
    case Drain(t) =>
      t in s.stage && t.pid in s.slot
      && (if order == UnlockThenDrain then s.stage[t] == Half else s.stage[t].Cleared?)
    case Crash(_) => true
  }

  /** The stage after the first half of Release's tail; the second half leaves the lock. */
  function Tail(s: State, t: Tid, first: bool): map<Tid, Stage> {
    if first then s.stage[t := Half] else s.stage - {t}
  }

  function Apply(order: ReleaseOrder, filed: Pid -> bool, s: State, step: Step): State
    requires Enabled(order, filed, s, step)
  {
    match step
    case Send(t) => s.(stage := s.stage[t := Sent], slot := s.slot + {t.pid})
    case FlockOk(t) =>
      s.(stage := s.stage[t := Holding(s.next)], next := s.next + 1,
         flock := if filed(t.pid) then Some(t.pid) else s.flock)
    case FlockRefused(t) => s.(stage := s.stage[t := RollingBack])
    case Rollback(t) => s.(stage := s.stage - {t}, slot := s.slot - {t.pid})
    case Arm(t, run) => s.(armed := s.armed[t.pid := Armed(run, s.stage[t].hold)])
    case Handoff(t, u) => s.(stage := (s.stage - {t})[u := s.stage[t]])
    case RequestStop(p, run) =>
      if p in s.armed && s.armed[p].run == run
      then s.(cancelled := s.cancelled + {s.armed[p].hold})
      else s
    case Clear(t) => s.(stage := s.stage[t := Cleared(s.stage[t].hold)], armed := s.armed - {t.pid})
    case Unflock(t, ok) =>
      s.(stage := Tail(s, t, order == UnlockThenDrain),
         flock := if filed(t.pid) && ok && s.flock == Some(t.pid) then None else s.flock,
         unlockFailed := s.unlockFailed || (filed(t.pid) && !ok))
    case Drain(t) => s.(stage := Tail(s, t, order == DrainThenUnlock), slot := s.slot - {t.pid})
    case Crash(p) =>
      // The kernel drops the dead process's lock; memory is gone.
      s.(stage := map t | t in s.stage && t.pid != p :: s.stage[t],
         slot := s.slot - {p},
         flock := if s.flock == Some(p) then None else s.flock,
         armed := s.armed - {p})
  }

  /** The state after a whole interleaving, or None when some step was not possible. */
  function Run(order: ReleaseOrder, filed: Pid -> bool, s: State, steps: seq<Step>): Option<State>
    decreases |steps|
  {
    if steps == [] then Some(s)
    else if !Enabled(order, filed, s, steps[0]) then None
    else Run(order, filed, Apply(order, filed, s, steps[0]), steps[1..])
  }

  /** Between a successful TryAcquire and its Release's unflock. */
  predicate Critical(s: State, t: Tid) {
    t in s.stage && (s.stage[t].Holding? || s.stage[t].Cleared?)
  }

  /** Some goroutine of `p` is inside; its stage satisfies `g`. */
  ghost predicate Someone(s: State, p: Pid, g: Stage -> bool) {
    exists t: Tid :: t in s.stage && t.pid == p && g(s.stage[t])
  }

  /** The channel: at most one goroutine of a process is inside, exactly while it is full. */
  ghost predicate InvSlot(s: State) {
    && (forall t, u :: t in s.stage && u in s.stage && t.pid == u.pid ==> t == u)
    && (forall t :: t in s.stage ==> t.pid in s.slot)
    && (forall p :: p in s.slot ==> Someone(s, p, g => true))
  }

  /** The OS lock belongs to the process of every holder that has a file, and to no one else. */
  ghost predicate InvFlock(filed: Pid -> bool, s: State) {
    && (forall t :: Critical(s, t) && filed(t.pid) ==> s.flock == Some(t.pid))
    && (s.flock.Some? ==> filed(s.flock.value))
    && (s.flock.Some? && !s.unlockFailed ==>
          Someone(s, s.flock.value, (g: Stage) => g.Holding? || g.Cleared?))
  }

  /** An armed entry is that of the hold in progress in its process. */
  ghost predicate InvArmed(s: State) {
    && (forall p :: p in s.armed ==> Someone(s, p, g => g == Holding(s.armed[p].hold)))
  }

  /** Holds are numbered once. */
  ghost predicate InvHolds(s: State) {
    && (forall t :: Critical(s, t) ==> s.stage[t].hold < s.next)
    && (forall t, u :: Critical(s, t) && Critical(s, u) && s.stage[t].hold == s.stage[u].hold ==> t == u)
    && (forall h :: h in s.cancelled ==> h < s.next)
  }

  ghost predicate Inv(filed: Pid -> bool, s: State) {
    InvSlot(s) && InvFlock(filed, s) && InvArmed(s) && InvHolds(s)
  }

  /** A goroutine inside stays inside until its last step; a holder may hand over. */
  lemma StaysInside(filed: Pid -> bool, s: State, step: Step, t: Tid, g: Stage -> bool)
    requires InvSlot(s) && Enabled(UnlockThenDrain, filed, s, step) && t in s.stage
    requires step.Handoff? || step.Arm? || step.RequestStop?
             || (step.Crash? && step.pid != t.pid)
             || (!step.Crash? && step.t != t)
    requires g(s.stage[t])
    ensures Someone(Apply(UnlockThenDrain, filed, s, step), t.pid, g)
  {
    var s' := Apply(UnlockThenDrain, filed, s, step);
    var u := if step.Handoff? && t == step.t then step.to else t;
    assert u in s'.stage && s'.stage[u] == s.stage[t];
  }

  lemma SlotKept(filed: Pid -> bool, s: State, step: Step)
    requires InvSlot(s) && Enabled(UnlockThenDrain, filed, s, step)
    ensures InvSlot(Apply(UnlockThenDrain, filed, s, step))
  {
    var s' := Apply(UnlockThenDrain, filed, s, step);
    OnePerSlot(filed, s, step);
    forall p | p in s'.slot ensures Someone(s', p, g => true) { SlotHasSomeone(filed, s, step, p); }
  }

  lemma OnePerSlot(filed: Pid -> bool, s: State, step: Step)
    requires InvSlot(s) && Enabled(UnlockThenDrain, filed, s, step)
    ensures var s' := Apply(UnlockThenDrain, filed, s, step);
            && (forall t, u :: t in s'.stage && u in s'.stage && t.pid == u.pid ==> t == u)
            && (forall t :: t in s'.stage ==> t.pid in s'.slot)
  {
  }

  lemma SlotHasSomeone(filed: Pid -> bool, s: State, step: Step, p: Pid)
    requires InvSlot(s) && Enabled(UnlockThenDrain, filed, s, step)
    requires p in Apply(UnlockThenDrain, filed, s, step).slot
    ensures Someone(Apply(UnlockThenDrain, filed, s, step), p, g => true)
  {
    var s' := Apply(UnlockThenDrain, filed, s, step);
    if p in s.slot {
      var t: Tid :| t in s.stage && t.pid == p;
      if !(step.Crash? || step.RequestStop?) && step.t == t && !step.Handoff? {
        assert t in s'.stage;
      } else {
        StaysInside(filed, s, step, t, g => true);
      }
    } else {
      assert step.t in s'.stage;
    }
  }

  lemma HoldersOwnFlock(filed: Pid -> bool, s: State, step: Step, t: Tid)
    requires Inv(filed, s) && Enabled(UnlockThenDrain, filed, s, step)
    requires Critical(Apply(UnlockThenDrain, filed, s, step), t) && filed(t.pid)
    ensures Apply(UnlockThenDrain, filed, s, step).flock == Some(t.pid)
  {
    if step.FlockOk? && step.t == t {
    } else {
      var u := if step.Handoff? && t == step.to then step.t else t;
      assert Critical(s, u) && u.pid == t.pid;
      if step.Unflock? { assert step.t != u; }
    }
  }

  lemma FlockHasHolder(filed: Pid -> bool, s: State, step: Step)
    requires Inv(filed, s) && Enabled(UnlockThenDrain, filed, s, step)
    requires var s' := Apply(UnlockThenDrain, filed, s, step); s'.flock.Some? && !s'.unlockFailed
    ensures var s' := Apply(UnlockThenDrain, filed, s, step);
            Someone(s', s'.flock.value, (g: Stage) => g.Holding? || g.Cleared?)
  {
    var s' := Apply(UnlockThenDrain, filed, s, step);
    var critical := (g: Stage) => g.Holding? || g.Cleared?;
    if step.FlockOk? && filed(step.t.pid) {
      assert critical(s'.stage[step.t]);
    } else {
      var t: Tid :| t in s.stage && t.pid == s.flock.value && critical(s.stage[t]);
      if step.Clear? && step.t == t {
        assert critical(s'.stage[t]);
      } else {
        StaysInside(filed, s, step, t, critical);
      }
    }
  }

  lemma FlockKept(filed: Pid -> bool, s: State, step: Step)
    requires Inv(filed, s) && Enabled(UnlockThenDrain, filed, s, step)
    ensures InvFlock(filed, Apply(UnlockThenDrain, filed, s, step))
  {
    var s' := Apply(UnlockThenDrain, filed, s, step);
    forall t | Critical(s', t) && filed(t.pid) ensures s'.flock == Some(t.pid) {
      HoldersOwnFlock(filed, s, step, t);
    }
    if s'.flock.Some? && !s'.unlockFailed {
      FlockHasHolder(filed, s, step);
    }
  }

  lemma ArmedKept(filed: Pid -> bool, s: State, step: Step)
    requires Inv(filed, s) && Enabled(UnlockThenDrain, filed, s, step)
    ensures InvArmed(Apply(UnlockThenDrain, filed, s, step))
  {
    var s' := Apply(UnlockThenDrain, filed, s, step);
    forall p | p in s'.armed ensures Someone(s', p, g => g == Holding(s'.armed[p].hold)) {
      ArmedByHolder(filed, s, step, p);
    }
  }

  lemma ArmedByHolder(filed: Pid -> bool, s: State, step: Step, p: Pid)
    requires InvSlot(s) && InvArmed(s) && Enabled(UnlockThenDrain, filed, s, step)
    requires p in Apply(UnlockThenDrain, filed, s, step).armed
    ensures var s' := Apply(UnlockThenDrain, filed, s, step); Someone(s', p, g => g == Holding(s'.armed[p].hold))
  {
    var s' := Apply(UnlockThenDrain, filed, s, step);
    var now := (g: Stage) => g == Holding(s'.armed[p].hold);
    if step.Arm? && p == step.t.pid {
      assert now(s'.stage[step.t]);
    } else {
      var t: Tid :| t in s.stage && t.pid == p && s.stage[t] == Holding(s.armed[p].hold);
      StaysInside(filed, s, step, t, now);
    }
  }

  /** Who had, before the step, the hold that `t` has after it. */
  function Before(step: Step, t: Tid): Tid {
    if step.Handoff? && t == step.to then step.t else t
  }

  lemma HoldComesFrom(filed: Pid -> bool, s: State, step: Step, t: Tid)
    requires Enabled(UnlockThenDrain, filed, s, step)
    requires Critical(Apply(UnlockThenDrain, filed, s, step), t)
    ensures var s' := Apply(UnlockThenDrain, filed, s, step);
            if step.FlockOk? && step.t == t then s'.stage[t] == Holding(s.next)
            else Critical(s, Before(step, t))
                 && s.stage[Before(step, t)].hold == s'.stage[t].hold
                 && (step.Handoff? ==> t != step.t)
  {
  }

  lemma HoldsKept(filed: Pid -> bool, s: State, step: Step)
    requires InvHolds(s) && InvArmed(s) && Enabled(UnlockThenDrain, filed, s, step)
    ensures InvHolds(Apply(UnlockThenDrain, filed, s, step))
  {
    var s' := Apply(UnlockThenDrain, filed, s, step);
    forall t | Critical(s', t) ensures s'.stage[t].hold < s'.next {
      HoldComesFrom(filed, s, step, t);
    }
    forall t, u | Critical(s', t) && Critical(s', u) && s'.stage[t].hold == s'.stage[u].hold
      ensures t == u
    {
      HoldComesFrom(filed, s, step, t);
      HoldComesFrom(filed, s, step, u);
    }
  }

  lemma StepKeepsInv(filed: Pid -> bool, s: State, step: Step)
    requires Inv(filed, s) && Enabled(UnlockThenDrain, filed, s, step)
    ensures Inv(filed, Apply(UnlockThenDrain, filed, s, step))
  {
    SlotKept(filed, s, step);
    FlockKept(filed, s, step);
    ArmedKept(filed, s, step);
    HoldsKept(filed, s, step);
  }

  lemma {:induction false} RunKeepsInv(filed: Pid -> bool, s: State, steps: seq<Step>)
    requires Inv(filed, s)
    ensures Run(UnlockThenDrain, filed, s, steps).Some? ==>
              Inv(filed, Run(UnlockThenDrain, filed, s, steps).value)
    decreases |steps|
  {
    if steps != [] && Enabled(UnlockThenDrain, filed, s, steps[0]) {
      StepKeepsInv(filed, s, steps[0]);
      RunKeepsInv(filed, Apply(UnlockThenDrain, filed, s, steps[0]), steps[1..]);
    }
  }

  /** After any interleaving, two holders are the same goroutine, unless they are in
      different processes and one of them has no file to lock. */
  lemma MutualExclusion(filed: Pid -> bool, steps: seq<Step>, t: Tid, u: Tid)
    requires Run(UnlockThenDrain, filed, INIT, steps).Some?
    ensures var s := Run(UnlockThenDrain, filed, INIT, steps).value;
            (Critical(s, t) && Critical(s, u) && (t.pid == u.pid || (filed(t.pid) && filed(u.pid)))
             ==> t == u)
  {
    RunKeepsInv(filed, INIT, steps);
  }

  ghost predicate DrainFirstTwoHolders(steps: seq<Step>) {
    var r := Run(DrainThenUnlock, (p: Pid) => true, INIT, steps);
    r.Some? && exists t: Tid, u: Tid :: t.pid != u.pid && Critical(r.value, t) && Critical(r.value, u)
  }

  /** Draining the channel before unlocking lets another goroutine of the process re-lock
      the same open file; the late unflock then opens the door to a second process. */
  lemma DrainFirstBreaksExclusion()
    ensures exists steps :: DrainFirstTwoHolders(steps)
  {
    var a, b, c := Tid(0, 0), Tid(0, 1), Tid(1, 0);
    var steps := [Send(a), FlockOk(a), Clear(a)] + ([Drain(a), Send(b), FlockOk(b)]
                  + [Unflock(a, true), Send(c), FlockOk(c)]);
    var s3 := State(map[a := Cleared(0)], {0}, Some(0), map[], {}, 1, false);
    var s6 := State(map[a := Half, b := Holding(1)], {0}, Some(0), map[], {}, 2, false);
    var s9 := State(map[b := Holding(1), c := Holding(2)], {0, 1}, Some(1), map[], {}, 3, false);
    var filed := (p: Pid) => true;
    assert Run(DrainThenUnlock, filed, INIT, [Send(a), FlockOk(a), Clear(a)]) == Some(s3) by {
      RunThree(DrainThenUnlock, filed, INIT, Send(a), FlockOk(a), Clear(a));
      Same(Run(DrainThenUnlock, filed, INIT, [Send(a), FlockOk(a), Clear(a)]).value, s3);
    }
    assert Run(DrainThenUnlock, filed, s3, [Drain(a), Send(b), FlockOk(b)]) == Some(s6) by {
      RunThree(DrainThenUnlock, filed, s3, Drain(a), Send(b), FlockOk(b));
      Same(Run(DrainThenUnlock, filed, s3, [Drain(a), Send(b), FlockOk(b)]).value, s6);
    }
    assert Run(DrainThenUnlock, filed, s6, [Unflock(a, true), Send(c), FlockOk(c)]) == Some(s9) by {
      RunThree(DrainThenUnlock, filed, s6, Unflock(a, true), Send(c), FlockOk(c));
      Same(Run(DrainThenUnlock, filed, s6, [Unflock(a, true), Send(c), FlockOk(c)]).value, s9);
    }
    RunJoin(DrainThenUnlock, filed, s3, [Drain(a), Send(b), FlockOk(b)],
            [Unflock(a, true), Send(c), FlockOk(c)]);
    RunJoin(DrainThenUnlock, filed, INIT, [Send(a), FlockOk(a), Clear(a)],
            [Drain(a), Send(b), FlockOk(b)] + [Unflock(a, true), Send(c), FlockOk(c)]);
    assert Critical(s9, b) && Critical(s9, c);
    assert DrainFirstTwoHolders(steps);
  }

  lemma Same(s: State, s': State)
    requires s.stage.Keys == s'.stage.Keys && forall t :: t in s.stage ==> s.stage[t] == s'.stage[t]
    requires s.slot == s'.slot && s.armed == s'.armed && s.cancelled == s'.cancelled
    requires s.flock == s'.flock && s.next == s'.next && s.unlockFailed == s'.unlockFailed
    ensures s == s'
  {
  }

  lemma {:induction false} RunJoin(
    order: ReleaseOrder, filed: Pid -> bool, s: State, first: seq<Step>, then_: seq<Step>)
    requires Run(order, filed, s, first).Some?
    ensures Run(order, filed, s, first + then_)
            == Run(order, filed, Run(order, filed, s, first).value, then_)
    decreases |first|
  {
    if first == [] {
      assert first + then_ == then_;
    } else {
      assert (first + then_)[1..] == first[1..] + then_;
      RunJoin(order, filed, Apply(order, filed, s, first[0]), first[1..], then_);
    }
  }

  /** RequestStop(pid, run) cancels nothing, or exactly the hold that this process's
      goroutine is in and that was last armed with this run id. */
  lemma StopHitsOnlyTheArmedRun(filed: Pid -> bool, steps: seq<Step>, p: Pid, run: RunId)
    requires Run(UnlockThenDrain, filed, INIT, steps).Some?
    ensures var s := Run(UnlockThenDrain, filed, INIT, steps).value;
            var s' := Apply(UnlockThenDrain, filed, s, RequestStop(p, run));
            forall h :: h in s'.cancelled && h !in s.cancelled ==>
              p in s.armed && s.armed[p] == Armed(run, h)
              && Someone(s, p, g => g == Holding(h))
  {
    RunKeepsInv(filed, INIT, steps);
  }

  /** A hold that was given and is no longer held. */
  ghost predicate Released(s: State, h: Hold) {
    h < s.next && forall t :: !At(s, t, Holding(h))
  }

  lemma ReleasedStays(filed: Pid -> bool, s: State, step: Step, h: Hold)
    requires InvArmed(s) && Released(s, h) && Enabled(UnlockThenDrain, filed, s, step)
    ensures var s' := Apply(UnlockThenDrain, filed, s, step);
            Released(s', h) && (h in s'.cancelled <==> h in s.cancelled)
  {
    var s' := Apply(UnlockThenDrain, filed, s, step);
    if step.RequestStop? && step.pid in s.armed {
      var t: Tid :| t in s.stage && t.pid == step.pid && s.stage[t] == Holding(s.armed[step.pid].hold);
      assert !At(s, t, Holding(h));
    }
    forall t ensures !At(s', t, Holding(h)) {
      assert !At(s, t, Holding(h));
      if step.Handoff? { assert !At(s, step.t, Holding(h)); }
    }
  }

  lemma {:induction false} NeverCancelledAfterRelease(
    filed: Pid -> bool, s: State, later: seq<Step>, h: Hold)
    requires Inv(filed, s) && Released(s, h)
    requires Run(UnlockThenDrain, filed, s, later).Some?
    ensures h in Run(UnlockThenDrain, filed, s, later).value.cancelled <==> h in s.cancelled
    decreases |later|
  {
    if later != [] {
      StepKeepsInv(filed, s, later[0]);
      ReleasedStays(filed, s, later[0], h);
      NeverCancelledAfterRelease(filed, Apply(UnlockThenDrain, filed, s, later[0]), later[1..], h);
    }
  }

  /** Once Release has started, no later RequestStop, in any interleaving, reaches the run. */
  lemma StopNeverReachesAReleasedRun(
    filed: Pid -> bool, before: seq<Step>, t: Tid, later: seq<Step>)
    requires Run(UnlockThenDrain, filed, INIT, before).Some?
    requires var s := Run(UnlockThenDrain, filed, INIT, before).value;
             Enabled(UnlockThenDrain, filed, s, Clear(t))
             && Run(UnlockThenDrain, filed, Apply(UnlockThenDrain, filed, s, Clear(t)), later).Some?
    ensures var s := Run(UnlockThenDrain, filed, INIT, before).value;
            var s' := Apply(UnlockThenDrain, filed, s, Clear(t));
            s.stage[t].hold in Run(UnlockThenDrain, filed, s', later).value.cancelled
            <==> s.stage[t].hold in s.cancelled
  {
    RunKeepsInv(filed, INIT, before);
    var s := Run(UnlockThenDrain, filed, INIT, before).value;
    var s' := Apply(UnlockThenDrain, filed, s, Clear(t));
    StepKeepsInv(filed, s, Clear(t));
    NobodyElseHolds(filed, s, t);
    NeverCancelledAfterRelease(filed, s', later, s.stage[t].hold);
  }

  /** Once its registry entry is cleared, no goroutine holds the hold. */
  lemma NobodyElseHolds(filed: Pid -> bool, s: State, t: Tid)
    requires Inv(filed, s) && Enabled(UnlockThenDrain, filed, s, Clear(t))
    ensures forall u :: !At(Apply(UnlockThenDrain, filed, s, Clear(t)), u, Holding(s.stage[t].hold))
  {
    var s' := Apply(UnlockThenDrain, filed, s, Clear(t));
    forall u ensures !At(s', u, Holding(s.stage[t].hold)) {
      assert Critical(s, t);
      assert At(s', u, Holding(s.stage[t].hold)) ==> Critical(s, u);
    }
  }

  /** Nothing leaks: when every goroutine is out (returned or crashed), every slot and,
      provided no unflock call failed, the OS lock are free, and any goroutine can acquire. */
  lemma NoStaleLock(filed: Pid -> bool, steps: seq<Step>, t: Tid)
    requires Run(UnlockThenDrain, filed, INIT, steps).Some?
    requires var s := Run(UnlockThenDrain, filed, INIT, steps).value;
             s.stage == map[] && !s.unlockFailed
    ensures var s := Run(UnlockThenDrain, filed, INIT, steps).value;
            && s.slot == {} && s.flock == None && s.armed == map[]
            && Run(UnlockThenDrain, filed, s, [Send(t), FlockOk(t)]).Some?
            && Critical(Run(UnlockThenDrain, filed, s, [Send(t), FlockOk(t)]).value, t)
  {
    RunKeepsInv(filed, INIT, steps);
    var s := Run(UnlockThenDrain, filed, INIT, steps).value;
    forall p, g ensures !Someone(s, p, g) { }
    assert forall p :: p in s.slot ==> Someone(s, p, g => true);
    assert s.slot == {} && s.armed == map[] && s.flock == None;
    RunTwo(UnlockThenDrain, filed, s, Send(t), FlockOk(t));
  }

  lemma RunTwo(order: ReleaseOrder, filed: Pid -> bool, s: State, a: Step, b: Step)
    requires Enabled(order, filed, s, a)
    requires Enabled(order, filed, Apply(order, filed, s, a), b)
    ensures Run(order, filed, s, [a, b]) == Some(Apply(order, filed, Apply(order, filed, s, a), b))
  {
    var s1 := Apply(order, filed, s, a);
    var s2 := Apply(order, filed, s1, b);
    assert [a, b][1..] == [b];
    assert Run(order, filed, s2, []) == Some(s2);
    assert [b][1..] == [];
    assert Run(order, filed, s1, [b]) == Some(s2);
  }

  lemma RunThree(order: ReleaseOrder, filed: Pid -> bool, s: State, a: Step, b: Step, c: Step)
    requires Enabled(order, filed, s, a)
    requires var s1 := Apply(order, filed, s, a);
             Enabled(order, filed, s1, b) && Enabled(order, filed, Apply(order, filed, s1, b), c)
    ensures Run(order, filed, s, [a, b, c])
            == Some(Apply(order, filed, Apply(order, filed, Apply(order, filed, s, a), b), c))
  {
    assert [a, b, c][1..] == [b, c];
    RunTwo(order, filed, Apply(order, filed, s, a), b, c);
  }

  lemma ReleasePath(filed: Pid -> bool, s: State, t: Tid, ok: bool)
    requires t in s.stage && s.stage[t].Holding? && t.pid in s.slot
    requires filed(t.pid) ==> s.flock == Some(t.pid)
    ensures Run(UnlockThenDrain, filed, s, [Clear(t), Unflock(t, ok), Drain(t)])
            == Some(State(s.stage - {t}, s.slot - {t.pid},
                          if filed(t.pid) && ok then None else s.flock,
                          s.armed - {t.pid}, s.cancelled, s.next,
                          s.unlockFailed || (filed(t.pid) && !ok)))
  {
    var s1 := Apply(UnlockThenDrain, filed, s, Clear(t));
    var s2 := Apply(UnlockThenDrain, filed, s1, Unflock(t, ok));
    RunThree(UnlockThenDrain, filed, s, Clear(t), Unflock(t, ok), Drain(t));
    assert s2.stage - {t} == s.stage - {t};
    if !(filed(t.pid) && ok) { assert s2.flock == s.flock || s.flock == Some(t.pid); }
  }

  /** The kernel's record of who owns the advisory lock on the run-lock path. */
  class FlockFile {
    var owner: Option<Pid>

    constructor ()
      ensures owner == None
    {
      owner := None;
    }
  }

  /** One process's Lock.  Each method is tied to the interleaved machine: run without
      interference it is a path of that machine, so everything proved above covers it. */
  class Lock {
    const pid: Pid
    const file: FlockFile?   // null for a memory-only lock
    var ch: bool             // the channel holds its token
    var runID: RunId
    var cancel: Option<Hold>

    constructor New(pid: Pid)
      ensures this.pid == pid && file == null && !ch && runID == 0 && cancel == None
    {
      this.pid, file, ch, runID, cancel := pid, null, false, 0, None;
    }

    constructor Open(pid: Pid, file: FlockFile)
      ensures this.pid == pid && this.file == file && !ch && runID == 0 && cancel == None
    {
      this.pid, this.file, ch, runID, cancel := pid, file, false, 0, None;
    }

    /** This lock's fields agree with the machine state `s`. */
    ghost predicate Shows(s: State)
      reads this, file
    {
      && ch == (pid in s.slot)
      && (file != null ==> file.owner == s.flock)
      && (cancel.Some? <==> pid in s.armed)
      && (pid in s.armed ==> s.armed[pid] == Armed(runID, cancel.value))
    }

    ghost predicate Filed(filed: Pid -> bool) { filed(pid) <==> file != null }

    /** `refused` is an error from flock other than "another process holds it". */
    method TryAcquire(refused: bool, ghost filed: Pid -> bool, ghost s: State, ghost t: Tid)
      returns (ok: bool, ghost steps: seq<Step>)
      requires Shows(s) && Filed(filed) && t.pid == pid && t !in s.stage
      modifies this`ch, file
      ensures Run(UnlockThenDrain, filed, s, steps).Some?
      ensures Shows(Run(UnlockThenDrain, filed, s, steps).value)
      ensures ok <==>
        !old(ch) && (file != null ==> !refused && (old(file.owner) == None || old(file.owner) == Some(pid)))
      ensures ok ==> steps == [Send(t), FlockOk(t)]
      ensures !ok ==> Run(UnlockThenDrain, filed, s, steps).value == s && ch == old(ch)
      ensures !ok && file != null ==> file.owner == old(file.owner)
    {
      steps := [];
      if ch { return false, []; }
      ch := true;
      if file != null {
        if refused || !(file.owner == None || file.owner == Some(pid)) {
          ch := false;
          steps := [Send(t), FlockRefused(t), Rollback(t)];
          RunThree(UnlockThenDrain, filed, s, Send(t), FlockRefused(t), Rollback(t));
          var s' := Run(UnlockThenDrain, filed, s, steps).value;
          assert s'.stage == s.stage && s'.slot == s.slot;
          return false, steps;
        }
        file.owner := Some(pid);
      }
      steps := [Send(t), FlockOk(t)];
      RunTwo(UnlockThenDrain, filed, s, Send(t), FlockOk(t));
      return true, steps;
    }

    method Arm(run: RunId, cancelFunc: Hold, ghost filed: Pid -> bool, ghost s: State, ghost t: Tid)
      requires Shows(s) && t.pid == pid && At(s, t, Holding(cancelFunc))
      modifies this`runID, this`cancel
      ensures Shows(Apply(UnlockThenDrain, filed, s, Step.Arm(t, run)))
      ensures runID == run && cancel == Some(cancelFunc)
    {
      runID, cancel := run, Some(cancelFunc);
    }

    /** `cancelled` is the hold whose context this call cancels. */
    method RequestStop(run: RunId, ghost filed: Pid -> bool, ghost s: State)
      returns (ok: bool, cancelled: Option<Hold>)
      requires Shows(s)
      ensures ok <==> pid in s.armed && s.armed[pid].run == run
      ensures cancelled == if ok then Some(s.armed[pid].hold) else None
      ensures Apply(UnlockThenDrain, filed, s, Step.RequestStop(pid, run)).cancelled
              == s.cancelled + (if ok then {cancelled.value} else {})
      ensures Shows(Apply(UnlockThenDrain, filed, s, Step.RequestStop(pid, run)))
    {
      if cancel == None || runID != run { return false, None; }
      return true, cancel;
    }

    /** `unlocked` is false when the unflock call itself fails; the code ignores that. */
    method Release(unlocked: bool, ghost filed: Pid -> bool, ghost s: State, ghost t: Tid)
      requires Shows(s) && Filed(filed) && pid in s.slot
      requires t.pid == pid && t in s.stage && s.stage[t].Holding?
      requires file != null ==> s.flock == Some(pid)   // Inv gives both of these
      modifies this`ch, this`runID, this`cancel, file
      ensures var steps := [Clear(t), Unflock(t, unlocked), Drain(t)];
              Run(UnlockThenDrain, filed, s, steps).Some?
              && Shows(Run(UnlockThenDrain, filed, s, steps).value)
              && Run(UnlockThenDrain, filed, s, steps).value.stage == s.stage - {t}
      ensures !ch && cancel == None
      ensures file != null ==> file.owner == if unlocked then None else old(file.owner)
    {
      runID, cancel := 0, None;
      if file != null && unlocked { file.owner := None; }
      ch := false;
      ReleasePath(filed, s, t, unlocked);
    }
  }
}
