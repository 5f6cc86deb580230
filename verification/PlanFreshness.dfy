/**
 How fresh a plan is when it is executed.  A plan made inside the hold that executes it cannot be
 overtaken; a plan made before it, as the HTTP trigger makes its plans, always can.
 */
module PlanFreshness {
  import opened Basics
  import opened RunLock

  ghost predicate Reachable(filed: Pid -> bool, s: State) {
    exists steps :: Run(UnlockThenDrain, filed, INIT, steps) == Some(s)
  }

  /** Someone is in the hold `h`. */
  ghost predicate Held(s: State, h: Hold) { exists t: Tid :: At(s, t, Holding(h)) }

  /** Someone is inside, and not in the hold `h`. */
  ghost predicate Other(s: State, h: Hold) {
    exists t: Tid :: Critical(s, t) && s.stage[t].hold != h
  }

  /** At some moment of the steps, both ends included, someone is in another hold than `h`. */
  ghost predicate Overtaken(filed: Pid -> bool, s: State, steps: seq<Step>, h: Hold)
    decreases |steps|
  {
    Other(s, h)
    || (steps != [] && Enabled(UnlockThenDrain, filed, s, steps[0])
        && Overtaken(filed, Apply(UnlockThenDrain, filed, s, steps[0]), steps[1..], h))
  }

  /** The goroutine `t` is given the hold `h` on the way. */
  ghost predicate Acquires(filed: Pid -> bool, s: State, steps: seq<Step>, t: Tid, h: Hold)
    decreases |steps|
  {
    steps != [] && Enabled(UnlockThenDrain, filed, s, steps[0])
    && ((steps[0] == FlockOk(t) && s.next == h)
        || Acquires(filed, Apply(UnlockThenDrain, filed, s, steps[0]), steps[1..], t, h))
  }

  /** A plan that `t` makes in the state `s` is being executed after the steps, in the hold `h`:
      the one `t` was in, or one it was given since; the executing goroutine may be another that
      it handed the hold on to. */
  ghost predicate ExecutedIn(filed: Pid -> bool, s: State, steps: seq<Step>, t: Tid, h: Hold) {
    && Run(UnlockThenDrain, filed, s, steps).Some?
    && Held(Run(UnlockThenDrain, filed, s, steps).value, h)
    && (At(s, t, Holding(h)) || (t !in s.stage && Acquires(filed, s, steps, t, h)))
  }

  /** Some run of the machine executes the plan after someone was in another hold. */
  ghost predicate CanBeOvertaken(filed: Pid -> bool, s: State, t: Tid) {
    exists steps, h :: ExecutedIn(filed, s, steps, t, h) && Overtaken(filed, s, steps, h)
  }

  // ---------------------------------------------------------------- planned inside the hold

  lemma OneHolder(filed: Pid -> bool, s: State, h: Hold)
    requires Inv(filed, s) && (forall p :: filed(p)) && Held(s, h)
    ensures !Other(s, h)
  {
    var t: Tid :| At(s, t, Holding(h));
    forall u | Critical(s, u) ensures s.stage[u].hold == h {
      assert Critical(s, t);
      assert s.flock == Some(t.pid) && s.flock == Some(u.pid);
    }
  }

  lemma NoAcquireWhileHeld(filed: Pid -> bool, s: State, step: Step, h: Hold)
    requires Inv(filed, s) && Enabled(UnlockThenDrain, filed, s, step) && Held(s, h)
    requires forall p :: filed(p)
    ensures Apply(UnlockThenDrain, filed, s, step).next == s.next
            || !Held(Apply(UnlockThenDrain, filed, s, step), h)
  {
    var s' := Apply(UnlockThenDrain, filed, s, step);
    StepKeepsInv(filed, s, step);
    HoldNumbers(filed, s, h);
    if step.FlockOk? {
      assert Critical(s', step.t) && s'.stage[step.t].hold == s.next;
      assert Other(s', h);
      if Held(s', h) { OneHolder(filed, s', h); }
    }
  }

  lemma HoldNumbers(filed: Pid -> bool, s: State, h: Hold)
    requires Inv(filed, s) && Held(s, h)
    ensures h < s.next
  {
    var u: Tid :| At(s, u, Holding(h));
    assert Critical(s, u) && s.stage[u].hold < s.next;
  }

  lemma NextGrows(filed: Pid -> bool, s: State, step: Step)
    requires Enabled(UnlockThenDrain, filed, s, step)
    ensures s.next <= Apply(UnlockThenDrain, filed, s, step).next
  {
  }

  lemma {:induction false} ReleasedForGood(filed: Pid -> bool, s: State, steps: seq<Step>, h: Hold)
    requires Inv(filed, s) && h < s.next && !Held(s, h)
    requires Run(UnlockThenDrain, filed, s, steps).Some?
    ensures !Held(Run(UnlockThenDrain, filed, s, steps).value, h)
    decreases |steps|
  {
    if steps != [] {
      StepKeepsInv(filed, s, steps[0]);
      assert Released(s, h);
      ReleasedStays(filed, s, steps[0], h);
      ReleasedForGood(filed, Apply(UnlockThenDrain, filed, s, steps[0]), steps[1..], h);
    }
  }

  /** From the moment a goroutine is in a hold until the last moment it, or the one it handed on
      to, is, nobody acquires and nobody is in another hold, in any process.  Pressure and
      command-line runs plan so. */
  lemma {:induction false} HeldPlanIsFresh(filed: Pid -> bool, s: State, steps: seq<Step>, h: Hold)
    requires Inv(filed, s) && (forall p :: filed(p)) && Held(s, h)
    requires Run(UnlockThenDrain, filed, s, steps).Some?
    requires Held(Run(UnlockThenDrain, filed, s, steps).value, h)
    ensures Run(UnlockThenDrain, filed, s, steps).value.next == s.next
    ensures !Overtaken(filed, s, steps, h)
    decreases |steps|
  {
    OneHolder(filed, s, h);
    if steps != [] {
      var s1 := Apply(UnlockThenDrain, filed, s, steps[0]);
      StepKeepsInv(filed, s, steps[0]);
      NoAcquireWhileHeld(filed, s, steps[0], h);
      HoldNumbers(filed, s, h);
      NextGrows(filed, s, steps[0]);
      if !Held(s1, h) {
        ReleasedForGood(filed, s1, steps[1..], h);
      } else {
        HeldPlanIsFresh(filed, s1, steps[1..], h);
      }
    }
  }

  // ---------------------------------------------------------------- planned before it

  /** The steps are possible, lead from `s` to `s'`, crash no process and are not taken by `t`. */
  ghost predicate Leads(filed: Pid -> bool, s: State, steps: seq<Step>, s': State, t: Tid) {
    && Run(UnlockThenDrain, filed, s, steps) == Some(s')
    && forall x :: x in steps ==> Without(x, t)
  }

  predicate Without(x: Step, t: Tid) {
    !x.Crash? && (x.RequestStop? || x.t != t)
  }

  lemma LeadsOne(filed: Pid -> bool, s: State, x: Step, t: Tid)
    requires Enabled(UnlockThenDrain, filed, s, x) && Without(x, t)
    ensures Leads(filed, s, [x], Apply(UnlockThenDrain, filed, s, x), t)
  {
    assert [x][1..] == [];
    var s' := Apply(UnlockThenDrain, filed, s, x);
    assert Run(UnlockThenDrain, filed, s', []) == Some(s');
  }

  lemma LeadsOn(filed: Pid -> bool, s: State, a: seq<Step>, m: State, b: seq<Step>, s': State, t: Tid)
    requires Leads(filed, s, a, m, t) && Leads(filed, m, b, s', t)
    ensures Leads(filed, s, a + b, s', t)
  {
    RunJoin(UnlockThenDrain, filed, s, a, b);
  }

  /** A holder can always release; the unlock then works, and frees the file. */
  lemma CanRelease(filed: Pid -> bool, s: State, u: Tid, t: Tid) returns (steps: seq<Step>, s': State)
    requires u in s.stage && s.stage[u].Holding? && u != t
    requires u.pid in s.slot && (filed(u.pid) ==> s.flock == Some(u.pid))   // Inv gives both
    ensures Leads(filed, s, steps, s', t) && s'.stage == s.stage - {u} && s'.next == s.next
    ensures filed(u.pid) ==> s'.flock == None
    ensures !filed(u.pid) ==> s'.flock == s.flock
  {
    ReleasePath(filed, s, u, true);
    steps := [Clear(u), Unflock(u, true), Drain(u)];
    s' := Run(UnlockThenDrain, filed, s, steps).value;
  }

  lemma TakeOne(filed: Pid -> bool, s: State, x: Step, t: Tid) returns (steps: seq<Step>, s': State)
    requires Inv(filed, s) && Enabled(UnlockThenDrain, filed, s, x) && Without(x, t)
    ensures Leads(filed, s, steps, s', t) && Inv(filed, s')
    ensures steps == [x] && s' == Apply(UnlockThenDrain, filed, s, x)
  {
    steps, s' := [x], Apply(UnlockThenDrain, filed, s, x);
    LeadsOne(filed, s, x, t);
    StepKeepsInv(filed, s, x);
  }

  lemma TakeTwo(filed: Pid -> bool, s: State, x: Step, y: Step, t: Tid) returns (steps: seq<Step>, s': State)
    requires Inv(filed, s) && Enabled(UnlockThenDrain, filed, s, x) && Without(x, t) && Without(y, t)
    requires Enabled(UnlockThenDrain, filed, Apply(UnlockThenDrain, filed, s, x), y)
    ensures Leads(filed, s, steps, s', t) && Inv(filed, s')
    ensures s' == Apply(UnlockThenDrain, filed, Apply(UnlockThenDrain, filed, s, x), y)
  {
    var a, m := TakeOne(filed, s, x, t);
    var b, e := TakeOne(filed, m, y, t);
    LeadsOn(filed, s, a, m, b, e, t);
    steps, s' := a + b, e;
  }

  lemma ClearedCanLeave(filed: Pid -> bool, s: State, u: Tid, t: Tid) returns (steps: seq<Step>, s': State)
    requires Inv(filed, s) && u in s.stage && s.stage[u].Cleared? && u != t
    ensures Leads(filed, s, steps, s', t) && s'.stage == s.stage - {u}
  {
    steps, s' := TakeTwo(filed, s, Unflock(u, true), Drain(u), t);
  }

  lemma RefusedCanLeave(filed: Pid -> bool, s: State, u: Tid, t: Tid) returns (steps: seq<Step>, s': State)
    requires Inv(filed, s) && At(s, u, Sent) && u != t && filed(u.pid)
    ensures Leads(filed, s, steps, s', t) && s'.stage == s.stage - {u}
  {
    steps, s' := TakeTwo(filed, s, FlockRefused(u), Rollback(u), t);
  }

  /** Without a file the pending acquisition succeeds, and is released again. */
  lemma SentCanLeave(filed: Pid -> bool, s: State, u: Tid, t: Tid) returns (steps: seq<Step>, s': State)
    requires At(s, u, Sent) && u.pid in s.slot && u != t && !filed(u.pid)
    ensures Leads(filed, s, steps, s', t) && s'.stage == s.stage - {u}
  {
    var m := Apply(UnlockThenDrain, filed, s, FlockOk(u));
    LeadsOne(filed, s, FlockOk(u), t);
    var rest;
    rest, s' := CanRelease(filed, m, u, t);
    LeadsOn(filed, s, [FlockOk(u)], m, rest, s', t);
    steps := [FlockOk(u)] + rest;
    assert m.stage == s.stage[u := Holding(s.next)];
  }

  /** Wherever a goroutine is inside, it can get out on its own, without a crash. */
  lemma CanLeave(filed: Pid -> bool, s: State, u: Tid, t: Tid) returns (steps: seq<Step>, s': State)
    requires Inv(filed, s) && u in s.stage && u != t
    ensures Leads(filed, s, steps, s', t) && s'.stage == s.stage - {u}
  {
    assert u.pid in s.slot;
    match s.stage[u]
    case Holding(_) =>
      assert Critical(s, u);
      steps, s' := CanRelease(filed, s, u, t);
    case Half => steps, s' := TakeOne(filed, s, Drain(u), t);
    case RollingBack => steps, s' := TakeOne(filed, s, Rollback(u), t);
    case Cleared(_) => steps, s' := ClearedCanLeave(filed, s, u, t);
    case Sent =>
      if filed(u.pid) {
        steps, s' := RefusedCanLeave(filed, s, u, t);
      } else {
        steps, s' := SentCanLeave(filed, s, u, t);
      }
  }

  /** So everyone can: from every reachable state the machine comes to rest. */
  lemma {:induction false} CanRest(filed: Pid -> bool, s: State, t: Tid) returns (steps: seq<Step>, s': State)
    requires Inv(filed, s) && t !in s.stage
    ensures Leads(filed, s, steps, s', t) && Inv(filed, s') && s'.stage == map[]
    decreases |s.stage|
  {
    steps, s' := [], s;
    if s.stage != map[] {
      var u: Tid :| u in s.stage;
      var a, m := CanLeave(filed, s, u, t);
      RunKeepsInv(filed, s, a);
      assert m.stage.Keys == s.stage.Keys - {u};
      var b, e := CanRest(filed, m, t);
      LeadsOn(filed, s, a, m, b, e, t);
      steps, s' := a + b, e;
    }
  }

  /** At rest, a goroutine of the process that still owns the file, if one does, can acquire. */
  lemma AtRest(filed: Pid -> bool, s: State, u: Tid)
    requires Inv(filed, s) && s.stage == map[]
    requires s.flock.Some? ==> s.flock == Some(u.pid)
    ensures s.slot == {}
    ensures Enabled(UnlockThenDrain, filed, s, Send(u))
    ensures Enabled(UnlockThenDrain, filed, Apply(UnlockThenDrain, filed, s, Send(u)), FlockOk(u))
  {
    forall p ensures p !in s.slot { assert !Someone(s, p, g => true); }
  }

  lemma {:induction false} OvertakenLater(filed: Pid -> bool, s: State, a: seq<Step>, m: State, b: seq<Step>, h: Hold)
    requires Run(UnlockThenDrain, filed, s, a) == Some(m) && Overtaken(filed, m, b, h)
    ensures Overtaken(filed, s, a + b, h)
    decreases |a|
  {
    if a == [] {
      assert a + b == b;
    } else {
      assert (a + b)[1..] == a[1..] + b;
      OvertakenLater(filed, Apply(UnlockThenDrain, filed, s, a[0]), a[1..], m, b, h);
    }
  }

  lemma {:induction false} AcquiresLater(filed: Pid -> bool, s: State, a: seq<Step>, m: State, b: seq<Step>,
                                         t: Tid, h: Hold)
    requires Run(UnlockThenDrain, filed, s, a) == Some(m) && Acquires(filed, m, b, t, h)
    ensures Acquires(filed, s, a + b, t, h)
    decreases |a|
  {
    if a == [] {
      assert a + b == b;
    } else {
      assert (a + b)[1..] == a[1..] + b;
      AcquiresLater(filed, Apply(UnlockThenDrain, filed, s, a[0]), a[1..], m, b, t, h);
    }
  }

  /** Another goroutine can be in a hold and release it, with the file free afterwards. */
  lemma CanIntrude(filed: Pid -> bool, s: State, t: Tid) returns (steps: seq<Step>, s': State)
    requires Inv(filed, s) && s.stage == map[]
    ensures Leads(filed, s, steps, s', t) && Overtaken(filed, s, steps, s'.next)
    ensures Inv(filed, s') && s'.stage == map[] && s'.flock == None
  {
    var u := Tid(if s.flock.Some? then s.flock.value else t.pid, t.gid + 1);
    AtRest(filed, s, u);
    var a, m := TakeTwo(filed, s, Send(u), FlockOk(u), t);
    assert Critical(m, u) && m.stage[u].hold != m.next;
    var b, e := CanRelease(filed, m, u, t);
    LeadsOn(filed, s, a, m, b, e, t);
    OvertakenLater(filed, s, a, m, b, m.next);
    RunKeepsInv(filed, m, b);
    steps, s' := a + b, e;
    assert s'.stage == map[];
  }

  /** The planner, outside, can take the free lock. */
  lemma CanTake(filed: Pid -> bool, s: State, t: Tid) returns (steps: seq<Step>)
    requires Inv(filed, s) && s.stage == map[] && s.flock == None
    ensures Run(UnlockThenDrain, filed, s, steps).Some?
    ensures At(Run(UnlockThenDrain, filed, s, steps).value, t, Holding(s.next))
    ensures Acquires(filed, s, steps, t, s.next)
    ensures forall x :: x in steps ==> !x.Crash?
  {
    AtRest(filed, s, t);
    steps := [Send(t), FlockOk(t)];
    RunTwo(UnlockThenDrain, filed, s, Send(t), FlockOk(t));
    assert steps[1..] == [FlockOk(t)];
    assert Acquires(filed, Apply(UnlockThenDrain, filed, s, Send(t)), steps[1..], t, s.next);
  }

  lemma {:induction false} OvertakenFirst(filed: Pid -> bool, s: State, a: seq<Step>, b: seq<Step>, h: Hold)
    requires Overtaken(filed, s, a, h)
    ensures Overtaken(filed, s, a + b, h)
    decreases |a|
  {
    if !Other(s, h) {
      assert (a + b)[1..] == a[1..] + b;
      OvertakenFirst(filed, Apply(UnlockThenDrain, filed, s, a[0]), a[1..], b, h);
    }
  }

  lemma CanBePassed(filed: Pid -> bool, s: State, t: Tid) returns (steps: seq<Step>, s': State)
    requires Inv(filed, s) && t !in s.stage
    ensures Leads(filed, s, steps, s', t) && Overtaken(filed, s, steps, s'.next)
    ensures Inv(filed, s') && s'.stage == map[] && s'.flock == None
  {
    var a, m := CanRest(filed, s, t);
    var b, e := CanIntrude(filed, m, t);
    LeadsOn(filed, s, a, m, b, e, t);
    OvertakenLater(filed, s, a, m, b, e.next);
    steps, s' := a + b, e;
  }

  /** From every reachable state, a goroutine that plans outside the lock can find itself executing
      the plan after another one has been in a hold, and nobody needs to crash for that. */
  lemma PlanBeforeLockCanBeStale(filed: Pid -> bool, s: State, t: Tid) returns (steps: seq<Step>, h: Hold)
    requires Inv(filed, s) && t !in s.stage
    ensures ExecutedIn(filed, s, steps, t, h) && Overtaken(filed, s, steps, h)
    ensures forall x :: x in steps ==> !x.Crash?
  {
    var before, m := CanBePassed(filed, s, t);
    var take := CanTake(filed, m, t);
    h, steps := m.next, before + take;
    RunJoin(UnlockThenDrain, filed, s, before, take);
    AcquiresLater(filed, s, before, m, take, t, h);
    OvertakenFirst(filed, s, before, take, h);
    assert At(Run(UnlockThenDrain, filed, s, steps).value, t, Holding(h));
  }

  /** A plan can be overtaken before it is executed if and only if the planner was not inside the
      executing hold when it planned. */
  lemma OvertakenExactly(filed: Pid -> bool, s: State, t: Tid)
    requires Reachable(filed, s) && (forall p :: filed(p))
    requires t in s.stage ==> s.stage[t].Holding?
    ensures CanBeOvertaken(filed, s, t) <==> t !in s.stage
  {
    var before :| Run(UnlockThenDrain, filed, INIT, before) == Some(s);
    RunKeepsInv(filed, INIT, before);
    if t !in s.stage {
      var steps, h := PlanBeforeLockCanBeStale(filed, s, t);
    } else {
      forall steps, h | ExecutedIn(filed, s, steps, t, h) ensures !Overtaken(filed, s, steps, h) {
        HeldPlanIsFresh(filed, s, steps, h);
      }
    }
  }
}
