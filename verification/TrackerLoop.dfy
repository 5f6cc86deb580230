/**
 The tracker poller's loop: a periodic full sweep, and a catch-up pass some time after the
 torrent poller has signalled new torrents.  Signals travel over a channel that holds one token.
 */
module TrackerLoop {
  import opened Basics
  import opened Machine

  datatype Place = Selecting | InPass | Stopped

  /** `stale` is true when there was a signal since the last catch-up pass started. */
  datatype State = State(place: Place, debouncing: bool, token: bool, stale: bool)

  datatype Step = Signal | Receive | Fire | Sweep | EndPass | Cancel

  /** The first sweep runs before the loop. */
  const INITIAL := State(InPass, false, false, false)

  predicate Enabled(s: State, step: Step) {
    match step
    case Signal => true
    case Receive => s.place == Selecting && s.token
    case Fire => s.place == Selecting && s.debouncing
    case Sweep => s.place == Selecting
    case EndPass => s.place == InPass
    case Cancel => s.place == Selecting
  }

  /** A signal received while the timer runs is absorbed by it. */
  function Apply(s: State, step: Step): State
    requires Enabled(s, step)
  {
    match step
    case Signal => s.(token := true, stale := true)
    case Receive => s.(token := false, debouncing := true)
    case Fire => State(InPass, false, s.token, false)
    case Sweep => s.(place := InPass)
    case EndPass => s.(place := Selecting)
    case Cancel => s.(place := Stopped)
  }

  function Next(s: State, step: Step): Option<State> {
    if Enabled(s, step) then Some(Apply(s, step)) else None
  }

  predicate Runs(s: State, steps: seq<Step>) { Run(Next, s, steps).Some? }

  function After(s: State, steps: seq<Step>): State
    requires Runs(s, steps)
  {
    Run(Next, s, steps).value
  }

  function Count(steps: seq<Step>, kind: set<Step>): nat {
    if steps == [] then 0 else (if steps[0] in kind then 1 else 0) + Count(steps[1..], kind)
  }

  const OWN := {Receive, Fire, EndPass}
  const DELAYS := {Signal, Sweep}

  predicate Awake(s: State) {
    s.stale ==> s.token || s.debouncing
  }

  lemma {:induction false} AwakeAlways(s: State, steps: seq<Step>)
    requires Awake(s) && Runs(s, steps)
    ensures Awake(After(s, steps))
    decreases |steps|
  {
    if steps != [] { AwakeAlways(Apply(s, steps[0]), steps[1..]); }
  }

  function Distance(s: State): nat {
    (if s.debouncing then (if s.token then 2 else 1) else 2) + (if s.place == InPass then 1 else 0)
  }

  lemma NeverStuck(s: State)
    requires Awake(s) && s.stale && s.place != Stopped
    ensures exists step :: step in OWN && Enabled(s, step)
  {
    assert Enabled(s, EndPass) || Enabled(s, Fire) || Enabled(s, Receive);
  }

  lemma Closer(s: State, step: Step)
    requires Awake(s) && s.stale && s.place != Stopped && Enabled(s, step) && step != Fire && step != Cancel
    ensures var t := Apply(s, step);
      && Awake(t) && t.stale && t.place != Stopped
      && Distance(t) <= (if step in OWN then Distance(s) - 1 else Distance(s) + 1)
  {
  }

  lemma {:induction false} CatchUpComes(s: State, steps: seq<Step>)
    requires Awake(s) && s.stale && s.place != Stopped && Runs(s, steps) && Cancel !in steps
    requires Count(steps, OWN) >= Distance(s) + Count(steps, DELAYS)
    ensures Fire in steps
    decreases |steps|
  {
    if steps == [] {
      assert false;
    } else if steps[0] != Fire {
      Closer(s, steps[0]);
      CatchUpComes(Apply(s, steps[0]), steps[1..]);
    }
  }

  lemma {:induction false} NotStopped(s: State, steps: seq<Step>)
    requires Runs(s, steps) && s.place != Stopped && Cancel !in steps
    ensures After(s, steps).place != Stopped
    decreases |steps|
  {
    if steps != [] { NotStopped(Apply(s, steps[0]), steps[1..]); }
  }

  /** No lost wake-up: after any signal, dropped or not, a catch-up pass starts, unless the loop
      is cancelled, within three steps of the poller plus one for every further signal or sweep. */
  lemma NoLostWakeUp(before: seq<Step>, later: seq<Step>)
    requires Runs(INITIAL, before + ([Signal] + later)) && Cancel !in before && Cancel !in later
    requires Count(later, OWN) >= 3 + Count(later, DELAYS)
    ensures Fire in later
  {
    RunJoin(Next, INITIAL, before, [Signal] + later);
    var s := After(INITIAL, before);
    AwakeAlways(INITIAL, before);
    NotStopped(INITIAL, before);
    assert ([Signal] + later)[1..] == later;
    CatchUpComes(Apply(s, Signal), later);
  }

  // ---------------------------------------------------------------- states as histories

  /** The channel holds a token exactly when there was a signal since the last receive, the timer
      runs exactly when there was a receive since the last catch-up, and a catch-up is owed exactly
      when there was a signal since the last one. */
  lemma {:induction false} StateIsHistory(steps: seq<Step>)
    requires Runs(INITIAL, steps)
    ensures var s := After(INITIAL, steps);
      && (s.token <==> Since(steps, Signal, {Receive}))
      && (s.debouncing <==> Since(steps, Receive, {Fire}))
      && (s.stale <==> Since(steps, Signal, {Fire}))
  {
    if steps == [] {
      assert Run(Next, INITIAL, []) == Some(INITIAL);
    } else {
      var n := |steps| - 1;
      var before, last := steps[..n], steps[n];
      assert steps == before + [last];
      RunJoin(Next, INITIAL, before, [last]);
      Then(Next, INITIAL, before, last);
      StateIsHistory(before);
      SinceStep(before, last, Signal, {Receive});
      SinceStep(before, last, Receive, {Fire});
      SinceStep(before, last, Signal, {Fire});
    }
  }

  // ---------------------------------------------------------------- the loop in place

  class Poller {
    var place: Place
    var debouncing: bool
    var token: bool           // the signal channel

    /** The poller is in the machine's state `s`. */
    ghost predicate Shows(s: State)
      reads this
    {
      place == s.place && debouncing == s.debouncing && token == s.token
    }

    constructor ()
      ensures Shows(INITIAL)
    {
      place, debouncing, token := InPass, false, false;
    }

    /** A branch of the select, the end of a pass, or a signal from outside. */
    method Take(step: Step, ghost s: State)
      requires Shows(s) && Enabled(s, step)
      modifies this
      ensures Shows(Apply(s, step))
    {
      match step {
        case Signal => if !token { token := true; }
        case Receive =>
          token := false;
          if !debouncing { debouncing := true; }
        case Fire =>
          debouncing := false;
          place := InPass;
        case Sweep => place := InPass;
        case EndPass => place := Selecting;
        case Cancel => place := Stopped;
      }
    }

    /** One more step of a run that began in `s`. */
    method Go(step: Step, ghost s: State, ghost before: seq<Step>) returns (ghost steps: seq<Step>)
      requires Runs(s, before) && Shows(After(s, before)) && Enabled(After(s, before), step)
      modifies this
      ensures steps == before + [step] && Runs(s, steps) && Shows(After(s, steps))
      ensures After(s, steps) == Apply(After(s, before), step)
    {
      Take(step, After(s, before));
      Then(Next, s, before, step);
      steps := before + [step];
    }

    /** The rest of a branch that runs a pass. */
    method FinishPass(signalInPass: bool, ghost s: State, ghost before: seq<Step>) returns (ghost steps: seq<Step>)
      requires Runs(s, before) && Shows(After(s, before)) && After(s, before).place == InPass
      modifies this
      ensures steps == before + (if signalInPass then [Signal] else []) + [EndPass]
      ensures Runs(s, steps) && Shows(After(s, steps)) && After(s, steps).place == Selecting
    {
      steps := before;
      if signalInPass { steps := Go(Signal, s, steps); }
      steps := Go(EndPass, s, steps);
    }

    /** One turn of the select, around which `m` happens: a signal before it, which timers are due
        and whether the context is done, which of the ready branches is taken, and a signal during
        the pass it may run. */
    method Turn(m: Moment, ghost s: State) returns (stopped: bool, ghost steps: seq<Step>)
      requires Shows(s) && s.place == Selecting
      modifies this
      ensures Runs(s, steps) && Shows(After(s, steps))
      ensures After(s, steps).place == if stopped then Stopped else Selecting
      ensures steps == TurnSteps(s, m)
      ensures stopped <==> Taking(s, m) == Some(Cancel)
    {
      steps := [];
      if m.signal { steps := Go(Signal, s, steps); }
      assert steps == Signalled(m);
      var choice := Choice(token, debouncing, m);
      if choice == None { return false, steps; }
      ChoiceIsReady(token, debouncing, m);
      steps := Branch(choice.value, m, s, steps);
      return choice.value == Cancel, steps;
    }

    /** A branch of the select, with the pass it runs. */
    method Branch(step: Step, m: Moment, ghost s: State, ghost before: seq<Step>) returns (ghost steps: seq<Step>)
      requires Runs(s, before) && Shows(After(s, before)) && After(s, before).place == Selecting
      requires Enabled(After(s, before), step) && step != Signal
      modifies this
      ensures steps == before + Taken(Some(step), m)
      ensures Runs(s, steps) && Shows(After(s, steps))
      ensures After(s, steps).place == if step == Cancel then Stopped else Selecting
    {
      steps := Go(step, s, before);
      if step == Fire || step == Sweep { steps := FinishPass(m.signalInPass, s, steps); }
    }

    /** The loop over any finite number of turns: the first sweep, during which a signal may
        come, then the turns of the select until one of them is cancelled. */
    method Loop(signalInSweep: bool, moments: seq<Moment>) returns (ghost steps: seq<Step>)
      requires Shows(INITIAL)
      modifies this
      ensures steps == FirstSweep(signalInSweep) + Turns(AfterSweep(signalInSweep), moments)
      ensures Runs(INITIAL, steps) && Shows(After(INITIAL, steps))
    {
      assert Run(Next, INITIAL, []) == Some(INITIAL);
      steps := FinishPass(signalInSweep, INITIAL, []);
      SweepRuns(signalInSweep);
      for i := 0 to |moments|
        invariant Runs(INITIAL, steps) && Shows(After(INITIAL, steps)) && place == Selecting
        invariant steps + Turns(After(INITIAL, steps), moments[i..])
               == FirstSweep(signalInSweep) + Turns(AfterSweep(signalInSweep), moments)
      {
        ghost var s := After(INITIAL, steps);
        TurnsFrom(s, moments, i);
        ghost var more;
        var stopped;
        stopped, more := Turn(moments[i], s);
        RunJoin(Next, INITIAL, steps, more);
        Regroup(steps, more, if stopped then [] else Turns(After(s, more), moments[i + 1..]));
        steps := steps + more;
        if stopped { return; }
      }
    }
  }

  datatype Moment = Moment(
    signal: bool, fullDue: bool, debounceDue: bool, cancelled: bool, pick: nat, signalInPass: bool)

  /** The branches of the select that can be taken. */
  function Ready(token: bool, debouncing: bool, m: Moment): seq<Step> {
    (if m.cancelled then [Cancel] else []) + (if m.fullDue then [Sweep] else [])
    + (if token then [Receive] else []) + (if debouncing && m.debounceDue then [Fire] else [])
  }

  /** The branch the select takes, if any is ready. */
  function Choice(token: bool, debouncing: bool, m: Moment): Option<Step> {
    var ready := Ready(token, debouncing, m);
    if ready == [] then None else Some(ready[m.pick % |ready|])
  }

  lemma ChoiceIsReady(token: bool, debouncing: bool, m: Moment)
    ensures Choice(token, debouncing, m).Some? ==>
      match Choice(token, debouncing, m).value
      case Cancel => m.cancelled
      case Sweep => m.fullDue
      case Receive => token
      case Fire => debouncing && m.debounceDue
      case _ => false
  {
    var ready := Ready(token, debouncing, m);
    if ready != [] { assert ready[m.pick % |ready|] in ready; }
  }

  /** Any ready branch can be the one taken. */
  lemma AnyReadyBranch(token: bool, debouncing: bool, m: Moment, k: nat)
    requires k < |Ready(token, debouncing, m)|
    ensures Choice(token, debouncing, m.(pick := k)) == Some(Ready(token, debouncing, m)[k])
  {
    assert Ready(token, debouncing, m.(pick := k)) == Ready(token, debouncing, m);
  }

  function Signalled(m: Moment): seq<Step> { if m.signal then [Signal] else [] }

  /** The steps of the branch: a fire and a sweep run their pass to its end. */
  function Taken(choice: Option<Step>, m: Moment): seq<Step> {
    match choice
    case None => []
    case Some(step) =>
      [step] + if step == Fire || step == Sweep then (if m.signalInPass then [Signal] else []) + [EndPass] else []
  }

  function FirstSweep(signalled: bool): seq<Step> { (if signalled then [Signal] else []) + [EndPass] }

  function AfterSweep(signalled: bool): State { State(Selecting, false, signalled, signalled) }

  lemma SweepRuns(signalled: bool)
    ensures Run(Next, INITIAL, FirstSweep(signalled)) == Some(AfterSweep(signalled))
  {
    if signalled { Then(Next, INITIAL, [Signal], EndPass); }
  }

  /** The branch a turn takes, if any. */
  function Taking(s: State, m: Moment): Option<Step> { Choice(s.token || m.signal, s.debouncing, m) }

  /** What happens in one turn. */
  function TurnSteps(s: State, m: Moment): seq<Step> { Signalled(m) + Taken(Taking(s, m), m) }

  lemma SignalledRuns(s: State, m: Moment)
    ensures Run(Next, s, Signalled(m)) == Some(if m.signal then Apply(s, Signal) else s)
  {
    if m.signal { RunOne(Next, s, Signal); } else { assert Run(Next, s, []) == Some(s); }
  }

  lemma PassRuns(s: State, m: Moment, step: Step)
    requires s.place == Selecting && Enabled(s, step) && (step == Fire || step == Sweep)
    ensures Runs(s, Taken(Some(step), m)) && After(s, Taken(Some(step), m)).place == Selecting
  {
    RunOne(Next, s, step);
    if m.signalInPass {
      Then(Next, s, [step], Signal);
      Then(Next, s, [step] + [Signal], EndPass);
      assert Taken(Some(step), m) == [step] + [Signal] + [EndPass];
    } else {
      Then(Next, s, [step], EndPass);
      assert Taken(Some(step), m) == [step] + [EndPass];
    }
  }

  lemma TakenRuns(s: State, m: Moment, step: Step)
    requires s.place == Selecting && Enabled(s, step) && step in {Cancel, Sweep, Receive, Fire}
    ensures Runs(s, Taken(Some(step), m))
    ensures After(s, Taken(Some(step), m)).place == if step == Cancel then Stopped else Selecting
  {
    if step == Fire || step == Sweep {
      PassRuns(s, m, step);
    } else {
      RunOne(Next, s, step);
      assert Taken(Some(step), m) == [step];
    }
  }

  lemma TurnRuns(s: State, m: Moment)
    requires s.place == Selecting
    ensures Runs(s, TurnSteps(s, m))
    ensures After(s, TurnSteps(s, m)).place == if Taking(s, m) == Some(Cancel) then Stopped else Selecting
  {
    SignalledRuns(s, m);
    var now := if m.signal then Apply(s, Signal) else s;
    RunJoin(Next, s, Signalled(m), Taken(Taking(s, m), m));
    ChoiceIsReady(s.token || m.signal, s.debouncing, m);
    match Taking(s, m)
    case None => assert Run(Next, now, []) == Some(now);
    case Some(step) => TakenRuns(now, m, step);
  }

  /** What happens in the turns, one after another, until one is cancelled. */
  function Turns(s: State, moments: seq<Moment>): seq<Step>
    requires s.place == Selecting
    decreases |moments|
  {
    if moments == [] then [] else
    var first := TurnSteps(s, moments[0]);
    TurnRuns(s, moments[0]);
    first + if Taking(s, moments[0]) == Some(Cancel) then [] else Turns(After(s, first), moments[1..])
  }

  lemma Regroup(a: seq<Step>, b: seq<Step>, c: seq<Step>)
    ensures (a + b) + c == a + (b + c)
  {
  }

  lemma TurnsFrom(s: State, moments: seq<Moment>, i: nat)
    requires s.place == Selecting && i < |moments|
    ensures Runs(s, TurnSteps(s, moments[i]))
    ensures Taking(s, moments[i]) == Some(Cancel) ==> Turns(s, moments[i..]) == TurnSteps(s, moments[i])
    ensures Taking(s, moments[i]) != Some(Cancel) ==>
      var next := After(s, TurnSteps(s, moments[i]));
      next.place == Selecting && Turns(s, moments[i..]) == TurnSteps(s, moments[i]) + Turns(next, moments[i + 1..])
  {
    TurnRuns(s, moments[i]);
    assert moments[i..][0] == moments[i] && moments[i..][1..] == moments[i + 1..];
  }
}
