/**
 The scorer's wake-up: pollers signal over a channel that holds one token and drop a signal when
 it is full; the scorer waits for a token, lets a burst settle, empties the channel and starts a
 pass.  Pollers and scorer interleave arbitrarily.
 */
module ScorerLoop {
  import opened Basics
  import opened Machine

  datatype Phase = Waiting | Settling | Draining | Emptied | Scoring | Stopped

  /** `stale` is true when a poller has signalled since the last pass started. */
  datatype State = State(phase: Phase, token: bool, stale: bool)

  /** Signal is a poller's; the others are the scorer's. */
  datatype Step = Signal | Receive | Settled | DrainOne | DrainDone | StartPass | EndPass | Cancel

  const INITIAL := State(Waiting, false, false)

  predicate Enabled(s: State, step: Step) {
    match step
    case Signal => true
    case Receive => s.phase == Waiting && s.token
    case Settled => s.phase == Settling
    case DrainOne => s.phase == Draining && s.token
    case DrainDone => s.phase == Draining && !s.token
    case StartPass => s.phase == Emptied
    case EndPass => s.phase == Scoring
    case Cancel => s.phase == Waiting || s.phase == Settling || s.phase == Scoring
  }

  function Apply(s: State, step: Step): State
    requires Enabled(s, step)
  {
    match step
    case Signal => State(s.phase, true, true)
    case Receive => s.(phase := Settling, token := false)
    case Settled => s.(phase := Draining)
    case DrainOne => s.(token := false)
    case DrainDone => s.(phase := Emptied)
    case StartPass => State(Scoring, s.token, false)
    case EndPass => s.(phase := Waiting)
    case Cancel => s.(phase := Stopped)
  }

  function Next(s: State, step: Step): Option<State> {
    if Enabled(s, step) then Some(Apply(s, step)) else None
  }

  /** All the steps can be taken, one after another. */
  predicate Runs(s: State, steps: seq<Step>) { Run(Next, s, steps).Some? }

  function After(s: State, steps: seq<Step>): State
    requires Runs(s, steps)
  {
    Run(Next, s, steps).value
  }

  function Count(steps: seq<Step>, own: bool): nat {
    if steps == [] then 0 else (if (steps[0] != Signal) == own then 1 else 0) + Count(steps[1..], own)
  }

  function Passes(steps: seq<Step>): nat {
    if steps == [] then 0 else (if steps[0] == StartPass then 1 else 0) + Passes(steps[1..])
  }

  predicate OnItsWay(p: Phase) { p == Settling || p == Draining || p == Emptied }

  /** A signal newer than the last pass has left a token behind or a pass is on its way. */
  predicate Awake(s: State) {
    s.phase != Stopped && s.stale ==> s.token || OnItsWay(s.phase)
  }

  lemma AwakeKept(s: State, step: Step)
    requires Awake(s) && Enabled(s, step)
    ensures Awake(Apply(s, step))
  {
  }

  lemma {:induction false} AwakeAlways(s: State, steps: seq<Step>)
    requires Awake(s) && Runs(s, steps)
    ensures Awake(After(s, steps))
    decreases |steps|
  {
    if steps != [] {
      AwakeKept(s, steps[0]);
      AwakeAlways(Apply(s, steps[0]), steps[1..]);
    }
  }

  /** A scorer that owes a pass can always take a step of its own towards it. */
  lemma NeverStuck(s: State)
    requires Awake(s) && s.stale && s.phase != Stopped
    ensures exists step :: step != Signal && step != Cancel && Enabled(s, step)
  {
    match s.phase
    case Waiting => assert Enabled(s, Receive);
    case Settling => assert Enabled(s, Settled);
    case Draining => assert Enabled(s, DrainOne) || Enabled(s, DrainDone);
    case Emptied => assert Enabled(s, StartPass);
    case Scoring => assert Enabled(s, EndPass);
  }

  /** How many of its own steps the scorer is away from its next pass. */
  function Distance(s: State): nat {
    match s.phase
    case Scoring => 6
    case Waiting => 5
    case Settling => if s.token then 4 else 3
    case Draining => if s.token then 3 else 2
    case Emptied => 1
    case Stopped => 0
  }

  lemma Closer(s: State, step: Step)
    requires Awake(s) && s.stale && s.phase != Stopped && Enabled(s, step) && step != StartPass && step != Cancel
    ensures var t := Apply(s, step);
      && Awake(t) && t.stale && t.phase != Stopped
      && Distance(t) <= (if step == Signal then Distance(s) + 1 else Distance(s) - 1)
  {
  }

  lemma {:induction false} PassComes(s: State, steps: seq<Step>)
    requires Awake(s) && s.stale && s.phase != Stopped && Runs(s, steps) && Cancel !in steps
    requires Count(steps, true) >= Distance(s) + Count(steps, false)
    ensures StartPass in steps
    decreases |steps|
  {
    if steps == [] {
      assert false;
    } else if steps[0] != StartPass {
      Closer(s, steps[0]);
      PassComes(Apply(s, steps[0]), steps[1..]);
    }
  }

  /** No lost wake-up: after any signal, dropped or not, a pass starts, unless the loop is
      cancelled, within six steps of the scorer plus one for every further signal. */
  lemma NoLostWakeUp(before: seq<Step>, later: seq<Step>)
    requires Runs(INITIAL, before + ([Signal] + later)) && Cancel !in before && Cancel !in later
    requires Count(later, true) >= 6 + Count(later, false)
    ensures StartPass in later
  {
    RunJoin(Next, INITIAL, before, [Signal] + later);
    var s := After(INITIAL, before);
    AwakeAlways(INITIAL, before);
    NotStopped(INITIAL, before);
    AwakeKept(s, Signal);
    assert ([Signal] + later)[1..] == later;
    PassComes(Apply(s, Signal), later);
  }

  lemma {:induction false} NotStopped(s: State, steps: seq<Step>)
    requires Runs(s, steps) && s.phase != Stopped && Cancel !in steps
    ensures After(s, steps).phase != Stopped
    decreases |steps|
  {
    if steps != [] { NotStopped(Apply(s, steps[0]), steps[1..]); }
  }

  /** Bursts collapse: there is never more than one pass to a signal, nor one without any. */
  lemma {:induction false} AtMostOnePassPerSignal(s: State, steps: seq<Step>)
    requires Runs(s, steps)
    ensures Passes(steps) + Owed(After(s, steps)) <= Owed(s) + Count(steps, false)
    decreases |steps|
  {
    if steps != [] { AtMostOnePassPerSignal(Apply(s, steps[0]), steps[1..]); }
  }

  /** Tokens received or waiting that have not led to a pass. */
  function Owed(s: State): nat {
    (if s.token then 1 else 0) + (if OnItsWay(s.phase) then 1 else 0)
  }

  // ---------------------------------------------------------------- states as histories

  /** The channel holds a token exactly when there was a signal since the last receive, draining
      included, and a pass is owed exactly when there was a signal since the last one started. */
  lemma {:induction false} StateIsHistory(steps: seq<Step>)
    requires Runs(INITIAL, steps)
    ensures var s := After(INITIAL, steps);
      && (s.token <==> Since(steps, Signal, {Receive, DrainOne}))
      && (s.stale <==> Since(steps, Signal, {StartPass}))
  {
    if steps == [] {
      assert Run(Next, INITIAL, []) == Some(INITIAL);
    } else {
      var n := |steps| - 1;
      var before, last := steps[..n], steps[n];
      assert steps == before + [last];
      RunJoin(Next, INITIAL, before, [last]);
      Then(Next, INITIAL, before, last);
      StateIsHistory(before);
      SinceStep(before, last, Signal, {Receive, DrainOne});
      SinceStep(before, last, Signal, {StartPass});
    }
  }

  // ---------------------------------------------------------------- the loop in place

  class Channel {
    var full: bool

    constructor ()
      ensures !full
    {
      full := false;
    }
  }

  /** A poller's tick: after a success it signals, dropping the signal when the channel is full. */
  method RunOnce(notify: Channel, tickFails: bool, ghost s: State) returns (ghost steps: seq<Step>)
    requires notify.full == s.token
    modifies notify
    ensures steps == if tickFails then [] else [Signal]
    ensures Runs(s, steps) && notify.full == After(s, steps).token
  {
    steps := [];
    if !tickFails {
      if !notify.full { notify.full := true; }
      steps := [Signal];
    }
  }

  /** Empties the channel; `late[i]` says whether a poller signals right after the i-th receive. */
  method Drain(ch: Channel, late: seq<bool>, ghost s: State) returns (ghost steps: seq<Step>)
    requires s.phase == Draining && ch.full == s.token
    modifies ch
    ensures !ch.full && Runs(s, steps) && Passes(steps) == 0
    ensures After(s, steps).phase == Emptied && !After(s, steps).token
  {
    steps := [];
    var i := 0;
    while ch.full
      invariant 0 <= i && Runs(s, steps) && Passes(steps) == 0
      invariant After(s, steps).phase == Draining && After(s, steps).token == ch.full
      decreases if i < |late| then |late| - i else 0, ch.full
    {
      ch.full := false;
      steps := OneMore(s, steps, DrainOne);
      if i < |late| && late[i] {
        ch.full := true;
        steps := OneMore(s, steps, Signal);
      }
      i := i + 1;
    }
    steps := OneMore(s, steps, DrainDone);
  }

  /** One more step at the end of a run. */
  lemma OneMore(s: State, before: seq<Step>, step: Step) returns (steps: seq<Step>)
    requires Runs(s, before) && Enabled(After(s, before), step)
    ensures steps == before + [step] && Runs(s, steps) && After(s, steps) == Apply(After(s, before), step)
    ensures Passes(steps) == Passes(before) + if step == StartPass then 1 else 0
  {
    steps := before + [step];
    Then(Next, s, before, step);
    PassesJoin(before, [step]);
    assert [step][1..] == [];
  }

  lemma {:induction false} PassesJoin(a: seq<Step>, b: seq<Step>)
    ensures Passes(a + b) == Passes(a) + Passes(b)
  {
    if a == [] {
      assert a + b == b;
    } else {
      assert (a + b)[1..] == a[1..] + b;
      PassesJoin(a[1..], b);
    }
  }

  /** One turn of the loop once a token is there: settle, drain, score.  Signals may arrive while
      it settles, while it drains, after the drain and while the pass runs. */
  method Turn(ch: Channel, cancelled: bool, settling: bool, late: seq<bool>, drained: bool, scoring: bool,
              ghost s: State)
    returns (scored: bool, ghost steps: seq<Step>)
    requires s.phase == Waiting && s.token && ch.full
    modifies ch
    ensures Runs(s, steps) && ch.full == After(s, steps).token
    ensures scored <==> !cancelled
    ensures After(s, steps).phase == (if scored then Waiting else Stopped)
    ensures Passes(steps) == if scored then 1 else 0
    ensures scored ==> After(s, steps).stale == scoring && ch.full == (drained || scoring)
  {
    ch.full := false;
    steps := OneMore(s, [], Receive);
    if settling {
      ch.full := true;
      steps := OneMore(s, steps, Signal);
    }
    if cancelled {
      steps := OneMore(s, steps, Cancel);
      return false, steps;
    }
    steps := OneMore(s, steps, Settled);
    ghost var emptied := Drain(ch, late, After(s, steps));
    RunJoin(Next, s, steps, emptied);
    PassesJoin(steps, emptied);
    steps := steps + emptied;
    if drained {
      ch.full := true;
      steps := OneMore(s, steps, Signal);
    }
    steps := OneMore(s, steps, StartPass);
    if scoring {
      ch.full := true;
      steps := OneMore(s, steps, Signal);
    }
    steps := OneMore(s, steps, EndPass);
    return true, steps;
  }
}
