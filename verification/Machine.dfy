/** Runs of a machine given by its partial step function. */
module Machine {
  import opened Basics

  /** The state after the steps, one after another, or None when one of them is not possible. */
  function Run<S, T>(next: (S, T) -> Option<S>, s: S, steps: seq<T>): Option<S>
    decreases |steps|
  {
    if steps == [] then Some(s) else
    match next(s, steps[0])
    case None => None
    case Some(s') => Run(next, s', steps[1..])
  }

  lemma {:induction false} RunJoin<S, T>(next: (S, T) -> Option<S>, s: S, a: seq<T>, b: seq<T>)
    ensures Run(next, s, a + b) ==
      match Run(next, s, a) case None => None case Some(s') => Run(next, s', b)
    decreases |a|
  {
    if a == [] {
      assert a + b == b;
    } else {
      assert (a + b)[1..] == a[1..] + b;
      match next(s, a[0])
      case None =>
      case Some(s') => RunJoin(next, s', a[1..], b);
    }
  }

  lemma RunOne<S, T>(next: (S, T) -> Option<S>, s: S, step: T)
    ensures Run(next, s, [step]) == next(s, step)
  {
    assert [step][1..] == [];
    match next(s, step)
    case None =>
    case Some(s') => assert Run(next, s', []) == Some(s');
  }

  /** One more step. */
  lemma Then<S, T>(next: (S, T) -> Option<S>, s: S, before: seq<T>, step: T)
    requires Run(next, s, before).Some?
    ensures Run(next, s, before + [step]) == next(Run(next, s, before).value, step)
  {
    RunJoin(next, s, before, [step]);
    RunOne(next, Run(next, s, before).value, step);
  }

  // ---------------------------------------------------------------- states as histories

  /** Step `i` is of one kind, and none since is of the others. */
  predicate SinceAt<T(==)>(steps: seq<T>, i: int, some: T, none: set<T>) {
    0 <= i < |steps| && steps[i] == some && forall j :: i < j < |steps| ==> steps[j] !in none
  }

  ghost predicate Since<T>(steps: seq<T>, some: T, none: set<T>) { exists i :: SinceAt(steps, i, some, none) }

  lemma SinceStep<T>(steps: seq<T>, step: T, some: T, none: set<T>)
    ensures Since(steps + [step], some, none) <==> step == some || (step !in none && Since(steps, some, none))
  {
    var all, n := steps + [step], |steps|;
    assert SinceAt(all, n, some, none) <==> step == some;
    forall i | 0 <= i < n
      ensures SinceAt(all, i, some, none) <==> step !in none && SinceAt(steps, i, some, none)
    {
      assert all[n] == step;
      assert forall j :: 0 <= j < n ==> all[j] == steps[j];
    }
  }
}
