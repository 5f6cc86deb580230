/**
 The disk-pressure trigger: each tick reads the latest sample of the volume's free space and fires
 a run on the way below the threshold, or again once the grace since the last fire is over.
 */
module DiskWatcher {
  import opened Basics

  /** What a tick meets: the stored sample, the clock, and how a fire would end. */
  datatype Tick = Tick(readFails: bool, freePercent: Option<real>, now: Time, fire: FireResult)

  /** Another live run holds the lock; or planning, storing or executing failed. */
  datatype FireResult = Fired | RunInProgress | FireFailed

  datatype Outcome = Unread | NoSample | Above | Graced | Attempted(result: FireResult)

  datatype Memory = Memory(lastFire: Time, firingNow: bool)

  const START := Memory(ZERO_TIME, false)

  /** The tick takes a sample below the threshold. */
  predicate Under(threshold: real, t: Tick) {
    !t.readFails && t.freePercent.Some? && t.freePercent.value < threshold
  }

  predicate Over(threshold: real, t: Tick) {
    !t.readFails && t.freePercent.Some? && t.freePercent.value >= threshold
  }

  function Outcome1(m: Memory, threshold: real, grace: int, t: Tick): Outcome {
    if t.readFails then Unread
    else if t.freePercent.None? then NoSample
    else if t.freePercent.value >= threshold then Above
    else if m.firingNow && t.now - m.lastFire < grace then Graced
    else Attempted(t.fire)
  }

  function Next(m: Memory, threshold: real, grace: int, t: Tick): Memory {
    match Outcome1(m, threshold, grace, t)
    case Unread => m
    case NoSample => m
    case Above => m.(firingNow := false)
    case Graced => m.(firingNow := true)
    case Attempted(r) => Memory(if r == Fired then t.now else m.lastFire, true)
  }

  class Watcher {
    const threshold: real
    const grace: int
    var lastFire: Time
    var firingNow: bool

    ghost function State(): Memory
      reads this
    {
      Memory(lastFire, firingNow)
    }

    constructor (threshold: real, grace: int)
      ensures this.threshold == threshold && this.grace == grace && State() == START
    {
      this.threshold, this.grace := threshold, grace;
      lastFire, firingNow := ZERO_TIME, false;
    }

    method OnTick(t: Tick) returns (out: Outcome)
      modifies this
      ensures out == Outcome1(old(State()), threshold, grace, t)
      ensures State() == Next(old(State()), threshold, grace, t)
    {
      if t.readFails { return Unread; }
      if t.freePercent == None { return NoSample; }
      var under := t.freePercent.value < threshold;
      var wasUnder := firingNow;
      firingNow := under;
      if !under { return Above; }
      if wasUnder && t.now - lastFire < grace { return Graced; }
      if t.fire != Fired { return Attempted(t.fire); }
      lastFire := t.now;
      return Attempted(Fired);
    }
  }

  // ---------------------------------------------------------------- whole traces

  function After(threshold: real, grace: int, ticks: seq<Tick>): Memory {
    if ticks == [] then START
    else Next(After(threshold, grace, ticks[..|ticks| - 1]), threshold, grace, ticks[|ticks| - 1])
  }

  /** The outcome of tick `i`. */
  function OutcomeAt(threshold: real, grace: int, ticks: seq<Tick>, i: nat): Outcome
    requires i < |ticks|
  {
    Outcome1(After(threshold, grace, ticks[..i]), threshold, grace, ticks[i])
  }

  predicate FiredAt(threshold: real, grace: int, ticks: seq<Tick>, i: nat)
    requires i < |ticks|
  {
    OutcomeAt(threshold, grace, ticks, i) == Attempted(Fired)
  }

  lemma AfterStep(threshold: real, grace: int, ticks: seq<Tick>, n: nat)
    requires n < |ticks|
    ensures After(threshold, grace, ticks[..n + 1])
            == Next(After(threshold, grace, ticks[..n]), threshold, grace, ticks[n])
  {
    assert ticks[..n + 1][..n] == ticks[..n];
  }

  /** The last sample before `n`, if any, was below the threshold. */
  ghost predicate InEpisode(threshold: real, ticks: seq<Tick>, n: nat)
    requires n <= |ticks|
  {
    exists i :: 0 <= i < n && Under(threshold, ticks[i]) && forall j :: i < j < n ==> !Over(threshold, ticks[j])
  }

  lemma {:induction false} FiringNowMeansEpisode(threshold: real, grace: int, ticks: seq<Tick>, n: nat)
    requires n <= |ticks|
    ensures After(threshold, grace, ticks[..n]).firingNow <==> InEpisode(threshold, ticks, n)
  {
    if n > 0 {
      FiringNowMeansEpisode(threshold, grace, ticks, n - 1);
      AfterStep(threshold, grace, ticks, n - 1);
      if Under(threshold, ticks[n - 1]) {
        assert InEpisode(threshold, ticks, n);
      } else if !Over(threshold, ticks[n - 1]) && InEpisode(threshold, ticks, n - 1) {
        var i :| 0 <= i < n - 1 && Under(threshold, ticks[i])
                 && forall j :: i < j < n - 1 ==> !Over(threshold, ticks[j]);
        assert InEpisode(threshold, ticks, n);
      }
    }
  }

  /** Tick `i` is the last before `n` whose fire succeeded. */
  predicate LastFiredAt(threshold: real, grace: int, ticks: seq<Tick>, n: nat, i: int)
    requires n <= |ticks|
  {
    0 <= i < n && FiredAt(threshold, grace, ticks, i) && forall j :: i < j < n ==> !FiredAt(threshold, grace, ticks, j)
  }

  /** The time of the last fire that succeeded before `n`, or the zero time. */
  ghost predicate LastFire(threshold: real, grace: int, ticks: seq<Tick>, n: nat, at: Time)
    requires n <= |ticks|
  {
    || (at == ZERO_TIME && forall i :: 0 <= i < n ==> !FiredAt(threshold, grace, ticks, i))
    || exists i :: LastFiredAt(threshold, grace, ticks, n, i) && at == ticks[i].now
  }

  lemma LastFireStep(threshold: real, grace: int, ticks: seq<Tick>, n: nat, at: Time)
    requires n < |ticks| && LastFire(threshold, grace, ticks, n, at)
    ensures LastFire(threshold, grace, ticks, n + 1, if FiredAt(threshold, grace, ticks, n) then ticks[n].now else at)
  {
    if FiredAt(threshold, grace, ticks, n) {
      assert LastFiredAt(threshold, grace, ticks, n + 1, n);
    } else if i :| LastFiredAt(threshold, grace, ticks, n, i) && at == ticks[i].now {
      assert LastFiredAt(threshold, grace, ticks, n + 1, i);
    }
  }

  lemma {:induction false} LastFireIs(threshold: real, grace: int, ticks: seq<Tick>, n: nat)
    requires n <= |ticks|
    ensures LastFire(threshold, grace, ticks, n, After(threshold, grace, ticks[..n]).lastFire)
  {
    if n > 0 {
      LastFireIs(threshold, grace, ticks, n - 1);
      AfterStep(threshold, grace, ticks, n - 1);
      LastFireStep(threshold, grace, ticks, n - 1, After(threshold, grace, ticks[..n - 1]).lastFire);
    }
  }

  /** A tick attempts a fire exactly when its sample is below the threshold and it either opens
      an episode or the last successful fire, of whichever episode, is a grace ago. */
  lemma AttemptsExactly(threshold: real, grace: int, ticks: seq<Tick>, n: nat, at: Time)
    requires n < |ticks| && LastFire(threshold, grace, ticks, n, at)
    ensures OutcomeAt(threshold, grace, ticks, n).Attempted? <==>
      Under(threshold, ticks[n]) && (!InEpisode(threshold, ticks, n) || ticks[n].now - at >= grace)
    ensures forall r :: OutcomeAt(threshold, grace, ticks, n) == Attempted(r) ==> r == ticks[n].fire
  {
    FiringNowMeansEpisode(threshold, grace, ticks, n);
    LastFireIs(threshold, grace, ticks, n);
    LastFireIsUnique(threshold, grace, ticks, n, at, After(threshold, grace, ticks[..n]).lastFire);
  }

  lemma LastFireIsUnique(threshold: real, grace: int, ticks: seq<Tick>, n: nat, a: Time, b: Time)
    requires n <= |ticks| && LastFire(threshold, grace, ticks, n, a) && LastFire(threshold, grace, ticks, n, b)
    ensures a == b
  {
    if i :| LastFiredAt(threshold, grace, ticks, n, i) && a == ticks[i].now {
      var k :| LastFiredAt(threshold, grace, ticks, n, k) && b == ticks[k].now;
      assert i == k;
    }
  }

  /** Within one episode successful fires are at least the grace apart. */
  lemma {:induction false} FiresAreGraceApart(threshold: real, grace: int, ticks: seq<Tick>, i: nat, j: nat)
    requires i < j < |ticks| && grace >= 0
    requires FiredAt(threshold, grace, ticks, i) && FiredAt(threshold, grace, ticks, j)
    requires forall k :: i < k < j ==> !Over(threshold, ticks[k])
    ensures ticks[j].now - ticks[i].now >= grace
    decreases j
  {
    assert Under(threshold, ticks[i]);
    assert InEpisode(threshold, ticks, j);
    var k := LastFireIndex(threshold, grace, ticks, i, j);
    AttemptsExactly(threshold, grace, ticks, j, ticks[k].now);
    if k > i { FiresAreGraceApart(threshold, grace, ticks, i, k); }
  }

  lemma {:induction false} LastFireIndex(threshold: real, grace: int, ticks: seq<Tick>, i: nat, n: nat) returns (k: nat)
    requires i < n <= |ticks| && FiredAt(threshold, grace, ticks, i)
    ensures i <= k && LastFiredAt(threshold, grace, ticks, n, k)
    decreases n
  {
    k := n - 1;
    if !FiredAt(threshold, grace, ticks, n - 1) { k := LastFireIndex(threshold, grace, ticks, i, n - 1); }
  }

  /** A skipped or failed attempt is retried by the next tick still below the threshold exactly
      when the last successful fire is already a grace ago. */
  lemma RetriedExactly(threshold: real, grace: int, ticks: seq<Tick>, n: nat, at: Time)
    requires n + 1 < |ticks| && LastFire(threshold, grace, ticks, n, at)
    requires OutcomeAt(threshold, grace, ticks, n).Attempted? && !FiredAt(threshold, grace, ticks, n)
    requires Under(threshold, ticks[n + 1])
    ensures OutcomeAt(threshold, grace, ticks, n + 1).Attempted? <==> ticks[n + 1].now - at >= grace
  {
    assert Under(threshold, ticks[n]);
    assert InEpisode(threshold, ticks, n + 1);
    LastFireIs(threshold, grace, ticks, n);
    LastFireIsUnique(threshold, grace, ticks, n, at, After(threshold, grace, ticks[..n]).lastFire);
    AfterStep(threshold, grace, ticks, n);
    LastFireIs(threshold, grace, ticks, n + 1);
    AttemptsExactly(threshold, grace, ticks, n + 1, at);
  }

  /** So the retry promised for a fire skipped by a busy lock does not come when an earlier
      episode fired recently: fire, recover, drop again into a busy lock, and wait. */
  lemma SkippedFireCanWait(threshold: real, grace: int, ticks: seq<Tick>, low: real, start: Time, interval: int)
    requires low < threshold && interval >= 0 && 3 * interval < grace
    requires ticks == [Tick(false, Some(low), start, Fired), Tick(false, Some(threshold), start + interval, Fired),
                       Tick(false, Some(low), start + 2 * interval, RunInProgress),
                       Tick(false, Some(low), start + 3 * interval, Fired)]
    ensures OutcomeAt(threshold, grace, ticks, 0) == Attempted(Fired)
    ensures OutcomeAt(threshold, grace, ticks, 2) == Attempted(RunInProgress)
    ensures OutcomeAt(threshold, grace, ticks, 3) == Graced
  {
    assert ticks[..0] == [];
    AfterStep(threshold, grace, ticks, 0);
    AfterStep(threshold, grace, ticks, 1);
    AfterStep(threshold, grace, ticks, 2);
  }
}
