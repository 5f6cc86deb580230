/** Per-tracker policies merged strictest-first, and the gates that read tracker health. */
module Policy {
  import opened Basics

  datatype TrackerStatus = Disabled | NotContacted | Working | Updating | NotWorking
  datatype TrackerView = TrackerView(host: string, status: TrackerStatus, firstSeenDead: Option<Time>)

  // ---------------------------------------------------------------- liveness gates

  ghost predicate AnyAlive(trackers: seq<TrackerView>) {
    trackers == [] || exists t :: t in trackers && t.status != NotWorking
  }

  method AnyTrackerAlive(trackers: seq<TrackerView>) returns (alive: bool)
    ensures alive <==> AnyAlive(trackers)
  {
    if |trackers| == 0 { return true; }
    for i := 0 to |trackers|
      invariant forall j :: 0 <= j < i ==> trackers[j].status == NotWorking
    {
      if trackers[i].status != NotWorking { return true; }
    }
    return false;
  }

  /** Every tracker has been dead for at least `grace`. */
  ghost predicate DeadSustained(trackers: seq<TrackerView>, now: Time, grace: int) {
    && trackers != []
    && forall t :: t in trackers ==>
         t.status == NotWorking && t.firstSeenDead.Some? && t.firstSeenDead.value <= now - grace
  }

  method AllTrackersDeadSustained(trackers: seq<TrackerView>, now: Time, grace: int) returns (dead: bool)
    ensures dead <==> DeadSustained(trackers, now, grace)
  {
    if |trackers| == 0 { return false; }
    var cutoff := now - grace;
    for i := 0 to |trackers|
      invariant forall j :: 0 <= j < i ==>
        trackers[j].status == NotWorking && trackers[j].firstSeenDead.Some?
        && trackers[j].firstSeenDead.value <= cutoff
    {
      var t := trackers[i];
      if t.status != NotWorking { return false; }
      if t.firstSeenDead == None || t.firstSeenDead.value > cutoff { return false; }
    }
    return true;
  }

  /** Dead infrastructure is never also alive. */
  lemma SustainedIsNotAlive(trackers: seq<TrackerView>, now: Time, grace: int)
    requires DeadSustained(trackers, now, grace)
    ensures !AnyAlive(trackers)
  {
  }

  // ---------------------------------------------------------------- when the gate will open

  /** Every tracker is dead and we know since when. */
  ghost predicate AllDeadKnown(trackers: seq<TrackerView>) {
    trackers != [] && forall t :: t in trackers ==> t.status == NotWorking && t.firstSeenDead.Some?
  }

  /** The latest death among dead trackers. */
  ghost predicate LatestDeath(trackers: seq<TrackerView>, at: Time) {
    && (forall t :: t in trackers ==> t.firstSeenDead.Some? && t.firstSeenDead.value <= at)
    && (exists t :: t in trackers && t.firstSeenDead == Some(at))
  }

  /** What the countdown shows when the latest death was at `latest`: the maximum starts
      from the zero time. */
  function Eligible(latest: Time, grace: int, now: Time): Option<Time> {
    var eligible := (if latest > ZERO_TIME then latest else ZERO_TIME) + grace;
    if eligible > now then Some(eligible) else None
  }

  /** The answer agrees with the gate: none exactly when the gate holds now, otherwise the
      first instant at which it holds. */
  ghost predicate AgreesWithGate(trackers: seq<TrackerView>, grace: int, now: Time, at: Option<Time>) {
    && (at == None <==> DeadSustained(trackers, now, grace))
    && (at.Some? ==> forall t :: DeadSustained(trackers, t, grace) <==> t >= at.value)
  }

  /** The gate opens a grace after the latest death.  With a latest death no earlier than the
      zero time the countdown always agrees with it; with an earlier one, exactly when the moment
      asked about is not before the zero time plus the grace, for the maximum starts there. */
  lemma EligibleAgrees(trackers: seq<TrackerView>, grace: int, now: Time, latest: Time)
    requires AllDeadKnown(trackers) && LatestDeath(trackers, latest)
    ensures forall t :: DeadSustained(trackers, t, grace) <==> t >= latest + grace
    ensures AgreesWithGate(trackers, grace, now, Eligible(latest, grace, now))
            <==> (latest >= ZERO_TIME || now >= ZERO_TIME + grace)
  {
    forall t ensures DeadSustained(trackers, t, grace) <==> t >= latest + grace {
      var d :| d in trackers && d.firstSeenDead == Some(latest);
    }
    if latest < ZERO_TIME && now < ZERO_TIME + grace {
      assert DeadSustained(trackers, latest + grace, grace);
      assert latest + grace < ZERO_TIME + grace;
    }
  }

  /** The instant the tracker-dead bonus starts, while it is still in the future. */
  method TrackerDeadEligibleAt(trackers: seq<TrackerView>, grace: int, now: Time)
    returns (at: Option<Time>)
    ensures !AllDeadKnown(trackers) ==> at == None
    ensures AllDeadKnown(trackers) ==>
      exists latest :: LatestDeath(trackers, latest) && at == Eligible(latest, grace, now)
    ensures AllDeadKnown(trackers) && (forall t :: t in trackers ==> t.firstSeenDead.value >= ZERO_TIME) ==>
      AgreesWithGate(trackers, grace, now, at)
  {
    if |trackers| == 0 { return None; }
    var maxDead := ZERO_TIME;
    ghost var latest := 0;
    for i := 0 to |trackers|
      invariant forall j :: 0 <= j < i ==> trackers[j].status == NotWorking && trackers[j].firstSeenDead.Some?
      invariant i > 0 ==> LatestDeath(trackers[..i], latest)
      invariant i > 0 ==> maxDead == if latest > ZERO_TIME then latest else ZERO_TIME
      invariant i == 0 ==> maxDead == ZERO_TIME
    {
      var t := trackers[i];
      if t.status != NotWorking || t.firstSeenDead == None { return None; }
      assert trackers[..i + 1] == trackers[..i] + [t];
      if i == 0 || t.firstSeenDead.value > latest { latest := t.firstSeenDead.value; }
      assert LatestDeath(trackers[..i + 1], latest) by {
        assert t in trackers[..i + 1];
        forall u | u in trackers[..i] ensures u in trackers[..i + 1] { }
      }
      if t.firstSeenDead.value > maxDead { maxDead := t.firstSeenDead.value; }
    }
    assert trackers[..|trackers|] == trackers;
    EligibleAgrees(trackers, grace, now, latest);
    var eligible := maxDead + grace;
    if eligible > now { return Some(eligible); }
    return None;
  }

  // ---------------------------------------------------------------- policies

  datatype ScoringDefaults = ScoringDefaults(minRatio: real, minSeedDays: int, rareThreshold: int)
  datatype TrackerPolicy = TrackerPolicy(minRatio: real, minSeedDays: int, rareThreshold: Option<int>, enabled: bool)
  datatype EffectivePolicy = EffectivePolicy(minRatio: real, minSeedDays: int, rareThreshold: int)

  function FromDefaults(d: ScoringDefaults): EffectivePolicy {
    EffectivePolicy(d.minRatio, d.minSeedDays, d.rareThreshold)
  }

  /** One tracker's policy: its enabled override, else the defaults. */
  function Resolve(t: TrackerView, d: ScoringDefaults, overrides: map<string, TrackerPolicy>): EffectivePolicy {
    if t.host in overrides && overrides[t.host].enabled then
      var p := overrides[t.host];
      EffectivePolicy(p.minRatio, p.minSeedDays,
                      if p.rareThreshold.Some? then p.rareThreshold.value else d.rareThreshold)
    else FromDefaults(d)
  }

  function ResolveAll(ts: seq<TrackerView>, d: ScoringDefaults, overrides: map<string, TrackerPolicy>)
    : seq<EffectivePolicy>
  {
    seq(|ts|, i requires 0 <= i < |ts| => Resolve(ts[i], d, overrides))
  }

  /** The strictest of a nonempty list of policies; the ratio and days never below zero. */
  ghost predicate Strictest(ps: seq<EffectivePolicy>, out: EffectivePolicy) {
    && (forall p :: p in ps ==>
          p.minRatio <= out.minRatio && p.minSeedDays <= out.minSeedDays && out.rareThreshold <= p.rareThreshold)
    && (out.minRatio == 0.0 || exists p :: p in ps && p.minRatio == out.minRatio)
    && (out.minSeedDays == 0 || exists p :: p in ps && p.minSeedDays == out.minSeedDays)
    && (exists p :: p in ps && p.rareThreshold == out.rareThreshold)
    && out.minRatio >= 0.0 && out.minSeedDays >= 0
  }

  function MergeOne(out: EffectivePolicy, p: EffectivePolicy, first: bool): EffectivePolicy {
    EffectivePolicy(
      if p.minRatio > out.minRatio then p.minRatio else out.minRatio,
      if p.minSeedDays > out.minSeedDays then p.minSeedDays else out.minSeedDays,
      if first || p.rareThreshold < out.rareThreshold then p.rareThreshold else out.rareThreshold)
  }

  lemma MergeStep(ps: seq<EffectivePolicy>, out: EffectivePolicy, p: EffectivePolicy)
    requires if ps == [] then out.minRatio == 0.0 && out.minSeedDays == 0 else Strictest(ps, out)
    ensures Strictest(ps + [p], MergeOne(out, p, ps == []))
  {
    assert p in ps + [p];
    forall q | q in ps ensures q in ps + [p] { }
  }

  ghost predicate MergedSoFar(all: seq<EffectivePolicy>, i: nat, out: EffectivePolicy)
    requires i <= |all|
  {
    if i == 0 then out.minRatio == 0.0 && out.minSeedDays == 0 else Strictest(all[..i], out)
  }

  lemma MergeNext(all: seq<EffectivePolicy>, i: nat, out: EffectivePolicy)
    requires i < |all| && MergedSoFar(all, i, out)
    ensures MergedSoFar(all, i + 1, MergeOne(out, all[i], i == 0))
  {
    MergeStep(all[..i], out, all[i]);
    assert all[..i + 1] == all[..i] + [all[i]];
  }

  method TrackerPolicyFor(trackers: seq<TrackerView>, defaults: ScoringDefaults, overrides: map<string, TrackerPolicy>)
    returns (out: EffectivePolicy)
    ensures trackers == [] ==> out == FromDefaults(defaults)
    ensures trackers == [] ==>
      out.minRatio == defaults.minRatio && out.minSeedDays == defaults.minSeedDays
      && out.rareThreshold == defaults.rareThreshold
    ensures trackers != [] ==> Strictest(ResolveAll(trackers, defaults, overrides), out)
  {
    if |trackers| == 0 { return FromDefaults(defaults); }
    out := EffectivePolicy(0.0, 0, defaults.rareThreshold);
    ghost var all := ResolveAll(trackers, defaults, overrides);
    for i := 0 to |trackers|
      invariant MergedSoFar(all, i, out)
    {
      var perTracker := Resolve(trackers[i], defaults, overrides);
      MergeNext(all, i, out);
      if perTracker.minSeedDays > out.minSeedDays {
        out := out.(minSeedDays := perTracker.minSeedDays);
      }
      if perTracker.minRatio > out.minRatio {
        out := out.(minRatio := perTracker.minRatio);
      }
      if i == 0 || perTracker.rareThreshold < out.rareThreshold {
        out := out.(rareThreshold := perTracker.rareThreshold);
      }
    }
    assert all[..|trackers|] == all;
  }

  /** The merge depends only on which policies occur: not on tracker order or repetition. */
  lemma MergeIgnoresOrder(ps: seq<EffectivePolicy>, qs: seq<EffectivePolicy>, a: EffectivePolicy, b: EffectivePolicy)
    requires Strictest(ps, a) && Strictest(qs, b)
    requires forall p :: p in ps <==> p in qs
    ensures a == b
  {
    assert a.minRatio <= b.minRatio && b.minRatio <= a.minRatio;
  }

  /** The override that is in force for a tracker, if any. */
  predicate Overridden(overrides: map<string, TrackerPolicy>, t: TrackerView) {
    t.host in overrides && overrides[t.host].enabled
  }

  /** A torrent meets the merged policy exactly when it meets that of every one of its trackers:
      the override of the tracker's host when there is one that is enabled, else the defaults,
      which also stand in for a threshold the override leaves out. */
  lemma MergedExactly(ts: seq<TrackerView>, d: ScoringDefaults, overrides: map<string, TrackerPolicy>,
                      out: EffectivePolicy, ratio: real, days: int, seeders: int)
    requires ts != [] && Strictest(ResolveAll(ts, d, overrides), out)
    ensures ratio >= out.minRatio <==> ratio >= 0.0 && forall t :: t in ts ==>
      ratio >= if Overridden(overrides, t) then overrides[t.host].minRatio else d.minRatio
    ensures days >= out.minSeedDays <==> days >= 0 && forall t :: t in ts ==>
      days >= if Overridden(overrides, t) then overrides[t.host].minSeedDays else d.minSeedDays
    ensures seeders <= out.rareThreshold <==> forall t :: t in ts ==>
      seeders <= if Overridden(overrides, t) && overrides[t.host].rareThreshold.Some?
                 then overrides[t.host].rareThreshold.value else d.rareThreshold
  {
    var ps := ResolveAll(ts, d, overrides);
    forall t | t in ts ensures Resolve(t, d, overrides) in ps {
      var i :| 0 <= i < |ts| && ts[i] == t;
      assert ps[i] == Resolve(t, d, overrides);
    }
    forall p | p in ps ensures exists t :: t in ts && p == Resolve(t, d, overrides) {
      var i :| 0 <= i < |ps| && ps[i] == p;
      assert ts[i] in ts;
    }
    assert forall t :: t in ts ==> Resolve(t, d, overrides).minRatio <= out.minRatio;
  }

  /** With nonnegative policies the ratio and the days are those of some tracker; otherwise
      exactly when some tracker's ratio (days) is not negative. */
  lemma RatioComesFromATracker(ps: seq<EffectivePolicy>, out: EffectivePolicy)
    requires ps != [] && Strictest(ps, out)
    ensures (exists p :: p in ps && p.minRatio == out.minRatio) <==> (exists p :: p in ps && p.minRatio >= 0.0)
    ensures (exists p :: p in ps && p.minSeedDays == out.minSeedDays) <==> (exists p :: p in ps && p.minSeedDays >= 0)
  {
    if p :| p in ps && p.minRatio >= 0.0 {
      if out.minRatio == 0.0 { assert p.minRatio == out.minRatio; }
    }
    if p :| p in ps && p.minSeedDays >= 0 {
      if out.minSeedDays == 0 { assert p.minSeedDays == out.minSeedDays; }
    }
  }
}
