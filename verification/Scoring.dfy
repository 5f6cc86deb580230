/**
 The delete score: eight factors summed.  Higher means safer to delete.  Floating-point
 arithmetic is taken over the reals; the base-10 logarithm is any function of the reals.
 */
module Scoring {
  import opened Basics
  import opened Policy

  const DAY := 86_400_000_000_000   // nanoseconds
  const HNR_VETO_WEIGHT := -10000.0
  const CANDIDATE_BOOST_WEIGHT := 2000.0

  datatype Weights = Weights(
    ratioObligationMet: real, uploadVelocityInv: real, ageDays: real,
    seedersLowGuard: real, swarmHealthBonus: real, trackerDeadBonus: real)

  datatype Config = Config(
    w: Weights, hnrWindowDays: int, trackerDeadGrace: int, log10: real -> real)

  datatype Torrent = Torrent(
    addedOn: Time, completionOn: Option<Time>, isPrivate: bool, candidateBoost: bool)

  datatype SnapshotStats = SnapshotStats(seedersAvg7d: real, velocityBytesPerDay: real, latestRatio: real)

  datatype Gate = Open | Public | AllDead | NoSwarmSignal
  datatype Factor = Factor(value: real, weight: real, contribution: real, gate: Gate)

  /** Everything one torrent's score depends on. */
  datatype Input = Input(
    t: Torrent, snaps: SnapshotStats, globalAvg: real, trackers: seq<TrackerView>,
    policy: EffectivePolicy, now: Time)

  function Days(d: int): real { d as real / DAY as real }

  /** The completion time when set and not the zero time, else the time added. */
  function SeedStart(t: Torrent): Time {
    if t.completionOn.Some? && t.completionOn.value != ZERO_TIME then t.completionOn.value else t.addedOn
  }

  function Gated(w: real, g: Gate): Factor { Factor(0.0, w, 0.0, g) }

  function OnOff(on: bool, w: real): Factor {
    if on then Factor(1.0, w, w, Open) else Factor(0.0, w, 0.0, Open)
  }

  function RatioObligation(t: Torrent, ratio: real, policy: EffectivePolicy, alive: bool, now: Time, w: real): Factor {
    if !t.isPrivate then Gated(w, Public)
    else if !alive then Gated(w, AllDead)
    else OnOff(ratio >= policy.minRatio && Days(now - SeedStart(t)) >= policy.minSeedDays as real, w)
  }

  function Clamp01(v: real): real { if v < 0.0 then 0.0 else if v > 1.0 then 1.0 else v }

  function VelocityInv(velocity: real, globalAvg: real, w: real): Factor {
    if globalAvg <= 0.0 then Gated(w, NoSwarmSignal) else
    var v := Clamp01(1.0 - velocity / globalAvg);
    Factor(v, w, v * w, Open)
  }

  function Age(t: Torrent, now: Time, w: real): Factor {
    var d := Days(now - t.addedOn);
    var days := if d < 0.0 then 0.0 else d;
    Factor(days, w, days * w, Open)
  }

  function SeedersGuard(seedersAvg: real, threshold: int, alive: bool, w: real): Factor {
    if !alive then Gated(w, AllDead) else OnOff(seedersAvg <= threshold as real, w)
  }

  function SwarmValue(log10: real -> real, seedersAvg: real): real {
    log10((if seedersAvg < 0.0 then 0.0 else seedersAvg) + 1.0)
  }

  function SwarmBonus(log10: real -> real, seedersAvg: real, w: real): Factor {
    var v := SwarmValue(log10, seedersAvg);
    Factor(v, w, v * w, Open)
  }

  function HnRVeto(t: Torrent, alive: bool, windowDays: int, now: Time): Factor {
    if !t.isPrivate then Gated(HNR_VETO_WEIGHT, Public)
    else if !(Days(now - SeedStart(t)) < windowDays as real) then OnOff(false, HNR_VETO_WEIGHT)
    else if !alive then Gated(HNR_VETO_WEIGHT, AllDead)
    else OnOff(true, HNR_VETO_WEIGHT)
  }

  ghost function TrackerDead(trackers: seq<TrackerView>, now: Time, grace: int, w: real): Factor {
    OnOff(DeadSustained(trackers, now, grace), w)
  }

  /** The factors in their canonical order. */
  ghost function EvalFactors(cfg: Config, x: Input): seq<Factor> {
    var alive := AnyAlive(x.trackers);
    [ RatioObligation(x.t, x.snaps.latestRatio, x.policy, alive, x.now, cfg.w.ratioObligationMet),
      VelocityInv(x.snaps.velocityBytesPerDay, x.globalAvg, cfg.w.uploadVelocityInv),
      Age(x.t, x.now, cfg.w.ageDays),
      SeedersGuard(x.snaps.seedersAvg7d, x.policy.rareThreshold, alive, cfg.w.seedersLowGuard),
      SwarmBonus(cfg.log10, x.snaps.seedersAvg7d, cfg.w.swarmHealthBonus),
      HnRVeto(x.t, alive, cfg.hnrWindowDays, x.now),
      TrackerDead(x.trackers, x.now, cfg.trackerDeadGrace, cfg.w.trackerDeadBonus),
      OnOff(x.t.candidateBoost, CANDIDATE_BOOST_WEIGHT) ]
  }

  ghost function Total(fs: seq<Factor>): real {
    if fs == [] then 0.0 else Total(fs[..|fs| - 1]) + fs[|fs| - 1].contribution
  }

  ghost function Score(cfg: Config, x: Input): real { Total(EvalFactors(cfg, x)) }

  // ---------------------------------------------------------------- what the factors mean

  /** The seeding began at the completion, unless that is unknown or the zero time. */
  predicate SeedsSince(t: Torrent, start: Time) {
    || (t.completionOn == Some(start) && start != ZERO_TIME)
    || ((t.completionOn == None || t.completionOn == Some(ZERO_TIME)) && start == t.addedOn)
  }

  /** Every tracker has been dead for the grace, and there is one. */
  ghost predicate AllDeadSince(trackers: seq<TrackerView>, latest: Time) {
    trackers != [] && forall i :: 0 <= i < |trackers| ==>
      trackers[i].status == NotWorking && trackers[i].firstSeenDead.Some? && trackers[i].firstSeenDead.value <= latest
  }

  ghost predicate SomeAlive(trackers: seq<TrackerView>) {
    trackers == [] || exists i :: 0 <= i < |trackers| && trackers[i].status != NotWorking
  }

  const NANOSECONDS_IN_A_DAY := 24 * 60 * 60 * 1_000_000_000

  /** On with the whole weight, or off with nothing. */
  predicate Switched(f: Factor, on: bool, w: real) {
    f.weight == w && f.value == (if on then 1.0 else 0.0) && f.contribution == (if on then w else 0.0)
  }

  /** Between nothing and the whole weight. */
  predicate Graded(f: Factor, w: real) { f.weight == w && f.contribution == f.value * w }

  /** The obligation is met when a private torrent with a live tracker has the ratio and the days. */
  ghost predicate RatioMeans(x: Input, f: Factor, w: real) {
    && Switched(f, x.t.isPrivate && SomeAlive(x.trackers) && x.snaps.latestRatio >= x.policy.minRatio
                   && (exists start :: SeedsSince(x.t, start)
                                       && x.now - start >= x.policy.minSeedDays * NANOSECONDS_IN_A_DAY), w)
    && f.gate == if !x.t.isPrivate then Public else if !SomeAlive(x.trackers) then AllDead else Open
  }

  /** All of the weight for an idle torrent, none from the library's average upwards, and in
      between in proportion to what is missing to the average. */
  predicate VelocityMeans(x: Input, f: Factor, w: real) {
    var v, avg := x.snaps.velocityBytesPerDay, x.globalAvg;
    && Graded(f, w)
    && (avg <= 0.0 ==> f.value == 0.0 && f.gate == NoSwarmSignal)
    && (avg > 0.0 ==> f.gate == Open)
    && (avg > 0.0 && v <= 0.0 ==> f.value == 1.0)
    && (avg > 0.0 && v >= avg ==> f.value == 0.0)
    && (avg > 0.0 && 0.0 <= v <= avg ==> f.value * avg == avg - v)
  }

  /** The days since the torrent was added, fractions included, and never negative. */
  predicate AgeMeans(x: Input, f: Factor, w: real) {
    && Graded(f, w) && f.gate == Open
    && (x.now <= x.t.addedOn ==> f.value == 0.0)
    && (x.now >= x.t.addedOn ==> f.value * NANOSECONDS_IN_A_DAY as real == (x.now - x.t.addedOn) as real)
  }

  /** Rare: with a live tracker, up to and with the threshold. */
  ghost predicate GuardMeans(x: Input, f: Factor, w: real) {
    && Switched(f, SomeAlive(x.trackers) && x.snaps.seedersAvg7d <= x.policy.rareThreshold as real, w)
    && f.gate == if SomeAlive(x.trackers) then Open else AllDead
  }

  /** The logarithm of the swarm and one; a negative average counts as an empty swarm. */
  predicate SwarmMeans(log10: real -> real, x: Input, f: Factor, w: real) {
    && Graded(f, w) && f.gate == Open
    && (x.snaps.seedersAvg7d >= 0.0 ==> f.value == log10(x.snaps.seedersAvg7d + 1.0))
    && (x.snaps.seedersAvg7d <= 0.0 ==> f.value == log10(1.0))
  }

  /** The hit-and-run veto: private, alive, and seeded for less than the window. */
  ghost predicate VetoMeans(x: Input, windowDays: int, f: Factor) {
    var inWindow := exists start :: SeedsSince(x.t, start) && x.now - start < windowDays * NANOSECONDS_IN_A_DAY;
    && Switched(f, x.t.isPrivate && SomeAlive(x.trackers) && inWindow, -10000.0)
    && f.gate == if !x.t.isPrivate then Public else if inWindow && !SomeAlive(x.trackers) then AllDead else Open
  }

  /** The eight factors, in order, each by what it means. */
  ghost predicate Means(cfg: Config, x: Input, fs: seq<Factor>) {
    && |fs| == 8
    && RatioMeans(x, fs[0], cfg.w.ratioObligationMet)
    && VelocityMeans(x, fs[1], cfg.w.uploadVelocityInv)
    && AgeMeans(x, fs[2], cfg.w.ageDays)
    && GuardMeans(x, fs[3], cfg.w.seedersLowGuard)
    && SwarmMeans(cfg.log10, x, fs[4], cfg.w.swarmHealthBonus)
    && VetoMeans(x, cfg.hnrWindowDays, fs[5])
    && Switched(fs[6], AllDeadSince(x.trackers, x.now - cfg.trackerDeadGrace), cfg.w.trackerDeadBonus)
    && fs[6].gate == Open
    && Switched(fs[7], x.t.candidateBoost, 2000.0) && fs[7].gate == Open
  }

  /** A score is the sum of its eight contributions. */
  predicate SumsTo(fs: seq<Factor>, total: real) {
    && |fs| == 8
    && total == fs[0].contribution + fs[1].contribution + fs[2].contribution + fs[3].contribution
              + fs[4].contribution + fs[5].contribution + fs[6].contribution + fs[7].contribution
  }

  /** The meanings leave nothing open: there is one list of factors with them. */
  lemma MeansOnce(cfg: Config, x: Input, f: seq<Factor>, g: seq<Factor>)
    requires Means(cfg, x, f) && Means(cfg, x, g)
    ensures f == g
  {
    OneGrade(x, f[1], g[1], f[2], g[2], cfg.w);
    forall i | 0 <= i < 8 ensures f[i] == g[i] { }
  }

  lemma OneGrade(x: Input, v: Factor, v': Factor, a: Factor, a': Factor, w: Weights)
    requires VelocityMeans(x, v, w.uploadVelocityInv) && VelocityMeans(x, v', w.uploadVelocityInv)
    requires AgeMeans(x, a, w.ageDays) && AgeMeans(x, a', w.ageDays)
    ensures v == v' && a == a'
  {
    if x.globalAvg > 0.0 && 0.0 <= x.snaps.velocityBytesPerDay <= x.globalAvg {
      SameFactor(v.value, v'.value, x.globalAvg);
    }
    if x.now >= x.t.addedOn { SameFactor(a.value, a'.value, NANOSECONDS_IN_A_DAY as real); }
  }

  lemma SameFactor(a: real, b: real, k: real)
    requires k > 0.0 && a * k == b * k
    ensures a == b
  {
    assert (a - b) * k == 0.0;
  }

  /** Measured in any other unit, velocities have the same factor. */
  lemma VelocityHasNoUnit(velocity: real, avg: real, w: real, k: real)
    requires k > 0.0
    ensures VelocityInv(k * velocity, k * avg, w) == VelocityInv(velocity, avg, w)
  {
    if avg > 0.0 {
      assert k * avg > 0.0;
      assert k * velocity / (k * avg) * (k * avg) == velocity / avg * (k * avg) by {
        assert k * velocity / (k * avg) * (k * avg) == k * velocity;
        assert velocity / avg * (k * avg) == k * (velocity / avg * avg);
      }
      SameFactor(k * velocity / (k * avg), velocity / avg, k * avg);
    } else {
      assert k * avg <= 0.0;
    }
  }

  lemma AtLeastDays(d: int, n: int)
    ensures Days(d) >= n as real <==> d >= n * NANOSECONDS_IN_A_DAY
  {
  }

  lemma SeedStartIs(t: Torrent, start: Time)
    ensures SeedsSince(t, start) <==> start == SeedStart(t)
  {
  }

  lemma GatesByIndex(trackers: seq<TrackerView>, now: Time, grace: int)
    ensures SomeAlive(trackers) <==> AnyAlive(trackers)
    ensures AllDeadSince(trackers, now - grace) <==> DeadSustained(trackers, now, grace)
  {
    assert forall t :: t in trackers <==> exists i :: 0 <= i < |trackers| && trackers[i] == t;
  }

  lemma VelocityByMeaning(x: Input, w: real)
    ensures VelocityMeans(x, VelocityInv(x.snaps.velocityBytesPerDay, x.globalAvg, w), w)
  {
    var v, avg := x.snaps.velocityBytesPerDay, x.globalAvg;
    if avg > 0.0 {
      assert v / avg * avg == v;
      if 0.0 <= v <= avg { assert 0.0 <= v / avg <= 1.0; }
    }
  }

  lemma SeededByMeaning(x: Input, days: int)
    ensures (exists start :: SeedsSince(x.t, start) && x.now - start >= days * NANOSECONDS_IN_A_DAY)
            <==> Days(x.now - SeedStart(x.t)) >= days as real
    ensures (exists start :: SeedsSince(x.t, start) && x.now - start < days * NANOSECONDS_IN_A_DAY)
            <==> Days(x.now - SeedStart(x.t)) < days as real
  {
    var start := SeedStart(x.t);
    SeedStartIs(x.t, start);
    AtLeastDays(x.now - start, days);
    forall other | SeedsSince(x.t, other) ensures other == start { SeedStartIs(x.t, other); }
  }

  /** The factors of a score are what they mean. */
  lemma FactorsByMeaning(cfg: Config, x: Input)
    ensures Means(cfg, x, EvalFactors(cfg, x))
  {
    GatesByIndex(x.trackers, x.now, cfg.trackerDeadGrace);
    SeededByMeaning(x, x.policy.minSeedDays);
    SeededByMeaning(x, cfg.hnrWindowDays);
    VelocityByMeaning(x, cfg.w.uploadVelocityInv);
  }

  lemma TotalOfEight(fs: seq<Factor>)
    requires |fs| == 8
    ensures Total(fs) == fs[0].contribution + fs[1].contribution + fs[2].contribution + fs[3].contribution
                       + fs[4].contribution + fs[5].contribution + fs[6].contribution + fs[7].contribution
  {
    assert fs[..7][..6] == fs[..6] && fs[..6][..5] == fs[..5] && fs[..5][..4] == fs[..4];
    assert fs[..4][..3] == fs[..3] && fs[..3][..2] == fs[..2] && fs[..2][..1] == fs[..1];
    assert fs[..1][..0] == [];
    assert Total(fs[..1]) == fs[0].contribution;
    assert Total(fs[..3]) == fs[0].contribution + fs[1].contribution + fs[2].contribution;
    assert Total(fs[..5]) == Total(fs[..3]) + fs[3].contribution + fs[4].contribution;
    assert Total(fs[..7]) == Total(fs[..5]) + fs[5].contribution + fs[6].contribution;
  }

  method SumContributions(factors: seq<Factor>) returns (total: real)
    ensures total == Total(factors)
  {
    total := 0.0;
    for i := 0 to |factors|
      invariant total == Total(factors[..i])
    {
      assert factors[..i + 1][..i] == factors[..i];
      total := total + factors[i].contribution;
    }
    assert factors[..|factors|] == factors;
  }

  /** The scoring of one torrent over prefetched inputs. */
  method ScoreWithPrefetched(cfg: Config, t: Torrent, snaps: SnapshotStats, globalAvg: real,
                             trackers: seq<TrackerView>, defaults: ScoringDefaults,
                             overrides: map<string, TrackerPolicy>, now: Time)
    returns (score: real, factors: seq<Factor>, alive: bool, ghost policy: EffectivePolicy)
    ensures alive <==> AnyAlive(trackers)
    ensures if trackers == [] then policy == FromDefaults(defaults)
            else Strictest(ResolveAll(trackers, defaults, overrides), policy)
    ensures factors == EvalFactors(cfg, Input(t, snaps, globalAvg, trackers, policy, now))
    ensures score == Score(cfg, Input(t, snaps, globalAvg, trackers, policy, now))
    ensures Means(cfg, Input(t, snaps, globalAvg, trackers, policy, now), factors) && SumsTo(factors, score)
  {
    alive := AnyTrackerAlive(trackers);
    var effective := TrackerPolicyFor(trackers, defaults, overrides);
    policy := effective;
    var dead := AllTrackersDeadSustained(trackers, now, cfg.trackerDeadGrace);
    var w := cfg.w;
    factors :=
      [ RatioObligation(t, snaps.latestRatio, effective, alive, now, w.ratioObligationMet),
        VelocityInv(snaps.velocityBytesPerDay, globalAvg, w.uploadVelocityInv),
        Age(t, now, w.ageDays),
        SeedersGuard(snaps.seedersAvg7d, effective.rareThreshold, alive, w.seedersLowGuard),
        SwarmBonus(cfg.log10, snaps.seedersAvg7d, w.swarmHealthBonus),
        HnRVeto(t, alive, cfg.hnrWindowDays, now),
        OnOff(dead, w.trackerDeadBonus),
        OnOff(t.candidateBoost, CANDIDATE_BOOST_WEIGHT) ];
    score := SumContributions(factors);
    FactorsByMeaning(cfg, Input(t, snaps, globalAvg, trackers, policy, now));
    TotalOfEight(factors);
  }
}
