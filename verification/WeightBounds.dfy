/**
 How far the weights can move a score.  For a torrent outside the hit-and-run veto, the largest
 and smallest score its inputs can give, and whether they are attained; the bounds are over ages
 and swarms up to given ones and the policies the API accepts, which have no negative field.
 */
module WeightBounds {
  import opened Basics
  import opened Policy
  import opened Scoring

  /** Private, some tracker alive, and inside the hit-and-run window. */
  ghost predicate Vetoed(cfg: Config, x: Input) {
    x.t.isPrivate && AnyAlive(x.trackers) && Days(x.now - SeedStart(x.t)) < cfg.hnrWindowDays as real
  }

  predicate Accepted(p: EffectivePolicy) { p.minRatio >= 0.0 && p.minSeedDays >= 0 && p.rareThreshold >= 0 }

  /** Age at most `maxAge` nanoseconds, log term between zero and `maxLog`, and a policy that the
      API accepts. */
  predicate InBounds(cfg: Config, x: Input, maxAge: int, maxLog: real) {
    && x.now - x.t.addedOn <= maxAge
    && 0.0 <= SwarmValue(cfg.log10, x.snaps.seedersAvg7d) <= maxLog
    && Accepted(x.policy)
  }

  function Pos(r: real): real { if r > 0.0 then r else 0.0 }
  function Neg(r: real): real { if r < 0.0 then -r else 0.0 }
  function Abs(r: real): real { Pos(r) + Neg(r) }
  function Max(a: real, b: real): real { if a >= b then a else b }

  /** The part of a weight that moves a score up, or the part that moves it down. */
  function Part(up: bool, w: real): real { if up then Pos(w) else Neg(w) }
  function Signed(up: bool, r: real): real { if up then r else -r }

  // ---------------------------------------------------------------- one score

  lemma Times(v: real, w: real, top: real)
    requires 0.0 <= v <= top
    ensures -(top * Neg(w)) <= v * w <= top * Pos(w)
  {
    if w >= 0.0 {
      assert v * w <= top * w;
    } else {
      assert v * w >= top * w;
    }
  }

  lemma AgeBound(t: Torrent, now: Time, w: real, maxAge: int)
    requires maxAge >= 0 && now - t.addedOn <= maxAge
    ensures -(Days(maxAge) * Neg(w)) <= Age(t, now, w).contribution <= Days(maxAge) * Pos(w)
  {
    var d := Days(now - t.addedOn);
    assert d <= Days(maxAge);
    Times(if d < 0.0 then 0.0 else d, w, Days(maxAge));
  }

  lemma VelocityBound(velocity: real, avg: real, w: real)
    ensures -Neg(w) <= VelocityInv(velocity, avg, w).contribution <= Pos(w)
  {
    if avg > 0.0 { Times(Clamp01(1.0 - velocity / avg), w, 1.0); }
  }

  /** The contributions of a score, by name. */
  datatype Parts = Parts(
    ratio: real, velocity: real, age: real, guard: real, swarm: real, veto: real, dead: real, boost: real)
  {
    function Sum(): real { ratio + velocity + age + guard + swarm + veto + dead + boost }
  }

  ghost function PartsOf(cfg: Config, x: Input): Parts {
    var alive := AnyAlive(x.trackers);
    Parts(RatioObligation(x.t, x.snaps.latestRatio, x.policy, alive, x.now, cfg.w.ratioObligationMet).contribution,
          VelocityInv(x.snaps.velocityBytesPerDay, x.globalAvg, cfg.w.uploadVelocityInv).contribution,
          Age(x.t, x.now, cfg.w.ageDays).contribution,
          SeedersGuard(x.snaps.seedersAvg7d, x.policy.rareThreshold, alive, cfg.w.seedersLowGuard).contribution,
          SwarmBonus(cfg.log10, x.snaps.seedersAvg7d, cfg.w.swarmHealthBonus).contribution,
          HnRVeto(x.t, alive, cfg.hnrWindowDays, x.now).contribution,
          TrackerDead(x.trackers, x.now, cfg.trackerDeadGrace, cfg.w.trackerDeadBonus).contribution,
          OnOff(x.t.candidateBoost, CANDIDATE_BOOST_WEIGHT).contribution)
  }

  lemma ScoreIsParts(cfg: Config, x: Input)
    ensures Score(cfg, x) == PartsOf(cfg, x).Sum()
  {
    TotalOfEight(EvalFactors(cfg, x));
  }

  /** How far each scaled term goes. */
  datatype Bounds = Bounds(velocity: real, age: real, swarm: real)
  {
    function Sum(): real { velocity + age + swarm }
  }

  ghost function Scaled(w: Weights, maxAge: int, maxLog: real, up: bool): Bounds {
    Bounds(Part(up, w.uploadVelocityInv), Days(maxAge) * Part(up, w.ageDays), maxLog * Part(up, w.swarmHealthBonus))
  }

  /** How far the scaled terms can move two scores apart. */
  function ScaledSpread(w: Weights, maxAge: int, maxLog: real): real {
    Abs(w.uploadVelocityInv) + Days(maxAge) * Abs(w.ageDays) + maxLog * Abs(w.swarmHealthBonus)
  }

  lemma SplitScaled(k: real, w: real)
    ensures k * Abs(w) == k * Pos(w) + k * Neg(w)
  {
  }

  lemma ScaledSplits(w: Weights, maxAge: int, maxLog: real)
    ensures Scaled(w, maxAge, maxLog, true).Sum() + Scaled(w, maxAge, maxLog, false).Sum()
         == ScaledSpread(w, maxAge, maxLog)
  {
    SplitScaled(Days(maxAge), w.ageDays);
    SplitScaled(maxLog, w.swarmHealthBonus);
  }

  lemma ScaledBounds(cfg: Config, x: Input, maxAge: int, maxLog: real)
    requires maxAge >= 0 && InBounds(cfg, x, maxAge, maxLog)
    ensures var p, hi, lo := PartsOf(cfg, x), Scaled(cfg.w, maxAge, maxLog, true), Scaled(cfg.w, maxAge, maxLog, false);
            -lo.velocity <= p.velocity <= hi.velocity && -lo.age <= p.age <= hi.age
            && -lo.swarm <= p.swarm <= hi.swarm
  {
    AgeBound(x.t, x.now, cfg.w.ageDays, maxAge);
    VelocityBound(x.snaps.velocityBytesPerDay, x.globalAvg, cfg.w.uploadVelocityInv);
    Times(SwarmValue(cfg.log10, x.snaps.seedersAvg7d), cfg.w.swarmHealthBonus, maxLog);
  }

  // ---------------------------------------------------------------- torrents outside the veto

  /** How far the gated terms go: ratio and guard need a live tracker, the bonus dead ones. */
  function Gates(w: Weights, up: bool): real {
    Max(Part(up, w.ratioObligationMet) + Part(up, w.seedersLowGuard), Part(up, w.trackerDeadBonus))
  }

  ghost function Extent(w: Weights, maxAge: int, maxLog: real, up: bool): real {
    Scaled(w, maxAge, maxLog, up).Sum() + Gates(w, up)
  }

  /** Whether the guard pushes that way when it fires. */
  predicate GuardHelps(w: Weights, up: bool) { if up then w.seedersLowGuard >= 0.0 else w.seedersLowGuard <= 0.0 }

  /** The guard and the swarm bonus cannot both be kept at zero: with an empty swarm the guard
      fires, and any other swarm has a bonus. */
  predicate Torn(w: Weights, up: bool) {
    if up then w.seedersLowGuard < 0.0 && w.swarmHealthBonus < 0.0
    else w.seedersLowGuard > 0.0 && w.swarmHealthBonus > 0.0
  }

  /** So the extent is approached and not attained: a live tracker is needed for it. */
  predicate Short(w: Weights, up: bool) {
    Torn(w, up) && Part(up, w.ratioObligationMet) > Part(up, w.trackerDeadBonus)
  }

  function Boost(x: Input): real { if x.t.candidateBoost then CANDIDATE_BOOST_WEIGHT else 0.0 }

  /** Only an empty swarm has no bonus. */
  ghost predicate OnlyEmptyIsZero(cfg: Config) {
    forall s: real :: s > 0.0 ==> SwarmValue(cfg.log10, s) > 0.0
  }

  /** Where the guard and the bonus are torn, their sum stays on the near side of zero. */
  lemma TornIsStrict(cfg: Config, y: Input, up: bool)
    requires OnlyEmptyIsZero(cfg) && Torn(cfg.w, up) && AnyAlive(y.trackers) && Accepted(y.policy)
    requires SwarmValue(cfg.log10, y.snaps.seedersAvg7d) >= 0.0
    ensures var p := PartsOf(cfg, y); Signed(up, p.guard + p.swarm) < 0.0
  {
    var v, b, p := SwarmValue(cfg.log10, y.snaps.seedersAvg7d), cfg.w.swarmHealthBonus, PartsOf(cfg, y);
    assert p.swarm == v * b;
    if y.snaps.seedersAvg7d <= y.policy.rareThreshold as real {
      assert p.guard == cfg.w.seedersLowGuard;
      assert if up then v * b <= 0.0 else v * b >= 0.0;
    } else {
      assert p.guard == 0.0 && v > 0.0;
      assert if up then v * b < 0.0 else v * b > 0.0;
    }
  }

  lemma GatesWithin(cfg: Config, y: Input)
    requires !Vetoed(cfg, y)
    ensures var p := PartsOf(cfg, y);
      && p.veto == 0.0 && p.boost == Boost(y)
      && -Gates(cfg.w, false) <= p.ratio + p.guard + p.dead <= Gates(cfg.w, true)
      && (!AnyAlive(y.trackers) ==> p.ratio == p.guard == 0.0)
      && (AnyAlive(y.trackers) ==> p.dead == 0.0)
  {
    if DeadSustained(y.trackers, y.now, cfg.trackerDeadGrace) {
      SustainedIsNotAlive(y.trackers, y.now, cfg.trackerDeadGrace);
    }
  }

  /** Outside the veto a score less its boost stays within the extents, and off an unattained one. */
  lemma FreeWithin(cfg: Config, y: Input, maxAge: int, maxLog: real)
    requires maxAge >= 0 && !Vetoed(cfg, y) && InBounds(cfg, y, maxAge, maxLog)
    ensures -Extent(cfg.w, maxAge, maxLog, false) <= Score(cfg, y) - Boost(y) <= Extent(cfg.w, maxAge, maxLog, true)
  {
    ScoreIsParts(cfg, y);
    ScaledBounds(cfg, y, maxAge, maxLog);
    GatesWithin(cfg, y);
  }

  lemma FreeStrictly(cfg: Config, y: Input, maxAge: int, maxLog: real, up: bool)
    requires maxAge >= 0 && !Vetoed(cfg, y) && InBounds(cfg, y, maxAge, maxLog)
    requires OnlyEmptyIsZero(cfg) && Short(cfg.w, up)
    ensures Signed(up, Score(cfg, y) - Boost(y)) < Extent(cfg.w, maxAge, maxLog, up)
  {
    ScoreIsParts(cfg, y);
    ScaledBounds(cfg, y, maxAge, maxLog);
    GatesWithin(cfg, y);
    var p, b := PartsOf(cfg, y), Scaled(cfg.w, maxAge, maxLog, up);
    assert b.swarm == 0.0 && Part(up, cfg.w.seedersLowGuard) == 0.0;
    if AnyAlive(y.trackers) {
      TornIsStrict(cfg, y, up);
      assert Signed(up, p.ratio) <= Part(up, cfg.w.ratioObligationMet);
    } else {
      assert Signed(up, p.dead) <= Part(up, cfg.w.trackerDeadBonus);
    }
  }

  // ---------------------------------------------------------------- the bounds are reached

  /** A swarm that reaches the log bound, and a small one. */
  datatype Sizes = Sizes(large: real, small: real)

  ghost predicate Reach(cfg: Config, z: Sizes, maxLog: real) {
    && z.large > 0.0 && z.small > 0.0 && SwarmValue(cfg.log10, 0.0) == 0.0
    && SwarmValue(cfg.log10, z.large) == maxLog && 0.0 < SwarmValue(cfg.log10, z.small) <= maxLog
  }

  /** The swarm that pushes that way, the guard firing or not. */
  function Crowd(w: Weights, z: Sizes, up: bool, guard: bool): real {
    if up == (w.swarmHealthBonus > 0.0) then z.large else if guard then 0.0 else z.small
  }

  /** What the small swarm costs when it has to stand in for an empty one. */
  ghost function Cost(cfg: Config, z: Sizes, up: bool): real {
    if Torn(cfg.w, up) then SwarmValue(cfg.log10, z.small) * Abs(cfg.w.swarmHealthBonus) else 0.0
  }

  function Pushed(w: Weights, crowd: real, up: bool): SnapshotStats {
    SnapshotStats(crowd, if up == (w.uploadVelocityInv > 0.0) then 0.0 else 1.0, 0.0)
  }

  /** A policy whose obligation is met, or whose guard fires, exactly as asked. */
  function PolicyFor(crowd: real, met: bool, guard: bool): EffectivePolicy {
    EffectivePolicy(if met then 0.0 else 1.0, 0, if guard && crowd >= 0.0 then crowd.Floor + 1 else 0)
  }

  /** Added as long ago as pushes that way. */
  function AddedFor(w: Weights, now: Time, maxAge: int, up: bool): Time {
    if up == (w.ageDays > 0.0) then now - maxAge else now
  }

  lemma SwarmOf(cfg: Config, z: Sizes, maxLog: real, up: bool, guard: bool)
    requires Reach(cfg, z, maxLog) && (!guard ==> !GuardHelps(cfg.w, up))
    ensures var v := SwarmValue(cfg.log10, Crowd(cfg.w, z, up, guard)) * cfg.w.swarmHealthBonus;
      v == Signed(up, maxLog * Part(up, cfg.w.swarmHealthBonus) - if guard then 0.0 else Cost(cfg, z, up))
  {
  }

  lemma PushedAge(w: Weights, t: Torrent, now: Time, maxAge: int, up: bool)
    requires maxAge >= 0 && t.addedOn == AddedFor(w, now, maxAge, up)
    ensures Age(t, now, w.ageDays).contribution == Signed(up, Days(maxAge) * Part(up, w.ageDays))
  {
    assert Days(0) == 0.0;
  }

  lemma PushedVelocity(w: Weights, crowd: real, up: bool)
    ensures VelocityInv(Pushed(w, crowd, up).velocityBytesPerDay, 1.0, w.uploadVelocityInv).contribution
         == Signed(up, Part(up, w.uploadVelocityInv))
  {
  }

  lemma PushedScaled(cfg: Config, x: Input, z: Sizes, maxAge: int, maxLog: real, up: bool, guard: bool)
    requires maxAge >= 0 && Reach(cfg, z, maxLog) && (!guard ==> !GuardHelps(cfg.w, up))
    requires x.t.addedOn == AddedFor(cfg.w, x.now, maxAge, up) && x.globalAvg == 1.0
    requires x.snaps == Pushed(cfg.w, Crowd(cfg.w, z, up, guard), up)
    ensures var p, b := PartsOf(cfg, x), Scaled(cfg.w, maxAge, maxLog, up);
      && p.velocity == Signed(up, b.velocity) && p.age == Signed(up, b.age)
      && p.swarm == Signed(up, b.swarm - if guard then 0.0 else Cost(cfg, z, up))
  {
    PushedAge(cfg.w, x.t, x.now, maxAge, up);
    PushedVelocity(cfg.w, x.snaps.seedersAvg7d, up);
    SwarmOf(cfg, z, maxLog, up, guard);
  }

  /** Whether the extent needs a live tracker. */
  predicate Alive(w: Weights, up: bool) {
    Part(up, w.ratioObligationMet) + Part(up, w.seedersLowGuard) > Part(up, w.trackerDeadBonus)
  }

  predicate Fires(w: Weights, up: bool) { Alive(w, up) ==> GuardHelps(w, up) }

  /** Out of the window and alive, or with dead trackers, whichever goes further that way. */
  function Furthest(cfg: Config, maxAge: int, z: Sizes, up: bool, boosted: bool): Input {
    var w, now := cfg.w, 1 + cfg.hnrWindowDays * DAY;
    var crowd := Crowd(w, z, up, Fires(w, up));
    Input(Torrent(AddedFor(w, now, maxAge, up), Some(1), true, boosted), Pushed(w, crowd, up), 1.0,
          [if Alive(w, up) then TrackerView("", Working, None)
           else TrackerView("", NotWorking,
                  if Part(up, w.trackerDeadBonus) > 0.0 then Some(now - cfg.trackerDeadGrace) else None)],
          PolicyFor(crowd, Part(up, w.ratioObligationMet) > 0.0, Fires(w, up)), now)
  }

  lemma FurthestIsFree(cfg: Config, maxAge: int, maxLog: real, z: Sizes, up: bool, boosted: bool)
    requires maxAge >= 0 && cfg.hnrWindowDays > 0 && Reach(cfg, z, maxLog)
    ensures var y := Furthest(cfg, maxAge, z, up, boosted);
      && !Vetoed(cfg, y) && InBounds(cfg, y, maxAge, maxLog)
      && Days(y.now - SeedStart(y.t)) == cfg.hnrWindowDays as real
  {
    var y := Furthest(cfg, maxAge, z, up, boosted);
    assert SeedStart(y.t) == 1;
    assert Days(y.now - 1) == cfg.hnrWindowDays as real;
  }

  lemma FurthestGates(cfg: Config, maxAge: int, maxLog: real, z: Sizes, up: bool, boosted: bool)
    requires maxAge >= 0 && cfg.hnrWindowDays > 0 && Reach(cfg, z, maxLog)
    ensures var y := Furthest(cfg, maxAge, z, up, boosted);
      var p := PartsOf(cfg, y);
      && p.veto == 0.0 && p.boost == Boost(y)
      && p.ratio + p.guard + p.dead == Signed(up, Gates(cfg.w, up))
  {
    var y := Furthest(cfg, maxAge, z, up, boosted);
    FurthestIsFree(cfg, maxAge, maxLog, z, up, boosted);
    assert y.trackers[0] in y.trackers;
  }

  /** It reaches the extent, up to the cost of the small swarm where the extent is not attained. */
  lemma FurthestScores(cfg: Config, maxAge: int, maxLog: real, z: Sizes, up: bool, boosted: bool)
    requires maxAge >= 0 && cfg.hnrWindowDays > 0 && Reach(cfg, z, maxLog)
    ensures var y := Furthest(cfg, maxAge, z, up, boosted);
      Score(cfg, y) == Boost(y)
        + Signed(up, Extent(cfg.w, maxAge, maxLog, up) - if Short(cfg.w, up) then Cost(cfg, z, up) else 0.0)
  {
    var y := Furthest(cfg, maxAge, z, up, boosted);
    ScoreIsParts(cfg, y);
    PushedScaled(cfg, y, z, maxAge, maxLog, up, Fires(cfg.w, up));
    FurthestGates(cfg, maxAge, maxLog, z, up, boosted);
  }

  // ---------------------------------------------------------------- swarms of every size

  /** What the logarithm gives: nothing for an empty swarm, something for every other, as little
      as wanted for a small enough one, and the bound for some. */
  ghost predicate LikeLog(cfg: Config, maxLog: real) {
    && maxLog > 0.0 && SwarmValue(cfg.log10, 0.0) == 0.0 && OnlyEmptyIsZero(cfg)
    && (exists s: real :: s > 0.0 && SwarmValue(cfg.log10, s) == maxLog)
    && (forall e: real :: e > 0.0 ==> HasSwarmBelow(cfg, e))
  }

  ghost predicate HasSwarmBelow(cfg: Config, e: real) {
    exists s: real :: s > 0.0 && SwarmValue(cfg.log10, s) <= e
  }

  /** Sizes whose cost is at most the given one. */
  lemma SmallCost(cfg: Config, maxLog: real, gap: real, b: real) returns (z: Sizes)
    requires LikeLog(cfg, maxLog) && gap > 0.0 && b >= 0.0
    ensures Reach(cfg, z, maxLog) && SwarmValue(cfg.log10, z.small) * b <= gap
  {
    var e := Least(maxLog, gap / (b + 1.0));
    assert HasSwarmBelow(cfg, e);
    var large: real :| large > 0.0 && SwarmValue(cfg.log10, large) == maxLog;
    var small: real :| small > 0.0 && SwarmValue(cfg.log10, small) <= e;
    z := Sizes(large, small);
    ScaleDown(SwarmValue(cfg.log10, small), gap, b);
  }

  function Least(a: real, b: real): real { if a <= b then a else b }

  lemma ScaleDown(v: real, gap: real, b: real)
    requires b >= 0.0 && gap > 0.0 && 0.0 <= v <= gap / (b + 1.0)
    ensures v * b <= gap
  {
    assert v * (b + 1.0) <= gap / (b + 1.0) * (b + 1.0);
  }
}
