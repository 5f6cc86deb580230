/**
 When the user's boost wins: the exact condition on the weights under which every boosted torrent
 outside the hit-and-run veto scores strictly above every torrent that is not boosted.
 */
module BoostOrder {
  import opened Basics
  import opened Policy
  import opened Scoring
  import opened WeightBounds
  import P = Planner
  import V = VetoDominance

  /** How far the other factors can move a boosted torrent down and another one up. */
  function Spread(w: Weights, maxAge: int, maxLog: real): real {
    ScaledSpread(w, maxAge, maxLog)
    + Max(Neg(w.ratioObligationMet) + Neg(w.seedersLowGuard), Neg(w.trackerDeadBonus))
    + Max(Pos(w.ratioObligationMet) + Pos(w.seedersLowGuard), Pos(w.trackerDeadBonus))
  }

  ghost predicate Outranks(cfg: Config, maxAge: int, maxLog: real) {
    forall x: Input, y: Input ::
      x.t.candidateBoost && !Vetoed(cfg, x) && !y.t.candidateBoost
      && InBounds(cfg, x, maxAge, maxLog) && InBounds(cfg, y, maxAge, maxLog)
      ==> Score(cfg, x) > Score(cfg, y)
  }

  lemma SpreadSplits(w: Weights, maxAge: int, maxLog: real)
    ensures Spread(w, maxAge, maxLog) == Extent(w, maxAge, maxLog, true) + Extent(w, maxAge, maxLog, false)
  {
    ScaledSplits(w, maxAge, maxLog);
  }

  /** A torrent that is not boosted, vetoed or not, stays within the upper extent. */
  lemma NotBoostedAtMost(cfg: Config, y: Input, maxAge: int, maxLog: real)
    requires maxAge >= 0 && !y.t.candidateBoost && InBounds(cfg, y, maxAge, maxLog)
    ensures Score(cfg, y) <= Extent(cfg.w, maxAge, maxLog, true)
    ensures OnlyEmptyIsZero(cfg) && Short(cfg.w, true) ==> Score(cfg, y) < Extent(cfg.w, maxAge, maxLog, true)
  {
    if Vetoed(cfg, y) {
      V.VetoedAtMost(cfg, y, maxAge, maxLog);
    } else {
      FreeWithin(cfg, y, maxAge, maxLog);
      if OnlyEmptyIsZero(cfg) && Short(cfg.w, true) { FreeStrictly(cfg, y, maxAge, maxLog, true); }
    }
  }

  predicate Unattained(w: Weights) { Short(w, true) || Short(w, false) }

  lemma SmallSpreadOutranks(cfg: Config, maxAge: int, maxLog: real)
    requires maxAge >= 0
    requires var spread := Spread(cfg.w, maxAge, maxLog);
      spread < CANDIDATE_BOOST_WEIGHT
      || (spread == CANDIDATE_BOOST_WEIGHT && OnlyEmptyIsZero(cfg) && Unattained(cfg.w))
    ensures Outranks(cfg, maxAge, maxLog)
  {
    SpreadSplits(cfg.w, maxAge, maxLog);
    forall x: Input, y: Input | x.t.candidateBoost && !Vetoed(cfg, x) && !y.t.candidateBoost
                  && InBounds(cfg, x, maxAge, maxLog) && InBounds(cfg, y, maxAge, maxLog)
      ensures Score(cfg, x) > Score(cfg, y)
    {
      NotBoostedAtMost(cfg, y, maxAge, maxLog);
      FreeWithin(cfg, x, maxAge, maxLog);
      if OnlyEmptyIsZero(cfg) && Short(cfg.w, false) { FreeStrictly(cfg, x, maxAge, maxLog, false); }
    }
  }

  lemma Beaten(cfg: Config, maxAge: int, maxLog: real, z: Sizes)
    requires maxAge >= 0 && cfg.hnrWindowDays > 0 && Reach(cfg, z, maxLog)
    requires Spread(cfg.w, maxAge, maxLog) - CANDIDATE_BOOST_WEIGHT
          >= (if Short(cfg.w, true) then Cost(cfg, z, true) else 0.0)
             + (if Short(cfg.w, false) then Cost(cfg, z, false) else 0.0)
    ensures !Outranks(cfg, maxAge, maxLog)
  {
    SpreadSplits(cfg.w, maxAge, maxLog);
    FurthestIsFree(cfg, maxAge, maxLog, z, false, true);
    FurthestScores(cfg, maxAge, maxLog, z, false, true);
    FurthestIsFree(cfg, maxAge, maxLog, z, true, false);
    FurthestScores(cfg, maxAge, maxLog, z, true, false);
    var x, y := Furthest(cfg, maxAge, z, false, true), Furthest(cfg, maxAge, z, true, false);
    assert Score(cfg, x) <= Score(cfg, y);
  }

  /** Over all torrents within the bounds and all policies that the API accepts, the boost outranks
      if and only if the spread of the other factors is below it, or equal to it and not attained. */
  lemma BoostOutranksExactly(cfg: Config, maxAge: int, maxLog: real)
    requires maxAge >= 0 && cfg.hnrWindowDays > 0 && LikeLog(cfg, maxLog)
    ensures var spread := Spread(cfg.w, maxAge, maxLog);
      Outranks(cfg, maxAge, maxLog)
      <==> spread < CANDIDATE_BOOST_WEIGHT || (spread == CANDIDATE_BOOST_WEIGHT && Unattained(cfg.w))
  {
    var gap := Spread(cfg.w, maxAge, maxLog) - CANDIDATE_BOOST_WEIGHT;
    if gap < 0.0 || (gap == 0.0 && Unattained(cfg.w)) {
      SmallSpreadOutranks(cfg, maxAge, maxLog);
    } else {
      var z := SmallCost(cfg, maxLog, if gap > 0.0 then gap else 1.0, Abs(cfg.w.swarmHealthBonus));
      Beaten(cfg, maxAge, maxLog, z);
    }
  }

  /** With the shipped weights and swarms of up to a million seeders, the boost outranks exactly
      while no torrent is older than 8849 days. */
  lemma DefaultBoostOutranksExactly(cfg: Config, days: nat)
    requires cfg.w == Weights(50.0, 30.0, 0.1, -1000.0, 5.0, 40.0) && cfg.hnrWindowDays > 0 && LikeLog(cfg, 7.0)
    ensures Outranks(cfg, days * DAY, 7.0) <==> days < 8850
  {
    BoostOutranksExactly(cfg, days * DAY, 7.0);
    WholeDays(days);
  }

  lemma WholeDays(days: nat)
    ensures Days(days * DAY) == days as real
  {
    assert (days * DAY) as real == days as real * DAY as real;
  }

  /** Where the boost outranks, a plan elects a torrent without it only after every electable
      boosted one outside the veto. */
  lemma BoostedElectedFirst(
    cfg: Config, maxAge: int, maxLog: real, lib: P.Library, rows: seq<P.ScoreRow>,
    inputs: map<string, Input>, need: int, plan: P.RunPlan, i: nat, boosted: P.ScoreRow)
    requires Outranks(cfg, maxAge, maxLog)
    requires V.Scored(cfg, rows, inputs) && P.Descending(rows)
    requires forall r :: r in rows ==> InBounds(cfg, inputs[r.hash], maxAge, maxLog)
    requires P.ExactAndMinimal(lib.byHash, P.Candidates(lib, rows), need, plan)
    requires i < |plan.items| && plan.items[i].hash in inputs && !inputs[plan.items[i].hash].t.candidateBoost
    requires boosted in rows && P.Electable(lib, boosted)
    requires inputs[boosted.hash].t.candidateBoost && !Vetoed(cfg, inputs[boosted.hash])
    ensures exists j :: 0 <= j < i && plan.items[j].hash == boosted.hash && plan.items[j].rank == j
  {
    var c := P.Candidates(lib, rows);
    P.CandidatesDescend(lib, rows);
    P.CandidatesAre(lib, rows, boosted);
    assert plan.items[i] == P.ItemOf(lib.byHash, c[i], i) && c[i] in c;
    P.CandidatesAre(lib, rows, c[i]);
    assert c[i].score < boosted.score;
    var j := V.HigherComesFirst(c, i, boosted);
    assert plan.items[j] == P.ItemOf(lib.byHash, c[j], j);
  }
}
