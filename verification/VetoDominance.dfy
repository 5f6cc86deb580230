/**
 When the hit-and-run veto wins: the exact condition on the weights under which every
 vetoed torrent scores strictly below every other one, and what that gives in a plan.
 The veto only lowers the score; the planner has no floor, so the guarantee is about order.
 */
module VetoDominance {
  import opened Basics
  import opened Policy
  import opened Scoring
  import opened WeightBounds
  import P = Planner

  /** How far the other factors can move a vetoed torrent up and another one down. */
  function Spread(w: Weights, maxAge: int, maxLog: real): real {
    ScaledSpread(w, maxAge, maxLog)
    + Pos(w.ratioObligationMet) + Pos(w.seedersLowGuard)
    + Max(Neg(w.ratioObligationMet) + Neg(w.seedersLowGuard), Neg(w.trackerDeadBonus))
  }

  /** The veto less the boost. */
  const MARGIN := 8000.0

  ghost predicate Dominates(cfg: Config, maxAge: int, maxLog: real) {
    forall x, y ::
      Vetoed(cfg, x) && !Vetoed(cfg, y) && InBounds(cfg, x, maxAge, maxLog) && InBounds(cfg, y, maxAge, maxLog)
      ==> Score(cfg, x) < Score(cfg, y)
  }

  // ---------------------------------------------------------------- vetoed torrents

  ghost function Highest(w: Weights, maxAge: int, maxLog: real): real {
    Scaled(w, maxAge, maxLog, true).Sum() + Pos(w.ratioObligationMet) + Pos(w.seedersLowGuard) - MARGIN
  }

  lemma VetoedParts(cfg: Config, x: Input)
    requires Vetoed(cfg, x)
    ensures var p := PartsOf(cfg, x);
      && p.veto == HNR_VETO_WEIGHT && p.boost == Boost(x) && p.dead == 0.0
      && p.ratio <= Pos(cfg.w.ratioObligationMet) && p.guard <= Pos(cfg.w.seedersLowGuard)
  {
    if DeadSustained(x.trackers, x.now, cfg.trackerDeadGrace) {
      SustainedIsNotAlive(x.trackers, x.now, cfg.trackerDeadGrace);
    }
  }

  lemma VetoedAtMost(cfg: Config, x: Input, maxAge: int, maxLog: real)
    requires maxAge >= 0 && Vetoed(cfg, x) && InBounds(cfg, x, maxAge, maxLog)
    ensures Score(cfg, x) - Boost(x) + CANDIDATE_BOOST_WEIGHT <= Highest(cfg.w, maxAge, maxLog)
    ensures OnlyEmptyIsZero(cfg) && Torn(cfg.w, true) ==>
      Score(cfg, x) - Boost(x) + CANDIDATE_BOOST_WEIGHT < Highest(cfg.w, maxAge, maxLog)
  {
    ScoreIsParts(cfg, x);
    ScaledBounds(cfg, x, maxAge, maxLog);
    VetoedParts(cfg, x);
    if OnlyEmptyIsZero(cfg) && Torn(cfg.w, true) { TornIsStrict(cfg, x, true); }
  }

  /** Private, alive, in the window and boosted, with all else pushing up. */
  function Worst(cfg: Config, maxAge: int, z: Sizes): Input {
    var w, now, guard := cfg.w, 1, GuardHelps(cfg.w, true);
    var crowd := Crowd(w, z, true, guard);
    Input(Torrent(AddedFor(w, now, maxAge, true), Some(now), true, true), Pushed(w, crowd, true), 1.0,
          [TrackerView("", Working, None)], PolicyFor(crowd, w.ratioObligationMet > 0.0, guard), now)
  }

  lemma WorstIsVetoed(cfg: Config, maxAge: int, maxLog: real, z: Sizes)
    requires maxAge >= 0 && cfg.hnrWindowDays > 0 && Reach(cfg, z, maxLog)
    ensures var x := Worst(cfg, maxAge, z);
      AnyAlive(x.trackers) && Vetoed(cfg, x) && InBounds(cfg, x, maxAge, maxLog)
  {
    var x := Worst(cfg, maxAge, z);
    assert x.trackers[0] in x.trackers && x.trackers[0].status != NotWorking;
    assert Days(0) == 0.0;
    assert SeedStart(x.t) == x.now;
  }

  lemma WorstGates(cfg: Config, maxAge: int, maxLog: real, z: Sizes)
    requires maxAge >= 0 && cfg.hnrWindowDays > 0 && Reach(cfg, z, maxLog)
    ensures var p := PartsOf(cfg, Worst(cfg, maxAge, z));
      && p.ratio == Pos(cfg.w.ratioObligationMet) && p.guard == Pos(cfg.w.seedersLowGuard)
      && p.veto + p.boost == -MARGIN && p.dead == 0.0
  {
    var x := Worst(cfg, maxAge, z);
    WorstIsVetoed(cfg, maxAge, maxLog, z);
    VetoedParts(cfg, x);
    assert Days(0) == 0.0;
    assert SeedStart(x.t) == x.now;
  }

  lemma WorstScores(cfg: Config, maxAge: int, maxLog: real, z: Sizes)
    requires maxAge >= 0 && cfg.hnrWindowDays > 0 && Reach(cfg, z, maxLog)
    ensures Score(cfg, Worst(cfg, maxAge, z)) == Highest(cfg.w, maxAge, maxLog) - Cost(cfg, z, true)
  {
    var x := Worst(cfg, maxAge, z);
    ScoreIsParts(cfg, x);
    PushedScaled(cfg, x, z, maxAge, maxLog, true, GuardHelps(cfg.w, true));
    WorstGates(cfg, maxAge, maxLog, z);
  }

  // ---------------------------------------------------------------- the exact condition

  lemma SpreadSplits(w: Weights, maxAge: int, maxLog: real)
    ensures Spread(w, maxAge, maxLog) - MARGIN == Highest(w, maxAge, maxLog) + Extent(w, maxAge, maxLog, false)
  {
    ScaledSplits(w, maxAge, maxLog);
  }

  lemma SmallSpreadDominates(cfg: Config, maxAge: int, maxLog: real)
    requires maxAge >= 0 && Spread(cfg.w, maxAge, maxLog) < MARGIN
    ensures Dominates(cfg, maxAge, maxLog)
  {
    SpreadSplits(cfg.w, maxAge, maxLog);
    forall x, y | Vetoed(cfg, x) && !Vetoed(cfg, y)
                  && InBounds(cfg, x, maxAge, maxLog) && InBounds(cfg, y, maxAge, maxLog)
      ensures Score(cfg, x) < Score(cfg, y)
    {
      VetoedAtMost(cfg, x, maxAge, maxLog);
      FreeWithin(cfg, y, maxAge, maxLog);
    }
  }

  /** At the margin itself the veto still dominates when one of the two sides is not attained. */
  predicate Unattained(w: Weights) { Torn(w, true) || Short(w, false) }

  lemma MarginDominates(cfg: Config, maxAge: int, maxLog: real)
    requires maxAge >= 0 && Spread(cfg.w, maxAge, maxLog) == MARGIN
    requires OnlyEmptyIsZero(cfg) && Unattained(cfg.w)
    ensures Dominates(cfg, maxAge, maxLog)
  {
    SpreadSplits(cfg.w, maxAge, maxLog);
    forall x, y | Vetoed(cfg, x) && !Vetoed(cfg, y)
                  && InBounds(cfg, x, maxAge, maxLog) && InBounds(cfg, y, maxAge, maxLog)
      ensures Score(cfg, x) < Score(cfg, y)
    {
      VetoedAtMost(cfg, x, maxAge, maxLog);
      FreeWithin(cfg, y, maxAge, maxLog);
      if Short(cfg.w, false) { FreeStrictly(cfg, y, maxAge, maxLog, false); }
    }
  }

  lemma Beaten(cfg: Config, maxAge: int, maxLog: real, z: Sizes)
    requires maxAge >= 0 && cfg.hnrWindowDays > 0 && Reach(cfg, z, maxLog)
    requires Spread(cfg.w, maxAge, maxLog) - MARGIN
          >= Cost(cfg, z, true) + if Short(cfg.w, false) then Cost(cfg, z, false) else 0.0
    ensures !Dominates(cfg, maxAge, maxLog)
  {
    SpreadSplits(cfg.w, maxAge, maxLog);
    WorstIsVetoed(cfg, maxAge, maxLog, z);
    WorstScores(cfg, maxAge, maxLog, z);
    FurthestIsFree(cfg, maxAge, maxLog, z, false, false);
    FurthestScores(cfg, maxAge, maxLog, z, false, false);
    var x, y := Worst(cfg, maxAge, z), Furthest(cfg, maxAge, z, false, false);
    assert Score(cfg, x) >= Score(cfg, y);
  }

  /** Over all torrents within the bounds and all policies that the API accepts, the veto dominates
      if and only if the spread of the other factors is below the margin, or at it and not
      attained. */
  lemma VetoDominatesExactly(cfg: Config, maxAge: int, maxLog: real)
    requires maxAge >= 0 && cfg.hnrWindowDays > 0 && LikeLog(cfg, maxLog)
    ensures var spread := Spread(cfg.w, maxAge, maxLog);
      Dominates(cfg, maxAge, maxLog) <==> spread < MARGIN || (spread == MARGIN && Unattained(cfg.w))
  {
    var gap := Spread(cfg.w, maxAge, maxLog) - MARGIN;
    if gap < 0.0 {
      SmallSpreadDominates(cfg, maxAge, maxLog);
    } else if gap == 0.0 && Unattained(cfg.w) {
      MarginDominates(cfg, maxAge, maxLog);
    } else {
      var z := SmallCost(cfg, maxLog, if gap > 0.0 then gap else 1.0, Abs(cfg.w.swarmHealthBonus));
      Beaten(cfg, maxAge, maxLog, z);
    }
  }

  // ---------------------------------------------------------------- through the plan

  /** The rows carry the scores of these inputs. */
  ghost predicate Scored(cfg: Config, rows: seq<P.ScoreRow>, inputs: map<string, Input>) {
    forall r :: r in rows ==> r.hash in inputs && r.score == Score(cfg, inputs[r.hash])
  }

  /** A plan elects a vetoed torrent only after every electable torrent that is not vetoed. */
  lemma VetoedOnlyAfterAllOthers(
    cfg: Config, maxAge: int, maxLog: real, lib: P.Library, rows: seq<P.ScoreRow>,
    inputs: map<string, Input>, need: int, plan: P.RunPlan, i: nat, other: P.ScoreRow)
    requires Dominates(cfg, maxAge, maxLog)
    requires Scored(cfg, rows, inputs) && P.Descending(rows)
    requires forall r :: r in rows ==> InBounds(cfg, inputs[r.hash], maxAge, maxLog)
    requires P.ExactAndMinimal(lib.byHash, P.Candidates(lib, rows), need, plan)
    requires i < |plan.items| && plan.items[i].hash in inputs && Vetoed(cfg, inputs[plan.items[i].hash])
    requires other in rows && P.Electable(lib, other) && !Vetoed(cfg, inputs[other.hash])
    ensures exists j :: 0 <= j < i && plan.items[j].hash == other.hash && plan.items[j].rank == j
  {
    var c := P.Candidates(lib, rows);
    P.CandidatesDescend(lib, rows);
    P.CandidatesAre(lib, rows, other);
    assert plan.items[i] == P.ItemOf(lib.byHash, c[i], i) && c[i] in c;
    P.CandidatesAre(lib, rows, c[i]);
    VetoedRowIsLower(cfg, maxAge, maxLog, rows, inputs, c[i], other);
    var j := HigherComesFirst(c, i, other);
    assert plan.items[j] == P.ItemOf(lib.byHash, c[j], j);
  }

  lemma VetoedRowIsLower(cfg: Config, maxAge: int, maxLog: real, rows: seq<P.ScoreRow>, inputs: map<string, Input>,
                         vetoed: P.ScoreRow, other: P.ScoreRow)
    requires Dominates(cfg, maxAge, maxLog) && Scored(cfg, rows, inputs) && vetoed in rows && other in rows
    requires InBounds(cfg, inputs[vetoed.hash], maxAge, maxLog) && InBounds(cfg, inputs[other.hash], maxAge, maxLog)
    requires Vetoed(cfg, inputs[vetoed.hash]) && !Vetoed(cfg, inputs[other.hash])
    ensures vetoed.score < other.score
  {
  }

  lemma HigherComesFirst(c: seq<P.ScoreRow>, i: nat, other: P.ScoreRow) returns (j: nat)
    requires P.Descending(c) && i < |c| && other in c && c[i].score < other.score
    ensures j < i && c[j] == other
  {
    j :| j < |c| && c[j] == other;
  }

  /** The shipped weights keep the veto on top for any torrent up to 100 years old in a
      swarm of up to a million seeders (log term at most 7). */
  lemma DefaultWeightsDominate(cfg: Config)
    requires cfg.w == Weights(50.0, 30.0, 0.1, -1000.0, 5.0, 40.0)
    ensures Dominates(cfg, 36525 * DAY, 7.0)
  {
    SmallSpreadDominates(cfg, 36525 * DAY, 7.0);
  }

  ghost function NotVetoed(cfg: Config, inputs: map<string, Input>): P.ScoreRow -> bool {
    (r: P.ScoreRow) => !(r.hash in inputs && Vetoed(cfg, inputs[r.hash]))
  }

  /** The veto is not absolute in the planner.  Where it dominates, a plan elects a vetoed torrent
      exactly when one is electable and all electable torrents without a veto do not free enough. */
  lemma VetoedElectedExactly(
    cfg: Config, maxAge: int, maxLog: real, lib: P.Library, rows: seq<P.ScoreRow>,
    inputs: map<string, Input>, need: int, plan: P.RunPlan)
    requires Dominates(cfg, maxAge, maxLog)
    requires Scored(cfg, rows, inputs) && P.Descending(rows)
    requires forall r :: r in rows ==> InBounds(cfg, inputs[r.hash], maxAge, maxLog)
    requires P.NoNegativeSize(lib.byHash, P.Candidates(lib, rows))
    requires P.ExactAndMinimal(lib.byHash, P.Candidates(lib, rows), need, plan)
    ensures var c, good := P.Candidates(lib, rows), NotVetoed(cfg, inputs);
      (exists i :: i in plan.items && i.hash in inputs && Vetoed(cfg, inputs[i.hash])) <==>
      (exists r :: r in c && !good(r)) && P.TotalSize(lib.byHash, P.Keep(c, good)) < need
  {
    var c, good := P.Candidates(lib, rows), NotVetoed(cfg, inputs);
    VetoedComeLast(cfg, maxAge, maxLog, lib, rows, inputs);
    P.KeepIsPrefix(c, good);
    P.GoesBeyondExactly(lib.byHash, c, need, plan, good);
    SomeVetoed(cfg, inputs, lib.byHash, c, plan.items);
    var p := |P.Keep(c, good)|;
    if r :| r in c && !good(r) {
      var k :| 0 <= k < |c| && c[k] == r;
      assert !good(c[k]);
    }
    if p < |c| { assert c[p] in c && !good(c[p]); }
  }

  /** Whether or not it dominates, the veto saves nobody when only vetoed torrents are listed. */
  lemma VetoedCanBeElected(
    cfg: Config, lib: P.Library, rows: seq<P.ScoreRow>, inputs: map<string, Input>, need: int, plan: P.RunPlan)
    requires Scored(cfg, rows, inputs) && need > 0
    requires P.ExactAndMinimal(lib.byHash, P.Candidates(lib, rows), need, plan)
    requires P.Candidates(lib, rows) != [] && forall r :: r in rows ==> Vetoed(cfg, inputs[r.hash])
    ensures plan.items != [] && plan.items[0].hash in inputs && Vetoed(cfg, inputs[plan.items[0].hash])
  {
    var c := P.Candidates(lib, rows);
    P.TopIsElected(lib.byHash, c, need, plan);
    P.CandidatesAre(lib, rows, c[0]);
  }

  lemma SomeVetoed(cfg: Config, inputs: map<string, Input>, byHash: map<string, P.TorrentBasic>,
                   c: seq<P.ScoreRow>, items: seq<P.RunItem>)
    requires P.IsPrefixPlan(byHash, c, items)
    ensures (exists i :: i in items && i.hash in inputs && Vetoed(cfg, inputs[i.hash])) <==>
            exists k :: 0 <= k < |items| && !NotVetoed(cfg, inputs)(c[k])
  {
    if i :| i in items && i.hash in inputs && Vetoed(cfg, inputs[i.hash]) {
      var k :| 0 <= k < |items| && items[k] == i;
      assert !NotVetoed(cfg, inputs)(c[k]);
    }
    if k :| 0 <= k < |items| && !NotVetoed(cfg, inputs)(c[k]) {
      assert items[k] in items && items[k].hash == c[k].hash;
    }
  }

  lemma VetoedComeLast(
    cfg: Config, maxAge: int, maxLog: real, lib: P.Library, rows: seq<P.ScoreRow>, inputs: map<string, Input>)
    requires Dominates(cfg, maxAge, maxLog)
    requires Scored(cfg, rows, inputs) && P.Descending(rows)
    requires forall r :: r in rows ==> InBounds(cfg, inputs[r.hash], maxAge, maxLog)
    ensures P.GoodFirst(P.Candidates(lib, rows), NotVetoed(cfg, inputs))
  {
    var c, good := P.Candidates(lib, rows), NotVetoed(cfg, inputs);
    P.CandidatesDescend(lib, rows);
    forall i, j | 0 <= i < j < |c| && good(c[j]) ensures good(c[i]) {
      NotVetoedAbove(cfg, maxAge, maxLog, lib, rows, inputs, c[i], c[j]);
    }
  }

  lemma NotVetoedAbove(
    cfg: Config, maxAge: int, maxLog: real, lib: P.Library, rows: seq<P.ScoreRow>, inputs: map<string, Input>,
    upper: P.ScoreRow, lower: P.ScoreRow)
    requires Dominates(cfg, maxAge, maxLog) && Scored(cfg, rows, inputs)
    requires forall r :: r in rows ==> InBounds(cfg, inputs[r.hash], maxAge, maxLog)
    requires upper in P.Candidates(lib, rows) && lower in P.Candidates(lib, rows) && upper.score >= lower.score
    requires NotVetoed(cfg, inputs)(lower)
    ensures NotVetoed(cfg, inputs)(upper)
  {
    P.CandidatesAre(lib, rows, upper);
    P.CandidatesAre(lib, rows, lower);
  }
}
