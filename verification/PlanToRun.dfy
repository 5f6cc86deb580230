/** The planner and the actor together: what a run does with the plan it was given. */
module PlanToRun {
  import opened Basics
  import opened RunStore
  import P = Planner
  import R = Reaper
  import A = ReaperAudit
  import Run = ReaperRun
  import V = VetoDominance
  import S = Scoring
  import W = WeightBounds

  /** The run record holds this plan and the actor may execute it. */
  ghost predicate Executes(env: R.Env, plan: P.RunPlan) {
    && A.AllStored(env)
    && env.run(0).Some? && R.Allowed(env.run(0).value)
    && env.run(0).value.items == AsItems(plan.items)
  }

  lemma {:induction false} SizesAreTotal(byHash: map<string, P.TorrentBasic>, candidates: seq<P.ScoreRow>,
                                         items: seq<P.RunItem>, k: nat)
    requires P.IsPrefixPlan(byHash, candidates, items) && k <= |items|
    ensures Run.Sizes(AsItems(items)[..k]) == P.TotalSize(byHash, candidates[..k])
  {
    if k > 0 {
      SizesAreTotal(byHash, candidates, items, k - 1);
      assert AsItems(items)[..k][..k - 1] == AsItems(items)[..k - 1];
      assert candidates[..k][..k - 1] == candidates[..k - 1];
      assert items[k - 1] == P.ItemOf(byHash, candidates[k - 1], k - 1);
    }
  }

  /** A run frees at most its plan's estimate, and all of it if every elected candidate
      succeeded; when no elected candidate is empty, only then. */
  lemma FreedWithinEstimate(env: R.Env, limit: int, byHash: map<string, P.TorrentBasic>, candidates: seq<P.ScoreRow>,
                            need: int, plan: P.RunPlan)
    requires P.ExactAndMinimal(byHash, candidates, need, plan) && Executes(env, plan)
    requires forall x :: x in plan.items ==> x.sizeBytes >= 0
    ensures
      var ends := A.Collect(R.ExecuteLog(env, limit), A.Claim());
      var all := |ends| == |plan.items| && forall e :: e in ends ==> e.status == R.Succeeded;
      && 0 <= Run.Freed(ends) <= plan.estimatedFreedBytes
      && (all ==> Run.Freed(ends) == plan.estimatedFreedBytes)
      && ((forall x :: x in plan.items ==> x.sizeBytes > 0) ==>
            (Run.Freed(ends) == plan.estimatedFreedBytes <==> all))
  {
    var items := AsItems(plan.items);
    forall x | x in items ensures exists y :: y in plan.items && y.sizeBytes == x.size {
      var i :| 0 <= i < |items| && items[i] == x;
      assert plan.items[i] in plan.items;
    }
    SizesAreTotal(byHash, candidates, plan.items, |plan.items|);
    assert items[..|items|] == items;
    Run.BytesConserved(env, limit);
  }

  /** No candidate is started once what earlier ones can free covers the need. */
  lemma NothingBeyondTheNeed(env: R.Env, limit: int, byHash: map<string, P.TorrentBasic>, candidates: seq<P.ScoreRow>,
                             need: int, plan: P.RunPlan, k: nat)
    requires P.ExactAndMinimal(byHash, candidates, need, plan) && Executes(env, plan)
    requires forall x :: x in plan.items ==> x.sizeBytes >= 0
    requires k < |A.Collect(R.ExecuteLog(env, limit), A.Claim())|
    ensures Run.Freed(A.Collect(R.ExecuteLog(env, limit), A.Claim())[..k]) < need
  {
    var items, ends := AsItems(plan.items), A.Collect(R.ExecuteLog(env, limit), A.Claim());
    Run.ExecuteTold(env, limit);
    var m: nat :| Run.Progress(env, limit, items, R.ExecuteLog(env, limit), m) && Run.Matches(ends, items[..m]);
    assert items[..m][..k] == items[..k];
    forall x | x in items[..k] ensures x.size >= 0 {
      var i :| 0 <= i < k && items[i] == x;
      assert plan.items[i] in plan.items;
    }
    MatchesPrefix(ends, items[..m], k);
    Run.FreedBounded(ends[..k], items[..k]);
    SizesAreTotal(byHash, candidates, plan.items, k);
  }

  lemma MatchesPrefix(ends: seq<A.End>, items: seq<R.Item>, k: nat)
    requires Run.Matches(ends, items) && k <= |ends|
    ensures Run.Matches(ends[..k], items[..k])
  {
  }

  /** A torrent still under its hit-and-run veto is acted on only after every electable torrent
      that is not, whatever failed on the way. */
  lemma VetoedActedOnLast(
    env: R.Env, limit: int, cfg: S.Config, maxAge: int, maxLog: real, lib: P.Library, rows: seq<P.ScoreRow>,
    inputs: map<string, S.Input>, need: int, plan: P.RunPlan, i: nat, other: P.ScoreRow)
    requires env.run(0).Some? && R.Allowed(env.run(0).value) && env.stored(1)
    requires env.run(0).value.items == AsItems(plan.items)
    requires V.Dominates(cfg, maxAge, maxLog)
    requires V.Scored(cfg, rows, inputs) && P.Descending(rows)
    requires forall r :: r in rows ==> W.InBounds(cfg, inputs[r.hash], maxAge, maxLog)
    requires P.ExactAndMinimal(lib.byHash, P.Candidates(lib, rows), need, plan)
    requires i < |A.Collect(R.ExecuteLog(env, limit), A.Chosen())|
    requires i < |plan.items| && plan.items[i].hash in inputs && W.Vetoed(cfg, inputs[plan.items[i].hash])
    requires other in rows && P.Electable(lib, other) && !W.Vetoed(cfg, inputs[other.hash])
    ensures var started := A.Collect(R.ExecuteLog(env, limit), A.Chosen());
            started[i].hash == plan.items[i].hash && exists j :: 0 <= j < i && started[j].hash == other.hash
  {
    V.VetoedOnlyAfterAllOthers(cfg, maxAge, maxLog, lib, rows, inputs, need, plan, i, other);
    var j :| 0 <= j < i && plan.items[j].hash == other.hash && plan.items[j].rank == j;
    Run.RunProgress(env, limit);
    var items := AsItems(plan.items);
    var m: nat :| Run.Progress(env, limit, items, R.ExecuteLog(env, limit), m);
    assert A.Collect(R.ExecuteLog(env, limit), A.Chosen())[j] == items[j];
  }

  /** When the good candidates come first, a run acts on another one exactly when it starts more
      actions than there are good ones; the good ones then fall short of the need, and a run that
      starts its whole plan acts on another one exactly when they do and there is another. */
  lemma ActsBeyondExactly(env: R.Env, limit: int, byHash: map<string, P.TorrentBasic>, candidates: seq<P.ScoreRow>,
                          need: int, plan: P.RunPlan, good: P.ScoreRow -> bool)
    requires env.run(0).Some? && R.Allowed(env.run(0).value) && env.stored(1)
    requires env.run(0).value.items == AsItems(plan.items)
    requires P.ExactAndMinimal(byHash, candidates, need, plan)
    requires P.GoodFirst(candidates, good) && P.NoNegativeSize(byHash, candidates)
    ensures var started := A.Collect(R.ExecuteLog(env, limit), A.Chosen());
      var beyond := exists k :: 0 <= k < |started| && k < |candidates| && !good(candidates[k]);
      var short := |P.Keep(candidates, good)| < |candidates| && P.TotalSize(byHash, P.Keep(candidates, good)) < need;
      && |started| <= |plan.items|
      && (forall k :: 0 <= k < |started| ==> started[k].hash == candidates[k].hash)
      && (beyond <==> |P.Keep(candidates, good)| < |started|)
      && (beyond ==> short)
      && (|started| == |plan.items| ==> (beyond <==> short))
  {
    var started, items := A.Collect(R.ExecuteLog(env, limit), A.Chosen()), AsItems(plan.items);
    Run.RunProgress(env, limit);
    var m: nat :| Run.Progress(env, limit, items, R.ExecuteLog(env, limit), m);
    assert started == items[..m];
    P.KeepIsPrefix(candidates, good);
    P.GoesBeyondExactly(byHash, candidates, need, plan, good);
    var p := |P.Keep(candidates, good)|;
    if p < |started| { assert !good(candidates[p]); }
    forall k | 0 <= k < |started| ensures started[k].hash == candidates[k].hash {
      assert plan.items[k] == P.ItemOf(byHash, candidates[k], k);
    }
  }

  /** A torrent with a negative score is acted on exactly when the run starts more actions than
      there are electable torrents without one, which do not free enough together. */
  lemma NegativeActedOnExactly(env: R.Env, limit: int, lib: P.Library, rows: seq<P.ScoreRow>, need: int,
                               plan: P.RunPlan)
    requires env.run(0).Some? && R.Allowed(env.run(0).value) && env.stored(1)
    requires env.run(0).value.items == AsItems(plan.items)
    requires P.Descending(rows) && P.NoNegativeSize(lib.byHash, P.Candidates(lib, rows))
    requires P.ExactAndMinimal(lib.byHash, P.Candidates(lib, rows), need, plan)
    ensures var c, started := P.Candidates(lib, rows), A.Collect(R.ExecuteLog(env, limit), A.Chosen());
      var good := P.Keep(c, P.NotNegative());
      && |started| <= |plan.items|
      && (forall k :: 0 <= k < |started| ==> started[k].hash == plan.items[k].hash)
      && ((exists k :: 0 <= k < |started| && plan.items[k].score < 0.0) <==> |good| < |started|)
      && (|good| < |started| ==> P.TotalSize(lib.byHash, good) < need)
      && (|started| == |plan.items| ==>
            (|good| < |started| <==> |good| < |c| && P.TotalSize(lib.byHash, good) < need))
  {
    var c, started := P.Candidates(lib, rows), A.Collect(R.ExecuteLog(env, limit), A.Chosen());
    P.CandidatesDescend(lib, rows);
    ActsBeyondExactly(env, limit, lib.byHash, c, need, plan, P.NotNegative());
    NegativeItems(lib.byHash, c, plan.items, |started|);
  }

  lemma NegativeItems(byHash: map<string, P.TorrentBasic>, c: seq<P.ScoreRow>, items: seq<P.RunItem>, m: nat)
    requires P.IsPrefixPlan(byHash, c, items) && m <= |items|
    ensures forall k :: 0 <= k < m ==> items[k].hash == c[k].hash
    ensures (exists k :: 0 <= k < m && items[k].score < 0.0) <==>
            exists k :: 0 <= k < m && k < |c| && !P.NotNegative()(c[k])
  {
    forall k | 0 <= k < m ensures items[k].score == c[k].score && items[k].hash == c[k].hash {
      assert items[k] == P.ItemOf(byHash, c[k], k);
    }
    if k :| 0 <= k < m && items[k].score < 0.0 { assert !P.NotNegative()(c[k]); }
    if k :| 0 <= k < m && k < |c| && !P.NotNegative()(c[k]) { assert items[k].score < 0.0; }
  }

  /** A vetoed torrent is acted on exactly when the run starts more actions than there are
      electable torrents without a veto, which do not free enough together. */
  lemma VetoedActedOnExactly(
    env: R.Env, limit: int, cfg: S.Config, maxAge: int, maxLog: real, lib: P.Library, rows: seq<P.ScoreRow>,
    inputs: map<string, S.Input>, need: int, plan: P.RunPlan)
    requires env.run(0).Some? && R.Allowed(env.run(0).value) && env.stored(1)
    requires env.run(0).value.items == AsItems(plan.items)
    requires V.Dominates(cfg, maxAge, maxLog)
    requires V.Scored(cfg, rows, inputs) && P.Descending(rows)
    requires forall r :: r in rows ==> W.InBounds(cfg, inputs[r.hash], maxAge, maxLog)
    requires P.NoNegativeSize(lib.byHash, P.Candidates(lib, rows))
    requires P.ExactAndMinimal(lib.byHash, P.Candidates(lib, rows), need, plan)
    ensures var c, started := P.Candidates(lib, rows), A.Collect(R.ExecuteLog(env, limit), A.Chosen());
      var good := P.Keep(c, V.NotVetoed(cfg, inputs));
      && ((exists k :: 0 <= k < |started| && started[k].hash in inputs && W.Vetoed(cfg, inputs[started[k].hash]))
          <==> |good| < |started|)
      && (|good| < |started| ==> P.TotalSize(lib.byHash, good) < need)
      && (|started| == |plan.items| ==>
            (|good| < |started| <==> |good| < |c| && P.TotalSize(lib.byHash, good) < need))
  {
    var c, started := P.Candidates(lib, rows), A.Collect(R.ExecuteLog(env, limit), A.Chosen());
    var good := V.NotVetoed(cfg, inputs);
    V.VetoedComeLast(cfg, maxAge, maxLog, lib, rows, inputs);
    ActsBeyondExactly(env, limit, lib.byHash, c, need, plan, good);
    P.KeepIsPrefix(c, good);
    var p := |P.Keep(c, good)|;
    if p < |started| { assert !good(c[p]) && started[p].hash == c[p].hash; }
    forall k | 0 <= k < |started| && started[k].hash in inputs && W.Vetoed(cfg, inputs[started[k].hash])
      ensures p < |started|
    {
      assert !good(c[k]);
    }
  }
}
