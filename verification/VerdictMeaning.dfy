/** What a verdict says: its factors by what they mean, over inputs by what they mean. */
module VerdictMeaning {
  import opened Basics
  import opened Policy
  import opened Scoring
  import opened SnapshotQueries
  import opened ScorePass
  import SnapshotMeaning

  lemma MeanOf(mean: real, total: real, n: nat)
    requires n > 0 && mean == total / n as real
    ensures mean * n as real == total
  {
  }

  lemma NoneActive(all: map<Hash, SnapshotStats>)
    requires Active(all) == {}
    ensures ActiveAverage(all) == 0.0 && SumR(Active(all), Velocity(all)) == 0.0
  {
  }

  lemma SomeActive(all: map<Hash, SnapshotStats>)
    requires Active(all) != {}
    ensures ActiveAverage(all) * |Active(all)| as real == SumR(Active(all), Velocity(all))
  {
    MeanOf(ActiveAverage(all), SumR(Active(all), Velocity(all)), |Active(all)|);
  }

  /** The average velocity is that of the torrents that upload at all: times their number it is
      their total, and without any it is zero. */
  lemma AverageByMeaning(all: map<Hash, SnapshotStats>, uploaders: set<Hash>, velocity: Hash -> real)
    requires forall h :: h in uploaders <==> h in all && all[h].velocityBytesPerDay > 0.0
    requires forall h :: h in uploaders ==> velocity(h) == all[h].velocityBytesPerDay
    ensures uploaders == {} ==> ActiveAverage(all) == 0.0
    ensures ActiveAverage(all) * |uploaders| as real == SumR(uploaders, velocity)
  {
    assert uploaders == Active(all);
    SumRSame(uploaders, Velocity(all), velocity);
    if Active(all) == {} { NoneActive(all); } else { SomeActive(all); }
  }

  /** The inputs are the torrent's: its statistics, the library's average, its trackers and the
      policy merged from them, at the pinned moment. */
  ghost predicate InputsOf(w: World, x: Listed, i: Input) {
    && i.t == x.t && i.now == w.now
    && SnapshotMeaning.StatsMean(w.store, w.clock, x.hash, i.snaps) && IsGlobalAverage(w, i.globalAvg)
    && TrackersOf(w, x.hash, i.trackers) && PolicyOf(w, i.trackers, i.policy)
  }

  /** The breakdown is the one these inputs and these media lead to. */
  ghost predicate Tells(w: World, x: Listed, b: Breakdown, i: Input, ms: seq<LinkedMedia>) {
    && InputsOf(w, x, i) && LinkedOf(w, x.hash, ms)
    && Means(w.cfg, i, b.factors) && SumsTo(b.factors, b.score)
    && (b.anyTrackerAlive <==> SomeAlive(i.trackers)) && b.reasons == w.exclude(x.t, ms)
    && b.hash == x.hash && b.isPrivate == x.t.isPrivate && b.computedAt == w.now
  }

  lemma ConclusionTells(w: World, x: Listed, b: Breakdown, i: Input, ms: seq<LinkedMedia>)
    requires InputsOf(w, x, i) && LinkedOf(w, x.hash, ms)
    requires b == Conclusion(w, x, i.snaps, i.globalAvg, i.trackers, i.policy, ms)
    ensures Tells(w, x, b, i, ms)
  {
    assert i == Input(x.t, i.snaps, i.globalAvg, i.trackers, i.policy, w.now);
    FactorsByMeaning(w.cfg, i);
    TotalOfEight(b.factors);
    GatesByIndex(i.trackers, i.now, w.cfg.trackerDeadGrace);
  }

  /** Every verdict, however it was reached, is what its factors mean on the torrent's inputs. */
  lemma VerdictByMeaning(w: World, x: Listed, b: Breakdown)
    requires Verdict(w, x, b)
    ensures exists i, ms :: Tells(w, x, b, i, ms)
  {
    var stats, avg, ts, ms :| Fetched(w, x.hash, stats, avg, ts, ms) && Follows(w, x, b, stats, avg, ts, ms);
    var policy :| PolicyOf(w, ts, policy) && b == Conclusion(w, x, stats, avg, ts, policy, ms);
    var i := Input(x.t, stats, avg, ts, policy, w.now);
    SnapshotMeaning.AnswersByMeaning(w.store, w.clock, x.hash, stats);
    ConclusionTells(w, x, b, i, ms);
  }
}
