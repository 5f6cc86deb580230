/**
 Scoring one torrent and scoring the whole library.  The first asks per-torrent queries, the
 second asks library-wide ones and groups the answers; both must reach the same verdicts.
 A database answer is any list the query allows, in any order where no order is asked for.
 */
module ScorePass {
  import opened Basics
  import opened Policy
  import opened Scoring
  import opened SnapshotQueries

  datatype TrackerRow = TrackerRow(hash: Hash, url: string, view: TrackerView)
  datatype LinkedMedia = LinkedMedia(arrType: string, id: int, tags: string)
  datatype Listed = Listed(hash: Hash, t: Torrent)
  datatype Keyed<T> = Keyed(hash: Hash, value: T)

  /** The database at one moment, with the configuration and a pinned clock.  `links` relates
      download ids to media through the import history; `rank` is the ORDER BY of media;
      `exclude` names the reasons a torrent must not be acted on. */
  datatype World = World(
    store: Store, clock: Clock, trackers: set<TrackerRow>, links: set<(Hash, LinkedMedia)>,
    rank: LinkedMedia -> int, lower: Hash -> Hash,
    defaults: ScoringDefaults, overrides: map<string, TrackerPolicy>,
    cfg: Config, exclude: (Torrent, seq<LinkedMedia>) -> seq<string>, now: Time)

  datatype Breakdown = Breakdown(
    hash: Hash, score: real, factors: seq<Factor>, isPrivate: bool, anyTrackerAlive: bool,
    reasons: seq<string>, computedAt: Time)

  // ---------------------------------------------------------------- the velocity average

  ghost function Active(all: map<Hash, SnapshotStats>): set<Hash> {
    set h | h in all && all[h].velocityBytesPerDay > 0.0
  }

  function Velocity(all: map<Hash, SnapshotStats>): Hash -> real {
    (h: Hash) => Lookup(all, h).velocityBytesPerDay
  }

  /** The mean velocity of the torrents that have one. */
  ghost function ActiveAverage(all: map<Hash, SnapshotStats>): real {
    if Active(all) == {} then 0.0 else SumR(Active(all), Velocity(all)) / |Active(all)| as real
  }

  /** The map is visited in an arbitrary order. */
  method GlobalAvgFromStats(all: map<Hash, SnapshotStats>) returns (avg: real)
    ensures avg == ActiveAverage(all)
  {
    var left, sum, n := all.Keys, 0.0, 0;
    assert Active(all) * left == Active(all);
    while left != {}
      invariant left <= all.Keys
      invariant sum + SumR(Active(all) * left, Velocity(all)) == SumR(Active(all), Velocity(all))
      invariant n + |Active(all) * left| == |Active(all)|
      decreases left
    {
      var h :| h in left;
      ghost var rest := Active(all) * (left - {h});
      if all[h].velocityBytesPerDay > 0.0 {
        SumRTakeOut(Active(all) * left, Velocity(all), h);
        assert Active(all) * left - {h} == rest;
        assert Active(all) * left == rest + {h};
        sum := sum + all[h].velocityBytesPerDay;
        n := n + 1;
      } else {
        assert Active(all) * left == rest;
      }
      left := left - {h};
    }
    assert Active(all) * {} == {};
    if n == 0 { return 0.0; }
    return sum / n as real;
  }

  /** A torrent without an entry counts like one with zero statistics, so only what the maps
      say of each hash matters. */
  lemma AverageDependsOnLookups(a: map<Hash, SnapshotStats>, b: map<Hash, SnapshotStats>)
    requires forall h :: Lookup(a, h) == Lookup(b, h)
    ensures ActiveAverage(a) == ActiveAverage(b)
  {
    forall h ensures h in Active(a) <==> h in Active(b) {
      assert Lookup(a, h) == Lookup(b, h);
    }
    assert Active(a) == Active(b);
    SumRSame(Active(a), Velocity(a), Velocity(b));
  }

  /** The library's average velocity: that of any map holding every torrent's own statistics. */
  ghost predicate IsGlobalAverage(w: World, avg: real) {
    exists all: map<Hash, SnapshotStats> :: EveryHash(w, all) && avg == ActiveAverage(all)
  }

  ghost predicate EveryHash(w: World, all: map<Hash, SnapshotStats>) {
    forall h {:trigger PerHash(w.store, w.clock, h, Lookup(all, h))} ::
      PerHash(w.store, w.clock, h, Lookup(all, h))
  }

  /** Every torrent's own statistics are unique. */
  ghost predicate AllSettled(w: World) {
    forall h :: Settled(w.store, w.clock, h)
  }

  lemma GlobalAverageIsUnique(w: World, a: real, b: real)
    requires UniqueKeys(w.store) && DistinctMidnights(w.clock) && AllSettled(w)
    requires IsGlobalAverage(w, a) && IsGlobalAverage(w, b)
    ensures a == b
  {
    var x: map<Hash, SnapshotStats> :| EveryHash(w, x) && a == ActiveAverage(x);
    var y: map<Hash, SnapshotStats> :| EveryHash(w, y) && b == ActiveAverage(y);
    forall h ensures Lookup(x, h) == Lookup(y, h) {
      PerHashIsUnique(w.store, w.clock, h, Lookup(x, h), Lookup(y, h));
    }
    AverageDependsOnLookups(x, y);
  }

  /** The four grouped answers of the library-wide statistics query. */
  datatype BulkStats = BulkStats(
    seeders: seq<Grouped<Option<real>>>, ratios: seq<Grouped<Option<real>>>,
    newest: seq<Grouped<VelPoint>>, anchors: seq<Grouped<VelPoint>>)

  ghost predicate BulkAnswer(w: World, q: BulkStats) {
    && GroupedAvg(w.store, w.clock, q.seeders) && GroupedRatio(w.store, q.ratios)
    && GroupedNewest(VelPoints(w.store, w.clock), q.newest)
    && GroupedOldest(RecentVelPoints(w.store, w.clock), q.anchors)
  }

  method Prefetch(w: World, q: BulkStats) returns (all: map<Hash, SnapshotStats>)
    requires BulkAnswer(w, q)
    ensures EveryHash(w, all)
  {
    all := ScoringSnapshotStatsAll(w.store, w.clock, q.seeders, q.ratios, q.newest, q.anchors);
  }

  lemma PutOver(w: World, all: map<Hash, SnapshotStats>, k: Hash, v: SnapshotStats)
    requires EveryHash(w, all) && PerHash(w.store, w.clock, k, v)
    ensures EveryHash(w, all[k := v])
  {
    var with := all[k := v];
    forall h ensures PerHash(w.store, w.clock, h, Lookup(with, h)) {
      assert PerHash(w.store, w.clock, h, Lookup(all, h));
    }
  }

  /** The torrent's own answer is put over the library-wide one before averaging. */
  method ComputeGlobalAvgVelocity(w: World, q: BulkStats, seed: map<Hash, SnapshotStats>) returns (avg: real)
    requires BulkAnswer(w, q)
    requires forall h :: h in seed ==> PerHash(w.store, w.clock, h, seed[h])
    ensures IsGlobalAverage(w, avg)
  {
    var all := Prefetch(w, q);
    var left := seed.Keys;
    while left != {}
      invariant EveryHash(w, all)
      invariant left <= seed.Keys
      decreases left
    {
      var k :| k in left;
      PutOver(w, all, k, seed[k]);
      all := all[k := seed[k]];
      left := left - {k};
    }
    avg := GlobalAvgFromStats(all);
  }

  // ---------------------------------------------------------------- grouping joined rows

  /** The values of the rows at one hash, in row order. */
  function ValuesAt<T>(rows: seq<Keyed<T>>, h: Hash): seq<T> {
    if rows == [] then [] else
    ValuesAt(rows[..|rows| - 1], h) + (if rows[|rows| - 1].hash == h then [rows[|rows| - 1].value] else [])
  }

  function ListAt<T>(m: map<Hash, seq<T>>, h: Hash): seq<T> { if h in m then m[h] else [] }

  method GroupByHash<T>(rows: seq<Keyed<T>>) returns (out: map<Hash, seq<T>>)
    ensures forall h :: ListAt(out, h) == ValuesAt(rows, h)
  {
    out := map[];
    for i := 0 to |rows|
      invariant forall h :: ListAt(out, h) == ValuesAt(rows[..i], h)
    {
      assert rows[..i + 1][..i] == rows[..i];
      var r := rows[i];
      out := out[r.hash := ListAt(out, r.hash) + [r.value]];
    }
    assert rows[..|rows|] == rows;
  }

  lemma {:induction false} ValuesAtAre<T>(rows: seq<Keyed<T>>, h: Hash, x: T)
    ensures x in ValuesAt(rows, h) <==> Keyed(h, x) in rows
  {
    if rows != [] {
      var n := |rows| - 1;
      ValuesAtAre(rows[..n], h, x);
      assert rows == rows[..n] + [rows[n]];
    }
  }

  // ---------------------------------------------------------------- trackers

  /** Some listing of a torrent's trackers. */
  ghost predicate TrackersOf(w: World, h: Hash, ts: seq<TrackerView>) {
    forall t :: t in ts <==> exists url :: TrackerRow(h, url, t) in w.trackers
  }

  ghost predicate AllTrackers(w: World, rows: seq<Keyed<TrackerView>>) {
    forall r :: r in rows <==> exists url :: TrackerRow(r.hash, url, r.value) in w.trackers
  }

  lemma GroupedTrackers(w: World, rows: seq<Keyed<TrackerView>>, h: Hash)
    requires AllTrackers(w, rows)
    ensures TrackersOf(w, h, ValuesAt(rows, h))
  {
    forall t ensures t in ValuesAt(rows, h) <==> exists url :: TrackerRow(h, url, t) in w.trackers {
      ValuesAtAre(rows, h, t);
    }
  }

  /** The effective policy of a torrent's trackers. */
  ghost predicate PolicyOf(w: World, ts: seq<TrackerView>, p: EffectivePolicy) {
    if ts == [] then p == FromDefaults(w.defaults)
    else Strictest(ResolveAll(ts, w.defaults, w.overrides), p)
  }

  lemma PolicyIgnoresOrder(w: World, a: seq<TrackerView>, b: seq<TrackerView>, p: EffectivePolicy, q: EffectivePolicy)
    requires forall t :: t in a <==> t in b
    requires PolicyOf(w, a, p) && PolicyOf(w, b, q)
    ensures p == q
  {
    assert b != [] ==> b[0] in a;
    if a != [] {
      assert a[0] in b;
      var x, y := ResolveAll(a, w.defaults, w.overrides), ResolveAll(b, w.defaults, w.overrides);
      ResolvedAlike(w, a, b);
      ResolvedAlike(w, b, a);
      MergeIgnoresOrder(x, y, p, q);
    }
  }

  lemma ResolvedAlike(w: World, a: seq<TrackerView>, b: seq<TrackerView>)
    requires forall t :: t in a ==> t in b
    ensures forall p :: p in ResolveAll(a, w.defaults, w.overrides) ==> p in ResolveAll(b, w.defaults, w.overrides)
  {
    var x, y := ResolveAll(a, w.defaults, w.overrides), ResolveAll(b, w.defaults, w.overrides);
    forall p | p in x ensures p in y {
      var i :| 0 <= i < |x| && x[i] == p;
      assert a[i] in b;
      var j :| 0 <= j < |b| && b[j] == a[i];
      assert y[j] == p;
    }
  }

  /** Neither the order nor the repetition of tracker rows changes a score. */
  lemma ScoreIgnoresTrackerOrder(cfg: Config, x: Input, ts: seq<TrackerView>)
    requires forall t :: t in x.trackers <==> t in ts
    ensures AnyAlive(x.trackers) == AnyAlive(ts)
    ensures EvalFactors(cfg, x) == EvalFactors(cfg, x.(trackers := ts))
    ensures Score(cfg, x) == Score(cfg, x.(trackers := ts))
  {
    assert x.trackers == [] <==> ts == [] by {
      if x.trackers != [] { assert x.trackers[0] in ts; }
      if ts != [] { assert ts[0] in x.trackers; }
    }
    assert DeadSustained(x.trackers, x.now, cfg.trackerDeadGrace) == DeadSustained(ts, x.now, cfg.trackerDeadGrace);
  }

  // ---------------------------------------------------------------- linked media

  /** The media of one download id, each once, in order. */
  ghost predicate LinkedOf(w: World, h: Hash, ms: seq<LinkedMedia>) {
    && (forall m :: m in ms <==> (h, m) in w.links)
    && Ordered(w.rank, ms)
  }

  ghost predicate Ordered(rank: LinkedMedia -> int, ms: seq<LinkedMedia>) {
    forall i, j :: 0 <= i < j < |ms| ==> rank(ms[i]) < rank(ms[j])
  }

  /** The library-wide listing folds the case of the download ids. */
  ghost predicate AllLinked(w: World, rows: seq<Keyed<LinkedMedia>>) {
    && (forall r :: r in rows <==> exists id :: (id, r.value) in w.links && w.lower(id) == r.hash)
    && (forall i, j :: 0 <= i < j < |rows| && rows[i].hash == rows[j].hash ==>
          w.rank(rows[i].value) < w.rank(rows[j].value))
  }

  ghost predicate LowerIds(w: World) {
    forall l :: l in w.links ==> w.lower(l.0) == l.0
  }

  lemma {:induction false} ValuesOrdered(rank: LinkedMedia -> int, rows: seq<Keyed<LinkedMedia>>, h: Hash)
    requires forall i, j :: 0 <= i < j < |rows| && rows[i].hash == rows[j].hash ==>
               rank(rows[i].value) < rank(rows[j].value)
    ensures Ordered(rank, ValuesAt(rows, h))
  {
    if rows != [] {
      var n := |rows| - 1;
      var init := ValuesAt(rows[..n], h);
      ValuesOrdered(rank, rows[..n], h);
      if rows[n].hash == h {
        forall i | 0 <= i < |init| ensures rank(init[i]) < rank(rows[n].value) {
          ValuesAtAre(rows[..n], h, init[i]);
        }
      }
    }
  }

  lemma GroupedLinked(w: World, rows: seq<Keyed<LinkedMedia>>, h: Hash)
    requires LowerIds(w) && AllLinked(w, rows)
    ensures LinkedOf(w, h, ValuesAt(rows, h))
  {
    var ms := ValuesAt(rows, h);
    ValuesOrdered(w.rank, rows, h);
    forall m ensures m in ms <==> (h, m) in w.links {
      ValuesAtAre(rows, h, m);
      if (h, m) in w.links { assert w.lower(h) == h; }
    }
  }

  /** The two media listings agree on every torrent exactly when the stored download ids
      are already in lower case. */
  lemma MediaListingsAgreeExactly(w: World)
    requires forall x :: w.lower(w.lower(x)) == w.lower(x)
    ensures LowerIds(w) <==>
      forall h, m :: (h, m) in w.links <==> exists id :: (id, m) in w.links && w.lower(id) == h
  {
    if !LowerIds(w) {
      var l :| l in w.links && w.lower(l.0) != l.0;
      assert (l.0, l.1) in w.links;
    } else {
      forall h, m ensures (h, m) in w.links <==> exists id :: (id, m) in w.links && w.lower(id) == h {
        if (h, m) in w.links { assert w.lower(h) == h; }
      }
    }
  }

  lemma {:induction false} OrderedIsUnique(rank: LinkedMedia -> int, a: seq<LinkedMedia>, b: seq<LinkedMedia>)
    requires Ordered(rank, a) && Ordered(rank, b)
    requires forall m :: m in a <==> m in b
    ensures a == b
    decreases |a|
  {
    assert a != [] ==> a[0] in b;
    assert b != [] ==> b[0] in a;
    if a != [] {
      LeastIsFirst(rank, a, b);
      LeastIsFirst(rank, b, a);
      assert a[0] == b[0] by {
        assert a[0] in b && b[0] in a;
        var i :| 0 <= i < |b| && b[i] == a[0];
        var j :| 0 <= j < |a| && a[j] == b[0];
      }
      forall m ensures m in a[1..] <==> m in b[1..] {
        TailIs(rank, a, m);
        TailIs(rank, b, m);
      }
      OrderedIsUnique(rank, a[1..], b[1..]);
      assert a == [a[0]] + a[1..] && b == [b[0]] + b[1..];
    }
  }

  lemma LeastIsFirst(rank: LinkedMedia -> int, a: seq<LinkedMedia>, b: seq<LinkedMedia>)
    requires Ordered(rank, a) && a != [] && b != [] && b[0] in a
    ensures rank(a[0]) <= rank(b[0])
  {
    var i :| 0 <= i < |a| && a[i] == b[0];
  }

  lemma TailIs(rank: LinkedMedia -> int, a: seq<LinkedMedia>, m: LinkedMedia)
    requires Ordered(rank, a) && a != []
    ensures m in a[1..] <==> m in a && m != a[0]
  {
    if m in a && m != a[0] {
      var i :| 0 <= i < |a| && a[i] == m;
      assert a[1..][i - 1] == m;
    }
    if m in a[1..] {
      var i :| 0 <= i < |a[1..]| && a[1..][i] == m;
      assert a[i + 1] == m && rank(a[0]) < rank(a[i + 1]);
    }
  }

  // ---------------------------------------------------------------- verdicts

  ghost function Conclusion(w: World, x: Listed, stats: SnapshotStats, avg: real,
                            ts: seq<TrackerView>, policy: EffectivePolicy, ms: seq<LinkedMedia>): Breakdown
  {
    var input := Input(x.t, stats, avg, ts, policy, w.now);
    Breakdown(x.hash, Score(w.cfg, input), EvalFactors(w.cfg, input), x.t.isPrivate, AnyAlive(ts),
              w.exclude(x.t, ms), w.now)
  }

  /** `b` follows from these inputs. */
  ghost predicate Follows(w: World, x: Listed, b: Breakdown, stats: SnapshotStats, avg: real,
                          ts: seq<TrackerView>, ms: seq<LinkedMedia>)
  {
    exists policy :: PolicyOf(w, ts, policy) && b == Conclusion(w, x, stats, avg, ts, policy, ms)
  }

  /** These inputs are answers to the queries for the torrent `h`. */
  ghost predicate Fetched(w: World, h: Hash, stats: SnapshotStats, avg: real,
                          ts: seq<TrackerView>, ms: seq<LinkedMedia>)
  {
    && PerHash(w.store, w.clock, h, stats) && IsGlobalAverage(w, avg)
    && TrackersOf(w, h, ts) && LinkedOf(w, h, ms)
  }

  /** `b` is a verdict on `x`: what its own statistics, the library's average, its trackers
      and its media lead to. */
  ghost predicate Verdict(w: World, x: Listed, b: Breakdown) {
    exists stats, avg, ts, ms :: Fetched(w, x.hash, stats, avg, ts, ms) && Follows(w, x, b, stats, avg, ts, ms)
  }

  /** There is only one verdict: whatever orders the database and the maps chose, and whether
      the torrent was scored alone or in a library pass. */
  lemma VerdictIsUnique(w: World, x: Listed, a: Breakdown, b: Breakdown)
    requires UniqueKeys(w.store) && DistinctMidnights(w.clock) && AllSettled(w)
    requires Verdict(w, x, a) && Verdict(w, x, b)
    ensures a == b
  {
    var s1, v1, t1, m1 :| Fetched(w, x.hash, s1, v1, t1, m1) && Follows(w, x, a, s1, v1, t1, m1);
    var s2, v2, t2, m2 :| Fetched(w, x.hash, s2, v2, t2, m2) && Follows(w, x, b, s2, v2, t2, m2);
    FetchedAlike(w, x.hash, s1, v1, t1, m1, s2, v2, t2, m2);
    FollowsAlike(w, x, a, b, s1, v1, t1, t2, m1);
  }

  lemma FetchedAlike(w: World, h: Hash,
                     s1: SnapshotStats, v1: real, t1: seq<TrackerView>, m1: seq<LinkedMedia>,
                     s2: SnapshotStats, v2: real, t2: seq<TrackerView>, m2: seq<LinkedMedia>)
    requires UniqueKeys(w.store) && DistinctMidnights(w.clock) && AllSettled(w)
    requires Fetched(w, h, s1, v1, t1, m1) && Fetched(w, h, s2, v2, t2, m2)
    ensures s1 == s2 && v1 == v2 && m1 == m2
    ensures forall t :: t in t1 <==> t in t2
  {
    PerHashIsUnique(w.store, w.clock, h, s1, s2);
    GlobalAverageIsUnique(w, v1, v2);
    OrderedIsUnique(w.rank, m1, m2);
  }

  lemma FollowsAlike(w: World, x: Listed, a: Breakdown, b: Breakdown, stats: SnapshotStats, avg: real,
                     t1: seq<TrackerView>, t2: seq<TrackerView>, ms: seq<LinkedMedia>)
    requires Follows(w, x, a, stats, avg, t1, ms) && Follows(w, x, b, stats, avg, t2, ms)
    requires forall t :: t in t1 <==> t in t2
    ensures a == b
  {
    var p :| PolicyOf(w, t1, p) && a == Conclusion(w, x, stats, avg, t1, p, ms);
    var q :| PolicyOf(w, t2, q) && b == Conclusion(w, x, stats, avg, t2, q, ms);
    PolicyIgnoresOrder(w, t1, t2, p, q);
    ScoreIgnoresTrackerOrder(w.cfg, Input(x.t, stats, avg, t1, p, w.now), t2);
  }

  /** A breakdown, unless a query failed; `stored` tells whether its row was written. */
  datatype OneResult = QueryFailed | Scored(b: Breakdown, stored: bool)

  /** Score one torrent from its own queries; None stands for a query that failed. */
  method ScoreOne(w: World, x: Option<Listed>, snaps: Option<SnapshotStats>, q: Option<BulkStats>, policiesLoad: bool,
                  ts: Option<seq<TrackerView>>, ms: Option<seq<LinkedMedia>>, writeFails: bool) returns (r: OneResult)
    requires x.Some? && snaps.Some? ==> PerHash(w.store, w.clock, x.value.hash, snaps.value)
    requires q.Some? ==> BulkAnswer(w, q.value)
    requires x.Some? && ts.Some? ==> TrackersOf(w, x.value.hash, ts.value)
    requires x.Some? && ms.Some? ==> LinkedOf(w, x.value.hash, ms.value)
    ensures r.QueryFailed? <==> x == None || snaps == None || q == None || !policiesLoad || ts == None || ms == None
    ensures r.Scored? ==> Verdict(w, x.value, r.b) && r.stored == !writeFails
  {
    if x == None || snaps == None || q == None { return QueryFailed; }
    var avg := ComputeGlobalAvgVelocity(w, q.value, map[x.value.hash := snaps.value]);
    if !policiesLoad || ts == None || ms == None { return QueryFailed; }
    var b := Judge(w, x.value, snaps.value, avg, ts.value, ms.value);
    assert Fetched(w, x.value.hash, snaps.value, avg, ts.value, ms.value);
    return Scored(b, !writeFails);
  }

  method Judge(w: World, x: Listed, snaps: SnapshotStats, avg: real,
               ts: seq<TrackerView>, ms: seq<LinkedMedia>) returns (b: Breakdown)
    ensures Follows(w, x, b, snaps, avg, ts, ms)
  {
    var score, factors, alive, policy :=
      ScoreWithPrefetched(w.cfg, x.t, snaps, avg, ts, w.defaults, w.overrides, w.now);
    b := Breakdown(x.hash, score, factors, x.t.isPrivate, alive, w.exclude(x.t, ms), w.now);
    assert PolicyOf(w, ts, policy);
  }

  /** The stored rows of a pass, or nothing stored. */
  datatype AllResult = PassFailed | Stored(rows: seq<Breakdown>)

  /** Score every torrent from library-wide queries; None stands for a query that failed.  The
      pass stops when cancelled before a torrent, and one transaction stores all rows or none. */
  method ScoreAll(w: World, torrents: Option<seq<Listed>>, q: Option<BulkStats>,
                  trackers: Option<seq<Keyed<TrackerView>>>,
                  linked: Option<seq<Keyed<LinkedMedia>>>, policiesLoad: bool, cancelled: nat -> bool, writeFails: bool)
    returns (r: AllResult)
    requires q.Some? ==> BulkAnswer(w, q.value)
    requires trackers.Some? ==> AllTrackers(w, trackers.value)
    requires linked.Some? ==> LowerIds(w) && AllLinked(w, linked.value)
    ensures r.PassFailed? <==>
      torrents == None || q == None || trackers == None || linked == None || !policiesLoad || writeFails
      || exists k :: 0 <= k < |torrents.value| && cancelled(k)
    ensures r.Stored? ==> |r.rows| == |torrents.value|
    ensures r.Stored? ==> forall i :: 0 <= i < |r.rows| ==> Verdict(w, torrents.value[i], r.rows[i])
  {
    if torrents == None || q == None { return PassFailed; }
    var all := Prefetch(w, q.value);
    var avg := GlobalAvgFromStats(all);
    if trackers == None || linked == None || !policiesLoad { return PassFailed; }
    ghost var good := (x: Listed, b: Breakdown) => Verdict(w, x, b);
    forall x, b | FollowsRows(w, x, b, all, avg, trackers.value, linked.value) ensures good(x, b) {
      Prefetched(w, x, b, all, avg, trackers.value, linked.value);
    }
    var rows, done := JudgeAll(w, torrents.value, all, avg, trackers.value, linked.value, cancelled, good);
    if !done || writeFails { return PassFailed; }
    return Stored(rows);
  }

  /** The rows of a pass, unless it is cancelled; `good` is any property of a row and its torrent
      that follows from its inputs. */
  method JudgeAll(w: World, torrents: seq<Listed>, all: map<Hash, SnapshotStats>, avg: real,
                  trackers: seq<Keyed<TrackerView>>, linked: seq<Keyed<LinkedMedia>>, cancelled: nat -> bool,
                  ghost good: (Listed, Breakdown) -> bool)
    returns (rows: seq<Breakdown>, done: bool)
    requires AllGood(w, all, avg, trackers, linked, good)
    ensures done <==> forall k :: 0 <= k < |torrents| ==> !cancelled(k)
    ensures done ==> |rows| == |torrents| && forall i :: 0 <= i < |rows| ==> good(torrents[i], rows[i])
  {
    var trackersByHash := GroupByHash(trackers);
    var linkedByHash := GroupByHash(linked);
    rows := [];
    for k := 0 to |torrents|
      invariant |rows| == k && forall i :: 0 <= i < k ==> !cancelled(i)
      invariant forall i :: 0 <= i < k ==> good(torrents[i], rows[i])
    {
      if cancelled(k) { return rows, false; }
      var b := JudgeListed(w, torrents[k], all, avg, trackers, linked, trackersByHash, linkedByHash, good);
      rows := rows + [b];
    }
    return rows, true;
  }

  ghost predicate AllGood(w: World, all: map<Hash, SnapshotStats>, avg: real,
                          trackers: seq<Keyed<TrackerView>>, linked: seq<Keyed<LinkedMedia>>,
                          good: (Listed, Breakdown) -> bool)
  {
    forall x, b {:trigger FollowsRows(w, x, b, all, avg, trackers, linked)} ::
      FollowsRows(w, x, b, all, avg, trackers, linked) ==> good(x, b)
  }

  method JudgeListed(w: World, x: Listed, all: map<Hash, SnapshotStats>, avg: real,
                     ghost trackers: seq<Keyed<TrackerView>>, ghost linked: seq<Keyed<LinkedMedia>>,
                     trackersByHash: map<Hash, seq<TrackerView>>, linkedByHash: map<Hash, seq<LinkedMedia>>,
                     ghost good: (Listed, Breakdown) -> bool)
    returns (b: Breakdown)
    requires AllGood(w, all, avg, trackers, linked, good)
    requires forall h :: ListAt(trackersByHash, h) == ValuesAt(trackers, h)
    requires forall h :: ListAt(linkedByHash, h) == ValuesAt(linked, h)
    ensures good(x, b)
  {
    b := Judge(w, x, Lookup(all, x.hash), avg, ListAt(trackersByHash, x.hash), ListAt(linkedByHash, x.hash));
    assert FollowsRows(w, x, b, all, avg, trackers, linked);
  }

  ghost predicate FollowsRows(w: World, x: Listed, b: Breakdown, all: map<Hash, SnapshotStats>, avg: real,
                              trackers: seq<Keyed<TrackerView>>, linked: seq<Keyed<LinkedMedia>>)
  {
    Follows(w, x, b, Lookup(all, x.hash), avg, ValuesAt(trackers, x.hash), ValuesAt(linked, x.hash))
  }

  lemma Prefetched(w: World, x: Listed, b: Breakdown, all: map<Hash, SnapshotStats>, avg: real,
                   trackers: seq<Keyed<TrackerView>>, linked: seq<Keyed<LinkedMedia>>)
    requires EveryHash(w, all) && avg == ActiveAverage(all)
    requires AllTrackers(w, trackers) && LowerIds(w) && AllLinked(w, linked)
    requires FollowsRows(w, x, b, all, avg, trackers, linked)
    ensures Verdict(w, x, b)
  {
    GroupedTrackers(w, trackers, x.hash);
    GroupedLinked(w, linked, x.hash);
    assert PerHash(w.store, w.clock, x.hash, Lookup(all, x.hash));
    assert Fetched(w, x.hash, Lookup(all, x.hash), avg, ValuesAt(trackers, x.hash), ValuesAt(linked, x.hash));
  }
}
