/**
 Snapshot statistics, per torrent and for the whole library.  A query is modelled by what
 SQL promises about its answer: the order of grouped rows is arbitrary, and ORDER BY .. LIMIT 1
 may return any of several tied rows.  Timestamps are compared as text in the database; `Key`
 is the rank of a timestamp in that order, which need not be the order of the instants.
 */
module SnapshotQueries {
  import opened Basics
  import opened Scoring

  type Hash = string
  type Key = int

  datatype RawRow = RawRow(hash: Hash, ts: Key, ratio: real, uploaded: int, seeders: int)
  datatype DailyRow = DailyRow(hash: Hash, day: int, ratioAvg: real, seedersAvg: real, uploadedMax: int)
  datatype Store = Store(raw: seq<RawRow>, daily: seq<DailyRow>)

  /** How timestamps read: the synthetic midnight of a day, and the instant (in days) a
      timestamp parses to, if it does.  Cutoffs are those of the moment asked about. */
  datatype Clock = Clock(
    midnight: int -> Key, instant: Key -> Option<real>,
    cutoff7: Key, cutoffDay7: int, cutoff30: Key, cutoffDay30: int)

  const VELOCITY_WINDOW_DAYS := 30.0

  datatype Sample = Sample(hash: Hash, value: real)
  datatype VelPoint = VelPoint(hash: Hash, ts: Key, up: int)

  // ---------------------------------------------------------------- what the queries range over

  function SeederSamples(s: Store, c: Clock): seq<Sample> {
    RawSeeders(s.raw, c) + DailySeeders(s.daily, c)
  }

  function RawSeeders(rows: seq<RawRow>, c: Clock): seq<Sample> {
    if rows == [] then [] else
    (if rows[0].ts >= c.cutoff7 then [Sample(rows[0].hash, rows[0].seeders as real)] else [])
    + RawSeeders(rows[1..], c)
  }

  function DailySeeders(rows: seq<DailyRow>, c: Clock): seq<Sample> {
    if rows == [] then [] else
    (if rows[0].day >= c.cutoffDay7 then [Sample(rows[0].hash, rows[0].seedersAvg)] else [])
    + DailySeeders(rows[1..], c)
  }

  /** Raw samples and daily maxima; a daily maximum of zero is a row from before the column existed. */
  function VelPoints(s: Store, c: Clock): seq<VelPoint> {
    RawPoints(s.raw) + DailyPoints(s.daily, c)
  }

  /** The same within the 30-day window; daily rows are windowed by day, not by timestamp. */
  function RecentVelPoints(s: Store, c: Clock): seq<VelPoint> {
    RawPoints(RecentRaw(s.raw, c)) + DailyPoints(RecentDaily(s.daily, c), c)
  }

  function RawPoints(rows: seq<RawRow>): seq<VelPoint> {
    if rows == [] then [] else [VelPoint(rows[0].hash, rows[0].ts, rows[0].uploaded)] + RawPoints(rows[1..])
  }

  function DailyPoints(rows: seq<DailyRow>, c: Clock): seq<VelPoint> {
    if rows == [] then [] else
    (if rows[0].uploadedMax > 0 then [VelPoint(rows[0].hash, c.midnight(rows[0].day), rows[0].uploadedMax)] else [])
    + DailyPoints(rows[1..], c)
  }

  function RecentRaw(rows: seq<RawRow>, c: Clock): seq<RawRow> {
    if rows == [] then [] else
    (if rows[0].ts >= c.cutoff30 then [rows[0]] else []) + RecentRaw(rows[1..], c)
  }

  function RecentDaily(rows: seq<DailyRow>, c: Clock): seq<DailyRow> {
    if rows == [] then [] else
    (if rows[0].day >= c.cutoffDay30 then [rows[0]] else []) + RecentDaily(rows[1..], c)
  }

  // ---------------------------------------------------------------- one torrent

  function SumOf(samples: seq<Sample>, h: Hash): real {
    if samples == [] then 0.0
    else (if samples[0].hash == h then samples[0].value else 0.0) + SumOf(samples[1..], h)
  }

  function CountOf(samples: seq<Sample>, h: Hash): nat {
    if samples == [] then 0
    else (if samples[0].hash == h then 1 else 0) + CountOf(samples[1..], h)
  }

  /** AVG over the torrent's samples; NULL when it has none. */
  function AvgOf(samples: seq<Sample>, h: Hash): Option<real> {
    if CountOf(samples, h) == 0 then None
    else Some(SumOf(samples, h) / CountOf(samples, h) as real)
  }

  /** A newest raw ratio, else a newest daily average, else NULL. */
  ghost predicate LatestRatio(s: Store, h: Hash, ratio: Option<real>) {
    if exists r :: r in s.raw && r.hash == h then
      exists r :: r in s.raw && r.hash == h && ratio == Some(r.ratio)
        && forall q :: q in s.raw && q.hash == h ==> q.ts <= r.ts
    else if exists d :: d in s.daily && d.hash == h then
      exists d :: d in s.daily && d.hash == h && ratio == Some(d.ratioAvg)
        && forall q :: q in s.daily && q.hash == h ==> q.day <= d.day
    else ratio == None
  }

  /** ORDER BY ts DESC LIMIT 1: any of the torrent's tied newest points. */
  ghost predicate Newest(points: seq<VelPoint>, h: Hash, p: Option<VelPoint>) {
    match p
    case None => forall q :: q in points ==> q.hash != h
    case Some(p) => p in points && p.hash == h && forall q :: q in points && q.hash == h ==> q.ts <= p.ts
  }

  /** ORDER BY ts ASC LIMIT 1. */
  ghost predicate Oldest(points: seq<VelPoint>, h: Hash, p: Option<VelPoint>) {
    match p
    case None => forall q :: q in points ==> q.hash != h
    case Some(p) => p in points && p.hash == h && forall q :: q in points && q.hash == h ==> q.ts >= p.ts
  }

  function VelocityFromPoints(c: Clock, newest: Option<VelPoint>, anchor: Option<VelPoint>): (v: real)
    ensures v >= 0.0
  {
    if newest == None || anchor == None then 0.0 else
    var newT, anchT := c.instant(newest.value.ts), c.instant(anchor.value.ts);
    if newT == None || anchT == None then 0.0 else
    var days := newT.value - anchT.value;
    var span := if days > VELOCITY_WINDOW_DAYS then VELOCITY_WINDOW_DAYS else days;
    if span <= 0.0 then 0.0 else
    var delta := newest.value.up - anchor.value.up;
    (if delta < 0 then 0 else delta) as real / span
  }

  function OrZero(x: Option<real>): real { if x.Some? then x.value else 0.0 }

  const NO_STATS := SnapshotStats(0.0, 0.0, 0.0)

  /** `stats` is an answer the per-torrent path can give. */
  ghost predicate PerHash(s: Store, c: Clock, h: Hash, stats: SnapshotStats) {
    exists ratio, newest, anchor :: PerHashFrom(s, c, h, stats, ratio, newest, anchor)
  }

  ghost predicate PerHashFrom(s: Store, c: Clock, h: Hash, stats: SnapshotStats,
                              ratio: Option<real>, newest: Option<VelPoint>, anchor: Option<VelPoint>)
  {
    && LatestRatio(s, h, ratio) && Newest(VelPoints(s, c), h, newest)
    && Oldest(RecentVelPoints(s, c), h, anchor)
    && stats == SnapshotStats(OrZero(AvgOf(SeederSamples(s, c), h)),
                              VelocityFromPoints(c, newest, anchor), OrZero(ratio))
  }

  // ---------------------------------------------------------------- the grouped queries

  datatype Grouped<T> = Grouped(hash: Hash, value: T)

  ghost predicate OnePerHash<T>(rows: seq<Grouped<T>>) {
    forall i, j :: 0 <= i < j < |rows| ==> rows[i].hash != rows[j].hash
  }

  ghost predicate Covered<T>(rows: seq<Grouped<T>>, h: Hash) {
    exists r :: r in rows && r.hash == h
  }

  /** AVG .. GROUP BY torrent_hash. */
  ghost predicate GroupedAvg(s: Store, c: Clock, rows: seq<Grouped<Option<real>>>) {
    var samples := SeederSamples(s, c);
    && OnePerHash(rows)
    && (forall r :: r in rows ==> r.value == AvgOf(samples, r.hash))
    && (forall x :: x in samples ==> Covered(rows, x.hash))
  }

  /** The union of raw and daily hashes, left-joined with each one's first row. */
  ghost predicate GroupedRatio(s: Store, rows: seq<Grouped<Option<real>>>) {
    && OnePerHash(rows)
    && (forall r :: r in rows ==> LatestRatio(s, r.hash, r.value))
    && (forall x :: x in s.raw ==> Covered(rows, x.hash))
    && (forall x :: x in s.daily ==> Covered(rows, x.hash))
  }

  /** ROW_NUMBER() .. ORDER BY ts DESC, uploaded DESC, first of each partition. */
  ghost predicate GroupedNewest(points: seq<VelPoint>, rows: seq<Grouped<VelPoint>>) {
    && OnePerHash(rows)
    && (forall r :: r in rows ==> r.value in points && r.value.hash == r.hash)
    && (forall r, q :: r in rows && q in points && q.hash == r.hash ==>
          q.ts < r.value.ts || (q.ts == r.value.ts && q.up <= r.value.up))
    && (forall q :: q in points ==> Covered(rows, q.hash))
  }

  /** ROW_NUMBER() .. ORDER BY ts ASC, uploaded ASC. */
  ghost predicate GroupedOldest(points: seq<VelPoint>, rows: seq<Grouped<VelPoint>>) {
    && OnePerHash(rows)
    && (forall r :: r in rows ==> r.value in points && r.value.hash == r.hash)
    && (forall r, q :: r in rows && q in points && q.hash == r.hash ==>
          q.ts > r.value.ts || (q.ts == r.value.ts && q.up >= r.value.up))
    && (forall q :: q in points ==> Covered(rows, q.hash))
  }

  function Lookup(out: map<Hash, SnapshotStats>, h: Hash): SnapshotStats {
    if h in out then out[h] else NO_STATS
  }

  /** What a grouped result says about a hash. */
  ghost function At<T>(rows: seq<Grouped<T>>, h: Hash): Option<T> {
    if Covered(rows, h)
    then var r :| r in rows && r.hash == h; Some(r.value)
    else None
  }

  lemma RowAt<T>(rows: seq<Grouped<T>>, h: Hash) returns (r: Grouped<T>)
    requires At(rows, h).Some?
    ensures r in rows && r.hash == h && At(rows, h) == Some(r.value)
  {
    r :| r in rows && r.hash == h && At(rows, h) == Some(r.value);
  }

  lemma AtIs<T>(rows: seq<Grouped<T>>, i: nat)
    requires OnePerHash(rows) && i < |rows|
    ensures At(rows, rows[i].hash) == Some(rows[i].value)
  {
    assert rows[i] in rows;
    var r :| r in rows && r.hash == rows[i].hash && At(rows, rows[i].hash) == Some(r.value);
    var j :| 0 <= j < |rows| && rows[j] == r;
  }

  method VelocityPointsByHash(rows: seq<Grouped<VelPoint>>) returns (out: map<Hash, VelPoint>)
    requires OnePerHash(rows)
    ensures forall h :: In(out, h) == At(rows, h)
  {
    out := map[];
    for i := 0 to |rows|
      invariant forall h :: h in out <==> exists j :: 0 <= j < i && rows[j].hash == h
      invariant forall j :: 0 <= j < i ==> rows[j].hash in out && out[rows[j].hash] == rows[j].value
    {
      out := out[rows[i].hash := rows[i].value];
    }
    forall h ensures In(out, h) == At(rows, h) {
      if h in out {
        var j :| 0 <= j < |rows| && rows[j].hash == h;
        AtIs(rows, j);
      } else {
        assert forall r :: r in rows ==> r.hash in out;
      }
    }
  }

  method FillSeeders(before: map<Hash, SnapshotStats>, rows: seq<Grouped<Option<real>>>)
    returns (out: map<Hash, SnapshotStats>)
    requires OnePerHash(rows) && forall h :: Lookup(before, h).seedersAvg7d == 0.0
    ensures forall h :: Lookup(out, h) == Lookup(before, h).(seedersAvg7d := Flat(At(rows, h)))
  {
    out := before;
    for i := 0 to |rows|
      invariant forall h :: Lookup(out, h) == Lookup(before, h).(seedersAvg7d := Flat(At(rows[..i], h)))
    {
      Extend(rows, i);
      var r := rows[i];
      if r.value.Some? {
        var v := Lookup(out, r.hash);
        out := out[r.hash := SnapshotStats(r.value.value, v.velocityBytesPerDay, v.latestRatio)];
      }
    }
    assert rows[..|rows|] == rows;
  }

  method FillRatios(before: map<Hash, SnapshotStats>, rows: seq<Grouped<Option<real>>>)
    returns (out: map<Hash, SnapshotStats>)
    requires OnePerHash(rows) && forall h :: Lookup(before, h).latestRatio == 0.0
    ensures forall h :: Lookup(out, h) == Lookup(before, h).(latestRatio := Flat(At(rows, h)))
  {
    out := before;
    for i := 0 to |rows|
      invariant forall h :: Lookup(out, h) == Lookup(before, h).(latestRatio := Flat(At(rows[..i], h)))
    {
      Extend(rows, i);
      var r := rows[i];
      if r.value.Some? {
        var v := Lookup(out, r.hash);
        out := out[r.hash := SnapshotStats(v.seedersAvg7d, v.velocityBytesPerDay, r.value.value)];
      }
    }
    assert rows[..|rows|] == rows;
  }

  function WithVelocity(c: Clock, before: map<Hash, SnapshotStats>,
                        newest: map<Hash, VelPoint>, anchor: map<Hash, VelPoint>, h: Hash): SnapshotStats
  {
    Lookup(before, h).(velocityBytesPerDay := VelocityFromPoints(c, In(newest, h), In(anchor, h)))
  }

  /** The keys of `newest` are visited in an arbitrary order. */
  method FillVelocities(c: Clock, before: map<Hash, SnapshotStats>,
                        newest: map<Hash, VelPoint>, anchor: map<Hash, VelPoint>)
    returns (out: map<Hash, SnapshotStats>)
    requires forall h :: Lookup(before, h).velocityBytesPerDay == 0.0
    ensures forall h :: Lookup(out, h) == WithVelocity(c, before, newest, anchor, h)
  {
    out := before;
    var left := newest.Keys;
    while left != {}
      invariant left <= newest.Keys
      invariant forall h :: h in left ==> Lookup(out, h) == Lookup(before, h)
      invariant forall h :: h !in left ==> Lookup(out, h) == WithVelocity(c, before, newest, anchor, h)
      decreases left
    {
      var hash :| hash in left;
      var v := Lookup(out, hash);
      out := out[hash := SnapshotStats(v.seedersAvg7d,
                   VelocityFromPoints(c, Some(newest[hash]), In(anchor, hash)), v.latestRatio)];
      left := left - {hash};
    }
  }

  function In(m: map<Hash, VelPoint>, h: Hash): Option<VelPoint> {
    if h in m then Some(m[h]) else None
  }

  /** The library-wide statistics, filled in from the four grouped answers. */
  method ScoringSnapshotStatsAll(
    ghost s: Store, c: Clock, seederRows: seq<Grouped<Option<real>>>, ratioRows: seq<Grouped<Option<real>>>,
    newestRows: seq<Grouped<VelPoint>>, anchorRows: seq<Grouped<VelPoint>>)
    returns (out: map<Hash, SnapshotStats>)
    requires GroupedAvg(s, c, seederRows) && GroupedRatio(s, ratioRows)
    requires GroupedNewest(VelPoints(s, c), newestRows) && GroupedOldest(RecentVelPoints(s, c), anchorRows)
    ensures forall h :: PerHash(s, c, h, Lookup(out, h))
  {
    var seeders := FillSeeders(map[], seederRows);
    var ratios := FillRatios(seeders, ratioRows);
    var newest := VelocityPointsByHash(newestRows);
    var anchor := VelocityPointsByHash(anchorRows);
    out := FillVelocities(c, ratios, newest, anchor);
    forall h ensures PerHash(s, c, h, Lookup(out, h)) {
      GroupedMeansPerHash(s, c, seederRows, ratioRows, newestRows, anchorRows, h);
      assert PerHashFrom(s, c, h, Lookup(out, h), FlatOption(At(ratioRows, h)), At(newestRows, h), At(anchorRows, h));
    }
  }

  function FlatOption(x: Option<Option<real>>): Option<real> {
    if x.Some? then x.value else None
  }

  function Flat(x: Option<Option<real>>): real { OrZero(FlatOption(x)) }

  lemma Extend(rows: seq<Grouped<Option<real>>>, i: nat)
    requires OnePerHash(rows) && i < |rows|
    ensures forall h :: At(rows[..i + 1], h) == if h == rows[i].hash then Some(rows[i].value) else At(rows[..i], h)
    ensures At(rows[..i], rows[i].hash) == None
  {
    var next := rows[..i + 1];
    assert next == rows[..i] + [rows[i]];
    forall h ensures At(next, h) == if h == rows[i].hash then Some(rows[i].value) else At(rows[..i], h) {
      if h == rows[i].hash {
        AtIs(next, i);
      } else if r :| r in rows[..i] && r.hash == h {
        var j :| 0 <= j < i && rows[..i][j] == r;
        AtIs(rows[..i], j);
        AtIs(next, j);
      } else {
        assert forall r :: r in next ==> r in rows[..i] || r == rows[i];
      }
    }
    assert forall r :: r in rows[..i] ==> r.hash != rows[i].hash;
  }

  lemma GroupedAvgMeans(s: Store, c: Clock, rows: seq<Grouped<Option<real>>>, h: Hash)
    requires GroupedAvg(s, c, rows)
    ensures FlatOption(At(rows, h)) == AvgOf(SeederSamples(s, c), h)
  {
    if At(rows, h) == None { NoSamples(SeederSamples(s, c), h); }
  }

  lemma GroupedRatioMeans(s: Store, rows: seq<Grouped<Option<real>>>, h: Hash)
    requires GroupedRatio(s, rows)
    ensures LatestRatio(s, h, FlatOption(At(rows, h)))
  {
    if At(rows, h) == None {
      assert forall x :: x in s.raw ==> x.hash != h;
      assert forall x :: x in s.daily ==> x.hash != h;
    }
  }

  lemma GroupedNewestMeans(points: seq<VelPoint>, rows: seq<Grouped<VelPoint>>, h: Hash)
    requires GroupedNewest(points, rows)
    ensures Newest(points, h, At(rows, h))
  {
    if At(rows, h).Some? {
      var r := RowAt(rows, h);
      forall q | q in points && q.hash == h ensures q.ts <= r.value.ts { }
    } else {
      assert !Covered(rows, h);
    }
  }

  lemma GroupedOldestMeans(points: seq<VelPoint>, rows: seq<Grouped<VelPoint>>, h: Hash)
    requires GroupedOldest(points, rows)
    ensures Oldest(points, h, At(rows, h))
  {
    if At(rows, h).Some? {
      var r := RowAt(rows, h);
      forall q | q in points && q.hash == h ensures q.ts >= r.value.ts { }
    } else {
      assert !Covered(rows, h);
    }
  }

  /** The grouped answers, read at one hash, are answers of the per-torrent queries. */
  lemma GroupedMeansPerHash(
    s: Store, c: Clock, seederRows: seq<Grouped<Option<real>>>, ratioRows: seq<Grouped<Option<real>>>,
    newestRows: seq<Grouped<VelPoint>>, anchorRows: seq<Grouped<VelPoint>>, h: Hash)
    requires GroupedAvg(s, c, seederRows) && GroupedRatio(s, ratioRows)
    requires GroupedNewest(VelPoints(s, c), newestRows) && GroupedOldest(RecentVelPoints(s, c), anchorRows)
    ensures PerHashFrom(s, c, h,
      SnapshotStats(Flat(At(seederRows, h)), VelocityFromPoints(c, At(newestRows, h), At(anchorRows, h)),
                    Flat(At(ratioRows, h))),
      FlatOption(At(ratioRows, h)), At(newestRows, h), At(anchorRows, h))
  {
    GroupedAvgMeans(s, c, seederRows, h);
    GroupedRatioMeans(s, ratioRows, h);
    GroupedNewestMeans(VelPoints(s, c), newestRows, h);
    GroupedOldestMeans(RecentVelPoints(s, c), anchorRows, h);
  }

  lemma {:induction false} NoSamples(samples: seq<Sample>, h: Hash)
    requires forall x :: x in samples ==> x.hash != h
    ensures CountOf(samples, h) == 0
  {
    if samples != [] { NoSamples(samples[1..], h); }
  }

  // ---------------------------------------------------------------- when the answer is unique

  /** Primary keys of the two tables. */
  ghost predicate UniqueKeys(s: Store) {
    && (forall a, b :: a in s.raw && b in s.raw && a.hash == b.hash && a.ts == b.ts ==> a == b)
    && (forall a, b :: a in s.daily && b in s.daily && a.hash == b.hash && a.day == b.day ==> a == b)
  }

  /** Each day has a midnight of its own. */
  ghost predicate DistinctMidnights(c: Clock) {
    forall a, b :: a != b ==> c.midnight(a) != c.midnight(b)
  }

  /** A raw sample and a daily row of the torrent stand at the same timestamp with different
      counters. */
  ghost predicate TiedAt(raw: seq<RawRow>, daily: seq<DailyRow>, c: Clock, h: Hash, ts: Key) {
    exists r, d :: r in raw && d in daily && Tie(c, h, r, d) && r.ts == ts
  }

  predicate Tie(c: Clock, h: Hash, r: RawRow, d: DailyRow) {
    && r.hash == h && d.hash == h && d.uploadedMax > 0
    && r.ts == c.midnight(d.day) && r.uploaded != d.uploadedMax
  }

  /** Such a tie at the torrent's largest timestamp. */
  ghost predicate NewestTie(s: Store, c: Clock, h: Hash) {
    exists n :: Newest(VelPoints(s, c), h, Some(n)) && TiedAt(s.raw, s.daily, c, h, n.ts)
  }

  /** Such a tie at the smallest timestamp of its window. */
  ghost predicate AnchorTie(s: Store, c: Clock, h: Hash) {
    exists a :: Oldest(RecentVelPoints(s, c), h, Some(a))
             && TiedAt(RecentRaw(s.raw, c), RecentDaily(s.daily, c), c, h, a.ts)
  }

  lemma {:induction false} RawPointsAre(rows: seq<RawRow>, p: VelPoint)
    ensures p in RawPoints(rows) <==> exists r :: r in rows && p == VelPoint(r.hash, r.ts, r.uploaded)
  {
    if rows != [] {
      RawPointsAre(rows[1..], p);
      assert forall r :: r in rows <==> r == rows[0] || r in rows[1..];
    }
  }

  lemma {:induction false} DailyPointsAre(rows: seq<DailyRow>, c: Clock, p: VelPoint)
    ensures p in DailyPoints(rows, c) <==>
      exists d :: d in rows && d.uploadedMax > 0 && p == VelPoint(d.hash, c.midnight(d.day), d.uploadedMax)
  {
    if rows != [] {
      DailyPointsAre(rows[1..], c, p);
      assert forall d :: d in rows <==> d == rows[0] || d in rows[1..];
    }
  }

  lemma {:induction false} RecentRows(raw: seq<RawRow>, daily: seq<DailyRow>, c: Clock)
    ensures forall r :: r in RecentRaw(raw, c) ==> r in raw
    ensures forall d :: d in RecentDaily(daily, c) ==> d in daily
    decreases |raw| + |daily|
  {
    if raw != [] { RecentRows(raw[1..], [], c); }
    if daily != [] { RecentRows([], daily[1..], c); }
  }

  /** Two points of one torrent at one timestamp differ exactly when they are such a tie. */
  lemma SamePlace(raw: seq<RawRow>, daily: seq<DailyRow>, c: Clock, p: VelPoint, q: VelPoint)
    requires UniqueKeys(Store(raw, daily)) && DistinctMidnights(c)
    requires p in RawPoints(raw) + DailyPoints(daily, c) && q in RawPoints(raw) + DailyPoints(daily, c)
    requires p.hash == q.hash && p.ts == q.ts && p != q
    ensures TiedAt(raw, daily, c, p.hash, p.ts)
  {
    RawPointsAre(raw, p);
    RawPointsAre(raw, q);
    DailyPointsAre(daily, c, p);
    DailyPointsAre(daily, c, q);
  }

  /** The two points of a tie. */
  lemma TiePoints(raw: seq<RawRow>, daily: seq<DailyRow>, c: Clock, h: Hash, ts: Key) returns (p: VelPoint, q: VelPoint)
    requires TiedAt(raw, daily, c, h, ts)
    ensures p in RawPoints(raw) + DailyPoints(daily, c) && q in RawPoints(raw) + DailyPoints(daily, c)
    ensures p.hash == q.hash == h && p.ts == q.ts == ts && p.up != q.up
  {
    var r, d :| r in raw && d in daily && Tie(c, h, r, d) && r.ts == ts;
    p, q := VelPoint(h, ts, r.uploaded), VelPoint(h, ts, d.uploadedMax);
    RawPointsAre(raw, p);
    DailyPointsAre(daily, c, q);
  }

  ghost predicate OneNewest(s: Store, c: Clock, h: Hash) {
    forall p, q :: Newest(VelPoints(s, c), h, p) && Newest(VelPoints(s, c), h, q) ==> p == q
  }

  ghost predicate OneAnchor(s: Store, c: Clock, h: Hash) {
    forall p, q :: Oldest(RecentVelPoints(s, c), h, p) && Oldest(RecentVelPoints(s, c), h, q) ==> p == q
  }

  /** The newest point is unique exactly when there is no tie at the largest timestamp. */
  lemma NewestIsUniqueExactly(s: Store, c: Clock, h: Hash)
    requires UniqueKeys(s) && DistinctMidnights(c)
    ensures OneNewest(s, c, h) <==> !NewestTie(s, c, h)
  {
    var points := VelPoints(s, c);
    if NewestTie(s, c, h) {
      var n :| Newest(points, h, Some(n)) && TiedAt(s.raw, s.daily, c, h, n.ts);
      var p, q := TiePoints(s.raw, s.daily, c, h, n.ts);
      assert Newest(points, h, Some(p)) && Newest(points, h, Some(q));
    }
    if !OneNewest(s, c, h) {
      var p, q :| Newest(points, h, p) && Newest(points, h, q) && p != q;
      SamePlace(s.raw, s.daily, c, p.value, q.value);
      assert Newest(points, h, Some(p.value));
    }
  }

  /** The anchor is unique exactly when there is no tie at the smallest timestamp of the window. */
  lemma AnchorIsUniqueExactly(s: Store, c: Clock, h: Hash)
    requires UniqueKeys(s) && DistinctMidnights(c)
    ensures OneAnchor(s, c, h) <==> !AnchorTie(s, c, h)
  {
    var raw, daily, points := RecentRaw(s.raw, c), RecentDaily(s.daily, c), RecentVelPoints(s, c);
    RecentRows(s.raw, s.daily, c);
    assert UniqueKeys(Store(raw, daily));
    if AnchorTie(s, c, h) {
      var a :| Oldest(points, h, Some(a)) && TiedAt(raw, daily, c, h, a.ts);
      var p, q := TiePoints(raw, daily, c, h, a.ts);
      assert Oldest(points, h, Some(p)) && Oldest(points, h, Some(q));
    }
    if !OneAnchor(s, c, h) {
      var p, q :| Oldest(points, h, p) && Oldest(points, h, q) && p != q;
      SamePlace(raw, daily, c, p.value, q.value);
      assert Oldest(points, h, Some(p.value));
    }
  }

  // ---------------------------------------------------------------- when the statistics are unique

  /** `n` and `a` are ends of the torrent's velocity. */
  ghost predicate Ends(s: Store, c: Clock, h: Hash, n: VelPoint, a: VelPoint) {
    Newest(VelPoints(s, c), h, Some(n)) && Oldest(RecentVelPoints(s, c), h, Some(a))
  }

  /** The days between two points count: both parse, and the first is the later one. */
  predicate Apart(c: Clock, n: VelPoint, a: VelPoint) {
    var newT, anchT := c.instant(n.ts), c.instant(a.ts);
    newT.Some? && anchT.Some? && newT.value > anchT.value
  }

  /** Neither end is tied; or the ends are not apart in time; or no counter at the newest
      timestamp exceeds one at the anchor's, so that every velocity is zero. */
  ghost predicate Settled(s: Store, c: Clock, h: Hash) {
    || (!NewestTie(s, c, h) && !AnchorTie(s, c, h))
    || (forall n, a :: Ends(s, c, h, n, a) ==> !Apart(c, n, a))
    || (forall n, a :: Ends(s, c, h, n, a) ==> n.up <= a.up)
  }

  ghost predicate OneVelocity(s: Store, c: Clock, h: Hash) {
    forall n1, a1, n2, a2 ::
      Newest(VelPoints(s, c), h, n1) && Oldest(RecentVelPoints(s, c), h, a1)
      && Newest(VelPoints(s, c), h, n2) && Oldest(RecentVelPoints(s, c), h, a2)
      ==> VelocityFromPoints(c, n1, a1) == VelocityFromPoints(c, n2, a2)
  }

  lemma SettledIsOneVelocity(s: Store, c: Clock, h: Hash)
    requires UniqueKeys(s) && DistinctMidnights(c) && Settled(s, c, h)
    ensures OneVelocity(s, c, h)
  {
    NewestIsUniqueExactly(s, c, h);
    AnchorIsUniqueExactly(s, c, h);
    if NewestTie(s, c, h) || AnchorTie(s, c, h) {
      forall n, a | Newest(VelPoints(s, c), h, n) && Oldest(RecentVelPoints(s, c), h, a)
        ensures VelocityFromPoints(c, n, a) == 0.0
      {
        if n.Some? && a.Some? { NoVelocity(s, c, h, n.value, a.value); }
      }
    }
  }

  lemma NoVelocity(s: Store, c: Clock, h: Hash, n: VelPoint, a: VelPoint)
    requires Settled(s, c, h) && (NewestTie(s, c, h) || AnchorTie(s, c, h)) && Ends(s, c, h, n, a)
    ensures VelocityFromPoints(c, Some(n), Some(a)) == 0.0
  {
    assert !Apart(c, n, a) || n.up <= a.up;
  }

  /** An ending with a velocity and another counter at one of its ends give two velocities. */
  lemma TwoVelocities(c: Clock, n: VelPoint, a: VelPoint, n2: VelPoint, a2: VelPoint)
    requires Apart(c, n, a) && n.up > a.up && n2.ts == n.ts && a2.ts == a.ts && n2.up - a2.up != n.up - a.up
    ensures VelocityFromPoints(c, Some(n), Some(a)) != VelocityFromPoints(c, Some(n2), Some(a2))
  {
    var days := c.instant(n.ts).value - c.instant(a.ts).value;
    var span := if days > VELOCITY_WINDOW_DAYS then VELOCITY_WINDOW_DAYS else days;
    var x, y := (n.up - a.up) as real, (if n2.up < a2.up then 0 else n2.up - a2.up) as real;
    Quotients(x, y, span);
  }

  lemma Quotients(x: real, y: real, span: real)
    requires span > 0.0 && x != y
    ensures x / span != y / span
  {
    assert x / span * span == x && y / span * span == y;
  }

  /** Ends that are apart in time, with a counter that grew. */
  lemma Moving(s: Store, c: Clock, h: Hash) returns (n: VelPoint, a: VelPoint)
    requires !Settled(s, c, h)
    ensures Ends(s, c, h, n, a) && n.up > a.up && Apart(c, n, a)
  {
    n, a :| Ends(s, c, h, n, a) && n.up > a.up;
    var x, y :| Ends(s, c, h, x, y) && Apart(c, x, y);
    assert n.ts == x.ts && a.ts == y.ts;
  }

  lemma UnsettledHasTwoVelocities(s: Store, c: Clock, h: Hash)
    requires UniqueKeys(s) && DistinctMidnights(c) && !Settled(s, c, h)
    ensures !OneVelocity(s, c, h)
  {
    var n, a := Moving(s, c, h);
    if NewestTie(s, c, h) {
      var n2 := OtherNewest(s, c, h, n);
      TwoVelocities(c, n, a, n2, a);
    } else {
      var a2 := OtherAnchor(s, c, h, a);
      TwoVelocities(c, n, a, n, a2);
    }
  }

  lemma OtherNewest(s: Store, c: Clock, h: Hash, n: VelPoint) returns (other: VelPoint)
    requires NewestTie(s, c, h) && Newest(VelPoints(s, c), h, Some(n))
    ensures Newest(VelPoints(s, c), h, Some(other)) && other.ts == n.ts && other.up != n.up
  {
    var m :| Newest(VelPoints(s, c), h, Some(m)) && TiedAt(s.raw, s.daily, c, h, m.ts);
    var p, q := TiePoints(s.raw, s.daily, c, h, m.ts);
    other := if p.up != n.up then p else q;
  }

  lemma OtherAnchor(s: Store, c: Clock, h: Hash, a: VelPoint) returns (other: VelPoint)
    requires AnchorTie(s, c, h) && Oldest(RecentVelPoints(s, c), h, Some(a))
    ensures Oldest(RecentVelPoints(s, c), h, Some(other)) && other.ts == a.ts && other.up != a.up
  {
    var raw, daily := RecentRaw(s.raw, c), RecentDaily(s.daily, c);
    var m :| Oldest(RecentVelPoints(s, c), h, Some(m)) && TiedAt(raw, daily, c, h, m.ts);
    var p, q := TiePoints(raw, daily, c, h, m.ts);
    other := if p.up != a.up then p else q;
  }

  /** Some ratio is always answered. */
  lemma HasRatio(s: Store, h: Hash) returns (ratio: Option<real>)
    ensures LatestRatio(s, h, ratio)
  {
    if r :| r in s.raw && r.hash == h {
      var last := LastRaw(s.raw, h);
      ratio := Some(last.ratio);
    } else if d :| d in s.daily && d.hash == h {
      var last := LastDaily(s.daily, h);
      ratio := Some(last.ratioAvg);
    } else {
      ratio := None;
    }
  }

  lemma {:induction false} LastRaw(rows: seq<RawRow>, h: Hash) returns (last: RawRow)
    requires exists r :: r in rows && r.hash == h
    ensures last in rows && last.hash == h && forall q :: q in rows && q.hash == h ==> q.ts <= last.ts
  {
    var n := |rows| - 1;
    assert rows == rows[..n] + [rows[n]];
    last := rows[n];
    if r :| r in rows[..n] && r.hash == h {
      var before := LastRaw(rows[..n], h);
      if rows[n].hash != h || before.ts > rows[n].ts { last := before; }
    }
  }

  lemma {:induction false} LastDaily(rows: seq<DailyRow>, h: Hash) returns (last: DailyRow)
    requires exists r :: r in rows && r.hash == h
    ensures last in rows && last.hash == h && forall q :: q in rows && q.hash == h ==> q.day <= last.day
  {
    var n := |rows| - 1;
    assert rows == rows[..n] + [rows[n]];
    last := rows[n];
    if r :| r in rows[..n] && r.hash == h {
      var before := LastDaily(rows[..n], h);
      if rows[n].hash != h || before.day > rows[n].day { last := before; }
    }
  }

  lemma OneRatio(s: Store, h: Hash, x: Option<real>, y: Option<real>)
    requires UniqueKeys(s) && LatestRatio(s, h, x) && LatestRatio(s, h, y)
    ensures x == y
  {
  }

  ghost predicate OneAnswer(s: Store, c: Clock, h: Hash) {
    forall a, b :: PerHash(s, c, h, a) && PerHash(s, c, h, b) ==> a == b
  }

  /** A torrent has one answer, so that its own statistics equal the library-wide ones, exactly
      when it is settled. */
  lemma AnswerIsUniqueExactly(s: Store, c: Clock, h: Hash)
    requires UniqueKeys(s) && DistinctMidnights(c)
    ensures OneAnswer(s, c, h) <==> Settled(s, c, h)
  {
    if Settled(s, c, h) {
      forall a, b | PerHash(s, c, h, a) && PerHash(s, c, h, b) ensures a == b { PerHashIsUnique(s, c, h, a, b); }
    } else {
      UnsettledHasTwoVelocities(s, c, h);
      TwoAnswers(s, c, h);
    }
  }

  lemma PerHashIsUnique(s: Store, c: Clock, h: Hash, a: SnapshotStats, b: SnapshotStats)
    requires UniqueKeys(s) && DistinctMidnights(c) && Settled(s, c, h)
    requires PerHash(s, c, h, a) && PerHash(s, c, h, b)
    ensures a == b
  {
    var r1, n1, a1 :| PerHashFrom(s, c, h, a, r1, n1, a1);
    var r2, n2, a2 :| PerHashFrom(s, c, h, b, r2, n2, a2);
    SettledIsOneVelocity(s, c, h);
    OneRatio(s, h, r1, r2);
  }

  lemma TwoAnswers(s: Store, c: Clock, h: Hash)
    requires !OneVelocity(s, c, h)
    ensures !OneAnswer(s, c, h)
  {
    var n1, a1, n2, a2 :| Newest(VelPoints(s, c), h, n1) && Oldest(RecentVelPoints(s, c), h, a1)
      && Newest(VelPoints(s, c), h, n2) && Oldest(RecentVelPoints(s, c), h, a2)
      && VelocityFromPoints(c, n1, a1) != VelocityFromPoints(c, n2, a2);
    var ratio := HasRatio(s, h);
    var x := AnAnswer(s, c, h, ratio, n1, a1);
    var y := AnAnswer(s, c, h, ratio, n2, a2);
    assert x != y;
  }

  lemma AnAnswer(s: Store, c: Clock, h: Hash, ratio: Option<real>, newest: Option<VelPoint>, anchor: Option<VelPoint>)
    returns (stats: SnapshotStats)
    requires LatestRatio(s, h, ratio) && Newest(VelPoints(s, c), h, newest) && Oldest(RecentVelPoints(s, c), h, anchor)
    ensures PerHash(s, c, h, stats) && stats.velocityBytesPerDay == VelocityFromPoints(c, newest, anchor)
  {
    stats := SnapshotStats(OrZero(AvgOf(SeederSamples(s, c), h)), VelocityFromPoints(c, newest, anchor), OrZero(ratio));
    assert PerHashFrom(s, c, h, stats, ratio, newest, anchor);
  }

  /** Two raw samples of a torrent and a daily row whose midnight is the later one's timestamp,
      with a counter of its own. */
  predicate TiedStore(s: Store, c: Clock, h: Hash, low: RawRow, high: RawRow, d: DailyRow) {
    && s == Store([low, high], [d]) && low.hash == high.hash == d.hash == h
    && c.cutoff30 <= low.ts < high.ts == c.midnight(d.day)
    && low.uploaded < high.uploaded != d.uploadedMax && d.uploadedMax > 0
    && Apart(c, VelPoint(h, high.ts, high.uploaded), VelPoint(h, low.ts, low.uploaded))
  }

  /** The condition is not idle: such a torrent is not settled and has two answers. */
  lemma TieIsAmbiguous(s: Store, c: Clock, h: Hash, low: RawRow, high: RawRow, d: DailyRow)
    requires TiedStore(s, c, h, low, high, d) && DistinctMidnights(c)
    ensures UniqueKeys(s) && !Settled(s, c, h) && !OneAnswer(s, c, h)
  {
    var n, a := VelPoint(h, high.ts, high.uploaded), VelPoint(h, low.ts, low.uploaded);
    TiedEnds(s, c, h, low, high, d);
    assert Ends(s, c, h, n, a);
    assert high in s.raw && d in s.daily && Tie(c, h, high, d);
    assert TiedAt(s.raw, s.daily, c, h, n.ts);
    AnswerIsUniqueExactly(s, c, h);
  }

  lemma TiedEnds(s: Store, c: Clock, h: Hash, low: RawRow, high: RawRow, d: DailyRow)
    requires TiedStore(s, c, h, low, high, d)
    ensures Ends(s, c, h, VelPoint(h, high.ts, high.uploaded), VelPoint(h, low.ts, low.uploaded))
  {
    var n, a := VelPoint(h, high.ts, high.uploaded), VelPoint(h, low.ts, low.uploaded);
    var recent := RecentRaw(s.raw, c);
    assert s.raw[1..] == [high] && [high][1..] == [];
    assert RecentRaw([], c) == [];
    assert RecentRaw([high], c) == [high] + [];
    assert recent == [low] + RecentRaw([high], c);
    RecentRows(s.raw, s.daily, c);
    assert high in s.raw && low in s.raw;
    RawPointsAre(s.raw, n);
    RawPointsAre(s.raw, a);
    forall q | q in VelPoints(s, c) ensures q.ts <= n.ts {
      RawPointsAre(s.raw, q);
      DailyPointsAre(s.daily, c, q);
    }
    forall q | q in RecentVelPoints(s, c) ensures q.ts >= a.ts {
      RawPointsAre(recent, q);
      DailyPointsAre(RecentDaily(s.daily, c), c, q);
    }
  }
}
