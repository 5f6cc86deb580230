/**
 What the snapshot statistics say: which rows they are taken from, what an average is an average
 of, and that a velocity is in bytes a day.
 */
module SnapshotMeaning {
  import opened Basics
  import opened Scoring
  import opened SnapshotQueries

  // ---------------------------------------------------------------- which rows count

  ghost predicate FromRaw(rows: seq<RawRow>, p: VelPoint, since: Option<Key>) {
    exists r :: r in rows && p == VelPoint(r.hash, r.ts, r.uploaded) && (since.Some? ==> r.ts >= since.value)
  }

  /** A day stands at its midnight with its highest counter, if it has one. */
  ghost predicate FromDaily(rows: seq<DailyRow>, c: Clock, p: VelPoint, since: Option<int>) {
    exists d :: d in rows && d.uploadedMax > 0 && p == VelPoint(d.hash, c.midnight(d.day), d.uploadedMax)
             && (since.Some? ==> d.day >= since.value)
  }

  lemma {:induction false} RecentAre(raw: seq<RawRow>, daily: seq<DailyRow>, c: Clock)
    ensures forall r :: r in RecentRaw(raw, c) <==> r in raw && r.ts >= c.cutoff30
    ensures forall d :: d in RecentDaily(daily, c) <==> d in daily && d.day >= c.cutoffDay30
    decreases |raw| + |daily|
  {
    if raw != [] {
      RecentAre(raw[1..], [], c);
      assert forall r :: r in raw <==> r == raw[0] || r in raw[1..];
    }
    if daily != [] {
      RecentAre([], daily[1..], c);
      assert forall d :: d in daily <==> d == daily[0] || d in daily[1..];
    }
  }

  /** The newest point is sought among all rows, the anchor among those of the last 30 days. */
  lemma PointsAre(s: Store, c: Clock, p: VelPoint)
    ensures p in VelPoints(s, c) <==> FromRaw(s.raw, p, None) || FromDaily(s.daily, c, p, None)
    ensures p in RecentVelPoints(s, c) <==>
      FromRaw(s.raw, p, Some(c.cutoff30)) || FromDaily(s.daily, c, p, Some(c.cutoffDay30))
  {
    RawPointsAre(s.raw, p);
    DailyPointsAre(s.daily, c, p);
    RecentAre(s.raw, s.daily, c);
    RawPointsAre(RecentRaw(s.raw, c), p);
    DailyPointsAre(RecentDaily(s.daily, c), c, p);
  }

  // ---------------------------------------------------------------- the average of seeders

  lemma {:induction false} SumsJoin(a: seq<Sample>, b: seq<Sample>, h: Hash)
    ensures SumOf(a + b, h) == SumOf(a, h) + SumOf(b, h) && CountOf(a + b, h) == CountOf(a, h) + CountOf(b, h)
  {
    if a == [] {
      assert a + b == b;
    } else {
      assert (a + b)[1..] == a[1..] + b;
      SumsJoin(a[1..], b, h);
    }
  }

  lemma {:induction false} RawJoin(rows: seq<RawRow>, r: RawRow, c: Clock)
    ensures RawSeeders(rows + [r], c)
            == RawSeeders(rows, c) + if r.ts >= c.cutoff7 then [Sample(r.hash, r.seeders as real)] else []
  {
    if rows == [] {
      assert rows + [r] == [r] && [r][1..] == [];
    } else {
      assert (rows + [r])[1..] == rows[1..] + [r];
      RawJoin(rows[1..], r, c);
    }
  }

  lemma {:induction false} DailyJoin(rows: seq<DailyRow>, d: DailyRow, c: Clock)
    ensures DailySeeders(rows + [d], c)
            == DailySeeders(rows, c) + if d.day >= c.cutoffDay7 then [Sample(d.hash, d.seedersAvg)] else []
  {
    if rows == [] {
      assert rows + [d] == [d] && [d][1..] == [];
    } else {
      assert (rows + [d])[1..] == rows[1..] + [d];
      DailyJoin(rows[1..], d, c);
    }
  }

  /** How many samples a torrent's average is of, and what they total. */
  ghost function Samples(s: Store, c: Clock, h: Hash): (nat, real) { Tally(SeederSamples(s, c), h) }

  ghost function Tally(samples: seq<Sample>, h: Hash): (nat, real) { (CountOf(samples, h), SumOf(samples, h)) }

  ghost function Plus(t: (nat, real), counts: bool, value: real): (nat, real) {
    if counts then (t.0 + 1, t.1 + value) else t
  }

  /** A row counts once, for its own torrent, when it is of the last seven days; a day counts with
      its average.  Nothing else does. */
  lemma SamplesByRow(s: Store, c: Clock, h: Hash, r: RawRow, d: DailyRow)
    ensures Samples(Store([], []), c, h) == (0, 0.0)
    ensures Samples(Store(s.raw + [r], s.daily), c, h)
            == Plus(Samples(s, c, h), r.hash == h && r.ts >= c.cutoff7, r.seeders as real)
    ensures Samples(Store(s.raw, s.daily + [d]), c, h)
            == Plus(Samples(s, c, h), d.hash == h && d.day >= c.cutoffDay7, d.seedersAvg)
  {
    RawJoin(s.raw, r, c);
    DailyJoin(s.daily, d, c);
    var raw, daily := RawSeeders(s.raw, c), DailySeeders(s.daily, c);
    OneMore(raw, daily, h, r.ts >= c.cutoff7, Sample(r.hash, r.seeders as real));
    OneMore(raw, daily, h, d.day >= c.cutoffDay7, Sample(d.hash, d.seedersAvg));
  }

  lemma OneSample(h: Hash, counts: bool, x: Sample)
    ensures var more := if counts then [x] else [];
      && CountOf(more, h) == (if x.hash == h && counts then 1 else 0)
      && SumOf(more, h) == (if x.hash == h && counts then x.value else 0.0)
  {
    assert [x][1..] == [];
  }

  lemma OneMore(a: seq<Sample>, b: seq<Sample>, h: Hash, counts: bool, x: Sample)
    ensures var more := if counts then [x] else [];
      && Tally(a + more + b, h) == Plus(Tally(a + b, h), x.hash == h && counts, x.value)
      && Tally(a + (b + more), h) == Plus(Tally(a + b, h), x.hash == h && counts, x.value)
  {
    var more := if counts then [x] else [];
    OneSample(h, counts, x);
    TallyOfThree(a, more, b, h);
    TallyOfThree(a, b, more, h);
    assert a + b + more == a + (b + more);
    SumsJoin(a, b, h);
  }

  lemma TallyOfThree(a: seq<Sample>, b: seq<Sample>, d: seq<Sample>, h: Hash)
    ensures CountOf(a + b + d, h) == CountOf(a, h) + CountOf(b, h) + CountOf(d, h)
    ensures SumOf(a + b + d, h) == SumOf(a, h) + SumOf(b, h) + SumOf(d, h)
  {
    SumsJoin(a, b, h);
    SumsJoin(a + b, d, h);
  }

  // ---------------------------------------------------------------- the velocity

  /** The counter's growth a day: over the days from the anchor to the newest point, thirty at most;
      none when it shrank, the points are not in order, or one is missing or does not parse. */
  ghost predicate VelocityMeans(c: Clock, newest: Option<VelPoint>, anchor: Option<VelPoint>, v: real) {
    if newest.Some? && anchor.Some? && Apart(c, newest.value, anchor.value) then
      var days := c.instant(newest.value.ts).value - c.instant(anchor.value.ts).value;
      var growth := newest.value.up - anchor.value.up;
      && (growth <= 0 ==> v == 0.0)
      && (growth >= 0 && days <= 30.0 ==> v * days == growth as real)
      && (growth >= 0 && days >= 30.0 ==> v * 30.0 == growth as real)
    else v == 0.0
  }

  lemma VelocityByMeaning(c: Clock, newest: Option<VelPoint>, anchor: Option<VelPoint>)
    ensures VelocityMeans(c, newest, anchor, VelocityFromPoints(c, newest, anchor))
  {
    if newest.Some? && anchor.Some? && Apart(c, newest.value, anchor.value) {
      var days := c.instant(newest.value.ts).value - c.instant(anchor.value.ts).value;
      var span := if days > 30.0 then 30.0 else days;
      var growth := (newest.value.up - anchor.value.up) as real;
      assert growth / span * span == growth;
    }
  }

  /** Raw row `r` is a newest of its torrent. */
  predicate NewestRaw(s: Store, r: RawRow) { r in s.raw && forall q :: q in s.raw && q.ts > r.ts ==> q.hash != r.hash }

  predicate NewestDaily(s: Store, d: DailyRow) {
    d in s.daily && forall q :: q in s.daily && q.day > d.day ==> q.hash != d.hash
  }

  /** The ratio of a newest raw row, without any the average of a newest daily one, else zero. */
  ghost predicate RatioMeans(s: Store, h: Hash, ratio: real) {
    || (exists r :: NewestRaw(s, r) && r.hash == h && r.ratio == ratio)
    || ((forall r :: r in s.raw ==> r.hash != h)
        && ((exists d :: NewestDaily(s, d) && d.hash == h && d.ratioAvg == ratio)
            || ((forall d :: d in s.daily ==> d.hash != h) && ratio == 0.0)))
  }

  lemma RatioByMeaning(s: Store, h: Hash, ratio: Option<real>)
    requires LatestRatio(s, h, ratio)
    ensures RatioMeans(s, h, OrZero(ratio))
  {
    if exists r :: r in s.raw && r.hash == h {
      var r :| r in s.raw && r.hash == h && ratio == Some(r.ratio)
               && forall q :: q in s.raw && q.hash == h ==> q.ts <= r.ts;
      assert NewestRaw(s, r);
    } else if exists d :: d in s.daily && d.hash == h {
      var d :| d in s.daily && d.hash == h && ratio == Some(d.ratioAvg)
               && forall q :: q in s.daily && q.hash == h ==> q.day <= d.day;
      assert NewestDaily(s, d);
    }
  }

  /** A velocity from an oldest point of the window to a newest point. */
  ghost predicate VelocityOf(s: Store, c: Clock, h: Hash, v: real) {
    exists newest, anchor :: Newest(VelPoints(s, c), h, newest) && Oldest(RecentVelPoints(s, c), h, anchor)
                             && VelocityMeans(c, newest, anchor, v)
  }

  /** The statistics by what they say: an average times its count is the total, and the velocity is
      the growth from an oldest point of the window to a newest point. */
  ghost predicate StatsMean(s: Store, c: Clock, h: Hash, stats: SnapshotStats) {
    && (Samples(s, c, h).0 == 0 ==> stats.seedersAvg7d == 0.0)
    && stats.seedersAvg7d * Samples(s, c, h).0 as real == (if Samples(s, c, h).0 == 0 then 0.0 else Samples(s, c, h).1)
    && VelocityOf(s, c, h, stats.velocityBytesPerDay)
    && RatioMeans(s, h, stats.latestRatio)
  }

  lemma AverageByMeaning(samples: seq<Sample>, h: Hash)
    ensures var (n, total) := Tally(samples, h);
      && (n == 0 ==> OrZero(AvgOf(samples, h)) == 0.0)
      && OrZero(AvgOf(samples, h)) * n as real == if n == 0 then 0.0 else total
  {
  }

  lemma VelocityOfAnswer(s: Store, c: Clock, h: Hash, newest: Option<VelPoint>, anchor: Option<VelPoint>)
    requires Newest(VelPoints(s, c), h, newest) && Oldest(RecentVelPoints(s, c), h, anchor)
    ensures VelocityOf(s, c, h, VelocityFromPoints(c, newest, anchor))
  {
    VelocityByMeaning(c, newest, anchor);
  }

  lemma PartsByMeaning(s: Store, c: Clock, h: Hash, stats: SnapshotStats,
                       ratio: Option<real>, newest: Option<VelPoint>, anchor: Option<VelPoint>)
    requires PerHashFrom(s, c, h, stats, ratio, newest, anchor)
    ensures StatsMean(s, c, h, stats)
  {
    assert VelocityOf(s, c, h, stats.velocityBytesPerDay) by { VelocityOfAnswer(s, c, h, newest, anchor); }
    assert RatioMeans(s, h, stats.latestRatio) by { RatioByMeaning(s, h, ratio); }
    AverageByMeaning(SeederSamples(s, c), h);
  }

  /** Every answer, of one torrent or of the library, has this meaning. */
  lemma AnswersByMeaning(s: Store, c: Clock, h: Hash, stats: SnapshotStats)
    requires PerHash(s, c, h, stats)
    ensures StatsMean(s, c, h, stats)
  {
    var ratio, newest, anchor :| PerHashFrom(s, c, h, stats, ratio, newest, anchor);
    PartsByMeaning(s, c, h, stats, ratio, newest, anchor);
  }

  /** The torrent's counter grows by `rate` a day over all its points. */
  ghost predicate Steady(s: Store, c: Clock, h: Hash, rate: real) {
    && (forall p :: p in VelPoints(s, c) && p.hash == h ==> c.instant(p.ts).Some?)
    && (forall p, q :: p in VelPoints(s, c) && p.hash == h && q in VelPoints(s, c) && q.hash == h ==>
          (p.up - q.up) as real == rate * (c.instant(p.ts).value - c.instant(q.ts).value))
  }

  /** Then that is its velocity, in every answer, while its points are at most thirty days apart. */
  lemma SteadyVelocity(s: Store, c: Clock, h: Hash, rate: real, stats: SnapshotStats)
    requires PerHash(s, c, h, stats) && Steady(s, c, h, rate) && rate >= 0.0
    requires exists n, a :: Ends(s, c, h, n, a)
    requires forall n, a :: Ends(s, c, h, n, a) ==>
      Apart(c, n, a) && c.instant(n.ts).value - c.instant(a.ts).value <= 30.0
    ensures stats.velocityBytesPerDay == rate
  {
    var n, a := EndsOfAnswer(s, c, h, stats);
    SteadyEnds(s, c, h, rate, n, a);
    RateIs(c, n, a, stats.velocityBytesPerDay, rate);
  }

  lemma EndsOfAnswer(s: Store, c: Clock, h: Hash, stats: SnapshotStats) returns (n: VelPoint, a: VelPoint)
    requires PerHash(s, c, h, stats) && exists n, a :: Ends(s, c, h, n, a)
    ensures Ends(s, c, h, n, a) && VelocityMeans(c, Some(n), Some(a), stats.velocityBytesPerDay)
  {
    var ratio, newest, anchor :| PerHashFrom(s, c, h, stats, ratio, newest, anchor);
    var x, y :| Ends(s, c, h, x, y);
    assert newest.Some? && anchor.Some?;
    n, a := newest.value, anchor.value;
    VelocityByMeaning(c, newest, anchor);
  }

  lemma SteadyEnds(s: Store, c: Clock, h: Hash, rate: real, n: VelPoint, a: VelPoint)
    requires Steady(s, c, h, rate) && Ends(s, c, h, n, a) && Apart(c, n, a)
    ensures (n.up - a.up) as real == rate * (c.instant(n.ts).value - c.instant(a.ts).value)
  {
    RecentArePoints(s, c, a);
  }

  lemma NotNegative(x: real, y: real)
    requires x >= 0.0 && y >= 0.0
    ensures x * y >= 0.0
  {
  }

  lemma RateIs(c: Clock, n: VelPoint, a: VelPoint, v: real, rate: real)
    requires VelocityMeans(c, Some(n), Some(a), v) && Apart(c, n, a) && rate >= 0.0
    requires var days := c.instant(n.ts).value - c.instant(a.ts).value;
      days <= 30.0 && (n.up - a.up) as real == rate * days
    ensures v == rate
  {
    var days := c.instant(n.ts).value - c.instant(a.ts).value;
    var growth := n.up - a.up;
    assert growth as real >= 0.0 by { NotNegative(rate, days); }
    assert growth >= 0 && v * days == growth as real;
    SameFactor(v, rate, days);
  }

  lemma RecentArePoints(s: Store, c: Clock, p: VelPoint)
    requires p in RecentVelPoints(s, c)
    ensures p in VelPoints(s, c)
  {
    PointsAre(s, c, p);
    if FromRaw(s.raw, p, Some(c.cutoff30)) {
      assert FromRaw(s.raw, p, None);
    } else {
      assert FromDaily(s.daily, c, p, None);
    }
  }
}
