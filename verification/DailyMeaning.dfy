/** What a downsampling pass writes, read off the raw rows it consumes. */
module DailyMeaning {
  import opened Basics
  import opened Downsample

  /** The raw rows a pass with this cutoff consumes for one torrent and day. */
  predicate Consumes(raw: Raw, day: Key -> int, cutoff: Key, g: Group, k: At) {
    k in raw && k.hash == g.hash && day(k.ts) == g.day && k.ts < cutoff
  }

  /** The row's extremes bound these raw rows and are attained. */
  ghost predicate Ranges(raw: Raw, ks: set<At>, d: Daily)
    requires ks <= raw.Keys
  {
    && (forall k :: k in ks ==> d.ratioMin <= raw[k].ratio <= d.ratioMax)
    && (forall k :: k in ks ==> d.seedersMin <= raw[k].seeders <= d.seedersMax && raw[k].uploaded <= d.uploadedMax)
    && (exists k :: k in ks && raw[k].ratio == d.ratioMin) && (exists k :: k in ks && raw[k].ratio == d.ratioMax)
    && (exists k :: k in ks && raw[k].seeders == d.seedersMin)
    && (exists k :: k in ks && raw[k].seeders == d.seedersMax)
    && (exists k :: k in ks && raw[k].uploaded == d.uploadedMax)
  }

  /** Each average times the count is the total. */
  predicate Averages(d: Daily, ratios: real, seeders: real) {
    d.ratioAvg * d.samples as real == ratios && d.seedersAvg * d.samples as real == seeders
  }

  /** The row counts these raw rows, ranges over them and averages them; `ratio` and `seeders`
      give the values of a row. */
  ghost predicate Describes(raw: Raw, ks: set<At>, d: Daily, ratio: At -> real, seeders: At -> real)
    requires ks <= raw.Keys
  {
    d.samples == |ks| && Ranges(raw, ks, d) && Averages(d, SumR(ks, ratio), SumR(ks, seeders))
  }

  lemma AveragesOf(d: Daily, ratios: real, seeders: real)
    requires d.samples > 0
    requires d.ratioAvg == ratios / d.samples as real && d.seedersAvg == seeders / d.samples as real
    ensures Averages(d, ratios, seeders)
  {
  }

  lemma HasExtremes(raw: Raw, ks: set<At>)
    requires ks != {}
    ensures var d := Aggregate(raw, ks);
      Extremes(raw, ks, d.ratioMin, d.ratioMax, d.seedersMin, d.seedersMax, d.uploadedMax)
  {
    var d := Aggregate(raw, ks);
    LowR(raw, ks);
    LowI(raw, ks);
    assert MaxR(ks, Ratio(raw)) == d.ratioMax && MaxI(ks, Seeders(raw)) == d.seedersMax;
    assert forall k :: k in ks ==> Ratio(raw)(k) == Get(raw, k).ratio;
    assert forall k :: k in ks ==> Seeders(raw)(k) == Get(raw, k).seeders;
    assert forall k :: k in ks ==> Uploaded(raw)(k) == Get(raw, k).uploaded;
  }

  lemma LowR(raw: Raw, ks: set<At>)
    requires ks != {}
    ensures forall k :: k in ks ==> -MaxR(ks, NegRatio(raw)) <= Get(raw, k).ratio
    ensures exists k :: k in ks && Get(raw, k).ratio == -MaxR(ks, NegRatio(raw))
  {
    forall k | k in ks ensures -MaxR(ks, NegRatio(raw)) <= Get(raw, k).ratio {
      assert NegRatio(raw)(k) <= MaxR(ks, NegRatio(raw));
    }
    var k :| k in ks && NegRatio(raw)(k) == MaxR(ks, NegRatio(raw));
    assert Get(raw, k).ratio == -MaxR(ks, NegRatio(raw));
  }

  lemma LowI(raw: Raw, ks: set<At>)
    requires ks != {}
    ensures forall k :: k in ks ==> -MaxI(ks, NegSeeders(raw)) <= Get(raw, k).seeders
    ensures exists k :: k in ks && Get(raw, k).seeders == -MaxI(ks, NegSeeders(raw))
  {
    forall k | k in ks ensures -MaxI(ks, NegSeeders(raw)) <= Get(raw, k).seeders {
      assert NegSeeders(raw)(k) <= MaxI(ks, NegSeeders(raw));
    }
    var k :| k in ks && NegSeeders(raw)(k) == MaxI(ks, NegSeeders(raw));
    assert Get(raw, k).seeders == -MaxI(ks, NegSeeders(raw));
  }

  lemma AggregateRanges(raw: Raw, ks: set<At>)
    requires ks != {} && ks <= raw.Keys
    ensures Ranges(raw, ks, Aggregate(raw, ks))
  {
    HasExtremes(raw, ks);
    assert forall k :: k in ks ==> Get(raw, k) == raw[k];
  }

  lemma AggregateDescribes(raw: Raw, ks: set<At>, ratio: At -> real, seeders: At -> real)
    requires ks != {} && ks <= raw.Keys
    requires forall k :: k in ks ==> ratio(k) == raw[k].ratio && seeders(k) == raw[k].seeders as real
    ensures Describes(raw, ks, Aggregate(raw, ks), ratio, seeders)
  {
    AggregateRanges(raw, ks);
    SumRSame(ks, Ratio(raw), ratio);
    SumRSame(ks, SeedersR(raw), seeders);
    AveragesOf(Aggregate(raw, ks), SumR(ks, ratio), SumR(ks, seeders));
  }

  /** A pass writes, for every torrent and day with a raw row before the cutoff, the row that
      describes exactly those raw rows; other daily rows stay, and so do the later raw rows. */
  lemma PassByMeaning(raw: Raw, daily: Days, day: Key -> int, cutoff: Key, g: Group, ks: set<At>,
                      ratio: At -> real, seeders: At -> real)
    requires ks <= raw.Keys && forall k :: k in ks <==> Consumes(raw, day, cutoff, g, k)
    requires forall k :: k in ks ==> ratio(k) == raw[k].ratio && seeders(k) == raw[k].seeders as real
    ensures var out := Upserted(raw, daily, day, cutoff);
      if ks == {} then (g in out <==> g in daily) && (g in daily ==> out[g] == daily[g])
      else g in out && Describes(raw, ks, out[g], ratio, seeders)
    ensures forall k :: k in Kept(raw, cutoff) <==> k in raw && !(k.ts < cutoff)
    ensures forall k :: k in Kept(raw, cutoff) ==> Kept(raw, cutoff)[k] == raw[k]
  {
    assert ks == Members(raw, day, cutoff, g);
    GroupsHaveMembers(raw, day, cutoff, g);
    if ks != {} { AggregateDescribes(raw, ks, ratio, seeders); }
  }

  lemma SameAverage(a: real, b: real, n: nat)
    requires n > 0 && a * n as real == b * n as real
    ensures a == b
  {
    Cancel(a, b, n as real);
    Cancel(b, a, n as real);
  }

  lemma AveragedOnce(d: Daily, e: Daily, ratios: real, seeders: real)
    requires d.samples == e.samples > 0 && Averages(d, ratios, seeders) && Averages(e, ratios, seeders)
    ensures d.ratioAvg == e.ratioAvg && d.seedersAvg == e.seedersAvg
  {
    SameAverage(d.ratioAvg, e.ratioAvg, d.samples);
    SameAverage(d.seedersAvg, e.seedersAvg, d.samples);
  }

  lemma RangedOnce(raw: Raw, ks: set<At>, d: Daily, e: Daily)
    requires ks <= raw.Keys && Ranges(raw, ks, d) && Ranges(raw, ks, e)
    ensures d.ratioMin == e.ratioMin && d.ratioMax == e.ratioMax
    ensures d.seedersMin == e.seedersMin && d.seedersMax == e.seedersMax && d.uploadedMax == e.uploadedMax
  {
  }

  /** Only one row describes a set of raw rows. */
  lemma DescribedOnce(raw: Raw, ks: set<At>, d: Daily, e: Daily, ratio: At -> real, seeders: At -> real)
    requires ks != {} && ks <= raw.Keys
    requires Describes(raw, ks, d, ratio, seeders) && Describes(raw, ks, e, ratio, seeders)
    ensures d == e
  {
    AveragedOnce(d, e, SumR(ks, ratio), SumR(ks, seeders));
    RangedOnce(raw, ks, d, e);
  }
}
