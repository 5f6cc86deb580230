/**
 The snapshot tables as downsampling leaves them and as scoring reads them.  Day-aligned passes
 keep every torrent's statistics unambiguous.
 */
module SnapshotStore {
  import opened Basics
  import D = Downsample
  import Q = SnapshotQueries

  /** The scoring queries read exactly these rows. */
  ghost predicate Reads(q: Q.Store, d: D.Store) {
    && (forall r :: r in q.raw <==>
          D.At(r.hash, r.ts) in d.raw && d.raw[D.At(r.hash, r.ts)] == D.Sample(r.ratio, r.seeders, r.uploaded))
    && (forall g :: g in q.daily <==>
          D.Group(g.hash, g.day) in d.daily
          && (var row := d.daily[D.Group(g.hash, g.day)];
              row.ratioAvg == g.ratioAvg && row.seedersAvg == g.seedersAvg && row.uploadedMax == g.uploadedMax))
  }

  /** A day's midnight is dated that day. */
  ghost predicate Dated(c: Q.Clock, day: D.Key -> int) {
    forall d :: day(c.midnight(d)) == d
  }

  lemma KeysAreUnique(q: Q.Store, d: D.Store)
    requires Reads(q, d)
    ensures Q.UniqueKeys(q)
  {
    forall a, b | a in q.daily && b in q.daily && a.hash == b.hash && a.day == b.day ensures a == b {
      assert D.Group(a.hash, a.day) == D.Group(b.hash, b.day);
    }
  }

  lemma MidnightsAreDistinct(c: Q.Clock, day: D.Key -> int)
    requires Dated(c, day)
    ensures Q.DistinctMidnights(c)
  {
    forall a, b | a != b ensures c.midnight(a) != c.midnight(b) {
      assert day(c.midnight(a)) == a && day(c.midnight(b)) == b;
    }
  }

  /** After aligned passes no raw row is left on the day of any daily row. */
  lemma NoSharedDay(s: D.Store, day: D.Key -> int, k: D.At, g: D.Group)
    requires D.Sound(s, day) && k in s.raw && g in s.daily
    ensures day(k.ts) != g.day
  {
    assert D.BeforeCutoff(s, day, g);
    var a :| a < s.cutoff.value && day(a) == g.day;
    assert a < s.cutoff.value <= k.ts;
  }

  lemma NoTieAnywhere(q: Q.Store, s: D.Store, c: Q.Clock, day: D.Key -> int, h: string, r: Q.RawRow, d: Q.DailyRow)
    requires D.Sound(s, day) && Reads(q, s) && Dated(c, day) && r in q.raw && d in q.daily
    ensures !Q.Tie(c, h, r, d)
  {
    NoSharedDay(s, day, D.At(r.hash, r.ts), D.Group(d.hash, d.day));
    assert day(c.midnight(d.day)) == d.day;
  }

  /** However many day-aligned passes and inserts behind no cutoff there were, every torrent is
      settled: its own statistics have one answer, the library-wide one. */
  lemma AlignedRunsAreSettled(q: Q.Store, c: Q.Clock, day: D.Key -> int, ops: seq<D.Op>, h: string)
    requires D.OrderlyRun(D.EMPTY, day, ops) && Reads(q, D.After(D.EMPTY, day, ops)) && Dated(c, day)
    ensures Q.UniqueKeys(q) && Q.DistinctMidnights(c) && Q.Settled(q, c, h) && Q.OneAnswer(q, c, h)
  {
    var s := D.After(D.EMPTY, day, ops);
    D.EmptyIsSound(day);
    D.SoundRun(D.EMPTY, day, ops);
    KeysAreUnique(q, s);
    MidnightsAreDistinct(c, day);
    forall r, d | r in q.raw && d in q.daily ensures !Q.Tie(c, h, r, d) {
      NoTieAnywhere(q, s, c, day, h, r, d);
    }
    NoTieNoTies(q, c, h);
    Q.AnswerIsUniqueExactly(q, c, h);
  }

  lemma NoTieNoTies(q: Q.Store, c: Q.Clock, h: string)
    requires forall r, d :: r in q.raw && d in q.daily ==> !Q.Tie(c, h, r, d)
    ensures !Q.NewestTie(q, c, h) && !Q.AnchorTie(q, c, h)
  {
    Q.RecentRows(q.raw, q.daily, c);
  }
}
