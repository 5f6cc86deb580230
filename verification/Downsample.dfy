/**
 Downsampling: raw snapshots older than a cutoff become one daily row per torrent and day, and are
 then deleted.  A timestamp is its rank in the order the database compares by; `day` is the date
 of a timestamp, an arbitrary function of it.
 */
module Downsample {
  import opened Basics

  type Key = int

  datatype At = At(hash: string, ts: Key)
  datatype Group = Group(hash: string, day: int)
  datatype Sample = Sample(ratio: real, seeders: int, uploaded: int)
  datatype Daily = Daily(
    ratioAvg: real, ratioMin: real, ratioMax: real,
    seedersAvg: real, seedersMin: int, seedersMax: int, uploadedMax: int, samples: nat)

  type Raw = map<At, Sample>
  type Days = map<Group, Daily>

  // ---------------------------------------------------------------- aggregates of a set of rows

  ghost function MaxR(s: set<At>, f: At -> real): (m: real)
    requires s != {}
    ensures forall x :: x in s ==> f(x) <= m
    ensures exists x :: x in s && f(x) == m
  {
    var x :| x in s;
    if s == {x} then f(x) else
    assert s == {x} + (s - {x});
    assert s - {x} != {};
    var r := MaxR(s - {x}, f);
    if f(x) > r then f(x) else r
  }

  ghost function MaxI(s: set<At>, f: At -> int): (m: int)
    requires s != {}
    ensures forall x :: x in s ==> f(x) <= m
    ensures exists x :: x in s && f(x) == m
  {
    var x :| x in s;
    if s == {x} then f(x) else
    assert s == {x} + (s - {x});
    assert s - {x} != {};
    var r := MaxI(s - {x}, f);
    if f(x) > r then f(x) else r
  }

  function Get(raw: Raw, k: At): Sample { if k in raw then raw[k] else Sample(0.0, 0, 0) }

  function Ratio(raw: Raw): At -> real { (k: At) => Get(raw, k).ratio }
  function NegRatio(raw: Raw): At -> real { (k: At) => -Get(raw, k).ratio }
  function Seeders(raw: Raw): At -> int { (k: At) => Get(raw, k).seeders }
  function NegSeeders(raw: Raw): At -> int { (k: At) => -Get(raw, k).seeders }
  function SeedersR(raw: Raw): At -> real { (k: At) => Get(raw, k).seeders as real }
  function Uploaded(raw: Raw): At -> int { (k: At) => Get(raw, k).uploaded }

  /** AVG, MIN, MAX and COUNT over a nonempty set of raw rows. */
  ghost function Aggregate(raw: Raw, ks: set<At>): Daily
    requires ks != {}
  {
    Daily(SumR(ks, Ratio(raw)) / |ks| as real, -MaxR(ks, NegRatio(raw)), MaxR(ks, Ratio(raw)),
          SumR(ks, SeedersR(raw)) / |ks| as real, -MaxI(ks, NegSeeders(raw)), MaxI(ks, Seeders(raw)),
          MaxI(ks, Uploaded(raw)), |ks|)
  }

  /** n times v. */
  function Times(v: real, n: nat): real { v * n as real }

  lemma OneMore(v: real, n: nat)
    ensures Times(v, n + 1) == Times(v, n) + v
  {
    assert (n + 1) as real == n as real + 1.0;
  }

  lemma {:induction false} SumBounds(s: set<At>, f: At -> real, lo: real, hi: real)
    requires forall x :: x in s ==> lo <= f(x) <= hi
    ensures Times(lo, |s|) <= SumR(s, f) <= Times(hi, |s|)
  {
    if s != {} {
      var x :| x in s;
      var rest := s - {x};
      SumBounds(rest, f, lo, hi);
      AddOne(lo, |rest|, SumR(rest, f), hi, f(x));
      SumRTakeOut(s, f, x);
      assert |s| == |rest| + 1;
    }
  }

  lemma AddOne(lo: real, n: nat, total: real, hi: real, v: real)
    requires Times(lo, n) <= total <= Times(hi, n) && lo <= v <= hi
    ensures Times(lo, n + 1) <= v + total <= Times(hi, n + 1)
  {
    OneMore(lo, n);
    OneMore(hi, n);
  }

  lemma MeanBounds(s: set<At>, f: At -> real, lo: real, hi: real)
    requires s != {} && forall x :: x in s ==> lo <= f(x) <= hi
    ensures lo <= SumR(s, f) / |s| as real <= hi
  {
    SumBounds(s, f, lo, hi);
    Divide(lo, |s|, SumR(s, f), hi);
  }

  lemma Divide(lo: real, n: nat, total: real, hi: real)
    requires n > 0 && Times(lo, n) <= total <= Times(hi, n)
    ensures lo <= total / n as real <= hi
  {
    var r, avg := n as real, total / n as real;
    assert avg * r == total;
    Cancel(lo, avg, r);
    Cancel(avg, hi, r);
  }

  lemma Cancel(a: real, b: real, r: real)
    requires r > 0.0 && a * r <= b * r
    ensures a <= b
  {
    assert (b - a) * r >= 0.0;
  }

  /** Each average lies between its minimum and its maximum. */
  lemma AverageBetween(raw: Raw, ks: set<At>)
    requires ks != {}
    ensures var d := Aggregate(raw, ks);
      && d.ratioMin <= d.ratioAvg <= d.ratioMax
      && d.seedersMin as real <= d.seedersAvg <= d.seedersMax as real
      && d.samples >= 1
  {
    var d := Aggregate(raw, ks);
    forall x | x in ks ensures d.ratioMin <= Ratio(raw)(x) <= d.ratioMax {
      assert NegRatio(raw)(x) <= MaxR(ks, NegRatio(raw));
    }
    MeanBounds(ks, Ratio(raw), d.ratioMin, d.ratioMax);
    forall x | x in ks ensures d.seedersMin as real <= SeedersR(raw)(x) <= d.seedersMax as real {
      assert NegSeeders(raw)(x) <= MaxI(ks, NegSeeders(raw));
      assert Seeders(raw)(x) <= MaxI(ks, Seeders(raw));
    }
    MeanBounds(ks, SeedersR(raw), d.seedersMin as real, d.seedersMax as real);
  }

  // ---------------------------------------------------------------- what one pass does

  ghost function Old(raw: Raw, cutoff: Key): set<At> { set k | k in raw && k.ts < cutoff }

  function GroupOf(day: Key -> int, k: At): Group { Group(k.hash, day(k.ts)) }

  ghost function Members(raw: Raw, day: Key -> int, cutoff: Key, g: Group): set<At> {
    set k | k in Old(raw, cutoff) && GroupOf(day, k) == g
  }

  ghost function Groups(raw: Raw, day: Key -> int, cutoff: Key): set<Group> {
    set k | k in Old(raw, cutoff) :: GroupOf(day, k)
  }

  ghost function Kept(raw: Raw, cutoff: Key): Raw { map k | k in raw && k.ts >= cutoff :: raw[k] }

  /** Every group's row is written anew, over any row of that torrent and day. */
  ghost function Upserted(raw: Raw, daily: Days, day: Key -> int, cutoff: Key): Days {
    map g | g in daily.Keys + Groups(raw, day, cutoff) ::
      if Members(raw, day, cutoff, g) != {} then Aggregate(raw, Members(raw, day, cutoff, g)) else Row(daily, g)
  }

  function Row(daily: Days, g: Group): Daily {
    if g in daily then daily[g] else Daily(0.0, 0.0, 0.0, 0.0, 0, 0, 0, 0)
  }

  lemma GroupsHaveMembers(raw: Raw, day: Key -> int, cutoff: Key, g: Group)
    ensures Members(raw, day, cutoff, g) != {} <==> g in Groups(raw, day, cutoff)
  {
    if g in Groups(raw, day, cutoff) {
      var k :| k in Old(raw, cutoff) && GroupOf(day, k) == g;
      assert k in Members(raw, day, cutoff, g);
    }
    if Members(raw, day, cutoff, g) != {} {
      var k :| k in Members(raw, day, cutoff, g);
    }
  }

  function Samples(daily: Days): Group -> int { (g: Group) => Row(daily, g).samples }

  // ---------------------------------------------------------------- conservation in one pass

  ghost function Within(raw: Raw, day: Key -> int, cutoff: Key, gs: set<Group>): set<At> {
    set k | k in Old(raw, cutoff) && GroupOf(day, k) in gs
  }

  lemma {:induction false} MembersCount(raw: Raw, day: Key -> int, cutoff: Key, gs: set<Group>, f: Group -> int)
    requires forall g :: g in gs ==> f(g) == |Members(raw, day, cutoff, g)|
    ensures Sum(gs, f) == |Within(raw, day, cutoff, gs)|
  {
    if gs == {} {
      assert Within(raw, day, cutoff, gs) == {};
    } else {
      var g :| g in gs;
      SumTakeOut(gs, f, g);
      MembersCount(raw, day, cutoff, gs - {g}, f);
      WithinSplit(raw, day, cutoff, gs, g);
    }
  }

  lemma WithinSplit(raw: Raw, day: Key -> int, cutoff: Key, gs: set<Group>, g: Group)
    requires g in gs
    ensures |Within(raw, day, cutoff, gs)| == |Within(raw, day, cutoff, gs - {g})| + |Members(raw, day, cutoff, g)|
  {
    var rest, mine := Within(raw, day, cutoff, gs - {g}), Members(raw, day, cutoff, g);
    assert Within(raw, day, cutoff, gs) == rest + mine && rest !! mine;
  }

  lemma UpsertedRow(raw: Raw, daily: Days, day: Key -> int, cutoff: Key, g: Group)
    ensures Samples(Upserted(raw, daily, day, cutoff))(g) ==
      if g in Groups(raw, day, cutoff) then |Members(raw, day, cutoff, g)| else Samples(daily)(g)
  {
    GroupsHaveMembers(raw, day, cutoff, g);
  }

  /** The rows a pass writes count exactly the raw rows it deletes. */
  lemma WrittenEqualsDeleted(raw: Raw, daily: Days, day: Key -> int, cutoff: Key)
    ensures Sum(Groups(raw, day, cutoff), Samples(Upserted(raw, daily, day, cutoff)))
         == |raw| - |Kept(raw, cutoff)|
  {
    var gs, f := Groups(raw, day, cutoff), Samples(Upserted(raw, daily, day, cutoff));
    forall g | g in gs ensures f(g) == |Members(raw, day, cutoff, g)| {
      UpsertedRow(raw, daily, day, cutoff, g);
    }
    MembersCount(raw, day, cutoff, gs, f);
    AllWithin(raw, day, cutoff);
    DeletedCount(raw, cutoff);
  }

  lemma AllWithin(raw: Raw, day: Key -> int, cutoff: Key)
    ensures Within(raw, day, cutoff, Groups(raw, day, cutoff)) == Old(raw, cutoff)
  {
  }

  lemma DeletedCount(raw: Raw, cutoff: Key)
    ensures |Old(raw, cutoff)| == |raw| - |Kept(raw, cutoff)|
  {
    var old_, kept := Old(raw, cutoff), Kept(raw, cutoff).Keys;
    assert raw.Keys == old_ + kept && old_ !! kept;
    assert |kept| == |Kept(raw, cutoff)| && |raw.Keys| == |raw|;
  }

  /** All samples there are: raw ones, and those counted in daily rows. */
  ghost function Total(raw: Raw, daily: Days): int { |raw| + Sum(daily.Keys, Samples(daily)) }

  /** Rows of the same torrent and day as a consumed raw row are overwritten, not merged. */
  ghost function Overwritten(raw: Raw, daily: Days, day: Key -> int, cutoff: Key): set<Group> {
    daily.Keys * Groups(raw, day, cutoff)
  }

  /** A pass loses exactly the samples of the daily rows it overwrites. */
  lemma PassLosesOverwritten(raw: Raw, daily: Days, day: Key -> int, cutoff: Key)
    ensures Total(Kept(raw, cutoff), Upserted(raw, daily, day, cutoff))
         == Total(raw, daily) - Sum(Overwritten(raw, daily, day, cutoff), Samples(daily))
  {
    var lost, rest := Overwritten(raw, daily, day, cutoff), daily.Keys - Groups(raw, day, cutoff);
    WrittenEqualsDeleted(raw, daily, day, cutoff);
    assert daily.Keys == lost + rest;
    SumSplit(lost, rest, Samples(daily));
    SumOfUpserted(raw, daily, day, cutoff);
  }

  lemma SumOfUpserted(raw: Raw, daily: Days, day: Key -> int, cutoff: Key)
    ensures var gs, f := Groups(raw, day, cutoff), Samples(Upserted(raw, daily, day, cutoff));
      Sum(Upserted(raw, daily, day, cutoff).Keys, f) == Sum(gs, f) + Sum(daily.Keys - gs, Samples(daily))
  {
    var gs, f := Groups(raw, day, cutoff), Samples(Upserted(raw, daily, day, cutoff));
    var rest := daily.Keys - gs;
    assert Upserted(raw, daily, day, cutoff).Keys == gs + rest;
    SumSplit(gs, rest, f);
    forall g | g in rest ensures f(g) == Samples(daily)(g) { UpsertedRow(raw, daily, day, cutoff, g); }
    SumSame(rest, f, Samples(daily));
  }

  lemma {:induction false} SumPositive(gs: set<Group>, f: Group -> int)
    requires forall g :: g in gs ==> f(g) >= 1
    ensures Sum(gs, f) >= |gs|
  {
    if gs != {} {
      var g :| g in gs;
      SumTakeOut(gs, f, g);
      SumPositive(gs - {g}, f);
    }
  }

  /** With no empty daily row, a pass conserves the samples exactly when it overwrites no row. */
  lemma ConservedExactly(raw: Raw, daily: Days, day: Key -> int, cutoff: Key)
    requires forall g :: g in daily ==> daily[g].samples >= 1
    ensures Total(Kept(raw, cutoff), Upserted(raw, daily, day, cutoff)) == Total(raw, daily)
            <==> daily.Keys !! Groups(raw, day, cutoff)
  {
    var lost := Overwritten(raw, daily, day, cutoff);
    PassLosesOverwritten(raw, daily, day, cutoff);
    SumPositive(lost, Samples(daily));
    if daily.Keys !! Groups(raw, day, cutoff) { assert lost == {}; }
    if lost == {} {
      forall g | g in daily.Keys ensures g !in Groups(raw, day, cutoff) { assert g !in lost; }
    }
  }

  /** Repeating a cutoff changes nothing. */
  lemma RepeatChangesNothing(raw: Raw, daily: Days, day: Key -> int, cutoff: Key)
    ensures Kept(Kept(raw, cutoff), cutoff) == Kept(raw, cutoff)
    ensures Upserted(Kept(raw, cutoff), Upserted(raw, daily, day, cutoff), day, cutoff)
            == Upserted(raw, daily, day, cutoff)
  {
    assert Old(Kept(raw, cutoff), cutoff) == {};
    NothingOldNothingNew(Kept(raw, cutoff), Upserted(raw, daily, day, cutoff), day, cutoff);
  }

  lemma NothingOldNothingNew(raw: Raw, daily: Days, day: Key -> int, cutoff: Key)
    requires Old(raw, cutoff) == {}
    ensures Upserted(raw, daily, day, cutoff) == daily
  {
    assert Groups(raw, day, cutoff) == {};
    forall g | g in daily ensures Members(raw, day, cutoff, g) == {} { }
    assert Upserted(raw, daily, day, cutoff).Keys == daily.Keys;
  }

  // ---------------------------------------------------------------- the pass itself

  class Snapshots {
    var raw: Raw
    var daily: Days

    /** One transaction.  `fails` makes it roll back. */
    method DownsampleRange(day: Key -> int, cutoff: Key, fails: bool) returns (ok: bool, written: nat, deleted: nat)
      modifies this
      ensures ok <==> !fails
      ensures !ok ==> raw == old(raw) && daily == old(daily) && written == deleted == 0
      ensures ok ==> raw == Kept(old(raw), cutoff) && daily == Upserted(old(raw), old(daily), day, cutoff)
      ensures ok ==> written == |Groups(old(raw), day, cutoff)| && deleted == |old(raw)| - |raw|
    {
      if fails { return false, 0, 0; }
      DeletedCount(raw, cutoff);
      var n;
      daily, n := UpsertGroups(raw, daily, day, cutoff);
      ok, written, deleted := true, n, |set k | k in raw && k.ts < cutoff|;
      raw := map k | k in raw && k.ts >= cutoff :: raw[k];
    }
  }

  method UpsertGroups(raw: Raw, daily: Days, day: Key -> int, cutoff: Key) returns (out: Days, written: nat)
    ensures out == Upserted(raw, daily, day, cutoff) && written == |Groups(raw, day, cutoff)|
  {
    var consumed := set k | k in raw && k.ts < cutoff;
    var groups := set k | k in consumed :: GroupOf(day, k);
    assert groups == Groups(raw, day, cutoff);
    out := WriteRows(raw, daily, day, cutoff, groups, NewRow(raw, daily, day, cutoff));
    AllDone(raw, daily, day, cutoff, out);
    written := |groups|;
  }

  /** Write one row per group, in an arbitrary order. */
  method WriteRows(raw: Raw, daily: Days, day: Key -> int, cutoff: Key, groups: set<Group>, ghost rowOf: Group -> Daily)
    returns (out: Days)
    requires rowOf == NewRow(raw, daily, day, cutoff)
    ensures Partly(daily, rowOf, groups, out)
  {
    out := daily;
    var left := groups;
    ghost var done := {};
    while left != {}
      invariant left + done == groups
      invariant Partly(daily, rowOf, done, out)
      decreases left
    {
      var g :| g in left;
      var row := GroupRow(raw, daily, day, cutoff, g, rowOf);
      PartlyMore(daily, rowOf, done, out, g);
      out := out[g := row];
      left, done := left - {g}, done + {g};
    }
    assert done == groups;
  }

  method GroupRow(raw: Raw, daily: Days, day: Key -> int, cutoff: Key, g: Group, ghost rowOf: Group -> Daily)
    returns (row: Daily)
    requires rowOf == NewRow(raw, daily, day, cutoff)
    ensures row == rowOf(g)
  {
    var members := set k | k in raw && k.ts < cutoff && GroupOf(day, k) == g;
    assert members == Members(raw, day, cutoff, g);
    if members == {} { return Row(daily, g); }
    row := AggregateRows(raw, members);
  }

  /** The rows of the groups in `done` have been written, the others are untouched. */
  ghost predicate Partly(daily: Days, row: Group -> Daily, done: set<Group>, out: Days) {
    && out.Keys == daily.Keys + done
    && (forall g :: g in done ==> out[g] == row(g))
    && (forall g :: g in daily && g !in done ==> out[g] == daily[g])
  }

  /** The row a pass gives a group. */
  ghost function NewRow(raw: Raw, daily: Days, day: Key -> int, cutoff: Key): Group -> Daily {
    (g: Group) =>
      if Members(raw, day, cutoff, g) != {} then Aggregate(raw, Members(raw, day, cutoff, g)) else Row(daily, g)
  }

  lemma PartlyMore(daily: Days, row: Group -> Daily, done: set<Group>, out: Days, g: Group)
    requires Partly(daily, row, done, out)
    ensures Partly(daily, row, done + {g}, out[g := row(g)])
  {
  }

  lemma AllDone(raw: Raw, daily: Days, day: Key -> int, cutoff: Key, out: Days)
    requires Partly(daily, NewRow(raw, daily, day, cutoff), Groups(raw, day, cutoff), out)
    ensures out == Upserted(raw, daily, day, cutoff)
  {
    var goal := Upserted(raw, daily, day, cutoff);
    assert out.Keys == goal.Keys;
    forall g | g in out ensures out[g] == goal[g] {
      GroupsHaveMembers(raw, day, cutoff, g);
    }
  }

  /** Running count, sums and extremes. */
  datatype Tally = Tally(n: nat, ratio: real, seeders: real, rLo: real, rHi: real, sLo: int, sHi: int, up: int)

  function Counted(t: Tally, v: Sample): Tally {
    Tally(t.n + 1, t.ratio + v.ratio, t.seeders + v.seeders as real, Least(t.rLo, v.ratio), Most(t.rHi, v.ratio),
          LeastI(t.sLo, v.seeders), MostI(t.sHi, v.seeders), MostI(t.up, v.uploaded))
  }

  /** The tally of `ks` without `left`: the sums lack what is left, the extremes are attained. */
  ghost predicate Tallies(raw: Raw, ks: set<At>, left: set<At>, t: Tally) {
    && left < ks && t.n == |ks - left|
    && Summed(raw, ks, left, t.ratio, t.seeders)
    && Extremes(raw, ks - left, t.rLo, t.rHi, t.sLo, t.sHi, t.up)
  }

  lemma TallyStart(raw: Raw, ks: set<At>, k: At)
    requires k in ks
    ensures var v := Get(raw, k);
      Tallies(raw, ks, ks - {k},
              Tally(1, v.ratio, v.seeders as real, v.ratio, v.ratio, v.seeders, v.seeders, v.uploaded))
  {
    SumRTakeOut(ks, Ratio(raw), k);
    SumRTakeOut(ks, SeedersR(raw), k);
    assert ks - (ks - {k}) == {k};
  }

  lemma TallyMore(raw: Raw, ks: set<At>, left: set<At>, t: Tally, k: At)
    requires Tallies(raw, ks, left, t) && k in left
    ensures Tallies(raw, ks, left - {k}, Counted(t, Get(raw, k)))
  {
    OneLessLeft(ks, left, k);
    SumMore(raw, ks, left, t.ratio, t.seeders, k);
    MoreExtremes(raw, ks - left, k, t.rLo, t.rHi, t.sLo, t.sHi, t.up);
  }

  lemma OneLessLeft(ks: set<At>, left: set<At>, k: At)
    requires left < ks && k in left
    ensures left - {k} < ks && ks - (left - {k}) == (ks - left) + {k}
    ensures |ks - (left - {k})| == |ks - left| + 1
  {
    assert ks - (left - {k}) == (ks - left) + {k};
  }

  ghost predicate Summed(raw: Raw, ks: set<At>, left: set<At>, ratio: real, seeders: real) {
    && ratio + SumR(left, Ratio(raw)) == SumR(ks, Ratio(raw))
    && seeders + SumR(left, SeedersR(raw)) == SumR(ks, SeedersR(raw))
  }

  lemma SumMore(raw: Raw, ks: set<At>, left: set<At>, ratio: real, seeders: real, k: At)
    requires Summed(raw, ks, left, ratio, seeders) && k in left
    ensures Summed(raw, ks, left - {k}, ratio + Get(raw, k).ratio, seeders + Get(raw, k).seeders as real)
  {
    SumRTakeOut(left, Ratio(raw), k);
    SumRTakeOut(left, SeedersR(raw), k);
  }

  lemma TallyDone(raw: Raw, ks: set<At>, t: Tally)
    requires Tallies(raw, ks, {}, t)
    ensures ks != {} && Aggregate(raw, ks)
      == Daily(t.ratio / |ks| as real, t.rLo, t.rHi, t.seeders / |ks| as real, t.sLo, t.sHi, t.up, t.n)
    ensures t.n == |ks|
  {
    assert ks - {} == ks;
    ExtremesAre(raw, ks, t.rLo, t.rHi, t.sLo, t.sHi, t.up);
  }

  /** One group's aggregates, over its rows in an arbitrary order. */
  method AggregateRows(raw: Raw, ks: set<At>) returns (row: Daily)
    requires ks != {}
    ensures row == Aggregate(raw, ks)
  {
    var first :| first in ks;
    var v := Get(raw, first);
    var t := Tally(1, v.ratio, v.seeders as real, v.ratio, v.ratio, v.seeders, v.seeders, v.uploaded);
    var left := ks - {first};
    TallyStart(raw, ks, first);
    while left != {}
      invariant Tallies(raw, ks, left, t)
      decreases left
    {
      var k :| k in left;
      TallyMore(raw, ks, left, t, k);
      t := Counted(t, Get(raw, k));
      left := left - {k};
    }
    TallyDone(raw, ks, t);
    row := Daily(t.ratio / t.n as real, t.rLo, t.rHi, t.seeders / t.n as real, t.sLo, t.sHi, t.up, t.n);
  }

  /** The bounds hold of the rows and are attained. */
  ghost predicate Extremes(raw: Raw, ks: set<At>, rLo: real, rHi: real, sLo: int, sHi: int, up: int) {
    && (forall k :: k in ks ==> rLo <= Get(raw, k).ratio <= rHi)
    && (forall k :: k in ks ==> sLo <= Get(raw, k).seeders <= sHi && Get(raw, k).uploaded <= up)
    && (exists k :: k in ks && Get(raw, k).ratio == rLo) && (exists k :: k in ks && Get(raw, k).ratio == rHi)
    && (exists k :: k in ks && Get(raw, k).seeders == sLo) && (exists k :: k in ks && Get(raw, k).seeders == sHi)
    && (exists k :: k in ks && Get(raw, k).uploaded == up)
  }

  function Least(a: real, b: real): real { if b < a then b else a }
  function Most(a: real, b: real): real { if b > a then b else a }
  function LeastI(a: int, b: int): int { if b < a then b else a }
  function MostI(a: int, b: int): int { if b > a then b else a }

  lemma MoreExtremes(raw: Raw, ks: set<At>, k: At, rLo: real, rHi: real, sLo: int, sHi: int, up: int)
    requires Extremes(raw, ks, rLo, rHi, sLo, sHi, up)
    ensures var v := Get(raw, k);
      Extremes(raw, ks + {k}, Least(rLo, v.ratio), Most(rHi, v.ratio),
               LeastI(sLo, v.seeders), MostI(sHi, v.seeders), MostI(up, v.uploaded))
  {
    var all := ks + {k};
    assert k in all;
    forall x | x in ks ensures x in all { }
  }

  lemma ExtremesAre(raw: Raw, ks: set<At>, rLo: real, rHi: real, sLo: int, sHi: int, up: int)
    requires ks != {} && Extremes(raw, ks, rLo, rHi, sLo, sHi, up)
    ensures var d := Aggregate(raw, ks);
      d.ratioMin == rLo && d.ratioMax == rHi && d.seedersMin == sLo && d.seedersMax == sHi && d.uploadedMax == up
  {
    IsMaxR(ks, NegRatio(raw), -rLo);
    IsMaxR(ks, Ratio(raw), rHi);
    IsMaxI(ks, NegSeeders(raw), -sLo);
    IsMaxI(ks, Seeders(raw), sHi);
    IsMaxI(ks, Uploaded(raw), up);
  }

  lemma IsMaxR(ks: set<At>, f: At -> real, m: real)
    requires ks != {} && (forall x :: x in ks ==> f(x) <= m) && exists x :: x in ks && f(x) == m
    ensures MaxR(ks, f) == m
  {
  }

  lemma IsMaxI(ks: set<At>, f: At -> int, m: int)
    requires ks != {} && (forall x :: x in ks ==> f(x) <= m) && exists x :: x in ks && f(x) == m
    ensures MaxI(ks, f) == m
  {
  }

  // ---------------------------------------------------------------- many passes

  datatype Op = Insert(k: At, sample: Sample) | Pass(cutoff: Key)

  datatype Store = Store(raw: Raw, daily: Days, cutoff: Option<Key>, inserted: nat)

  const EMPTY := Store(map[], map[], None, 0)

  /** `cutoff` remembers the last pass; `inserted` counts the distinct samples ever stored. */
  ghost function Apply(s: Store, day: Key -> int, op: Op): Store {
    match op
    case Insert(k, v) => Store(s.raw[k := v], s.daily, s.cutoff, s.inserted + if k in s.raw then 0 else 1)
    case Pass(c) => Store(Kept(s.raw, c), Upserted(s.raw, s.daily, day, c), Some(c), s.inserted)
  }

  /** No day lies on both sides of the cutoff. */
  ghost predicate Aligned(day: Key -> int, c: Key) {
    forall a, b :: a < c <= b ==> day(a) != day(b)
  }

  /** Cutoffs are day-aligned and never move back; nothing is inserted before the last one. */
  ghost predicate Orderly(s: Store, day: Key -> int, op: Op) {
    match op
    case Insert(k, v) => s.cutoff.Some? ==> k.ts >= s.cutoff.value
    case Pass(c) => Aligned(day, c) && (s.cutoff.Some? ==> c >= s.cutoff.value)
  }

  ghost predicate OrderlyRun(s: Store, day: Key -> int, ops: seq<Op>)
    decreases |ops|
  {
    ops == [] || (Orderly(s, day, ops[0]) && OrderlyRun(Apply(s, day, ops[0]), day, ops[1..]))
  }

  ghost function After(s: Store, day: Key -> int, ops: seq<Op>): Store
    decreases |ops|
  {
    if ops == [] then s else After(Apply(s, day, ops[0]), day, ops[1..])
  }

  /** Daily rows are of days before the last cutoff, raw rows at or after it. */
  ghost predicate Sound(s: Store, day: Key -> int) {
    && Total(s.raw, s.daily) == s.inserted
    && (forall k :: k in s.raw && s.cutoff.Some? ==> k.ts >= s.cutoff.value)
    && (s.daily == map[] || s.cutoff.Some?)
    && (forall g :: g in s.daily ==> BeforeCutoff(s, day, g))
    && (s.cutoff.Some? ==> Aligned(day, s.cutoff.value))
  }

  ghost predicate BeforeCutoff(s: Store, day: Key -> int, g: Group) {
    s.cutoff.Some? && exists a :: a < s.cutoff.value && day(a) == g.day
  }

  lemma SoundInsert(s: Store, day: Key -> int, k: At, v: Sample)
    requires Sound(s, day) && Orderly(s, day, Insert(k, v))
    ensures Sound(Apply(s, day, Insert(k, v)), day)
  {
    var t := Apply(s, day, Insert(k, v));
    assert t.raw.Keys == s.raw.Keys + {k};
    assert |t.raw| == |t.raw.Keys| && |s.raw| == |s.raw.Keys|;
    forall g | g in t.daily ensures BeforeCutoff(t, day, g) { assert BeforeCutoff(s, day, g); }
  }

  lemma SoundPass(s: Store, day: Key -> int, c: Key)
    requires Sound(s, day) && Orderly(s, day, Pass(c))
    ensures Sound(Apply(s, day, Pass(c)), day)
  {
    var t, gs := Apply(s, day, Pass(c)), Groups(s.raw, day, c);
    NothingOverwritten(s, day, c);
    PassLosesOverwritten(s.raw, s.daily, day, c);
    forall g | g in t.daily ensures BeforeCutoff(t, day, g) {
      if g in gs {
        var k :| k in Old(s.raw, c) && GroupOf(day, k) == g;
        assert k.ts < c && day(k.ts) == g.day;
      } else {
        assert BeforeCutoff(s, day, g);
      }
    }
  }

  lemma NothingOverwritten(s: Store, day: Key -> int, c: Key)
    requires Sound(s, day)
    ensures Overwritten(s.raw, s.daily, day, c) == {}
  {
    forall g, k | g in s.daily && k in Old(s.raw, c) ensures GroupOf(day, k) != g {
      assert BeforeCutoff(s, day, g);
      var a :| a < s.cutoff.value && day(a) == g.day;
      assert a < s.cutoff.value <= k.ts;
    }
  }

  lemma {:induction false} SoundRun(s: Store, day: Key -> int, ops: seq<Op>)
    requires Sound(s, day) && OrderlyRun(s, day, ops)
    ensures Sound(After(s, day, ops), day)
    decreases |ops|
  {
    if ops != [] {
      match ops[0] {
        case Insert(k, v) => SoundInsert(s, day, k, v);
        case Pass(c) => SoundPass(s, day, c);
      }
      SoundRun(Apply(s, day, ops[0]), day, ops[1..]);
    }
  }

  /** No sample is ever lost or counted twice while cutoffs are day-aligned and never move back
      and nothing is stored behind them. */
  lemma SamplesConserved(day: Key -> int, ops: seq<Op>)
    requires OrderlyRun(EMPTY, day, ops)
    ensures var s := After(EMPTY, day, ops); Total(s.raw, s.daily) == s.inserted
  {
    EmptyIsSound(day);
    SoundRun(EMPTY, day, ops);
  }

  lemma EmptyIsSound(day: Key -> int)
    ensures Sound(EMPTY, day)
  {
    assert Total(EMPTY.raw, EMPTY.daily) == 0;
  }

  /** The samples left by two passes over raw rows. */
  ghost function AfterTwo(raw: Raw, day: Key -> int, c: Key, d: Key): int {
    var left, daily := Kept(raw, c), Upserted(raw, map[], day, c);
    Total(Kept(left, d), Upserted(left, daily, day, d))
  }

  /** A cutoff between two snapshots of one torrent on one day: the next pass overwrites the
      first one's row and loses samples. */
  lemma UnalignedCutoffLosesSamples(raw: Raw, day: Key -> int, h: string, a: Key, c: Key, b: Key)
    requires At(h, a) in raw && At(h, b) in raw && a < c <= b && day(a) == day(b)
    ensures !Aligned(day, c)
    ensures Total(Kept(raw, c), Upserted(raw, map[], day, c)) == |raw|
    ensures AfterTwo(raw, day, c, b + 1) < |raw|
  {
    PassLosesOverwritten(raw, map[], day, c);
    assert Overwritten(raw, map[], day, c) == {};
    SecondPassOverwrites(raw, day, h, a, c, b);
  }

  lemma SecondPassOverwrites(raw: Raw, day: Key -> int, h: string, a: Key, c: Key, b: Key)
    requires At(h, a) in raw && At(h, b) in raw && a < c <= b && day(a) == day(b)
    ensures var left, daily := Kept(raw, c), Upserted(raw, map[], day, c);
      Total(Kept(left, b + 1), Upserted(left, daily, day, b + 1)) < Total(left, daily)
  {
    var left, daily := Kept(raw, c), Upserted(raw, map[], day, c);
    var lost := Overwritten(left, daily, day, b + 1);
    PassLosesOverwritten(left, daily, day, b + 1);
    assert GroupOf(day, At(h, b)) == Group(h, day(a)) by { assert At(h, b) in Old(left, b + 1); }
    IsGroup(raw, day, c, At(h, a));
    IsGroup(left, day, b + 1, At(h, b));
    assert Group(h, day(a)) in lost;
    forall x | x in lost ensures Samples(daily)(x) >= 1 { FreshRow(raw, day, c, x); }
    SumPositive(lost, Samples(daily));
    assert |lost| >= 1;
  }

  lemma IsGroup(raw: Raw, day: Key -> int, c: Key, k: At)
    requires k in raw && k.ts < c
    ensures GroupOf(day, k) in Groups(raw, day, c)
  {
    assert k in Old(raw, c);
  }

  lemma FreshRow(raw: Raw, day: Key -> int, c: Key, g: Group)
    requires g in Upserted(raw, map[], day, c)
    ensures Samples(Upserted(raw, map[], day, c))(g) >= 1
  {
    UpsertedRow(raw, map[], day, c, g);
    GroupsHaveMembers(raw, day, c, g);
    var ks := Members(raw, day, c, g);
    assert ks != {};
    assert |ks| >= 1;
  }
}
