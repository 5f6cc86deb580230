/**
 Fetching a history that grows faster than it is paged through.  A fetch never misses a record,
 but a later page can bring newer records than an earlier one, and then the order in which they
 are stored matters: a theorem says exactly when it does, and a history shows that it can.
 */
module ImportOutrun {
  import opened Basics
  import opened ImportSync

  predicate Of(conv: Conv, r: Record, f: int) { conv(r).Some? && conv(r).value.fileId == f }

  /** The file has a usable record in `h[i..j]`. */
  ghost predicate Holds(conv: Conv, h: seq<Record>, f: int, i: int, j: int) {
    exists k :: 0 <= i <= k < j && k < |h| && Of(conv, h[k], f)
  }

  // ---------------------------------------------------------------- the last import of a stretch

  lemma {:induction false} LastForOccurs(conv: Conv, rs: seq<Record>, f: int)
    ensures LastFor(Usable(conv, rs), f).Some? <==> exists k :: 0 <= k < |rs| && Of(conv, rs[k], f)
  {
    if rs != [] {
      var n := |rs| - 1;
      var init := rs[..n];
      LastForOccurs(conv, init, f);
      LastOfOne(conv, rs, f);
      assert forall k :: 0 <= k < n ==> init[k] == rs[k];
    }
  }

  lemma LastOfOne(conv: Conv, rs: seq<Record>, f: int)
    requires rs != []
    ensures var n := |rs| - 1;
      LastFor(Usable(conv, rs), f) == if Of(conv, rs[n], f) then conv(rs[n]) else LastFor(Usable(conv, rs[..n]), f)
  {
    var n := |rs| - 1;
    var init := Usable(conv, rs[..n]);
    match conv(rs[n])
    case None => assert Usable(conv, rs) == init;
    case Some(x) =>
      assert Usable(conv, rs) == init + [x];
      assert (init + [x])[..|init|] == init;
  }

  lemma LastForHolds(conv: Conv, h: seq<Record>, f: int, i: nat, j: nat)
    requires i <= j <= |h|
    ensures LastFor(Usable(conv, h[i..j]), f).Some? <==> Holds(conv, h, f, i, j)
  {
    var rs := h[i..j];
    LastForOccurs(conv, rs, f);
    if k :| 0 <= k < |rs| && Of(conv, rs[k], f) { assert Of(conv, h[i + k], f); }
    if k :| 0 <= i <= k < j && k < |h| && Of(conv, h[k], f) { assert rs[k - i] == h[k]; }
  }

  /** The last import is that of the record after which the file does not occur. */
  lemma {:induction false} LastForIs(conv: Conv, h: seq<Record>, f: int, i: nat, j: nat, k: nat)
    requires i <= k < j <= |h| && Of(conv, h[k], f) && !Holds(conv, h, f, k + 1, j)
    ensures LastFor(Usable(conv, h[i..j]), f) == conv(h[k])
  {
    assert h[i..j][..j - 1 - i] == h[i..j - 1] && h[i..j][j - 1 - i] == h[j - 1];
    LastOfOne(conv, h[i..j], f);
    if k < j - 1 {
      assert !Of(conv, h[j - 1], f);
      LastForIs(conv, h, f, i, j - 1, k);
    }
  }

  lemma {:induction false} LastIndex(conv: Conv, h: seq<Record>, f: int, i: nat, j: nat) returns (k: nat)
    requires j <= |h| && Holds(conv, h, f, i, j)
    ensures i <= k < j && Of(conv, h[k], f) && !Holds(conv, h, f, k + 1, j)
    decreases j
  {
    k := j - 1;
    if !Of(conv, h[j - 1], f) { k := LastIndex(conv, h, f, i, j - 1); }
  }

  /** A stretch ends with the same import of a file as a longer one exactly when the file does
      not occur after it. */
  lemma SameLast(conv: Conv, h: seq<Record>, f: int, i: nat, j: nat, s: nat, m: nat)
    requires Ascending(h) && KeepsId(conv) && s <= i <= j <= m <= |h| && Holds(conv, h, f, i, j)
    ensures LastFor(Usable(conv, h[i..j]), f) == LastFor(Usable(conv, h[s..m]), f) <==> !Holds(conv, h, f, j, m)
  {
    var k := LastIndex(conv, h, f, i, j);
    LastForIs(conv, h, f, i, j, k);
    if Holds(conv, h, f, j, m) {
      var n := LastIndex(conv, h, f, j, m);
      LastForIs(conv, h, f, s, m, n);
      assert conv(h[k]).value.historyId < conv(h[n]).value.historyId;
    } else {
      LastForIs(conv, h, f, s, m, k);
    }
  }

  // ---------------------------------------------------------------- page by page

  /** How far up the history any page from `p` on has reached. */
  ghost function Reach(size: nat, h: seq<Record>, views: nat -> nat, since: int, p: nat): (m: nat)
    requires p >= 1 && size > 0 && Growing(h, views)
    ensures Top(size, views(p), p) <= m <= |h|
    decreases Left(size, h, p)
  {
    var top := Top(size, views(p), p);
    assert CutAt(h, size, views(p), p, since) <= top <= |h|;
    if Final(h, size, views(p), p, since) then top
    else
      LeftShrinks(size, h, views(p), p, since);
      var rest := Reach(size, h, views, since, p + 1);
      if rest > top then rest else top
  }

  /** The first page, from `p` on, that brings the file brings its last record below `m`. */
  ghost predicate Undisturbed(conv: Conv, size: nat, h: seq<Record>, views: nat -> nat, since: int,
                              p: nat, f: int, m: nat)
    requires p >= 1 && size > 0 && Growing(h, views)
    decreases Left(size, h, p)
  {
    var top := Top(size, views(p), p);
    if Holds(conv, h, f, CutAt(h, size, views(p), p, since), top) then !Holds(conv, h, f, top, m)
    else
      Final(h, size, views(p), p, since) ||
      (LeftShrinks(size, h, views(p), p, since);
       Undisturbed(conv, size, h, views, since, p + 1, f, m))
  }

  /** What page `p` and the later ones contribute to a file. */
  lemma PageFirst(conv: Conv, size: nat, h: seq<Record>, views: nat -> nat, since: int, p: nat, f: int)
    requires p >= 1 && size > 0 && Growing(h, views)
    ensures var here := LastFor(Usable(conv, h[CutAt(h, size, views(p), p, since)..Top(size, views(p), p)]), f);
      LastFor(Gather(conv, size, h, views, since, p), f) ==
        if Final(h, size, views(p), p, since) then here
        else Or(here, LastFor(Gather(conv, size, h, views, since, p + 1), f))
  {
    if !Final(h, size, views(p), p, since) {
      LastForConcat(Gather(conv, size, h, views, since, p + 1),
                    Usable(conv, h[CutAt(h, size, views(p), p, since)..Top(size, views(p), p)]), f);
    }
  }

  /** A page starts no higher than the next one ends, and the known records lie below both. */
  lemma NextPage(size: nat, h: seq<Record>, views: nat -> nat, since: int, p: nat)
    requires p >= 1 && size > 0 && Growing(h, views) && Ascending(h) && Known(h, since) <= Top(size, views(p), p)
    ensures var cut := CutAt(h, size, views(p), p, since);
      && Known(h, since) <= cut
      && (Final(h, size, views(p), p, since) ==> Known(h, since) == cut)
      && (!Final(h, size, views(p), p, since) ==>
            && Known(h, since) <= cut <= Top(size, views(p + 1), p + 1)
            && 0 <= Left(size, h, p + 1) < Left(size, h, p))
  {
    FinalIsKnown(h, size, views(p), p, since);
    if !Final(h, size, views(p), p, since) {
      NextTop(size, views(p), views(p + 1), p);
      LeftShrinks(size, h, views(p), p, since);
    }
  }

  lemma HoldsSplit(conv: Conv, h: seq<Record>, f: int, i: nat, j: nat, k: nat, m: nat)
    requires i <= j <= k && j <= m
    ensures Holds(conv, h, f, i, k) || Holds(conv, h, f, j, m) <==> Holds(conv, h, f, i, if k > m then k else m)
  {
    var top := if k > m then k else m;
    if Holds(conv, h, f, i, top) && !Holds(conv, h, f, j, m) {
      var n :| 0 <= i <= n < top && n < |h| && Of(conv, h[n], f);
      assert n < k;
    }
  }

  /** A fetch brings a file exactly when it has a new record below the reach. */
  lemma {:induction false} BringsExactly(conv: Conv, size: nat, h: seq<Record>, views: nat -> nat, since: int,
                                         p: nat, f: int)
    requires p >= 1 && size > 0 && Growing(h, views) && Ascending(h) && Known(h, since) <= Top(size, views(p), p)
    ensures LastFor(Gather(conv, size, h, views, since, p), f).Some?
            <==> Holds(conv, h, f, Known(h, since), Reach(size, h, views, since, p))
    decreases Left(size, h, p)
  {
    var cut, top := CutAt(h, size, views(p), p, since), Top(size, views(p), p);
    PageFirst(conv, size, h, views, since, p, f);
    LastForHolds(conv, h, f, cut, top);
    NextPage(size, h, views, since, p);
    if !Final(h, size, views(p), p, since) {
      BringsExactly(conv, size, h, views, since, p + 1, f);
      HoldsSplit(conv, h, f, Known(h, since), cut, Reach(size, h, views, since, p + 1), top);
    }
  }

  /** A fetch brings a file's last record below `m` exactly when it is undisturbed. */
  lemma {:induction false} BringsLastExactly(conv: Conv, size: nat, h: seq<Record>, views: nat -> nat, since: int,
                                             p: nat, f: int, m: nat)
    requires p >= 1 && size > 0 && Growing(h, views) && Ascending(h) && KeepsId(conv)
    requires Known(h, since) <= Top(size, views(p), p) && Reach(size, h, views, since, p) <= m <= |h|
    requires Holds(conv, h, f, Known(h, since), m)
             ==> Holds(conv, h, f, Known(h, since), Reach(size, h, views, since, p))
    ensures LastFor(Gather(conv, size, h, views, since, p), f) == LastFor(Usable(conv, h[Known(h, since)..m]), f)
            <==> Undisturbed(conv, size, h, views, since, p, f, m)
    decreases Left(size, h, p)
  {
    var s, cut, top := Known(h, since), CutAt(h, size, views(p), p, since), Top(size, views(p), p);
    PageFirst(conv, size, h, views, since, p, f);
    LastForHolds(conv, h, f, cut, top);
    NextPage(size, h, views, since, p);
    if Holds(conv, h, f, cut, top) {
      SameLast(conv, h, f, cut, top, s, m);
    } else if Final(h, size, views(p), p, since) {
      LastForHolds(conv, h, f, s, m);
    } else {
      HoldsSplit(conv, h, f, s, cut, Reach(size, h, views, since, p + 1), top);
      BringsLastExactly(conv, size, h, views, since, p + 1, f, m);
    }
  }

  // ---------------------------------------------------------------- the exact condition

  /** For every file, the first page that brings it brings its last record below the reach: no
      later page brings a newer one. */
  ghost predicate Benign(conv: Conv, size: nat, h: seq<Record>, views: nat -> nat, since: int, p: nat)
    requires p >= 1 && size > 0 && Growing(h, views)
  {
    forall f :: Undisturbed(conv, size, h, views, since, p, f, Reach(size, h, views, since, p))
  }

  /** Storing a fetch has the effect of storing every new record below its reach, in order, if
      and only if the fetch is benign. */
  lemma GatherEffectExactly(conv: Conv, size: nat, h: seq<Record>, views: nat -> nat, since: int, p: nat)
    requires p >= 1 && size > 0 && Growing(h, views) && Ascending(h) && KeepsId(conv)
    requires Known(h, since) <= Top(size, views(p), p)
    ensures SameEffect(Gather(conv, size, h, views, since, p),
                       Usable(conv, h[Known(h, since)..Reach(size, h, views, since, p)]))
            <==> Benign(conv, size, h, views, since, p)
  {
    var g, m := Gather(conv, size, h, views, since, p), Reach(size, h, views, since, p);
    var u := Usable(conv, h[Known(h, since)..m]);
    forall f ensures LastFor(g, f) == LastFor(u, f) <==> Undisturbed(conv, size, h, views, since, p, f, m) {
      BringsLastExactly(conv, size, h, views, since, p, f, m);
    }
  }

  lemma SameTableExactly(t: Table, a: seq<Import>, b: seq<Import>)
    requires forall f :: LastFor(a, f).Some? <==> LastFor(b, f).Some?
    ensures Upserted(t, a) == Upserted(t, b) <==> SameEffect(a, b)
  {
    if SameEffect(a, b) { SameEffectSameTable(t, a, b); }
    if Upserted(t, a) == Upserted(t, b) {
      forall f ensures LastFor(a, f) == LastFor(b, f) {
        UpsertedRow(t, a, f);
        UpsertedRow(t, b, f);
      }
    }
  }

  /** A poll that starts from the table of the first `m` records leaves that of the records below
      its reach if and only if its fetch is benign. */
  lemma StoredPollExactly(conv: Conv, size: nat, h: seq<Record>, views: nat -> nat, m: nat, p: nat)
    requires Ascending(h) && KeepsId(conv) && size > 0 && p == 1 && Growing(h, views) && m <= views(p)
    ensures var t := FullTable(conv, h, m);
      Upserted(t, Gather(conv, size, h, views, Cursor(t), p))
        == FullTable(conv, h, Reach(size, h, views, Cursor(t), p))
      <==> Benign(conv, size, h, views, Cursor(t), p)
  {
    var t := FullTable(conv, h, m);
    var c := Cursor(t);
    CursorOfFull(conv, h, m);
    FirstTop(size, views(p));
    var reach := Reach(size, h, views, c, p);
    var g, u := Gather(conv, size, h, views, c, p), Usable(conv, h[Known(h, c)..reach]);
    AddNew(conv, h, Known(h, c), m, reach);
    GatherEffectExactly(conv, size, h, views, c, p);
    forall f ensures LastFor(g, f).Some? <==> LastFor(u, f).Some? {
      BringsExactly(conv, size, h, views, c, p, f);
      LastForHolds(conv, h, f, Known(h, c), reach);
    }
    SameTableExactly(t, g, u);
  }

  /** While the history grows by at most a page between two requests, the first page reaches
      furthest and the fetch is benign. */
  lemma {:induction false} SlowReach(size: nat, h: seq<Record>, views: nat -> nat, since: int, p: nat)
    requires p >= 1 && size > 0 && Growing(h, views) && Slowly(size, views)
    ensures Reach(size, h, views, since, p) == Top(size, views(p), p)
    decreases Left(size, h, p)
  {
    if !Final(h, size, views(p), p, since) {
      assert views(p) <= views(p + 1) <= views(p) + size;
      NextTop(size, views(p), views(p + 1), p);
      LeftShrinks(size, h, views(p), p, since);
      SlowReach(size, h, views, since, p + 1);
    }
  }

  lemma SlowGrowthIsBenign(conv: Conv, size: nat, h: seq<Record>, views: nat -> nat, since: int, p: nat)
    requires p >= 1 && size > 0 && Growing(h, views) && Slowly(size, views) && Ascending(h) && KeepsId(conv)
    requires Known(h, since) <= Top(size, views(p), p)
    ensures Benign(conv, size, h, views, since, p)
  {
    SlowReach(size, h, views, since, p);
    GatherEffect(conv, size, h, views, since, p);
    GatherEffectExactly(conv, size, h, views, since, p);
  }

  // ---------------------------------------------------------------- any number of polls

  /** Each stored fetch begins no lower than the stored ones before it have reached, as the
      cursor stands in the table they should have made. */
  ghost predicate Timed(conv: Conv, h: seq<Record>, polls: seq<Poll>)
    decreases |polls|, 0
  {
    && AllGrowing(h, polls)
    && (polls == [] ||
        (var n := |polls| - 1;
         && Timed(conv, h, polls[..n])
         && (polls[n].Stored? ==> Reached(conv, h, polls[..n]) <= polls[n].views(1))))
  }

  ghost function Reached(conv: Conv, h: seq<Record>, polls: seq<Poll>): (m: nat)
    requires Timed(conv, h, polls)
    ensures m <= |h|
    decreases |polls|, 1
  {
    if polls == [] then 0 else
    var n := |polls| - 1;
    var before := Reached(conv, h, polls[..n]);
    match polls[n]
    case Failed => before
    case Stored(views) => Reach(PAGE_SIZE, h, views, Cursor(FullTable(conv, h, before)), 1)
  }

  /** After every poll the table was that of all the records reached. */
  ghost predicate AlwaysFull(conv: Conv, h: seq<Record>, polls: seq<Poll>)
    requires Timed(conv, h, polls)
  {
    && After(conv, h, polls) == FullTable(conv, h, Reached(conv, h, polls))
    && (polls != [] ==> AlwaysFull(conv, h, polls[..|polls| - 1]))
  }

  ghost predicate AllBenign(conv: Conv, h: seq<Record>, polls: seq<Poll>)
    requires Timed(conv, h, polls)
  {
    polls == [] ||
    (var n := |polls| - 1;
     && AllBenign(conv, h, polls[..n])
     && (polls[n].Stored? ==>
           Benign(conv, PAGE_SIZE, h, polls[n].views, Cursor(FullTable(conv, h, Reached(conv, h, polls[..n]))), 1)))
  }

  /** The table stays that of one full fetch throughout if and only if every fetch is benign,
      whatever fails in between. */
  lemma {:induction false} AlwaysFullExactly(conv: Conv, h: seq<Record>, polls: seq<Poll>)
    requires Ascending(h) && KeepsId(conv) && Timed(conv, h, polls)
    ensures AlwaysFull(conv, h, polls) <==> AllBenign(conv, h, polls)
  {
    if polls == [] {
      assert h[..0] == [];
    } else {
      var n := |polls| - 1;
      AlwaysFullExactly(conv, h, polls[..n]);
      if polls[n].Stored? {
        StoredPollExactly(conv, PAGE_SIZE, h, polls[n].views, Reached(conv, h, polls[..n]), 1);
      }
    }
  }

  // ---------------------------------------------------------------- losing an update

  /** Page `p` ends with a record of one file.  Before the next request more than a page of
      records arrives: first a newer one of the same file, then one of a file `p` did not hold. */
  ghost predicate Outrun(conv: Conv, size: nat, h: seq<Record>, views: nat -> nat,
                         a: Import, b: Import, c: Import, p: nat)
  {
    && Ascending(h) && KeepsId(conv) && size > 0 && p >= 1 && |h| >= size * p + size + 2
    && conv(h[size - 1]) == Some(a) && conv(h[size]) == Some(b) && conv(h[size + 1]) == Some(c)
    && a.fileId == b.fileId != c.fileId && !Holds(conv, h, c.fileId, 0, size)
    && forall q: nat :: views(q) == if q <= p then size * p else size * p + size + 2
  }

  lemma OutrunRanges(size: nat, h: seq<Record>, views: nat -> nat, p: nat)
    requires size > 0 && p >= 1 && |h| >= size * p + size + 2
    requires forall q: nat :: views(q) == if q <= p then size * p else size * p + size + 2
    ensures Growing(h, views) && !Slowly(size, views)
    ensures Bottom(size, views(p), p) == 0 && Top(size, views(p), p) == size
    ensures Bottom(size, views(p + 1), p + 1) == 2 && Top(size, views(p + 1), p + 1) == size + 2
    ensures views(p) == size * p && views(p + 1) >= size * (p + 1)
  {
    assert size * p == size * (p - 1) + size && size * (p + 1) == size * p + size;
    assert views(p + 1) > views(p) + size;
  }

  /** Outrun by more than a page, whatever the page size, a fetch into an empty table stores the
      old import over the newer one of the same file and moves the cursor past the newer one,
      which is then never fetched again. */
  lemma FastGrowthLosesAnUpdate(conv: Conv, size: nat, h: seq<Record>, views: nat -> nat,
                                a: Import, b: Import, c: Import, p: nat)
    requires Outrun(conv, size, h, views, a, b, c, p)
    ensures Growing(h, views) && !Slowly(size, views)
    ensures var t := Upserted(map[], Gather(conv, size, h, views, 0, p));
            b.fileId in t && t[b.fileId] == a && a.historyId < b.historyId < Cursor(t)
  {
    OutrunRanges(size, h, views, p);
    OutrunPages(conv, size, h, views, p);
    OutrunRows(conv, size, h, views, a, c, p);
    var g := Gather(conv, size, h, views, 0, p);
    UpsertedRow(map[], g, a.fileId);
    UpsertedRow(map[], g, c.fileId);
    assert h[size - 1].id < h[size].id < h[size + 1].id;
    CursorAtLeast(Upserted(map[], g), c);
  }

  lemma CursorAtLeast(t: Table, c: Import)
    requires c.fileId in t && t[c.fileId] == c
    ensures Cursor(t) >= c.historyId
  {
  }

  lemma OutrunRows(conv: Conv, size: nat, h: seq<Record>, views: nat -> nat, a: Import, c: Import, p: nat)
    requires size > 0 && p >= 1 && Growing(h, views) && |h| >= size + 2
    requires Top(size, views(p), p) == size && CutAt(h, size, views(p), p, 0) == 0 && !Final(h, size, views(p), p, 0)
    requires Top(size, views(p + 1), p + 1) == size + 2 && CutAt(h, size, views(p + 1), p + 1, 0) == 2
    requires conv(h[size - 1]) == Some(a) && conv(h[size + 1]) == Some(c) && !Holds(conv, h, c.fileId, 0, size)
    ensures LastFor(Gather(conv, size, h, views, 0, p), a.fileId) == Some(a)
    ensures LastFor(Gather(conv, size, h, views, 0, p), c.fileId) == Some(c)
  {
    LastForIs(conv, h, a.fileId, 0, size, size - 1);
    LastForHolds(conv, h, c.fileId, 0, size);
    LastForIs(conv, h, c.fileId, 2, size + 2, size + 1);
    PageFirst(conv, size, h, views, 0, p, a.fileId);
    PageFirst(conv, size, h, views, 0, p, c.fileId);
    PageFirst(conv, size, h, views, 0, p + 1, c.fileId);
  }

  lemma OutrunPages(conv: Conv, size: nat, h: seq<Record>, views: nat -> nat, p: nat)
    requires size > 0 && p >= 1 && Growing(h, views) && Ascending(h)
    requires Bottom(size, views(p), p) == 0 && Top(size, views(p), p) == size
    requires Bottom(size, views(p + 1), p + 1) == 2 && Top(size, views(p + 1), p + 1) == size + 2
    requires views(p) == size * p && views(p + 1) >= size * (p + 1)
    ensures !Final(h, size, views(p), p, 0) && CutAt(h, size, views(p), p, 0) == 0
    ensures !Final(h, size, views(p + 1), p + 1, 0) && CutAt(h, size, views(p + 1), p + 1, 0) == 2
  {
  }

  /** A usable record `b` was gathered, its row is an older one, and the cursor has passed it. */
  ghost predicate Lost(conv: Conv, size: nat, h: seq<Record>, views: nat -> nat, a: Import, b: Import, p: nat) {
    && size > 0 && p >= 1 && Ascending(h) && Growing(h, views)
    && (exists k :: 0 <= k < |h| && conv(h[k]) == Some(b))
    && var t := Upserted(map[], Gather(conv, size, h, views, 0, p));
       b.fileId in t && t[b.fileId] == a && a.historyId < b.historyId < Cursor(t)
  }

  lemma OutrunIsLost(conv: Conv, size: nat, h: seq<Record>, views: nat -> nat, a: Import, b: Import, c: Import, p: nat)
    requires Outrun(conv, size, h, views, a, b, c, p)
    ensures Lost(conv, size, h, views, a, b, p)
  {
    FastGrowthLosesAnUpdate(conv, size, h, views, a, b, c, p);
    assert conv(h[size]) == Some(b);
  }

  /** Pages of every size, the shipped 500 included, can lose an update from page one on. */
  lemma PagesLoseAnUpdate(lower: string -> string, size: nat, p: nat)
    requires size > 0 && p >= 1
    ensures exists h, views, a, b :: Lost(ConvertWith(lower), size, h, views, a, b, p)
  {
    var h, views, a, b, c := OutrunExists(lower, size, p);
    OutrunIsLost(ConvertWith(lower), size, h, views, a, b, c, p);
  }

  /** Record `k` of a history of file 7, imported twice, and file 8. */
  function OutrunRecord(size: nat, k: nat): Record {
    Record(k + 1, "d", if k + 1 == size || k == size then "7" else if k == size + 1 then "8" else "", "", "", "", 0)
  }

  lemma OutrunConverts(lower: string -> string, size: nat, k: nat)
    ensures ConvertWith(lower)(OutrunRecord(size, k)) ==
      if k + 1 == size || k == size then Some(Import(k + 1, 7, lower("d"), "", "", 0))
      else if k == size + 1 then Some(Import(k + 1, 8, lower("d"), "", "", 0)) else None
  {
    assert "7"[..0] == [] && "8"[..0] == [];
  }

  /** Such a history exists for every page size. */
  lemma OutrunExists(lower: string -> string, size: nat, p: nat)
    returns (h: seq<Record>, views: nat -> nat, a: Import, b: Import, c: Import)
    requires size > 0 && p >= 1
    ensures Outrun(ConvertWith(lower), size, h, views, a, b, c, p)
  {
    var conv, n := ConvertWith(lower), size * p + size + 2;
    h := seq(n, k requires 0 <= k < n => OutrunRecord(size, k));
    views := (q: nat) => if q <= p then size * p else n;
    a, b := Import(size, 7, lower("d"), "", "", 0), Import(size + 1, 7, lower("d"), "", "", 0);
    c := Import(size + 2, 8, lower("d"), "", "", 0);
    ConvertKeepsId(lower);
    forall k | 0 <= k <= size + 1
      ensures conv(h[k]) ==
        if k + 1 == size then Some(a) else if k == size then Some(b) else if k > size then Some(c) else None
    {
      OutrunConverts(lower, size, k);
    }
    OutrunHolds(conv, size, h, views, a, b, c, p);
  }

  lemma OutrunHolds(conv: Conv, size: nat, h: seq<Record>, views: nat -> nat, a: Import, b: Import, c: Import, p: nat)
    requires Ascending(h) && KeepsId(conv) && size > 0 && p >= 1 && |h| == size * p + size + 2
    requires forall k :: 0 <= k <= size + 1 ==>
      conv(h[k]) == if k + 1 == size then Some(a) else if k == size then Some(b) else if k > size then Some(c) else None
    requires forall q: nat :: views(q) == if q <= p then size * p else size * p + size + 2
    requires a.fileId == b.fileId != c.fileId
    ensures Outrun(conv, size, h, views, a, b, c, p)
  {
  }
}
