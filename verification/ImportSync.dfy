/**
 Incremental import of a media manager's download history.  The manager lists its history newest
 first, in pages; the history may grow while it is being paged through.  `h` below is the whole
 history, oldest first, and a view of it is the length it had reached when a page was served.
 */
module ImportSync {
  import opened Basics

  const PAGE_SIZE := 500
  const INT64_MIN := -0x8000_0000_0000_0000
  const INT64_MAX := 0x7FFF_FFFF_FFFF_FFFF

  datatype Record = Record(
    id: int, downloadId: string, fileId: string, client: string,
    dropped: string, imported: string, date: int)

  datatype Import = Import(
    historyId: int, fileId: int, downloadId: string, dropped: string, imported: string, at: int)

  type Table = map<int, Import>     // the rows of one media manager, by file id

  // ---------------------------------------------------------------- reading one record

  function Digits(s: string): Option<nat> {
    if s == [] then None
    else if !('0' <= s[|s| - 1] <= '9') then None
    else
      var d := s[|s| - 1] as int - '0' as int;
      if |s| == 1 then Some(d) else
      match Digits(s[..|s| - 1])
      case None => None
      case Some(n) => Some(10 * n + d)
  }

  /** Base ten with an optional sign; nothing when the value does not fit 64 bits. */
  function ParseInt(s: string): Option<int> {
    var negative := s != [] && s[0] == '-';
    match Digits(if s != [] && (s[0] == '-' || s[0] == '+') then s[1..] else s)
    case None => None
    case Some(n) =>
      var v: int := if negative then 0 - n else n;
      if INT64_MIN <= v <= INT64_MAX then Some(v) else None
  }

  /** Decimal digits of a number. */
  function Print(n: nat): string {
    (if n < 10 then "" else Print(n / 10)) + [(n % 10 + '0' as int) as char]
  }

  function PrintInt(n: int): string { if n < 0 then "-" + Print(-n) else Print(n) }

  lemma {:induction false} DigitsReadPrint(n: nat)
    ensures Digits(Print(n)) == Some(n)
    ensures Print(n) != "" && '0' <= Print(n)[0] <= '9'
    decreases n
  {
    var last := (n % 10 + '0' as int) as char;
    assert last as int - '0' as int == n % 10;
    if n >= 10 {
      DigitsReadPrint(n / 10);
      assert Print(n)[..|Print(n)| - 1] == Print(n / 10);
    }
  }

  /** A file id written in decimal reads back exactly when it fits 64 bits. */
  lemma ParseIntReadsPrint(n: int)
    ensures ParseInt(PrintInt(n)) == if INT64_MIN <= n <= INT64_MAX then Some(n) else None
  {
    var k: nat := if n < 0 then -n else n;
    DigitsReadPrint(k);
    SignReads(Print(k), k);
  }

  lemma SignReads(digits: string, k: nat)
    requires digits != "" && '0' <= digits[0] <= '9' && Digits(digits) == Some(k)
    ensures ParseInt(digits) == if k <= INT64_MAX then Some(k) else None
    ensures ParseInt("-" + digits) == if INT64_MIN <= 0 - k then Some(0 - k) else None
  {
    assert ("-" + digits)[1..] == digits;
  }

  function FoldChar(c: char): char {
    if 'A' <= c <= 'Z' then ((c as int) + 32) as char else c
  }

  predicate EqualFold(a: string, b: string) {
    |a| == |b| && forall i :: 0 <= i < |a| ==> FoldChar(a[i]) == FoldChar(b[i])
  }

  function Convert(lower: string -> string, r: Record): Option<Import> {
    if r.downloadId == "" || r.fileId == "" then None
    else if r.client != "" && !EqualFold(r.client, "qBittorrent") then None
    else match ParseInt(r.fileId)
      case None => None
      case Some(fid) => Some(Import(r.id, fid, lower(r.downloadId), r.dropped, r.imported, r.date))
  }

  /** How a record reads; nothing when it is of no use. */
  type Conv = Record -> Option<Import>

  function ConvertWith(lower: string -> string): Conv { (r: Record) => Convert(lower, r) }

  /** An import carries the id of its record. */
  ghost predicate KeepsId(conv: Conv) {
    forall r: Record :: conv(r).Some? ==> conv(r).value.historyId == r.id
  }

  lemma ConvertKeepsId(lower: string -> string)
    ensures KeepsId(ConvertWith(lower))
  {
  }

  // ---------------------------------------------------------------- lists and tables

  function Usable(conv: Conv, rs: seq<Record>): seq<Import> {
    if rs == [] then [] else
    Usable(conv, rs[..|rs| - 1]) +
    (match conv(rs[|rs| - 1]) case None => [] case Some(x) => [x])
  }

  function Reversed<T>(s: seq<T>): seq<T> {
    seq(|s|, i requires 0 <= i < |s| => s[|s| - 1 - i])
  }

  function Upserted(t: Table, recs: seq<Import>): Table {
    if recs == [] then t else
    var last := recs[|recs| - 1];
    Upserted(t, recs[..|recs| - 1])[last.fileId := last]
  }

  /** The last import of a file in a list. */
  function LastFor(recs: seq<Import>, f: int): Option<Import> {
    if recs == [] then None
    else if recs[|recs| - 1].fileId == f then Some(recs[|recs| - 1])
    else LastFor(recs[..|recs| - 1], f)
  }

  function Or<T>(a: Option<T>, b: Option<T>): Option<T> { if a.Some? then a else b }

  function Row(t: Table, f: int): Option<Import> { if f in t then Some(t[f]) else None }

  lemma {:induction false} UsableConcat(conv: Conv, a: seq<Record>, b: seq<Record>)
    ensures Usable(conv, a + b) == Usable(conv, a) + Usable(conv, b)
  {
    if b == [] {
      assert a + b == a;
    } else {
      assert (a + b)[..|a + b| - 1] == a + b[..|b| - 1];
      UsableConcat(conv, a, b[..|b| - 1]);
    }
  }

  lemma UsableSplit(conv: Conv, h: seq<Record>, i: nat, j: nat, k: nat)
    requires i <= j <= k <= |h|
    ensures Usable(conv, h[i..k]) == Usable(conv, h[i..j]) + Usable(conv, h[j..k])
  {
    assert h[i..k] == h[i..j] + h[j..k];
    UsableConcat(conv, h[i..j], h[j..k]);
  }

  lemma {:induction false} LastForConcat(a: seq<Import>, b: seq<Import>, f: int)
    ensures LastFor(a + b, f) == Or(LastFor(b, f), LastFor(a, f))
  {
    if b == [] {
      assert a + b == a;
    } else {
      assert (a + b)[..|a + b| - 1] == a + b[..|b| - 1];
      LastForConcat(a, b[..|b| - 1], f);
    }
  }

  /** The row of a file is its last import, or else what it was. */
  lemma {:induction false} UpsertedRow(t: Table, recs: seq<Import>, f: int)
    ensures Row(Upserted(t, recs), f) == Or(LastFor(recs, f), Row(t, f))
  {
    if recs != [] { UpsertedRow(t, recs[..|recs| - 1], f); }
  }

  ghost predicate SameEffect(a: seq<Import>, b: seq<Import>) {
    forall f :: LastFor(a, f) == LastFor(b, f)
  }

  lemma SameTable(a: Table, b: Table)
    requires forall f :: Row(a, f) == Row(b, f)
    ensures a == b
  {
    forall f ensures f in a <==> f in b { assert Row(a, f) == Row(b, f); }
    forall f | f in a ensures a[f] == b[f] { assert Row(a, f) == Row(b, f); }
  }

  lemma SameEffectSameTable(t: Table, a: seq<Import>, b: seq<Import>)
    requires SameEffect(a, b)
    ensures Upserted(t, a) == Upserted(t, b)
  {
    forall f ensures Row(Upserted(t, a), f) == Row(Upserted(t, b), f) {
      UpsertedRow(t, a, f);
      UpsertedRow(t, b, f);
    }
    SameTable(Upserted(t, a), Upserted(t, b));
  }

  lemma {:induction false} UpsertedConcat(t: Table, a: seq<Import>, b: seq<Import>)
    ensures Upserted(t, a + b) == Upserted(Upserted(t, a), b)
  {
    if b == [] {
      assert a + b == a;
    } else {
      assert (a + b)[..|a + b| - 1] == a + b[..|b| - 1];
      UpsertedConcat(t, a, b[..|b| - 1]);
    }
  }

  // ---------------------------------------------------------------- what a fetch gathers

  /** Ids are positive and strictly growing with age reversed: newest first they descend. */
  ghost predicate Ascending(h: seq<Record>) {
    && (forall i :: 0 <= i < |h| ==> h[i].id > 0)
    && (forall i, j :: 0 <= i < j < |h| ==> h[i].id < h[j].id)
  }

  function Floor(x: int): nat { if x < 0 then 0 else x }

  /** Where page `p` of a history of length `m` begins (exclusive, from the oldest side). */
  function Top(size: nat, m: nat, p: nat): nat { Floor(m - size * (p - 1)) }
  function Bottom(size: nat, m: nat, p: nat): nat { Floor(m - size * p) }

  /** Page `p`, newest first. */
  function Page(h: seq<Record>, size: nat, m: nat, p: nat): (page: seq<Record>)
    requires m <= |h| && p >= 1
  {
    BottomBelowTop(size, m, p);
    Reversed(h[Bottom(size, m, p)..Top(size, m, p)])
  }

  lemma BottomBelowTop(size: nat, m: nat, p: nat)
    requires p >= 1
    ensures Bottom(size, m, p) <= Top(size, m, p) <= m
    ensures Top(size, m, p) - Bottom(size, m, p) <= size
    ensures Top(size, m, p) - Bottom(size, m, p) < size <==> m < size * p
    ensures m < size * p ==> Bottom(size, m, p) == 0
  {
    assert size * p == size * (p - 1) + size;
  }

  /** Reading downwards from `hi`, where the ids stop being newer than `since`. */
  function Cut(h: seq<Record>, since: int, lo: nat, hi: nat): (cut: nat)
    requires lo <= hi <= |h|
    ensures lo <= cut <= hi
    ensures forall j :: cut <= j < hi ==> h[j].id > since
    ensures cut > lo ==> h[cut - 1].id <= since
  {
    if hi == lo || h[hi - 1].id <= since then hi else Cut(h, since, lo, hi - 1)
  }

  /** A server: the length of the history when page `p` is served. */
  ghost predicate Growing(h: seq<Record>, views: nat -> nat) {
    && (forall p :: views(p) <= |h|)
    && (forall p, q :: p <= q ==> views(p) <= views(q))
  }

  /** No more than one page's worth of new records between two page requests. */
  ghost predicate Slowly(size: nat, views: nat -> nat) {
    forall p, q :: q == p + 1 ==> views(q) <= views(p) + size
  }

  /** Where page `p` stops being new; at its bottom when all of it is. */
  function CutAt(h: seq<Record>, size: nat, m: nat, p: nat, since: int): (cut: nat)
    requires m <= |h| && p >= 1
    ensures Bottom(size, m, p) <= cut <= Top(size, m, p) <= |h|
  {
    BottomBelowTop(size, m, p);
    Cut(h, since, Bottom(size, m, p), Top(size, m, p))
  }

  predicate Final(h: seq<Record>, size: nat, m: nat, p: nat, since: int)
    requires m <= |h| && p >= 1
  {
    CutAt(h, size, m, p, since) > Bottom(size, m, p) || m < size * p
  }

  ghost function Left(size: nat, h: seq<Record>, p: nat): int { |h| + size - size * (p - 1) }

  lemma LeftShrinks(size: nat, h: seq<Record>, m: nat, p: nat, since: int)
    requires size > 0 && m <= |h| && p >= 1 && !Final(h, size, m, p, since)
    ensures 0 <= Left(size, h, p + 1) < Left(size, h, p)
  {
    assert size * p == size * (p - 1) + size;
  }

  /** What a fetch returns from page `p` on, oldest first.  The last page is the one holding a
      record already known, or a short one. */
  ghost function Gather(conv: Conv, size: nat, h: seq<Record>, views: nat -> nat, since: int, p: nat)
    : seq<Import>
    requires p >= 1 && size > 0 && Growing(h, views)
    decreases Left(size, h, p)
  {
    var m := views(p);
    var here := Usable(conv, h[CutAt(h, size, m, p, since)..Top(size, m, p)]);
    if Final(h, size, m, p, since) then here
    else
      LeftShrinks(size, h, m, p, since);
      Gather(conv, size, h, views, since, p + 1) + here
  }

  /** How many records are already known. */
  ghost function Known(h: seq<Record>, since: int): (s: nat)
    ensures s <= |h|
    ensures Ascending(h) ==> forall j :: 0 <= j < |h| ==> (j < s <==> h[j].id <= since)
  {
    Cut(h, since, 0, |h|)
  }

  lemma NextTop(size: nat, m: nat, n: nat, p: nat)
    requires p >= 1 && m <= n
    ensures Bottom(size, m, p) <= Top(size, n, p + 1)
    ensures n <= m + size ==> Top(size, n, p + 1) <= Top(size, m, p)
    ensures n == m ==> Top(size, n, p + 1) == Bottom(size, m, p)
  {
    assert size * p == size * (p - 1) + size;
  }

  /** Re-reading a stretch that is followed by itself changes nothing. */
  lemma OverlapIsHarmless(conv: Conv, h: seq<Record>, x: seq<Import>, s: nat, lo: nat, mid: nat, hi: nat)
    requires s <= lo <= mid <= hi <= |h|
    requires SameEffect(x, Usable(conv, h[s..mid]))
    ensures SameEffect(x + Usable(conv, h[lo..hi]), Usable(conv, h[s..hi]))
  {
    var a, b, c := Usable(conv, h[s..lo]), Usable(conv, h[lo..mid]), Usable(conv, h[mid..hi]);
    UsableSplit(conv, h, s, lo, mid);
    UsableSplit(conv, h, lo, mid, hi);
    UsableSplit(conv, h, s, lo, hi);
    forall f ensures LastFor(x + Usable(conv, h[lo..hi]), f) == LastFor(Usable(conv, h[s..hi]), f) {
      LastForConcat(x, b + c, f);
      LastForConcat(a, b, f);
      LastForConcat(b, c, f);
      LastForConcat(a, b + c, f);
    }
  }

  /** A last page begins exactly where the known records end. */
  lemma FinalIsKnown(h: seq<Record>, size: nat, m: nat, p: nat, since: int)
    requires Ascending(h) && m <= |h| && p >= 1 && Known(h, since) <= Top(size, m, p)
    ensures Final(h, size, m, p, since) ==> CutAt(h, size, m, p, since) == Known(h, since)
    ensures !Final(h, size, m, p, since) ==> Known(h, since) <= Bottom(size, m, p) == CutAt(h, size, m, p, since)
  {
    BottomBelowTop(size, m, p);
    if Final(h, size, m, p, since) {
      CutIsKnown(h, since, Bottom(size, m, p), Top(size, m, p));
    } else {
      KnownBelow(h, since, Bottom(size, m, p), Top(size, m, p));
    }
  }

  /** While the history grows slowly, a fetch has the effect of every new record of the first
      view, in order. */
  lemma {:induction false} GatherEffect(conv: Conv, size: nat, h: seq<Record>, views: nat -> nat, since: int, p: nat)
    requires p >= 1 && size > 0 && Growing(h, views) && Slowly(size, views) && Ascending(h)
    requires Known(h, since) <= Top(size, views(p), p)
    ensures Top(size, views(p), p) <= |h|
    ensures SameEffect(Gather(conv, size, h, views, since, p),
                       Usable(conv, h[Known(h, since)..Top(size, views(p), p)]))
    decreases Left(size, h, p)
  {
    var m, s := views(p), Known(h, since);
    BottomBelowTop(size, m, p);
    FinalIsKnown(h, size, m, p, since);
    if !Final(h, size, m, p, since) {
      var n := views(p + 1);
      assert m <= n <= m + size;
      NextTop(size, m, n, p);
      LeftShrinks(size, h, m, p, since);
      GatherEffect(conv, size, h, views, since, p + 1);
      OverlapIsHarmless(conv, h, Gather(conv, size, h, views, since, p + 1), s,
                        Bottom(size, m, p), Top(size, n, p + 1), Top(size, m, p));
    }
  }

  lemma CutIsKnown(h: seq<Record>, since: int, lo: nat, hi: nat)
    requires Ascending(h) && lo <= hi <= |h| && Known(h, since) <= hi
    requires Cut(h, since, lo, hi) > lo || lo == 0
    ensures Cut(h, since, lo, hi) == Known(h, since)
  {
    var cut, s := Cut(h, since, lo, hi), Known(h, since);
    assert 0 < s ==> h[s - 1].id <= since;
    assert 0 < cut ==> (cut - 1 < s <==> h[cut - 1].id <= since);
  }

  lemma KnownBelow(h: seq<Record>, since: int, lo: nat, hi: nat)
    requires Ascending(h) && lo <= hi <= |h| && Cut(h, since, lo, hi) == lo && Known(h, since) <= hi
    ensures Known(h, since) <= lo
  {
    assert lo < hi ==> (lo < Known(h, since) <==> h[lo].id <= since);
  }

  /** If the history stands still, the fetch is exactly the new usable records, oldest first. */
  lemma {:induction false} GatherOfStill(conv: Conv, size: nat, h: seq<Record>, views: nat -> nat, since: int, p: nat)
    requires p >= 1 && size > 0 && Growing(h, views) && Ascending(h)
    requires forall q :: views(q) == views(0)
    requires Known(h, since) <= Top(size, views(p), p)
    ensures Top(size, views(p), p) <= |h|
    ensures Gather(conv, size, h, views, since, p) == Usable(conv, h[Known(h, since)..Top(size, views(p), p)])
    decreases Left(size, h, p)
  {
    var m, s := views(p), Known(h, since);
    BottomBelowTop(size, m, p);
    FinalIsKnown(h, size, m, p, since);
    if !Final(h, size, m, p, since) {
      assert views(p + 1) == views(0) == m;
      NextTop(size, m, m, p);
      LeftShrinks(size, h, m, p, since);
      GatherOfStill(conv, size, h, views, since, p + 1);
      UsableSplit(conv, h, s, Bottom(size, m, p), Top(size, m, p));
    }
  }

  lemma NewIsBelowTheCut(h: seq<Record>, since: int, lo: nat, hi: nat, j: nat)
    requires Ascending(h) && lo <= hi <= |h| && j < Cut(h, since, lo, hi) && h[j].id > since
    ensures Cut(h, since, lo, hi) == lo && j < lo
  {
    assert h[j].id <= h[Cut(h, since, lo, hi) - 1].id;
  }

  lemma GatheredHere(conv: Conv, size: nat, h: seq<Record>, views: nat -> nat, since: int, p: nat, j: nat)
    requires p >= 1 && size > 0 && Growing(h, views)
    requires CutAt(h, size, views(p), p, since) <= j < Top(size, views(p), p) && conv(h[j]).Some?
    ensures conv(h[j]).value in Gather(conv, size, h, views, since, p)
  {
    UsableHas(conv, h, CutAt(h, size, views(p), p, since), Top(size, views(p), p), j);
  }

  lemma GatheredLater(conv: Conv, size: nat, h: seq<Record>, views: nat -> nat, since: int, p: nat, x: Import)
    requires p >= 1 && size > 0 && Growing(h, views) && !Final(h, size, views(p), p, since)
    requires x in Gather(conv, size, h, views, since, p + 1)
    ensures x in Gather(conv, size, h, views, since, p)
  {
  }

  lemma NotYet(h: seq<Record>, size: nat, views: nat -> nat, since: int, p: nat, j: nat)
    requires p >= 1 && size > 0 && Growing(h, views) && Ascending(h)
    requires j < CutAt(h, size, views(p), p, since) && h[j].id > since
    ensures !Final(h, size, views(p), p, since) && j < Top(size, views(p + 1), p + 1)
    ensures 0 <= Left(size, h, p + 1) < Left(size, h, p)
  {
    BottomBelowTop(size, views(p), p);
    NewIsBelowTheCut(h, since, Bottom(size, views(p), p), Top(size, views(p), p), j);
    NextTop(size, views(p), views(p + 1), p);
    LeftShrinks(size, h, views(p), p, since);
  }

  /** However fast the history grows, no new record of the first view is missed. */
  lemma {:induction false} GatherMissesNothing(conv: Conv, size: nat, h: seq<Record>, views: nat -> nat, since: int,
                                               p: nat, j: nat)
    requires p >= 1 && size > 0 && Growing(h, views) && Ascending(h)
    requires j < Top(size, views(p), p) && j < |h| && h[j].id > since && conv(h[j]).Some?
    ensures conv(h[j]).value in Gather(conv, size, h, views, since, p)
    decreases Left(size, h, p)
  {
    if j >= CutAt(h, size, views(p), p, since) {
      GatheredHere(conv, size, h, views, since, p, j);
    } else {
      NotYet(h, size, views, since, p, j);
      GatherMissesNothing(conv, size, h, views, since, p + 1, j);
      GatheredLater(conv, size, h, views, since, p, conv(h[j]).value);
    }
  }

  lemma UsableHas(conv: Conv, h: seq<Record>, lo: nat, hi: nat, j: nat)
    requires lo <= j < hi <= |h| && conv(h[j]).Some?
    ensures conv(h[j]).value in Usable(conv, h[lo..hi])
  {
    UsableSplit(conv, h, lo, j + 1, hi);
    UsableSplit(conv, h, lo, j, j + 1);
    assert h[j..j + 1] == [h[j]];
    assert h[j..j + 1][..0] == [];
  }

  // ---------------------------------------------------------------- fetching

  datatype Result<+T> = Ok(value: T) | Err

  /** The last page asked for. */
  ghost function LastPage(size: nat, h: seq<Record>, views: nat -> nat, since: int, p: nat): (last: nat)
    requires p >= 1 && size > 0 && Growing(h, views)
    ensures last >= p
    decreases Left(size, h, p)
  {
    if Final(h, size, views(p), p, since) then p
    else
      LeftShrinks(size, h, views(p), p, since);
      LastPage(size, h, views, since, p + 1)
  }

  /** The page is the last to ask for: it is not full, or it lists a record already known. */
  predicate IsLast(page: seq<Record>, size: nat, since: int) {
    |page| < size || exists r :: r in page && r.id <= since
  }

  lemma FinalExactly(h: seq<Record>, size: nat, m: nat, p: nat, since: int)
    requires m <= |h| && p >= 1
    ensures Final(h, size, m, p, since) <==> IsLast(Page(h, size, m, p), size, since)
  {
    var page, lo, hi := Page(h, size, m, p), Bottom(size, m, p), Top(size, m, p);
    BottomBelowTop(size, m, p);
    var cut := CutAt(h, size, m, p, since);
    assert forall i :: 0 <= i < |page| ==> page[i] == h[hi - 1 - i];
    if cut > lo { assert page[hi - cut] == h[cut - 1]; }
    if r :| r in page && r.id <= since {
      var i :| 0 <= i < |page| && page[i] == r;
      assert cut > hi - 1 - i;
    }
  }

  /** A fetch asks for one page after another up to the first that is not full or lists a known
      record. */
  lemma {:induction false} LastPageExactly(size: nat, h: seq<Record>, views: nat -> nat, since: int, p: nat)
    requires p >= 1 && size > 0 && Growing(h, views)
    ensures var last := LastPage(size, h, views, since, p);
      && IsLast(Page(h, size, views(last), last), size, since)
      && forall q :: p <= q < last ==> !IsLast(Page(h, size, views(q), q), size, since)
    decreases Left(size, h, p)
  {
    FinalExactly(h, size, views(p), p, since);
    if !Final(h, size, views(p), p, since) {
      LeftShrinks(size, h, views(p), p, since);
      LastPageExactly(size, h, views, since, p + 1);
    }
  }

  method ReadPage(conv: Conv, page: seq<Record>, since: int, collected: seq<Import>,
                  ghost h: seq<Record>, ghost lo: nat, ghost hi: nat)
    returns (out: seq<Import>, stop: bool)
    requires lo <= hi <= |h| && page == Reversed(h[lo..hi])
    ensures stop <==> Cut(h, since, lo, hi) > lo
    ensures Reversed(out) == Usable(conv, h[Cut(h, since, lo, hi)..hi]) + Reversed(collected)
  {
    out, stop := collected, false;
    for i := 0 to |page|
      invariant HasRead(conv, h, hi - i, hi, collected, out)
      invariant Cut(h, since, lo, hi) == Cut(h, since, lo, hi - i)
    {
      var r := page[i];
      if r.id <= since { return out, true; }
      assert r == h[hi - i - 1];
      var rec := conv(r);
      ReadOne(conv, h, hi - i - 1, hi, collected, out, rec);
      if rec.None? { continue; }
      out := out + [rec.value];
    }
  }

  /** `out` is `collected` with the usable records of `h[j..hi]` added, newest first. */
  ghost predicate HasRead(conv: Conv, h: seq<Record>, j: int, hi: nat, collected: seq<Import>, out: seq<Import>) {
    0 <= j <= hi <= |h| && Reversed(out) == Usable(conv, h[j..hi]) + Reversed(collected)
  }

  lemma ReadOne(conv: Conv, h: seq<Record>, j: nat, hi: nat, collected: seq<Import>, out: seq<Import>,
                rec: Option<Import>)
    requires j < hi <= |h| && HasRead(conv, h, j + 1, hi, collected, out) && rec == conv(h[j])
    ensures HasRead(conv, h, j, hi, collected, if rec.Some? then out + [rec.value] else out)
  {
    OneMore(conv, h, j, hi);
    if rec.Some? { assert Reversed(out + [rec.value]) == [rec.value] + Reversed(out); }
  }

  lemma OneMore(conv: Conv, h: seq<Record>, j: nat, hi: nat)
    requires j < hi <= |h|
    ensures Usable(conv, h[j..hi]) ==
            (match conv(h[j]) case None => [] case Some(x) => [x]) + Usable(conv, h[j + 1..hi])
  {
    UsableSplit(conv, h, j, j + 1, hi);
    assert h[j..j + 1] == [h[j]] && h[j..j + 1][..0] == [];
  }

  method ReverseInPlace(a: array<Import>)
    modifies a
    ensures a[..] == Reversed(old(a[..]))
  {
    var i, j := 0, a.Length - 1;
    while i < j
      invariant 0 <= i && j == a.Length - 1 - i && i <= j + 1
      invariant forall k :: 0 <= k < a.Length ==>
        a[k] == if i <= k <= j then old(a[k]) else old(a[a.Length - 1 - k])
    {
      a[i], a[j] := a[j], a[i];
      i, j := i + 1, j - 1;
    }
  }

  lemma Regroup(a: seq<Import>, b: seq<Import>, c: seq<Import>)
    ensures (a + b) + c == a + (b + c)
  {
  }

  lemma PageStep(conv: Conv, size: nat, h: seq<Record>, views: nat -> nat, since: int, p: nat,
                 before: seq<Import>, after: seq<Import>)
    requires p >= 1 && size > 0 && Growing(h, views)
    requires Reversed(after)
      == Usable(conv, h[CutAt(h, size, views(p), p, since)..Top(size, views(p), p)]) + Reversed(before)
    ensures Final(h, size, views(p), p, since) ==>
      && Gather(conv, size, h, views, since, p) + Reversed(before) == Reversed(after)
      && LastPage(size, h, views, since, p) == p
    ensures !Final(h, size, views(p), p, since) ==>
      && Gather(conv, size, h, views, since, p) + Reversed(before)
         == Gather(conv, size, h, views, since, p + 1) + Reversed(after)
      && LastPage(size, h, views, since, p) == LastPage(size, h, views, since, p + 1)
  {
    BottomBelowTop(size, views(p), p);
    if !Final(h, size, views(p), p, since) {
      var here := Usable(conv, h[CutAt(h, size, views(p), p, since)..Top(size, views(p), p)]);
      Regroup(Gather(conv, size, h, views, since, p + 1), here, Reversed(before));
    }
  }

  /** `rest(p)` is what the pages from `p` on bring, and `last(p)` the last of them. */
  ghost predicate Describes(rest: nat -> seq<Import>, last: nat -> nat,
                            conv: Conv, size: nat, h: seq<Record>, views: nat -> nat, since: int)
    requires size > 0 && Growing(h, views)
  {
    forall p {:trigger Gather(conv, size, h, views, since, p)} :: p >= 1 ==>
      rest(p) == Gather(conv, size, h, views, since, p) && last(p) == LastPage(size, h, views, since, p)
  }

  /** One request: adds the new imports of page `p` and says whether it is the last page to ask for. */
  method TakePage(conv: Conv, size: nat, h: seq<Record>, views: nat -> nat, p: nat, since: int, collected: seq<Import>,
                  ghost rest: nat -> seq<Import>, ghost last: nat -> nat)
    returns (out: seq<Import>, done: bool)
    requires p >= 1 && size > 0 && Growing(h, views) && Describes(rest, last, conv, size, h, views, since)
    ensures done ==> rest(p) + Reversed(collected) == Reversed(out) && last(p) == p
    ensures !done ==> rest(p) + Reversed(collected) == rest(p + 1) + Reversed(out) && last(p) == last(p + 1) > p
    ensures !done ==> 0 <= Left(size, h, p + 1) < Left(size, h, p)
  {
    var m := views(p);
    BottomBelowTop(size, m, p);
    var page := Page(h, size, m, p);
    var stop;
    out, stop := ReadPage(conv, page, since, collected, h, Bottom(size, m, p), Top(size, m, p));
    done := stop || |page| < size;
    PageStep(conv, size, h, views, since, p, collected, out);
    if !done { LeftShrinks(size, h, m, p, since); }
  }

  /** No request before page `p` failed. */
  predicate Served(fails: nat -> bool, p: nat) { forall q :: 1 <= q < p ==> !fails(q) }

  /** The page loop: everything newer, newest first; an error exactly when a page it asks for fails. */
  method CollectPages(conv: Conv, size: nat, h: seq<Record>, views: nat -> nat, fails: nat -> bool, since: int,
                      ghost rest: nat -> seq<Import>, ghost last: nat -> nat)
    returns (r: Result<seq<Import>>)
    requires size > 0 && Growing(h, views) && Describes(rest, last, conv, size, h, views, since)
    ensures r.Ok? ==> Reversed(r.value) == rest(1)
    ensures r.Ok? <==> Served(fails, last(1) + 1)
  {
    var collected: seq<Import> := [];
    var pageNum := 1;
    assert rest(1) + Reversed(collected) == rest(1);
    while true
      invariant pageNum >= 1 && (pageNum > 1 ==> last(1) >= pageNum)
      invariant rest(1) == rest(pageNum) + Reversed(collected) && last(1) == last(pageNum)
      invariant Served(fails, pageNum)
      decreases Left(size, h, pageNum)
    {
      ghost var reached := LastIsLater(rest, last, conv, size, h, views, since, pageNum);
      if fails(pageNum) { return Err; }
      var done;
      collected, done := TakePage(conv, size, h, views, pageNum, since, collected, rest, last);
      if done { return Ok(collected); }
      pageNum := pageNum + 1;
    }
  }

  lemma LastIsLater(rest: nat -> seq<Import>, last: nat -> nat,
                    conv: Conv, size: nat, h: seq<Record>, views: nat -> nat, since: int, p: nat) returns (l: nat)
    requires size > 0 && Growing(h, views) && Describes(rest, last, conv, size, h, views, since) && p >= 1
    ensures l == last(p) >= p
  {
    l := LastPage(size, h, views, since, p);
    assert rest(p) == Gather(conv, size, h, views, since, p);
  }

  /** Every import newer than `since`, oldest first; an error exactly when a page it asks for fails. */
  method Fetch(conv: Conv, h: seq<Record>, views: nat -> nat, fails: nat -> bool, since: int)
    returns (r: Result<seq<Import>>)
    requires Growing(h, views)
    ensures r.Ok? ==> r.value == Gather(conv, PAGE_SIZE, h, views, since, 1)
    ensures r.Ok? <==> forall p :: 1 <= p <= LastPage(PAGE_SIZE, h, views, since, 1) ==> !fails(p)
  {
    ghost var rest := (p: nat) => if p >= 1 then Gather(conv, PAGE_SIZE, h, views, since, p) else [];
    ghost var last := (p: nat) => if p >= 1 then LastPage(PAGE_SIZE, h, views, since, p) else 0;
    var collected := CollectPages(conv, PAGE_SIZE, h, views, fails, since, rest, last);
    if collected.Err? { return Err; }
    var c := collected.value;
    var records := new Import[|c|](i requires 0 <= i < |c| => c[i]);
    assert records[..] == c;
    ReverseInPlace(records);
    return Ok(records[..]);
  }

  // ---------------------------------------------------------------- the table and its cursor

  /** The highest history id stored, or zero. */
  ghost predicate IsCursor(t: Table, v: int) {
    if t == map[] then v == 0
    else (exists f :: f in t && t[f].historyId == v) && forall f :: f in t ==> t[f].historyId <= v
  }

  /** One poll: a failure anywhere, or a fetch against a growing history that was stored. */
  datatype Poll = Failed | Stored(views: nat -> nat)

  class ImportStore {
    var table: Table

    constructor ()
      ensures table == map[]
    {
      table := map[];
    }

    method MaxHistoryID() returns (v: int)
      ensures IsCursor(table, v)
    {
      var left := table.Keys;
      v := 0;
      while left != {}
        invariant left <= table.Keys
        invariant forall f :: f in table && f !in left ==> table[f].historyId <= v
        invariant if left == table.Keys then v == 0 else exists f :: f in table && f !in left && table[f].historyId == v
        decreases left
      {
        ghost var some := Member(left);
        var f :| f in left;
        if left == table.Keys || table[f].historyId > v { v := table[f].historyId; }
        left := left - {f};
      }
    }

    /** One transaction; `failsAt` is the row that fails, if any, or the commit. */
    method UpsertArrImports(recs: seq<Import>, failsAt: Option<nat>) returns (ok: bool)
      modifies this
      ensures ok <==> recs == [] || failsAt == None || failsAt.value > |recs|
      ensures table == if ok then Upserted(old(table), recs) else old(table)
    {
      if |recs| == 0 { return true; }
      var pending := table;
      for i := 0 to |recs|
        invariant table == old(table)
        invariant pending == Upserted(table, recs[..i])
        invariant failsAt == None || failsAt.value >= i
      {
        if failsAt == Some(i) { return false; }
        assert recs[..i + 1][..i] == recs[..i];
        pending := pending[recs[i].fileId := recs[i]];
      }
      if failsAt == Some(|recs|) { return false; }
      assert recs[..|recs|] == recs;
      table := pending;
      return true;
    }

    /** Fetch what is newer than the cursor and store it; it succeeds exactly when the cursor can be
        read, every page asked for is served and the imports found, if any, are all written. */
    method SyncImports(conv: Conv, h: seq<Record>, views: nat -> nat,
                       cursorFails: bool, fails: nat -> bool, failsAt: Option<nat>)
      returns (ok: bool)
      requires Growing(h, views)
      modifies this
      ensures table == AfterPoll(conv, h, old(table), if ok then Stored(views) else Failed)
      ensures var since := Cursor(old(table));
        var found := Gather(conv, PAGE_SIZE, h, views, since, 1);
        ok <==> !cursorFails && Served(fails, LastPage(PAGE_SIZE, h, views, since, 1) + 1)
                && (found == [] || failsAt == None || failsAt.value > |found|)
    {
      if cursorFails { return false; }
      var since := MaxHistoryID();
      CursorIsUnique(table, since);
      var recs := Fetch(conv, h, views, fails, since);
      if recs.Err? { return false; }
      ok := UpsertArrImports(recs.value, failsAt);
    }
  }

  ghost function Cursor(t: Table): (v: int)
    ensures IsCursor(t, v)
  {
    HasCursor(t);
    var v :| IsCursor(t, v);
    v
  }

  ghost predicate Highest(t: Table, keys: set<int>, f: int)
    requires keys <= t.Keys
  {
    f in keys && forall g :: g in keys ==> t[g].historyId <= t[f].historyId
  }

  lemma Member<T(!new)>(s: set<T>) returns (x: T)
    requires s != {}
    ensures x in s
  {
    x :| x in s;
  }

  lemma {:induction false} HasHighest(t: Table, keys: set<int>) returns (f: int)
    requires keys <= t.Keys && keys != {}
    ensures Highest(t, keys, f)
  {
    var k := Member(keys);
    var rest := keys - {k};
    assert forall g :: g in keys ==> g == k || g in rest;
    f := k;
    if rest != {} {
      var g := HasHighest(t, rest);
      assert g in keys;
      if t[g].historyId > t[k].historyId { f := g; }
    }
  }

  lemma HasCursor(t: Table)
    ensures exists v :: IsCursor(t, v)
  {
    if t == map[] {
      assert IsCursor(t, 0);
    } else {
      assert t.Keys != {};
      var f := HasHighest(t, t.Keys);
      assert IsCursor(t, t[f].historyId);
    }
  }

  lemma CursorIsUnique(t: Table, v: int)
    requires IsCursor(t, v)
    ensures v == Cursor(t)
  {
  }

  ghost function AfterPoll(conv: Conv, h: seq<Record>, t: Table, poll: Poll): Table
    requires poll.Stored? ==> Growing(h, poll.views)
  {
    match poll
    case Failed => t
    case Stored(views) => Upserted(t, Gather(conv, PAGE_SIZE, h, views, Cursor(t), 1))
  }

  // ---------------------------------------------------------------- any number of polls

  /** The table a single fetch from cursor zero would make of the first `m` records. */
  function FullTable(conv: Conv, h: seq<Record>, m: nat): Table
    requires m <= |h|
  {
    Upserted(map[], Usable(conv, h[..m]))
  }

  ghost predicate AllGrowing(h: seq<Record>, polls: seq<Poll>) {
    forall i :: 0 <= i < |polls| && polls[i].Stored? ==> Growing(h, polls[i].views)
  }

  /** Each stored fetch starts after the previous one and sees the history grow slowly. */
  ghost predicate WellTimed(h: seq<Record>, polls: seq<Poll>) {
    && AllGrowing(h, polls)
    && (forall i :: 0 <= i < |polls| && polls[i].Stored? ==> Slowly(PAGE_SIZE, polls[i].views))
    && (forall i, j :: 0 <= i < j < |polls| && polls[i].Stored? && polls[j].Stored? ==>
          polls[i].views(1) <= polls[j].views(1))
  }

  ghost function After(conv: Conv, h: seq<Record>, polls: seq<Poll>): Table
    requires AllGrowing(h, polls)
  {
    if polls == [] then map[] else
    AfterPoll(conv, h, After(conv, h, polls[..|polls| - 1]), polls[|polls| - 1])
  }

  /** How much of the history the last stored fetch saw when it began. */
  ghost function Seen(polls: seq<Poll>): nat {
    if polls == [] then 0
    else if polls[|polls| - 1].Stored? then polls[|polls| - 1].views(1)
    else Seen(polls[..|polls| - 1])
  }

  lemma FullStep(conv: Conv, h: seq<Record>, m: nat)
    requires 0 < m <= |h|
    ensures FullTable(conv, h, m) ==
      match conv(h[m - 1])
      case None => FullTable(conv, h, m - 1)
      case Some(x) => FullTable(conv, h, m - 1)[x.fileId := x]
  {
    assert h[..m][..m - 1] == h[..m - 1];
    var init := Usable(conv, h[..m - 1]);
    match conv(h[m - 1])
    case None =>
      assert Usable(conv, h[..m]) == init;
    case Some(x) =>
      assert Usable(conv, h[..m]) == init + [x];
      assert (init + [x])[..|init|] == init;
  }

  ghost predicate Stands(conv: Conv, h: seq<Record>, m: nat, t: Table)
    requires m <= |h|
  {
    && Known(h, Cursor(t)) <= m
    && Usable(conv, h[Known(h, Cursor(t))..m]) == []
    && (forall f :: f in t ==> 0 < t[f].historyId)
    && Cursor(t) <= (if m == 0 then 0 else h[m - 1].id)
  }

  lemma StandsStill(conv: Conv, h: seq<Record>, m: nat, t: Table)
    requires 0 < m <= |h| && Ascending(h) && Stands(conv, h, m - 1, t) && conv(h[m - 1]) == None
    ensures Stands(conv, h, m, t)
  {
    NothingUsable(conv, h, Known(h, Cursor(t)), m);
    assert m > 1 ==> h[m - 2].id < h[m - 1].id;
  }

  lemma NothingUsable(conv: Conv, h: seq<Record>, k: nat, m: nat)
    requires k < m <= |h| && Usable(conv, h[k..m - 1]) == [] && conv(h[m - 1]) == None
    ensures Usable(conv, h[k..m]) == []
  {
    UsableSplit(conv, h, k, m - 1, m);
    assert h[m - 1..m] == [h[m - 1]] && [h[m - 1]][..0] == [];
  }

  lemma StandsAtLast(conv: Conv, h: seq<Record>, m: nat, t: Table, x: Import)
    requires 0 < m <= |h| && Ascending(h) && KeepsId(conv) && Stands(conv, h, m - 1, t) && conv(h[m - 1]) == Some(x)
    ensures Stands(conv, h, m, t[x.fileId := x])
    ensures Cursor(t[x.fileId := x]) == h[m - 1].id >= Cursor(t)
  {
    var u := t[x.fileId := x];
    assert m > 1 ==> h[m - 2].id < h[m - 1].id;
    assert u[x.fileId].historyId == h[m - 1].id;
    assert IsCursor(u, h[m - 1].id);
    CursorIsUnique(u, h[m - 1].id);
    assert Known(h, h[m - 1].id) == m;
  }

  /** The cursor of a full table stands at the last usable record: nothing newer was usable. */
  lemma {:induction false} CursorOfFull(conv: Conv, h: seq<Record>, m: nat)
    requires m <= |h| && Ascending(h) && KeepsId(conv)
    ensures Stands(conv, h, m, FullTable(conv, h, m))
  {
    if m == 0 {
      assert h[..0] == [];
      CursorIsUnique(map[], 0);
      assert h != [] ==> (0 < Known(h, 0) <==> h[0].id <= 0);
    } else {
      CursorOfFull(conv, h, m - 1);
      FullStep(conv, h, m);
      match conv(h[m - 1])
      case None => StandsStill(conv, h, m, FullTable(conv, h, m - 1));
      case Some(x) => StandsAtLast(conv, h, m, FullTable(conv, h, m - 1), x);
    }
  }

  lemma FirstTop(size: nat, n: nat)
    ensures Top(size, n, 1) == n
  {
  }

  lemma AddNew(conv: Conv, h: seq<Record>, s: nat, m: nat, n: nat)
    requires s <= m <= n <= |h| && Usable(conv, h[s..m]) == []
    ensures Upserted(FullTable(conv, h, m), Usable(conv, h[s..n])) == FullTable(conv, h, n)
  {
    var old_, new_ := Usable(conv, h[..m]), Usable(conv, h[m..n]);
    UsableSplit(conv, h, s, m, n);
    assert [] + new_ == new_;
    assert h[..n] == h[..m] + h[m..n];
    UsableConcat(conv, h[..m], h[m..n]);
    UpsertedConcat(map[], old_, new_);
  }

  lemma StoredPollIsFullSync(conv: Conv, h: seq<Record>, views: nat -> nat, m: nat)
    requires Ascending(h) && KeepsId(conv) && Growing(h, views) && Slowly(PAGE_SIZE, views) && m <= views(1)
    ensures AfterPoll(conv, h, FullTable(conv, h, m), Stored(views)) == FullTable(conv, h, views(1))
  {
    var t := FullTable(conv, h, m);
    var c, n := Cursor(t), views(1);
    CursorOfFull(conv, h, m);
    FirstTop(PAGE_SIZE, n);
    GatherEffect(conv, PAGE_SIZE, h, views, c, 1);
    SameEffectSameTable(t, Gather(conv, PAGE_SIZE, h, views, c, 1), Usable(conv, h[Known(h, c)..n]));
    AddNew(conv, h, Known(h, c), m, n);
  }

  /** Whatever failed in between, the table is always that of one full fetch. */
  lemma {:induction false} DeltaSyncIsFullSync(conv: Conv, h: seq<Record>, polls: seq<Poll>)
    requires Ascending(h) && KeepsId(conv) && WellTimed(h, polls)
    ensures Seen(polls) <= |h|
    ensures After(conv, h, polls) == FullTable(conv, h, Seen(polls))
  {
    if polls == [] {
      assert h[..0] == [];
    } else {
      var before, last := polls[..|polls| - 1], polls[|polls| - 1];
      DeltaSyncIsFullSync(conv, h, before);
      SeenIsEarlier(polls);
      if last.Stored? { StoredPollIsFullSync(conv, h, last.views, Seen(before)); }
    }
  }

  lemma {:induction false} SeenIsSome(polls: seq<Poll>)
    ensures Seen(polls) == 0 || exists i :: 0 <= i < |polls| && polls[i].Stored? && Seen(polls) == polls[i].views(1)
  {
    if polls != [] {
      var before := polls[..|polls| - 1];
      SeenIsSome(before);
      if i :| 0 <= i < |before| && before[i].Stored? && Seen(before) == before[i].views(1) {
        assert polls[i] == before[i];
      }
    }
  }

  lemma SeenIsEarlier(polls: seq<Poll>)
    requires polls != [] && exists h :: WellTimed(h, polls)
    ensures Seen(polls[..|polls| - 1]) <= Seen(polls)
  {
    SeenIsSome(polls[..|polls| - 1]);
  }

  /** A poll that ends in success leaves what one fetch from cursor zero, against the history
      as that poll first saw it, would leave in an empty table. */
  lemma SuccessEqualsOneFetch(conv: Conv, h: seq<Record>, polls: seq<Poll>, still: nat -> nat)
    requires Ascending(h) && KeepsId(conv) && WellTimed(h, polls) && polls != [] && polls[|polls| - 1].Stored?
    requires forall p :: still(p) == polls[|polls| - 1].views(1)
    ensures Growing(h, still)
    ensures After(conv, h, polls) == Upserted(map[], Gather(conv, PAGE_SIZE, h, still, 0, 1))
  {
    var n := polls[|polls| - 1].views(1);
    DeltaSyncIsFullSync(conv, h, polls);
    OneFetch(conv, PAGE_SIZE, h, still, n, 1);
  }

  lemma OneFetch(conv: Conv, size: nat, h: seq<Record>, still: nat -> nat, n: nat, p: nat)
    requires Ascending(h) && size > 0 && n <= |h| && p == 1 && forall q :: still(q) == n
    ensures Growing(h, still)
    ensures Gather(conv, size, h, still, 0, p) == Usable(conv, h[..n])
  {
    assert h != [] ==> (0 < Known(h, 0) <==> h[0].id <= 0);
    FirstTop(size, n);
    GatherOfStill(conv, size, h, still, 0, p);
    assert h[..n] == h[0..n];
  }

  lemma {:induction false} SeenGrows(h: seq<Record>, polls: seq<Poll>, i: nat)
    requires WellTimed(h, polls) && i <= |polls|
    ensures Seen(polls[..i]) <= Seen(polls)
    decreases |polls| - i
  {
    if i == |polls| {
      assert polls[..i] == polls;
    } else {
      SeenGrows(h, polls, i + 1);
      assert polls[..i + 1][..i] == polls[..i];
      assert WellTimed(h, polls[..i + 1]);
      SeenIsEarlier(polls[..i + 1]);
    }
  }

  lemma {:induction false} FullCursorGrows(conv: Conv, h: seq<Record>, m: nat, n: nat)
    requires Ascending(h) && KeepsId(conv) && m <= n <= |h|
    ensures Cursor(FullTable(conv, h, m)) <= Cursor(FullTable(conv, h, n))
    decreases n
  {
    if m < n {
      FullCursorGrows(conv, h, m, n - 1);
      OneRecordRaises(conv, h, n);
    }
  }

  lemma OneRecordRaises(conv: Conv, h: seq<Record>, n: nat)
    requires Ascending(h) && KeepsId(conv) && 0 < n <= |h|
    ensures Cursor(FullTable(conv, h, n - 1)) <= Cursor(FullTable(conv, h, n))
  {
    CursorOfFull(conv, h, n - 1);
    FullStep(conv, h, n);
    match conv(h[n - 1])
    case None =>
    case Some(x) => StandsAtLast(conv, h, n, FullTable(conv, h, n - 1), x);
  }

  /** The cursor never moves back. */
  lemma CursorNeverMovesBack(conv: Conv, h: seq<Record>, polls: seq<Poll>, i: nat)
    requires Ascending(h) && KeepsId(conv) && WellTimed(h, polls) && i <= |polls|
    ensures WellTimed(h, polls[..i])
    ensures Cursor(After(conv, h, polls[..i])) <= Cursor(After(conv, h, polls))
  {
    assert WellTimed(h, polls[..i]);
    DeltaSyncIsFullSync(conv, h, polls[..i]);
    DeltaSyncIsFullSync(conv, h, polls);
    SeenGrows(h, polls, i);
    FullCursorGrows(conv, h, Seen(polls[..i]), Seen(polls));
  }

  /** Every stored download id is in lower case. */
  lemma {:induction false} StoredIdsAreLower(lower: string -> string, h: seq<Record>, m: nat)
    requires m <= |h| && forall x :: lower(lower(x)) == lower(x)
    ensures var t := FullTable(ConvertWith(lower), h, m);
            forall f :: f in t ==> lower(t[f].downloadId) == t[f].downloadId
  {
    if m == 0 {
      assert h[..0] == [];
    } else {
      StoredIdsAreLower(lower, h, m - 1);
      FullStep(ConvertWith(lower), h, m);
    }
  }
}
