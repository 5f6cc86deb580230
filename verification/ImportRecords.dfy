/**
 Which history records are of use, and what their imports carry: an exact condition on the record's
 text, without the functions that read it.
 */
module ImportRecords {
  import opened Basics
  import opened ImportSync

  // ---------------------------------------------------------------- numerals

  function Zeros(z: nat): string { seq(z, _ => '0') }

  function Padded(z: nat, k: nat): string { Zeros(z) + Print(k) }

  /** What decimal numerals are: one for each digit, and one digit more for ten times as much. */
  lemma NumeralsAreDecimal(m: nat, d: nat)
    requires d < 10
    ensures Print(d) == ["0123456789"[d]]
    ensures m > 0 ==> Print(10 * m + d) == Print(m) + Print(d)
  {
    if m > 0 { assert (10 * m + d) / 10 == m && (10 * m + d) % 10 == d; }
  }

  lemma {:induction false} ZerosRead(z: nat)
    requires z > 0
    ensures Digits(Zeros(z)) == Some(0)
  {
    if z > 1 {
      assert Zeros(z)[..z - 1] == Zeros(z - 1);
      ZerosRead(z - 1);
    }
  }

  lemma {:induction false} PaddedReads(z: nat, k: nat)
    ensures Digits(Padded(z, k)) == Some(k)
    decreases k
  {
    var s := Padded(z, k);
    var n := |s| - 1;
    assert s[n] as int - '0' as int == k % 10;
    if k >= 10 {
      assert s[..n] == Padded(z, k / 10);
      PaddedReads(z, k / 10);
    } else {
      assert s[..n] == Zeros(z);
      if z > 0 { ZerosRead(z); }
    }
  }

  /** A text that reads as a number is its numeral after zeros. */
  lemma {:induction false} ReadIsPadded(s: string) returns (z: nat)
    requires Digits(s).Some?
    ensures s == Padded(z, Digits(s).value)
    decreases |s|
  {
    var n := |s| - 1;
    assert s == s[..n] + [s[n]];
    if n == 0 {
      z := 0;
      SingleDigit(s);
    } else {
      z := ReadIsPadded(s[..n]);
      z := OneDigitMore(s[..n], s[n], z, Digits(s[..n]).value);
    }
  }

  lemma SingleDigit(s: string)
    requires |s| == 1 && Digits(s).Some?
    ensures s == Padded(0, Digits(s).value)
  {
    assert s == [s[0]];
  }

  lemma OneDigitMore(p: string, c: char, z: nat, m: nat) returns (more: nat)
    requires p == Padded(z, m) && '0' <= c <= '9'
    ensures p + [c] == Padded(more, 10 * m + (c as int - '0' as int))
  {
    var d := c as int - '0' as int;
    assert Print(d) == [c];
    if m == 0 {
      more := z + 1;
      assert Print(0) == "0" && Zeros(z) + "0" == Zeros(z + 1);
    } else {
      more := z;
      NumeralsAreDecimal(m, d);
      assert Zeros(z) + Print(m) + [c] == Zeros(z) + (Print(m) + [c]);
    }
  }

  /** A text that denotes the number: an optional sign, any zeros, and its numeral. */
  ghost predicate Denotes(s: string, n: int) {
    exists sign: string, z: nat, k: nat :: Spelled(s, n, sign, z, k)
  }

  predicate Spelled(s: string, n: int, sign: string, z: nat, k: nat) {
    && s == sign + Padded(z, k)
    && (((sign == "" || sign == "+") && n == k) || (sign == "-" && n == 0 - k))
  }

  lemma FirstIsDigit(z: nat, k: nat)
    ensures var s := Padded(z, k); s != "" && '0' <= s[0] <= '9'
  {
    DigitsReadPrint(k);
  }

  lemma PlusReads(digits: string, k: nat)
    requires digits != "" && '0' <= digits[0] <= '9' && Digits(digits) == Some(k)
    ensures ParseInt("+" + digits) == if k <= INT64_MAX then Some(k) else None
  {
    assert ("+" + digits)[1..] == digits;
  }

  lemma SignedReads(sign: string, digits: string, k: nat, n: int)
    requires digits != "" && '0' <= digits[0] <= '9' && Digits(digits) == Some(k) && INT64_MIN <= n <= INT64_MAX
    requires ((sign == "" || sign == "+") && n == k) || (sign == "-" && n == 0 - k)
    ensures ParseInt(sign + digits) == Some(n)
  {
    if sign == "" {
      assert "" + digits == digits;
      SignReads(digits, k);
    } else if sign == "+" {
      PlusReads(digits, k);
    } else {
      SignReads(digits, k);
    }
  }

  lemma SpelledReads(s: string, n: int, sign: string, z: nat, k: nat)
    requires Spelled(s, n, sign, z, k) && INT64_MIN <= n <= INT64_MAX
    ensures ParseInt(s) == Some(n)
  {
    FirstIsDigit(z, k);
    PaddedReads(z, k);
    SignedReads(sign, Padded(z, k), k, n);
  }

  /** What is left of a text without its sign. */
  function Unsigned(s: string): string { if s != "" && (s[0] == '-' || s[0] == '+') then s[1..] else s }

  function Sign(s: string): string { if s != "" && (s[0] == '-' || s[0] == '+') then s[..1] else "" }

  lemma ReadIsSpelled(s: string, n: int) returns (z: nat, k: nat)
    requires ParseInt(s) == Some(n)
    ensures Spelled(s, n, Sign(s), z, k)
  {
    k := Digits(Unsigned(s)).value;
    z := ReadIsPadded(Unsigned(s));
    assert s == Sign(s) + Unsigned(s);
    assert Sign(s) == "" || Sign(s) == "-" || Sign(s) == "+";
  }

  lemma ReadFits(s: string, n: int)
    requires ParseInt(s) == Some(n)
    ensures INT64_MIN <= n <= INT64_MAX
  {
  }

  /** A file id reads as a number exactly when it denotes it and the number fits 64 bits. */
  lemma ParseIntExactly(s: string, n: int)
    ensures ParseInt(s) == Some(n) <==> Denotes(s, n) && INT64_MIN <= n <= INT64_MAX
  {
    if ParseInt(s) == Some(n) {
      ReadFits(s, n);
      var z, k := ReadIsSpelled(s, n);
    }
    if Denotes(s, n) && INT64_MIN <= n <= INT64_MAX {
      var sign: string, z: nat, k: nat :| Spelled(s, n, sign, z, k);
      SpelledReads(s, n, sign, z, k);
    }
  }

  // ---------------------------------------------------------------- records

  /** The client's name in some casing. */
  predicate NamesTheClient(s: string) {
    |s| == 11 && forall i :: 0 <= i < 11 ==> s[i] == "qbittorrent"[i] || s[i] == "QBITTORRENT"[i]
  }

  lemma FoldedName(s: string)
    ensures EqualFold(s, "qBittorrent") <==> NamesTheClient(s)
  {
    var name, low, up := "qBittorrent", "qbittorrent", "QBITTORRENT";
    assert |name| == |low| == |up| == 11;
    forall i | 0 <= i < 11 && i < |s|
      ensures FoldChar(s[i]) == FoldChar(name[i]) <==> s[i] == low[i] || s[i] == up[i]
    {
      FoldedChar(s[i], name[i], low[i], up[i]);
    }
  }

  lemma FoldedChar(c: char, n: char, low: char, up: char)
    requires 'a' <= low <= 'z' && low as int == up as int + 32 && (n == low || n == up)
    ensures FoldChar(c) == FoldChar(n) <==> c == low || c == up
  {
  }

  /** The record is of use: it has a download id and a file id that denotes a 64-bit number, and
      its client is not named, or is qBittorrent. */
  ghost predicate OfUse(r: Record, n: int) {
    && r.downloadId != "" && (r.client == "" || NamesTheClient(r.client))
    && Denotes(r.fileId, n) && INT64_MIN <= n <= INT64_MAX
  }

  /** A record has an import exactly when it is of use, and which one. */
  lemma ConvertExactly(lower: string -> string, r: Record)
    ensures Convert(lower, r).Some? <==> exists n :: OfUse(r, n)
    ensures forall n :: OfUse(r, n) ==>
      Convert(lower, r) == Some(Import(r.id, n, lower(r.downloadId), r.dropped, r.imported, r.date))
  {
    FoldedName(r.client);
    NotEmpty(r.fileId);
    forall n
      ensures OfUse(r, n)
              <==> Convert(lower, r) == Some(Import(r.id, n, lower(r.downloadId), r.dropped, r.imported, r.date))
    {
      ParseIntExactly(r.fileId, n);
    }
    if Convert(lower, r).Some? { assert OfUse(r, Convert(lower, r).value.fileId); }
  }

  lemma NotEmpty(s: string)
    ensures s == "" ==> forall n :: !Denotes(s, n)
  {
    if s == "" {
      forall n, sign: string, z: nat, k: nat ensures !Spelled(s, n, sign, z, k) {
        FirstIsDigit(z, k);
      }
    }
  }

  /** What a list of records gives: the imports of those of use, in order. */
  lemma {:induction false} UsableExactly(lower: string -> string, rs: seq<Record>, r: Record)
    ensures Usable(ConvertWith(lower), []) == []
    ensures Usable(ConvertWith(lower), rs + [r]) ==
      Usable(ConvertWith(lower), rs) + match Convert(lower, r) case None => [] case Some(x) => [x]
  {
    assert (rs + [r])[..|rs|] == rs;
  }

  // ---------------------------------------------------------------- the table

  /** Record `j` is the last of the first `m` that passes the test. */
  ghost predicate LastWith(h: seq<Record>, m: nat, test: Record -> bool, j: int)
    requires m <= |h|
  {
    0 <= j < m && test(h[j]) && forall k :: j < k < m ==> !test(h[k])
  }

  /** A full table has the row of the last record that brings the file, and none without one. */
  lemma {:induction false} RowOfFull(conv: Conv, h: seq<Record>, m: nat, f: int, brings: Record -> bool)
    returns (j: int)
    requires m <= |h| && forall r :: brings(r) <==> conv(r).Some? && conv(r).value.fileId == f
    ensures if f in FullTable(conv, h, m) then LastWith(h, m, brings, j) && Some(FullTable(conv, h, m)[f]) == conv(h[j])
            else forall k :: 0 <= k < m ==> !brings(h[k])
  {
    j := -1;
    if m == 0 {
      assert h[..0] == [];
    } else {
      j := RowOfFull(conv, h, m - 1, f, brings);
      FullStep(conv, h, m);
      if brings(h[m - 1]) { j := m - 1; }
    }
  }

  /** The import a record of use gives its file. */
  function ImportOf(lower: string -> string, r: Record, f: int): Import {
    Import(r.id, f, lower(r.downloadId), r.dropped, r.imported, r.date)
  }

  lemma UseExactly(lower: string -> string, r: Record, f: int)
    ensures OfUse(r, f) <==> Convert(lower, r).Some? && Convert(lower, r).value.fileId == f
    ensures OfUse(r, f) ==> Convert(lower, r) == Some(ImportOf(lower, r, f))
  {
    ConvertExactly(lower, r);
  }

  ghost function UseFor(f: int): Record -> bool { (r: Record) => OfUse(r, f) }

  /** After any polls the row of a file is that of the last record of use for it among those seen,
      and a file without one has no row. */
  lemma {:induction false} StoredExactly(lower: string -> string, h: seq<Record>, polls: seq<Poll>, f: int)
    requires Ascending(h) && WellTimed(h, polls)
    ensures Seen(polls) <= |h|
    ensures var t := After(ConvertWith(lower), h, polls);
      && (f in t <==> exists j :: LastWith(h, Seen(polls), UseFor(f), j))
      && (forall j :: LastWith(h, Seen(polls), UseFor(f), j) ==> t[f] == ImportOf(lower, h[j], f))
  {
    ConvertKeepsId(lower);
    DeltaSyncIsFullSync(ConvertWith(lower), h, polls);
    forall r ensures UseFor(f)(r) <==> Convert(lower, r).Some? && Convert(lower, r).value.fileId == f {
      UseExactly(lower, r, f);
    }
    var k := RowOfFull(ConvertWith(lower), h, Seen(polls), f, UseFor(f));
    forall j | LastWith(h, Seen(polls), UseFor(f), j)
      ensures j == k && Convert(lower, h[j]) == Some(ImportOf(lower, h[j], f))
    {
      UseExactly(lower, h[j], f);
    }
  }
}
