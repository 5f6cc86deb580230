/**
 Scrubbing secret query parameters out of log strings.  Which parameter names are secret is an
 arbitrary predicate; names are decoded and folded by it.
 */
module Scrub {

  const MASK := "***"

  predicate IsSep(c: char) { c == '?' || c == '&' }
  predicate IsSpace(c: char) { c == ' ' || c == '\t' || c == '\r' || c == '\n' }
  predicate EndsValue(c: char) { IsSpace(c) || c == '"' || c == '\'' }

  // ---------------------------------------------------------------- splitting and joining

  function Join(parts: seq<string>): string {
    if parts == [] then "" else Join(parts[..|parts| - 1]) + parts[|parts| - 1]
  }

  predicate NoSep(s: string, from: nat, to: nat)
    requires to <= |s|
  {
    forall i :: from <= i < to ==> !IsSep(s[i])
  }

  /** A piece after the first: one separator, then none. */
  predicate IsPiece(p: string) { p != "" && IsSep(p[0]) && NoSep(p, 1, |p|) }

  /** The pieces of a string, each after the first still led by its separator. */
  predicate IsSplit(parts: seq<string>) {
    parts != [] && NoSep(parts[0], 0, |parts[0]|) && forall i :: 1 <= i < |parts| ==> IsPiece(parts[i])
  }

  /** Where the last piece of a string begins, if it has more than one. */
  predicate LastSep(s: string, i: nat) {
    i < |s| && IsSep(s[i]) && NoSep(s, i + 1, |s|)
  }

  /** A string has only one split. */
  lemma {:induction false} SplitIsUnique(p: seq<string>, q: seq<string>)
    requires IsSplit(p) && IsSplit(q) && Join(p) == Join(q)
    ensures p == q
    decreases |p|
  {
    var s := Join(p);
    LastPiece(p);
    LastPiece(q);
    if |p| > 1 && |q| > 1 {
      var m, n := |p| - 1, |q| - 1;
      assert |Join(p[..m])| == |Join(q[..n])|;
      assert Join(p[..m]) == s[..|Join(p[..m])|] && Join(q[..n]) == s[..|Join(q[..n])|];
      SplitIsUnique(p[..m], q[..n]);
      assert p == p[..m] + [p[m]] && q == q[..n] + [q[n]];
    }
  }

  /** The last piece starts at the last separator; a single piece has none. */
  lemma LastPiece(p: seq<string>)
    requires IsSplit(p)
    ensures |p| == 1 ==> NoSep(Join(p), 0, |Join(p)|) && p == [Join(p)]
    ensures |p| > 1 ==> LastSep(Join(p), |Join(p[..|p| - 1])|) && p[|p| - 1] == Join(p)[|Join(p[..|p| - 1])|..]
  {
    var s, n := Join(p), |p| - 1;
    if n == 0 {
      assert p[..0] == [];
      assert s == p[0];
    } else {
      var k := |Join(p[..n])|;
      assert s[k..] == p[n];
      forall i | k <= i < |s| ensures s[i] == p[n][i - k] { }
    }
  }

  method SplitOnAny(s: string) returns (parts: seq<string>)
    ensures IsSplit(parts) && Join(parts) == s
  {
    parts := [];
    var start := 0;
    for i := 0 to |s|
      invariant 0 <= start <= i && (parts != [] ==> start < i)
      invariant Join(parts) == s[..start]
      invariant SplitSoFar(parts, s, start, i)
    {
      if IsSep(s[i]) {
        PieceDone(parts, s, start, i);
        parts := parts + [s[start..i]];
        start := i;
      }
    }
    PieceDone(parts, s, start, |s|);
    parts := parts + [s[start..]];
    assert s[start..|s|] == s[start..] && s[..|s|] == s;
  }

  /** The finished pieces, and what has been read of the next one. */
  ghost predicate SplitSoFar(parts: seq<string>, s: string, start: nat, i: nat)
    requires start <= i <= |s|
  {
    if parts == [] then start == 0 && NoSep(s, 0, i)
    else IsSplit(parts) && start < |s| && IsSep(s[start]) && NoSep(s, start + 1, i)
  }

  lemma PieceDone(parts: seq<string>, s: string, start: nat, i: nat)
    requires start <= i <= |s| && SplitSoFar(parts, s, start, i) && Join(parts) == s[..start]
    requires parts != [] ==> start < i
    ensures IsSplit(parts + [s[start..i]]) && Join(parts + [s[start..i]]) == s[..i]
  {
    var out := parts + [s[start..i]];
    assert out[..|parts|] == parts;
    assert s[..start] + s[start..i] == s[..i];
  }

  // ---------------------------------------------------------------- one piece

  /** The first position from `from` on where `stop` holds, or the length. */
  function FirstAt(s: string, from: nat, stop: char -> bool): (i: nat)
    requires from <= |s|
    ensures from <= i <= |s|
    ensures forall j :: from <= j < i ==> !stop(s[j])
    ensures i < |s| ==> stop(s[i])
    decreases |s| - from
  {
    if from == |s| || stop(s[from]) then from else FirstAt(s, from + 1, stop)
  }

  lemma FirstAtIs(s: string, from: nat, stop: char -> bool, k: nat)
    requires from <= k <= |s|
    requires forall j :: from <= j < k ==> !stop(s[j])
    requires k < |s| ==> stop(s[k])
    ensures FirstAt(s, from, stop) == k
  {
    var i := FirstAt(s, from, stop);
    assert i < k ==> i < |s|;
  }

  function IsEq(): char -> bool { (c: char) => c == '=' }
  function IsSpaceF(): char -> bool { (c: char) => IsSpace(c) }
  function EndsValueF(): char -> bool { (c: char) => EndsValue(c) }

  /** The part of a name before the first white space. */
  function CleanName(name: string): string { name[..FirstAt(name, 0, IsSpaceF())] }

  function NameStart(p: string): nat { if p != "" && IsSep(p[0]) then 1 else 0 }

  /** Where the equals sign of the piece is, if it has one after a name. */
  function EqAt(p: string): nat { FirstAt(p, 0, IsEq()) }

  /** The piece assigns to a secret parameter. */
  predicate IsSecret(secret: string -> bool, p: string) {
    NameStart(p) < EqAt(p) < |p| && secret(CleanName(p[NameStart(p)..EqAt(p)]))
  }

  /** Where the value ends: white space, a quote, or the end of the piece. */
  function ValueEnd(p: string): nat
    requires EqAt(p) < |p|
  {
    FirstAt(p, EqAt(p) + 1, EndsValueF())
  }

  function Value(p: string): string
    requires EqAt(p) < |p|
  {
    p[EqAt(p) + 1..ValueEnd(p)]
  }

  function ScrubPiece(secret: string -> bool, p: string): string {
    if IsSecret(secret, p) then p[..EqAt(p) + 1] + MASK + p[ValueEnd(p)..] else p
  }

  function ScrubPieces(secret: string -> bool, parts: seq<string>): (out: seq<string>)
    ensures |out| == |parts|
  {
    seq(|parts|, i requires 0 <= i < |parts| => if i == 0 then parts[0] else ScrubPiece(secret, parts[i]))
  }

  lemma MaskIsPlain(i: nat)
    requires i < |MASK|
    ensures !IsSep(MASK[i]) && !EndsValue(MASK[i]) && MASK[i] != '='
  {
  }

  /** Scrubbing a piece keeps its name, makes the mask its value, and keeps what follows. */
  lemma ScrubbedPiece(secret: string -> bool, p: string)
    requires IsSecret(secret, p)
    ensures var q := ScrubPiece(secret, p);
      && EqAt(q) == EqAt(p) < |q| && q[..EqAt(q) + 1] == p[..EqAt(p) + 1]
      && Value(q) == MASK && q[ValueEnd(q)..] == p[ValueEnd(p)..]
  {
    var q, e, v := ScrubPiece(secret, p), EqAt(p), ValueEnd(p);
    var m := e + 1 + |MASK|;
    forall i | e < i < m ensures q[i] == MASK[i - e - 1] { MaskIsPlain(i - e - 1); }
    assert forall i :: 0 <= i <= e ==> q[i] == p[i];
    FirstAtIs(q, 0, IsEq(), e);
    assert m < |q| ==> q[m] == p[v];
    forall i | e + 1 <= i < m ensures !EndsValueF()(q[i]) { MaskIsPlain(i - e - 1); }
    FirstAtIs(q, e + 1, EndsValueF(), m);
  }

  lemma StillSecret(secret: string -> bool, p: string)
    requires IsSecret(secret, p)
    ensures IsSecret(secret, ScrubPiece(secret, p))
    ensures ScrubPiece(secret, ScrubPiece(secret, p)) == ScrubPiece(secret, p)
  {
    var q := ScrubPiece(secret, p);
    ScrubbedPiece(secret, p);
    SecretByName(secret, p, q);
    MaskedStays(secret, q);
  }

  lemma SecretByName(secret: string -> bool, p: string, q: string)
    requires IsSecret(secret, p) && EqAt(q) == EqAt(p) < |q| && q[..EqAt(q) + 1] == p[..EqAt(p) + 1]
    ensures IsSecret(secret, q)
  {
    SameName(p, q, EqAt(p));
  }

  /** A masked piece is left as it is. */
  lemma MaskedStays(secret: string -> bool, q: string)
    requires EqAt(q) < |q| && Value(q) == MASK
    ensures ScrubPiece(secret, q) == q
  {
    Reassemble(q);
  }

  /** Pieces alike up to their equals sign have the same name. */
  lemma SameName(p: string, q: string, e: nat)
    requires e < |p| && e < |q| && p[..e + 1] == q[..e + 1]
    ensures NameStart(p) == NameStart(q)
    ensures NameStart(p) <= e ==> p[NameStart(p)..e] == q[NameStart(q)..e]
  {
    assert p[0] == p[..e + 1][0] && q[0] == q[..e + 1][0];
    if NameStart(p) <= e {
      Within(p, NameStart(p), e);
      Within(q, NameStart(q), e);
    }
  }

  lemma Within(p: string, i: nat, e: nat)
    requires i <= e < |p|
    ensures p[i..e] == p[..e + 1][i..e]
  {
  }

  lemma Reassemble(q: string)
    requires EqAt(q) < |q|
    ensures q == q[..EqAt(q) + 1] + Value(q) + q[ValueEnd(q)..]
  {
  }

  lemma StillPiece(secret: string -> bool, p: string)
    requires IsPiece(p)
    ensures IsPiece(ScrubPiece(secret, p))
  {
    if IsSecret(secret, p) {
      var q, e, v := ScrubPiece(secret, p), EqAt(p), ValueEnd(p);
      forall i | 1 <= i < |q| ensures !IsSep(q[i]) {
        if i <= e {
          assert q[i] == p[i];
        } else if i < e + 1 + |MASK| {
          MaskIsPlain(i - e - 1);
        } else {
          assert q[i] == p[v + (i - e - 1 - |MASK|)];
        }
      }
    }
  }

  // ---------------------------------------------------------------- the whole string

  /** `out` is `s` with every secret value masked: piece by piece over the one split of `s`. */
  ghost predicate IsScrubbed(secret: string -> bool, s: string, out: string) {
    exists parts :: IsSplit(parts) && Join(parts) == s && Join(ScrubPieces(secret, parts)) == out
  }

  lemma ScrubbedSplit(secret: string -> bool, parts: seq<string>)
    requires IsSplit(parts)
    ensures IsSplit(ScrubPieces(secret, parts))
  {
    forall i | 1 <= i < |parts| ensures IsPiece(ScrubPieces(secret, parts)[i]) {
      StillPiece(secret, parts[i]);
    }
  }

  /** The scrubbed string is determined by the original. */
  lemma ScrubIsUnique(secret: string -> bool, s: string, a: string, b: string)
    requires IsScrubbed(secret, s, a) && IsScrubbed(secret, s, b)
    ensures a == b
  {
    var p :| IsSplit(p) && Join(p) == s && Join(ScrubPieces(secret, p)) == a;
    var q :| IsSplit(q) && Join(q) == s && Join(ScrubPieces(secret, q)) == b;
    SplitIsUnique(p, q);
  }

  /** Splitting the scrubbed string again gives the scrubbed pieces. */
  lemma ResplitGivesScrubbedPieces(secret: string -> bool, parts: seq<string>, again: seq<string>)
    requires IsSplit(parts) && IsSplit(again) && Join(again) == Join(ScrubPieces(secret, parts))
    ensures again == ScrubPieces(secret, parts)
  {
    ScrubbedSplit(secret, parts);
    SplitIsUnique(again, ScrubPieces(secret, parts));
  }

  /** Scrubbing twice is scrubbing once. */
  lemma ScrubIsIdempotent(secret: string -> bool, s: string, once: string, twice: string)
    requires IsScrubbed(secret, s, once) && IsScrubbed(secret, once, twice)
    ensures twice == once
  {
    var p :| IsSplit(p) && Join(p) == s && Join(ScrubPieces(secret, p)) == once;
    var q :| IsSplit(q) && Join(q) == once && Join(ScrubPieces(secret, q)) == twice;
    ResplitGivesScrubbedPieces(secret, p, q);
    forall i | 0 < i < |p| ensures ScrubPieces(secret, q)[i] == q[i] {
      if IsSecret(secret, p[i]) { StillSecret(secret, p[i]); }
    }
    assert ScrubPieces(secret, q) == q;
  }

  /** `q` is `p` with at most the value of its secret parameter changed, to the mask. */
  predicate OnlyValueChanged(secret: string -> bool, p: string, q: string) {
    && IsSecret(secret, p) == IsSecret(secret, q)
    && (!IsSecret(secret, p) ==> q == p)
    && (IsSecret(secret, p) ==>
          && p == p[..EqAt(p) + 1] + Value(p) + p[ValueEnd(p)..]
          && q == p[..EqAt(p) + 1] + MASK + p[ValueEnd(p)..]
          && Value(q) == MASK)
  }

  /** Only the values of secret parameters change: every piece keeps everything else, and in the
      result a piece assigns to a secret parameter exactly when it did before, its value masked. */
  lemma OnlySecretValuesChange(secret: string -> bool, p: string)
    ensures OnlyValueChanged(secret, p, ScrubPiece(secret, p))
  {
    if IsSecret(secret, p) {
      StillSecret(secret, p);
      ScrubbedPiece(secret, p);
    }
  }

  predicate Has(s: string, c: char) { exists i :: 0 <= i < |s| && s[i] == c }

  /** Without a separator, or without an equals sign, there is nothing to scrub. */
  lemma NothingToScrub(secret: string -> bool, parts: seq<string>)
    requires IsSplit(parts)
    requires (!Has(Join(parts), '?') && !Has(Join(parts), '&')) || !Has(Join(parts), '=')
    ensures ScrubPieces(secret, parts) == parts && !AnySecret(secret, parts)
  {
    forall i | 1 <= i < |parts| ensures !IsSecret(secret, parts[i]) {
      PieceIsInside(parts, i, 0);
      if EqAt(parts[i]) < |parts[i]| { PieceIsInside(parts, i, EqAt(parts[i])); }
    }
  }

  lemma {:induction false} PieceIsInside(parts: seq<string>, i: nat, k: nat)
    requires i < |parts| && k < |parts[i]|
    ensures Has(Join(parts), parts[i][k])
  {
    var n := |parts| - 1;
    var init, s := Join(parts[..n]), Join(parts);
    if i == n {
      assert s[|init| + k] == parts[n][k];
    } else {
      PieceIsInside(parts[..n], i, k);
      var j :| 0 <= j < |init| && init[j] == parts[i][k];
      assert s[j] == init[j];
    }
  }

  /** Some piece assigns to a secret parameter. */
  predicate AnySecret(secret: string -> bool, parts: seq<string>) {
    exists i :: 1 <= i < |parts| && IsSecret(secret, parts[i])
  }

  method ScrubSecretsInString(secret: string -> bool, s: string) returns (out: string, changed: bool)
    ensures IsScrubbed(secret, s, out)
    ensures !changed ==> out == s
    ensures forall parts :: IsSplit(parts) && Join(parts) == s ==> (changed <==> AnySecret(secret, parts))
  {
    var parts := SplitOnAny(s);
    forall p | IsSplit(p) && Join(p) == s ensures p == parts { SplitIsUnique(p, parts); }
    if (!Has(s, '?') && !Has(s, '&')) || !Has(s, '=') {
      NothingToScrub(secret, parts);
      return s, false;
    }
    var scrubbed;
    scrubbed, changed := ScrubEach(secret, parts);
    if !changed { return s, false; }
    out := Join(scrubbed);
  }

  /** Rewrites the pieces after the first. */
  method ScrubEach(secret: string -> bool, whole: seq<string>) returns (parts: seq<string>, changed: bool)
    requires whole != []
    ensures parts == ScrubPieces(secret, whole)
    ensures changed <==> AnySecret(secret, whole)
    ensures !changed ==> parts == whole
  {
    parts, changed := whole, false;
    for i := 1 to |parts|
      invariant ScrubbedUpTo(secret, whole, parts, changed, i)
    {
      var piece, hit := ScrubOne(secret, parts[i]);
      ScrubNext(secret, whole, parts, changed, i, piece, hit);
      if hit {
        parts := parts[i := piece];
        changed := true;
      }
    }
    ScrubDone(secret, whole, parts, changed);
  }

  /** The pieces before `i` have been rewritten. */
  ghost predicate ScrubbedUpTo(secret: string -> bool, whole: seq<string>, parts: seq<string>, changed: bool, i: nat) {
    && |parts| == |whole| && 1 <= i <= |whole|
    && (forall j :: 0 <= j < i ==> parts[j] == ScrubPieces(secret, whole)[j])
    && (forall j :: i <= j < |parts| ==> parts[j] == whole[j])
    && (changed <==> AnySecret(secret, whole[..i]))
    && (!changed ==> parts == whole)
  }

  lemma ScrubDone(secret: string -> bool, whole: seq<string>, parts: seq<string>, changed: bool)
    requires ScrubbedUpTo(secret, whole, parts, changed, |whole|)
    ensures parts == ScrubPieces(secret, whole)
    ensures changed <==> AnySecret(secret, whole)
  {
    assert whole[..|whole|] == whole;
  }

  lemma ScrubNext(secret: string -> bool, whole: seq<string>, parts: seq<string>, changed: bool, i: nat,
                  piece: string, hit: bool)
    requires i < |whole| && ScrubbedUpTo(secret, whole, parts, changed, i)
    requires piece == ScrubPiece(secret, parts[i]) && hit == IsSecret(secret, parts[i])
    ensures ScrubbedUpTo(secret, whole, if hit then parts[i := piece] else parts, changed || hit, i + 1)
  {
    OnePieceMore(secret, whole, i);
  }

  method ScrubOne(secret: string -> bool, p: string) returns (out: string, hit: bool)
    ensures out == ScrubPiece(secret, p) && (hit <==> IsSecret(secret, p))
  {
    var nameStart := NameStart(p);
    var eq := EqAt(p);
    if eq == |p| || eq <= nameStart { return p, false; }
    if !secret(CleanName(p[nameStart..eq])) { return p, false; }
    var valEnd := FindValueEnd(p, eq + 1);
    return p[..eq + 1] + MASK + p[valEnd..], true;
  }

  lemma OnePieceMore(secret: string -> bool, parts: seq<string>, i: nat)
    requires 1 <= i < |parts|
    ensures AnySecret(secret, parts[..i + 1]) <==> AnySecret(secret, parts[..i]) || IsSecret(secret, parts[i])
  {
    assert parts[..i + 1][i] == parts[i];
    assert forall j :: 0 <= j < i ==> parts[..i + 1][j] == parts[..i][j];
  }

  method FindValueEnd(p: string, valStart: nat) returns (valEnd: nat)
    requires valStart <= |p|
    ensures valEnd == FirstAt(p, valStart, EndsValueF())
  {
    valEnd := |p|;
    for j := valStart to |p|
      invariant valEnd == |p|
      invariant forall k :: valStart <= k < j ==> !EndsValue(p[k])
    {
      if EndsValue(p[j]) { valEnd := j; }
      if valEnd != |p| { break; }
    }
    FirstAtIs(p, valStart, EndsValueF(), valEnd);
  }
}
