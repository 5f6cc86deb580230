/**
 What scrubbing does to a string, spelled out: how the scrubbed form of a string is put together
 from those of what stands before and after one parameter.
 */
module ScrubMeaning {
  import opened Scrub

  /** None of the characters occurs. */
  predicate Without(s: string, chars: string) { forall i :: 0 <= i < |s| ==> s[i] !in chars }

  /** Empty, or led by one of the characters. */
  predicate LedBy(s: string, chars: string) { s == "" || s[0] in chars }

  lemma {:induction false} JoinConcat(a: seq<string>, b: seq<string>)
    ensures Join(a + b) == Join(a) + Join(b)
  {
    if b == [] {
      assert a + b == a;
    } else {
      assert (a + b)[..|a + b| - 1] == a + b[..|b| - 1];
      JoinConcat(a, b[..|b| - 1]);
    }
  }

  lemma JoinOne(p: string)
    ensures Join([p]) == p
  {
    assert [p][..0] == [];
  }

  /** The pieces of a string, from those of what stands before a parameter and after it; what
      follows the value up to the next separator belongs to the parameter's piece. */
  function Assembled(pb: seq<string>, x: string, pr: seq<string>): seq<string>
    requires pr != []
  {
    pb + [x + pr[0]] + pr[1..]
  }

  lemma {:induction false} JoinFirst(parts: seq<string>)
    requires parts != []
    ensures Join(parts) == parts[0] + Join(parts[1..])
  {
    JoinOne(parts[0]);
    JoinConcat([parts[0]], parts[1..]);
    assert parts == [parts[0]] + parts[1..];
  }

  lemma JoinThree(pb: seq<string>, y: string, tail: seq<string>)
    ensures Join(pb + [y] + tail) == Join(pb) + y + Join(tail)
  {
    JoinConcat(pb + [y], tail);
    JoinConcat(pb, [y]);
    JoinOne(y);
  }

  lemma JoinAssembled(pb: seq<string>, x: string, pr: seq<string>)
    requires pr != []
    ensures Join(Assembled(pb, x, pr)) == Join(pb) + x + Join(pr)
  {
    JoinThree(pb, x + pr[0], pr[1..]);
    JoinFirst(pr);
    Regroup(Join(pb), x, pr[0], Join(pr[1..]));
  }

  lemma Regroup(a: string, x: string, f: string, g: string)
    ensures a + (x + f) + g == a + x + (f + g)
  {
  }

  lemma AssembledIsSplit(pb: seq<string>, x: string, pr: seq<string>)
    requires IsSplit(pb) && IsSplit(pr) && IsPiece(x)
    ensures IsSplit(Assembled(pb, x, pr))
  {
    var all, y := Assembled(pb, x, pr), x + pr[0];
    forall i | 1 <= i < |y| ensures !IsSep(y[i]) {
      if i >= |x| { assert y[i] == pr[0][i - |x|]; }
    }
    forall i | 1 <= i < |all| ensures IsPiece(all[i]) {
      if i > |pb| { assert all[i] == pr[i - |pb|]; }
    }
  }

  lemma AssembledAt(pb: seq<string>, x: string, pr: seq<string>, i: nat)
    requires pr != [] && i < |pb| + |pr|
    ensures |Assembled(pb, x, pr)| == |pb| + |pr|
    ensures Assembled(pb, x, pr)[i] ==
      if i < |pb| then pb[i] else if i == |pb| then x + pr[0] else pr[i - |pb|]
  {
  }

  lemma ScrubAssembled(secret: string -> bool, pb: seq<string>, x: string, pr: seq<string>, y: string)
    requires pb != [] && pr != [] && ScrubPiece(secret, x + pr[0]) == y + pr[0]
    ensures ScrubPieces(secret, Assembled(pb, x, pr))
            == Assembled(ScrubPieces(secret, pb), y, ScrubPieces(secret, pr))
  {
    var sb, sr := ScrubPieces(secret, pb), ScrubPieces(secret, pr);
    var a, b := ScrubPieces(secret, Assembled(pb, x, pr)), Assembled(sb, y, sr);
    forall i | 0 <= i < |pb| + |pr| ensures |a| == |b| == |pb| + |pr| && a[i] == b[i] {
      AssembledAt(pb, x, pr, i);
      AssembledAt(sb, y, sr, i);
    }
  }

  /** Only the piece of the parameter matters for how the two sides come together. */
  lemma ScrubbedAround(secret: string -> bool, pb: seq<string>, x: string, pr: seq<string>, y: string, out: string)
    requires IsSplit(pb) && IsSplit(pr) && IsPiece(x) && ScrubPiece(secret, x + pr[0]) == y + pr[0]
    requires IsScrubbed(secret, Join(pb) + x + Join(pr), out)
    ensures out == Join(ScrubPieces(secret, pb)) + y + Join(ScrubPieces(secret, pr))
  {
    AssembledIsSplit(pb, x, pr);
    JoinAssembled(pb, x, pr);
    ScrubAssembled(secret, pb, x, pr, y);
    JoinAssembled(ScrubPieces(secret, pb), y, ScrubPieces(secret, pr));
    ScrubIsUnique(secret, Join(pb) + x + Join(pr), out, Join(ScrubPieces(secret, Assembled(pb, x, pr))));
  }

  function IsSepF(): char -> bool { (c: char) => IsSep(c) }

  /** What stands before the first separator. */
  function BeforeSep(s: string): string { s[..FirstAt(s, 0, IsSepF())] }

  lemma FirstPiece(parts: seq<string>)
    requires IsSplit(parts)
    ensures parts[0] == BeforeSep(Join(parts))
  {
    var s, n := Join(parts), |parts[0]|;
    JoinFirst(parts);
    if |parts| > 1 {
      JoinFirst(parts[1..]);
      assert IsPiece(parts[1]);
      assert s[n] == parts[1][0];
    }
    assert forall i :: 0 <= i < n ==> s[i] == parts[0][i];
    FirstAtIs(s, 0, IsSepF(), n);
  }

  lemma Sides(secret: string -> bool, s: string, o: string) returns (parts: seq<string>)
    requires IsScrubbed(secret, s, o)
    ensures IsSplit(parts) && Join(parts) == s && Join(ScrubPieces(secret, parts)) == o
  {
    parts :| IsSplit(parts) && Join(parts) == s && Join(ScrubPieces(secret, parts)) == o;
  }

  lemma ScrubbedBetween(secret: string -> bool, before: string, x: string, rest: string,
                        b: string, y: string, r: string, out: string)
    requires IsPiece(x) && ScrubPiece(secret, x + BeforeSep(rest)) == y + BeforeSep(rest)
    requires IsScrubbed(secret, before, b) && IsScrubbed(secret, rest, r)
    requires IsScrubbed(secret, before + x + rest, out)
    ensures out == b + y + r
  {
    var pb := Sides(secret, before, b);
    var pr := Sides(secret, rest, r);
    FirstPiece(pr);
    ScrubbedAround(secret, pb, x, pr, y, out);
  }

  /** A parameter up to its value. */
  function Named(sep: char, clean: string, tail: string): string { [sep] + clean + tail + "=" }

  /** Where the name of a parameter ends, and what is read of it. */
  lemma NameReads(sep: char, clean: string, tail: string, more: string)
    requires sep in "?&" && Without(clean, "?&= \t\r\n") && Without(tail, "?&=") && LedBy(tail, " \t\r\n")
    ensures var p, e := Named(sep, clean, tail) + more, 1 + |clean| + |tail|;
      && NameStart(p) == 1 && EqAt(p) == e < |p| && p[..e + 1] == Named(sep, clean, tail)
      && CleanName(p[1..e]) == clean
  {
    var name := clean + tail;
    var p, e := Named(sep, clean, tail) + more, 1 + |name|;
    assert p == [sep] + name + "=" + more;
    assert forall i :: 1 <= i < e ==> p[i] == name[i - 1];
    FirstAtIs(p, 0, IsEq(), e);
    assert p[1..e] == name;
    FirstAtIs(name, 0, IsSpaceF(), |clean|);
    assert name[..|clean|] == clean;
  }

  /** Where a value ends. */
  lemma ValueReads(head: string, value: string, after: string)
    requires Without(value, "?& \t\r\n\"'") && LedBy(after, " \t\r\n\"'")
    requires EqAt(head + value + after) + 1 == |head|
    ensures var p := head + value + after; ValueEnd(p) == |head| + |value| && p[ValueEnd(p)..] == after
  {
    var p, v := head + value + after, |head| + |value|;
    assert forall i :: |head| <= i < v ==> p[i] == value[i - |head|];
    assert v < |p| ==> p[v] == after[0];
    FirstAtIs(p, |head|, EndsValueF(), v);
  }

  lemma ParameterMasked(secret: string -> bool, sep: char, clean: string, tail: string, value: string, after: string)
    requires sep in "?&" && clean + tail != "" && Without(clean, "?&= \t\r\n") && Without(tail, "?&=")
    requires LedBy(tail, " \t\r\n") && Without(value, "?& \t\r\n\"'") && LedBy(after, " \t\r\n\"'")
    ensures ScrubPiece(secret, Named(sep, clean, tail) + value + after)
         == Named(sep, clean, tail) + (if secret(clean) then "***" else value) + after
  {
    var head := Named(sep, clean, tail);
    assert head + (value + after) == head + value + after;
    NameReads(sep, clean, tail, value + after);
    ValueReads(head, value, after);
  }

  lemma IsOnePiece(sep: char, clean: string, tail: string, value: string)
    requires sep in "?&" && Without(clean, "?&") && Without(tail, "?&") && Without(value, "?&")
    ensures IsPiece(Named(sep, clean, tail) + value)
  {
    var x := Named(sep, clean, tail) + value;
    assert x == [sep] + (clean + tail + "=" + value);
    forall i | 1 <= i < |x| ensures !IsSep(x[i]) {
      assert x[i] in clean || x[i] in tail || x[i] == '=' || x[i] in value;
    }
  }

  /** What precedes the first separator of what follows a value. */
  lemma AfterValue(rest: string)
    requires LedBy(rest, "?& \t\r\n\"'")
    ensures LedBy(BeforeSep(rest), " \t\r\n\"'")
  {
    var k := FirstAt(rest, 0, IsSepF());
    if k > 0 { assert !IsSepF()(rest[0]); }
  }

  /** A parameter `name=value` led by a question mark or an ampersand keeps everything but its
      value, which becomes three asterisks exactly when its name, up to any white space, is
      secret.  The value goes on to the next white space, quote, separator or the end. */
  lemma SecretIsMasked(secret: string -> bool, before: string, sep: char, clean: string, tail: string, value: string,
                       rest: string, b: string, r: string, out: string)
    requires sep in "?&" && clean + tail != "" && Without(clean, "?&= \t\r\n") && Without(tail, "?&=")
    requires LedBy(tail, " \t\r\n") && Without(value, "?& \t\r\n\"'") && LedBy(rest, "?& \t\r\n\"'")
    requires IsScrubbed(secret, before, b) && IsScrubbed(secret, rest, r)
    requires IsScrubbed(secret, before + (Named(sep, clean, tail) + value) + rest, out)
    ensures out == b + (Named(sep, clean, tail) + if secret(clean) then "***" else value) + r
  {
    var y := Named(sep, clean, tail) + if secret(clean) then "***" else value;
    AfterValue(rest);
    ParameterMasked(secret, sep, clean, tail, value, BeforeSep(rest));
    IsOnePiece(sep, clean, tail, value);
    ScrubbedBetween(secret, before, Named(sep, clean, tail) + value, rest, b, y, r, out);
  }

  /** What is led by a separator and assigns nothing, or has no name, stays. */
  lemma OthersStay(secret: string -> bool, before: string, sep: char, plain: string, rest: string,
                   b: string, r: string, out: string)
    requires sep in "?&" && Without(plain, "?&") && LedBy(rest, "?&")
    requires Without(plain, "=") || LedBy(plain, "=")
    requires IsScrubbed(secret, before, b) && IsScrubbed(secret, rest, r)
    requires IsScrubbed(secret, before + ([sep] + plain) + rest, out)
    ensures out == b + ([sep] + plain) + r
  {
    PlainStays(secret, sep, plain);
    assert BeforeSep(rest) == "" by { FirstAtIs(rest, 0, IsSepF(), 0); }
    assert [sep] + plain + "" == [sep] + plain;
    ScrubbedBetween(secret, before, [sep] + plain, rest, b, [sep] + plain, r, out);
  }

  lemma PlainStays(secret: string -> bool, sep: char, plain: string)
    requires sep in "?&" && Without(plain, "?&") && (Without(plain, "=") || LedBy(plain, "="))
    ensures IsPiece([sep] + plain) && ScrubPiece(secret, [sep] + plain) == [sep] + plain
  {
    var x := [sep] + plain;
    FirstAtIs(x, 0, IsEq(), if Without(plain, "=") then |x| else 1);
  }

  /** Before the first separator everything stays. */
  lemma StaysWithoutSeparator(secret: string -> bool, s: string, out: string)
    requires Without(s, "?&") && IsScrubbed(secret, s, out)
    ensures out == s
  {
    JoinOne(s);
    assert IsSplit([s]) && ScrubPieces(secret, [s]) == [s];
    ScrubIsUnique(secret, s, out, s);
  }
}
