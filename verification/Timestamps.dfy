/**
 Timestamps as the store writes and compares them: RFC 3339 text in UTC with up to nine fractional
 digits, trailing zeros dropped.  In text order a whole second comes after its fractions, so the
 first moment of a day is not its midnight.
 */
module Timestamps {
  import D = Downsample

  const SECOND: nat := 1_000_000_000
  const DAY: nat := 86_400 * SECOND

  function Digit(n: nat): char
    requires n < 10
  {
    '0' + n as char
  }

  function Pow10(w: nat): nat { if w == 0 then 1 else 10 * Pow10(w - 1) }

  /** The last `w` decimal digits of `n`. */
  function Digits(n: nat, w: nat): (s: string)
    ensures |s| == w
  {
    if w == 0 then "" else Digits(n / 10, w - 1) + [Digit(n % 10)]
  }

  function Trimmed(s: string): (t: string)
    ensures t <= s && forall i :: |t| <= i < |s| ==> s[i] == '0'
  {
    if s != "" && s[|s| - 1] == '0' then Trimmed(s[..|s| - 1]) else s
  }

  function ClockText(h: string, m: string, s: string): string { h + ":" + m + ":" + s }

  function Clock(sec: nat): (s: string)
    ensures |s| == 8
  {
    ClockText(Digits(sec / 3600, 2), Digits(sec / 60 % 60, 2), Digits(sec % 60, 2))
  }

  function Fraction(f: nat): string { if f == 0 then "" else "." + Trimmed(Digits(f, 9)) }

  function Text(day: string, clock: string, fraction: string): string { day + "T" + clock + fraction + "Z" }

  /** The text of the moment `n` nanoseconds into the day written `day`. */
  function Stamp(day: string, n: nat): string { Text(day, Clock(n / SECOND), Fraction(n % SECOND)) }

  // ---------------------------------------------------------------- text order

  /** The texts first differ at `k`, where `a` ends or has the smaller character. */
  predicate SmallerAt(a: string, b: string, k: nat) {
    k <= |a| && k < |b| && a[..k] == b[..k] && (k == |a| || a[k] < b[k])
  }

  ghost predicate Before(a: string, b: string) { exists k: nat :: SmallerAt(a, b, k) }

  lemma Agree(a: string, b: string, k: nat, i: nat)
    requires SmallerAt(a, b, k) && i < k
    ensures a[i] == b[i]
  {
    assert a[..k][i] == b[..k][i];
  }

  lemma NotItself(a: string)
    ensures !Before(a, a)
  {
    forall k: nat ensures !SmallerAt(a, a, k) { }
  }

  lemma NotBoth(a: string, b: string)
    requires Before(a, b)
    ensures !Before(b, a)
  {
    var i: nat :| SmallerAt(a, b, i);
    forall j: nat ensures !SmallerAt(b, a, j) {
      if SmallerAt(b, a, j) {
        if i < j { Agree(b, a, j, i); } else if j < i { Agree(a, b, i, j); }
      }
    }
  }

  /** What stands before and after a difference does not matter. */
  lemma SmallerInside(p: string, a: string, b: string, x: string, y: string, k: nat)
    requires SmallerAt(a, b, k) && k < |a|
    ensures SmallerAt(p + a + x, p + b + y, |p| + k) && |p| + k < |p + a + x|
  {
    var s, t := p + a + x, p + b + y;
    assert s[..|p| + k] == p + a[..k] && t[..|p| + k] == p + b[..k];
  }

  lemma ByClock(day: string, c: string, x: string, d: string, y: string, k: nat)
    requires SmallerAt(c, d, k) && k < |c|
    ensures Before(Text(day, c, x), Text(day, d, y))
  {
    SmallerInside(day + "T", c, d, x + "Z", y + "Z", k);
    assert Text(day, c, x) == day + "T" + c + (x + "Z") && Text(day, d, y) == day + "T" + d + (y + "Z");
  }

  lemma ByFraction(day: string, c: string, x: string, y: string, k: nat)
    requires SmallerAt(x, y, k) && k < |x|
    ensures Before(Text(day, c, x), Text(day, c, y))
  {
    SmallerInside(day + "T" + c, x, y, "Z", "Z", k);
  }

  /** A fraction comes before none. */
  lemma WholeIsLast(day: string, c: string, x: string)
    requires x != "" && x[0] == '.'
    ensures Before(Text(day, c, x), Text(day, c, ""))
  {
    SmallerInside(day + "T" + c, x, "Z", "Z", "", 0);
    assert Text(day, c, "") == day + "T" + c + "Z" + "";
  }

  lemma {:induction false} NumbersInOrder(m: nat, n: nat, w: nat) returns (k: nat)
    requires m < n < Pow10(w)
    ensures k < w && SmallerAt(Digits(m, w), Digits(n, w), k)
  {
    var a, b := Digits(m / 10, w - 1), Digits(n / 10, w - 1);
    if m / 10 == n / 10 {
      k := w - 1;
      assert Digits(m, w)[..k] == a && Digits(n, w)[..k] == b;
    } else {
      k := NumbersInOrder(m / 10, n / 10, w - 1);
      assert Digits(m, w)[..k] == a[..k] && Digits(n, w)[..k] == b[..k];
    }
  }

  // ---------------------------------------------------------------- the first moment of a day

  lemma SmallerHours(h: string, m: string, s: string, h1: string, m1: string, s1: string, k: nat)
    requires SmallerAt(h, h1, k) && k < |h|
    ensures SmallerAt(ClockText(h, m, s), ClockText(h1, m1, s1), k)
  {
    SmallerInside("", h, h1, ":" + m + ":" + s, ":" + m1 + ":" + s1, k);
    assert ClockText(h, m, s) == "" + h + (":" + m + ":" + s);
    assert ClockText(h1, m1, s1) == "" + h1 + (":" + m1 + ":" + s1);
  }

  lemma SmallerMinutes(h: string, m: string, s: string, m1: string, s1: string, k: nat)
    requires SmallerAt(m, m1, k) && k < |m|
    ensures SmallerAt(ClockText(h, m, s), ClockText(h, m1, s1), |h| + 1 + k)
  {
    SmallerInside(h + ":", m, m1, ":" + s, ":" + s1, k);
    assert ClockText(h, m, s) == h + ":" + m + (":" + s) && ClockText(h, m1, s1) == h + ":" + m1 + (":" + s1);
  }

  lemma SmallerSeconds(h: string, m: string, s: string, s1: string, k: nat)
    requires SmallerAt(s, s1, k) && k < |s|
    ensures SmallerAt(ClockText(h, m, s), ClockText(h, m, s1), |h| + 1 + |m| + 1 + k)
  {
    SmallerInside(h + ":" + m + ":", s, s1, "", "", k);
    assert ClockText(h, m, s) == h + ":" + m + ":" + s + "" && ClockText(h, m, s1) == h + ":" + m + ":" + s1 + "";
  }

  /** Midnight's clock comes first. */
  lemma ZeroClockFirst(zero: nat, sec: nat) returns (k: nat)
    requires 0 == zero < sec < 86_400
    ensures k < 8 && SmallerAt(Clock(zero), Clock(sec), k)
  {
    var z, a, b, c := Digits(zero, 2), Digits(sec / 3600, 2), Digits(sec / 60 % 60, 2), Digits(sec % 60, 2);
    assert Pow10(2) == 100 by { assert Pow10(1) == 10 * Pow10(0); }
    assert Clock(zero) == ClockText(z, z, z) && Clock(sec) == ClockText(a, b, c);
    if sec / 3600 > 0 {
      k := NumbersInOrder(zero, sec / 3600, 2);
      SmallerHours(z, z, z, a, b, c, k);
    } else if sec / 60 % 60 > 0 {
      var i := NumbersInOrder(zero, sec / 60 % 60, 2);
      SmallerMinutes(z, z, z, b, c, i);
      k := 3 + i;
    } else {
      var i := NumbersInOrder(zero, sec % 60, 2);
      SmallerSeconds(z, z, z, c, i);
      k := 6 + i;
    }
  }

  /** Dropping zeros from the second of two numbers does not undo their order. */
  lemma TrimmedAfter(a: string, b: string, k: nat)
    requires SmallerAt(a, b, k) && k < |a| && forall i :: 0 <= i < |a| ==> a[i] >= '0'
    ensures SmallerAt(a, Trimmed(b), k)
  {
    assert b[k] != '0';
    assert Trimmed(b)[..k] == b[..k];
  }

  lemma {:induction false} DigitsAreDigits(n: nat, w: nat)
    ensures forall i :: 0 <= i < w ==> Digits(n, w)[i] >= '0'
  {
    if w > 0 { DigitsAreDigits(n / 10, w - 1); }
  }

  /** One nanosecond is the smallest fraction. */
  lemma OneFirst(one: nat, f: nat) returns (k: nat)
    requires one == 1 < f < SECOND
    ensures SmallerAt(Fraction(one), Fraction(f), k) && k < |Fraction(one)|
  {
    NineDigits();
    var i := NumbersInOrder(one, f, 9);
    DigitsAreDigits(one, 9);
    TrimmedAfter(Digits(one, 9), Digits(f, 9), i);
    OneHasNineDigits(one);
    k := i + 1;
    assert Fraction(one)[..k] == "." + Digits(one, 9)[..i];
    assert Fraction(f)[..k] == "." + Trimmed(Digits(f, 9))[..i];
  }

  lemma NineDigits()
    ensures Pow10(9) == SECOND
  {
    assert Pow10(3) == 1000;
    assert Pow10(6) == 1000 * Pow10(3);
    assert Pow10(9) == 1000 * Pow10(6);
  }

  lemma OneHasNineDigits(one: nat)
    requires one == 1
    ensures Trimmed(Digits(one, 9)) == Digits(one, 9)
  {
    assert Digits(one, 9)[8] == Digit(1);
  }

  /** A moment of the first second comes before every later second. */
  lemma BeforeLaterSecond(day: string, f: nat, n: nat)
    requires f < SECOND <= n < DAY
    ensures Before(Stamp(day, f), Stamp(day, n))
  {
    var k := ZeroClockFirst(f / SECOND, n / SECOND);
    ByClock(day, Clock(f / SECOND), Fraction(f % SECOND), Clock(n / SECOND), Fraction(n % SECOND), k);
  }

  /** A whole second comes after its fractions. */
  lemma BeforeMidnight(day: string, f: nat, zero: nat)
    requires 0 == zero < f < SECOND
    ensures Before(Stamp(day, f), Stamp(day, zero))
  {
    assert f / SECOND == zero / SECOND && f % SECOND == f;
    WholeIsLast(day, Clock(f / SECOND), Fraction(f));
  }

  lemma FirstOfSecond(day: string, one: nat, f: nat)
    requires one == 1 < f < SECOND
    ensures Before(Stamp(day, one), Stamp(day, f))
  {
    var k := OneFirst(one, f);
    assert one / SECOND == f / SECOND && one % SECOND == one && f % SECOND == f;
    ByFraction(day, Clock(f / SECOND), Fraction(one), Fraction(f), k);
  }

  /** The first moment of a day, in text order, is its first nanosecond. */
  lemma FirstOfDay(day: string, one: nat, n: nat)
    requires one == 1 && n < DAY && n != 1
    ensures Before(Stamp(day, one), Stamp(day, n))
  {
    if n >= SECOND {
      BeforeLaterSecond(day, one, n);
    } else if n > 0 {
      FirstOfSecond(day, one, n);
    } else {
      BeforeMidnight(day, one, n);
    }
  }

  /** Midnight comes after exactly the moments of the day's first second. */
  lemma MidnightComesAfter(day: string, n: nat)
    requires n < DAY
    ensures Before(Stamp(day, n), Stamp(day, 0)) <==> 0 < n < SECOND
    ensures Before(Stamp(day, 0), Stamp(day, n)) <==> n >= SECOND
  {
    if n >= SECOND {
      BeforeLaterSecond(day, 0, n);
      NotBoth(Stamp(day, 0), Stamp(day, n));
    } else if n > 0 {
      BeforeMidnight(day, n, 0);
      NotBoth(Stamp(day, n), Stamp(day, 0));
    } else {
      NotItself(Stamp(day, 0));
    }
  }

  // ---------------------------------------------------------------- which cutoffs split a day

  /** Some day has moments on both sides of the cutoff. */
  ghost predicate Splits(cutoff: string) {
    exists day: string, m: nat, n: nat :: SplitBy(cutoff, day, m, n)
  }

  ghost predicate SplitBy(cutoff: string, day: string, m: nat, n: nat) {
    |day| == 10 && m < DAY && n < DAY && Before(Stamp(day, m), cutoff) && !Before(Stamp(day, n), cutoff)
  }

  lemma SamePrefix(a: string, b: string, k: nat, w: nat)
    requires SmallerAt(a, b, k) && w <= k
    ensures a[..w] == b[..w]
  {
    assert a[..k][..w] == a[..w] && b[..k][..w] == b[..w];
  }

  /** All moments of a day are on the same side of any moment of another. */
  lemma DaysApart(day: string, other: string, m: nat, n: nat, x: nat)
    requires |day| == |other| == 10 && day != other && Before(Stamp(day, m), Stamp(other, x))
    ensures Before(Stamp(day, n), Stamp(other, x))
  {
    var a, b, c := Stamp(day, m), Stamp(other, x), Stamp(day, n);
    var k: nat :| SmallerAt(a, b, k);
    assert a[..10] == day && b[..10] == other && c[..10] == day;
    if k < 10 {
      assert a[..k] == a[..10][..k] && c[..k] == c[..10][..k];
      assert c[k] == c[..10][k] && a[k] == a[..10][k];
      assert SmallerAt(c, b, k);
    } else {
      SamePrefix(a, b, k, 10);
    }
  }

  /** A cutoff splits a day if and only if it is not the first nanosecond of one; a cutoff at
      midnight splits the day that it begins. */
  lemma SplitsExactly(day: string, n: nat)
    requires |day| == 10 && n < DAY
    ensures Splits(Stamp(day, n)) <==> n != 1
  {
    if n != 1 {
      FirstOfDay(day, 1, n);
      NotItself(Stamp(day, n));
      assert SplitBy(Stamp(day, n), day, 1, n);
    } else {
      forall other: string, i: nat, j: nat ensures !SplitBy(Stamp(day, n), other, i, j) {
        SameSide(day, n, other, i, j);
      }
    }
  }

  lemma SameSide(day: string, one: nat, other: string, i: nat, j: nat)
    requires one == 1 && |day| == 10
    ensures !SplitBy(Stamp(day, one), other, i, j)
  {
    if |other| == 10 && i < DAY && j < DAY {
      if other == day {
        if i == 1 {
          NotItself(Stamp(day, one));
        } else {
          FirstOfDay(day, one, i);
          NotBoth(Stamp(day, one), Stamp(day, i));
        }
      } else if Before(Stamp(other, i), Stamp(day, one)) {
        DaysApart(other, day, i, j, one);
      }
    }
  }

  // ---------------------------------------------------------------- the downsampling cutoff

  /** The ranks of two texts, as keys of snapshots, follow their text order. */
  ghost predicate Ranked(rank: string -> D.Key, a: string, b: string) {
    (Before(a, b) ==> rank(a) < rank(b)) && (Before(b, a) ==> rank(b) < rank(a))
  }

  /** So no cutoff but the first nanosecond is aligned. */
  lemma OnlyTheFirstIsAligned(rank: string -> D.Key, day: D.Key -> int, date: string, n: nat)
    requires n < DAY && n != 1 && Ranked(rank, Stamp(date, 1), Stamp(date, n))
    requires day(rank(Stamp(date, 1))) == day(rank(Stamp(date, n)))
    ensures !D.Aligned(day, rank(Stamp(date, n)))
  {
    FirstOfDay(date, 1, n);
    assert rank(Stamp(date, 1)) < rank(Stamp(date, n)) <= rank(Stamp(date, n));
  }

  /** Midnight is ranked between a moment of the day's first second and one that is not. */
  ghost predicate Between(rank: string -> D.Key, date: string, m: nat, n: nat) {
    rank(Stamp(date, m)) < rank(Stamp(date, 0)) <= rank(Stamp(date, n))
  }

  lemma MidnightBetween(rank: string -> D.Key, date: string, m: nat, n: nat)
    requires Ranked(rank, Stamp(date, m), Stamp(date, 0)) && Ranked(rank, Stamp(date, 0), Stamp(date, n))
    requires 0 < m < SECOND && n < DAY && (n == 0 || n >= SECOND)
    ensures Between(rank, date, m, n)
  {
    MidnightComesAfter(date, m);
    MidnightComesAfter(date, n);
  }

  /** So a cutoff at midnight is no remedy: a torrent with a sample on either side of it on one
      day loses samples at the next pass. */
  lemma MidnightCutoffLosesSamples(raw: D.Raw, rank: string -> D.Key, day: D.Key -> int, date: string, h: string,
                                   m: nat, n: nat)
    requires Between(rank, date, m, n)
    requires D.At(h, rank(Stamp(date, m))) in raw && D.At(h, rank(Stamp(date, n))) in raw
    requires day(rank(Stamp(date, m))) == day(rank(Stamp(date, n)))
    ensures D.AfterTwo(raw, day, rank(Stamp(date, 0)), rank(Stamp(date, n)) + 1) < |raw|
  {
    D.UnalignedCutoffLosesSamples(raw, day, h, rank(Stamp(date, m)), rank(Stamp(date, 0)), rank(Stamp(date, n)));
  }
}
