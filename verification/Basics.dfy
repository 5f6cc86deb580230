/** Small shared vocabulary: optional values and finite sums that do not depend on an order. */
module Basics {

  datatype Option<+T> = None | Some(value: T)

  /** Nanoseconds since the zero time of the language. */
  type Time = int
  type RunId = int
  const ZERO_TIME: Time := 0

  /** The sum of `f` over `s`; SumTakeOut shows that the order of removal is irrelevant. */
  ghost function Sum<T(!new)>(s: set<T>, f: T -> int): int {
    if s == {} then 0 else
    var x :| x in s;
    f(x) + Sum(s - {x}, f)
  }

  lemma {:induction false} SumTakeOut<T(!new)>(s: set<T>, f: T -> int, y: T)
    requires y in s
    ensures Sum(s, f) == f(y) + Sum(s - {y}, f)
    decreases |s|
  {
    var x :| x in s && Sum(s, f) == f(x) + Sum(s - {x}, f);
    if x != y {
      SumTakeOut(s - {x}, f, y);
      SumTakeOut(s - {y}, f, x);
      assert s - {x} - {y} == s - {y} - {x};
    }
  }

  lemma {:induction false} SumSplit<T(!new)>(a: set<T>, b: set<T>, f: T -> int)
    requires a !! b
    ensures Sum(a + b, f) == Sum(a, f) + Sum(b, f)
    decreases |a|
  {
    if a == {} {
      assert a + b == b;
    } else {
      var x :| x in a;
      SumTakeOut(a, f, x);
      SumTakeOut(a + b, f, x);
      assert a + b - {x} == (a - {x}) + b;
      SumSplit(a - {x}, b, f);
    }
  }

  lemma {:induction false} SumSame<T(!new)>(s: set<T>, f: T -> int, g: T -> int)
    requires forall x :: x in s ==> f(x) == g(x)
    ensures Sum(s, f) == Sum(s, g)
    decreases |s|
  {
    if s != {} {
      var x :| x in s;
      SumTakeOut(s, f, x);
      SumTakeOut(s, g, x);
      SumSame(s - {x}, f, g);
    }
  }

  /** The same for real-valued summands. */
  ghost function SumR<T(!new)>(s: set<T>, f: T -> real): real {
    if s == {} then 0.0 else
    var x :| x in s;
    f(x) + SumR(s - {x}, f)
  }

  lemma {:induction false} SumRTakeOut<T(!new)>(s: set<T>, f: T -> real, y: T)
    requires y in s
    ensures SumR(s, f) == f(y) + SumR(s - {y}, f)
    decreases |s|
  {
    var x :| x in s && SumR(s, f) == f(x) + SumR(s - {x}, f);
    if x != y {
      SumRTakeOut(s - {x}, f, y);
      SumRTakeOut(s - {y}, f, x);
      assert s - {x} - {y} == s - {y} - {x};
    }
  }

  lemma {:induction false} SumRSame<T(!new)>(s: set<T>, f: T -> real, g: T -> real)
    requires forall x :: x in s ==> f(x) == g(x)
    ensures SumR(s, f) == SumR(s, g)
    decreases |s|
  {
    if s != {} {
      var x :| x in s;
      SumRTakeOut(s, f, x);
      SumRTakeOut(s, g, x);
      SumRSame(s - {x}, f, g);
    }
  }
}
