/**
  Shared vocabulary for the day modules: the optional value that Rust's
  `Option` carries, and finite sums over sets and sequences (the model's
  stand-in for iterator `sum()` over a `HashSet` or `HashMap`, whose
  iteration order is unspecified).
 */
module Common {

  datatype Option<T> = None | Some(value: T)

  /** Sum of `f` over the elements of a finite set, in no particular order. */
  ghost function SetSum<T>(s: set<T>, f: T -> int): int
    decreases |s|
  {
    if s == {} then 0 else var x :| x in s; f(x) + SetSum(s - {x}, f)
  }

  /** The sum does not depend on which element is taken out first. */
  lemma {:induction false} SetSumRemove<T>(s: set<T>, x: T, f: T -> int)
    requires x in s
    ensures SetSum(s, f) == f(x) + SetSum(s - {x}, f)
    decreases |s|
  {
    var y :| y in s && SetSum(s, f) == f(y) + SetSum(s - {y}, f);
    if y != x {
      SetSumRemove(s - {y}, x, f);
      SetSumRemove(s - {x}, y, f);
      assert s - {y} - {x} == s - {x} - {y};
    }
  }

  lemma SetSumAdd<T>(s: set<T>, x: T, f: T -> int)
    requires x !in s
    ensures SetSum(s + {x}, f) == SetSum(s, f) + f(x)
  {
    SetSumRemove(s + {x}, x, f);
    assert s + {x} - {x} == s;
  }

  /** Sums over disjoint sets add up. */
  lemma {:induction false} SetSumUnion<T>(a: set<T>, b: set<T>, f: T -> int)
    requires a !! b
    ensures SetSum(a + b, f) == SetSum(a, f) + SetSum(b, f)
    decreases |a|
  {
    if a != {} {
      var x :| x in a;
      SetSumRemove(a, x, f);
      SetSumRemove(a + b, x, f);
      assert a + b - {x} == (a - {x}) + b;
      SetSumUnion(a - {x}, b, f);
    } else {
      assert a + b == b;
    }
  }

  /** Two functions that agree on the set have the same sum over it. */
  lemma {:induction false} SetSumCongruent<T>(s: set<T>, f: T -> int, g: T -> int)
    requires forall x :: x in s ==> f(x) == g(x)
    ensures SetSum(s, f) == SetSum(s, g)
    decreases |s|
  {
    if s != {} {
      var x :| x in s;
      SetSumRemove(s, x, f);
      SetSumRemove(s, x, g);
      SetSumCongruent(s - {x}, f, g);
    }
  }

  /** Summing the constant 1 counts the elements. */
  lemma {:induction false} SetSumOne<T>(s: set<T>)
    ensures SetSum(s, (x: T) => 1) == |s|
    decreases |s|
  {
    if s != {} {
      var x :| x in s;
      SetSumRemove(s, x, (y: T) => 1);
      SetSumOne(s - {x});
    }
  }

  lemma {:induction false} SetSumNonNegative<T>(s: set<T>, f: T -> int)
    requires forall x :: x in s ==> f(x) >= 0
    ensures SetSum(s, f) >= 0
    decreases |s|
  {
    if s != {} {
      var x :| x in s;
      SetSumRemove(s, x, f);
      SetSumNonNegative(s - {x}, f);
    }
  }

  /** Sum of a sequence of integers, left to right. */
  function Sum(s: seq<int>): int
  {
    if s == [] then 0 else Sum(s[..|s| - 1]) + s[|s| - 1]
  }

  lemma SumAppend(a: seq<int>, b: seq<int>)
    ensures Sum(a + b) == Sum(a) + Sum(b)
    decreases |b|
  {
    if b != [] {
      assert (a + b)[..|a + b| - 1] == a + b[..|b| - 1];
      SumAppend(a, b[..|b| - 1]);
    } else {
      assert a + b == a;
    }
  }

  function Min(a: int, b: int): int { if a <= b then a else b }
  function Max(a: int, b: int): int { if a >= b then a else b }
  function Abs(x: int): nat { if x < 0 then -x else x }

  function Pow10(n: nat): (r: nat)
    ensures r >= 1
  {
    if n == 0 then 1 else 10 * Pow10(n - 1)
  }
}
