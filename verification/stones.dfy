/**
  Plutonian pebbles (src/bin/11.rs): on every blink each stone changes by
  the first matching rule: 0 becomes 1; a number with an even count of
  decimal digits splits into its left and right halves; any other number is
  multiplied by 2024. Both solvers keep a map from engraved number to the
  number of stones carrying it instead of the list of stones itself.

  The list semantics (`Iterate`) is the reference; a count map stands for
  the list through `Weight`, the number of stones its entries will have
  become after a given number of further blinks.
 */
module Stones {
  import opened Common

  /** `k.ilog10() + 1`: the number of decimal digits of a positive number. */
  function NumDigits(k: nat): (d: nat)
    requires k > 0
    ensures d >= 1
  {
    if k < 10 then 1 else 1 + NumDigits(k / 10)
  }

  /** `NumDigits(k)` is the number of decimal digits: `10^(d-1) <= k < 10^d`. */
  lemma {:induction false} NumDigitsBounds(k: nat)
    requires k > 0
    ensures Pow10(NumDigits(k) - 1) <= k < Pow10(NumDigits(k))
  {
    if k >= 10 {
      NumDigitsBounds(k / 10);
    }
  }

  /** The left half of an even-length number, as computed with `pow = 10^(digits / 2)`. */
  function SplitPow(k: nat): (pow: nat)
    requires k > 0
    ensures pow >= 1
  {
    Pow10(NumDigits(k) / 2)
  }

  /** `k / pow`: the left half of the digits. */
  function Left(k: nat): nat
    requires k > 0
  {
    var pow := SplitPow(k);
    assert 0 <= k / pow by { DivNonnegative(k, pow); }
    k / pow
  }

  lemma DivNonnegative(a: nat, b: nat)
    requires b > 0
    ensures a / b >= 0
  {
  }

  /** `k - left * pow`: the right half. */
  function Right(k: nat): nat
    requires k > 0
  {
    k - Left(k) * SplitPow(k)
  }

  /** The two halves recombine to the number, the right one below the power of ten. */
  lemma SplitRecombines(k: nat)
    requires k > 0
    ensures Left(k) * SplitPow(k) + Right(k) == k && 0 <= Right(k) < SplitPow(k)
  {
    var pow := SplitPow(k);
    assert k == (k / pow) * pow + k % pow;
  }

  /** The stones one stone becomes after one blink, in order. */
  function Blink(k: nat): (r: seq<nat>)
    ensures 1 <= |r| <= 2
  {
    if k == 0 then [1]
    else if NumDigits(k) % 2 == 0 then [Left(k), Right(k)]
    else [k * 2024]
  }

  /** One blink over a whole row of stones. */
  function BlinkAll(data: seq<nat>): seq<nat>
  {
    if data == [] then [] else BlinkAll(data[..|data| - 1]) + Blink(data[|data| - 1])
  }

  /** The row after `n` blinks. */
  function Iterate(data: seq<nat>, n: nat): seq<nat>
    decreases n
  {
    if n == 0 then data else Iterate(BlinkAll(data), n - 1)
  }

  lemma {:induction false} BlinkAllAppend(a: seq<nat>, b: seq<nat>)
    ensures BlinkAll(a + b) == BlinkAll(a) + BlinkAll(b)
    decreases |b|
  {
    if b == [] {
      assert a + b == a;
    } else {
      var init, last := b[..|b| - 1], b[|b| - 1];
      assert (a + b)[..|a + b| - 1] == a + init && (a + b)[|a + b| - 1] == last;
      assert BlinkAll(a + b) == BlinkAll(a + init) + Blink(last);
      BlinkAllAppend(a, init);
      assert BlinkAll(b) == BlinkAll(init) + Blink(last);
    }
  }

  /** Stones evolve independently: the row of a concatenation is the concatenation of rows. */
  lemma {:induction false} IterateAppend(a: seq<nat>, b: seq<nat>, n: nat)
    ensures Iterate(a + b, n) == Iterate(a, n) + Iterate(b, n)
    decreases n
  {
    if n > 0 {
      assert Iterate(a + b, n) == Iterate(BlinkAll(a + b), n - 1);
      BlinkAllAppend(a, b);
      IterateAppend(BlinkAll(a), BlinkAll(b), n - 1);
      assert Iterate(a, n) == Iterate(BlinkAll(a), n - 1);
      assert Iterate(b, n) == Iterate(BlinkAll(b), n - 1);
    }
  }

  /** Blinking `n + 1` times is blinking `n` times and then once more. */
  lemma {:induction false} IterateLast(data: seq<nat>, n: nat)
    ensures Iterate(data, n + 1) == BlinkAll(Iterate(data, n))
    decreases n
  {
    if n > 0 {
      IterateLast(BlinkAll(data), n - 1);
    }
  }

  /** Stones that split on their next blink. */
  function EvenDigitStones(data: seq<nat>): nat
  {
    if data == [] then 0
    else
      var k := data[|data| - 1];
      EvenDigitStones(data[..|data| - 1]) + (if k != 0 && NumDigits(k) % 2 == 0 then 1 else 0)
  }

  /** One blink adds exactly one stone per even-digit stone. */
  lemma {:induction false} BlinkGrowth(data: seq<nat>)
    ensures |BlinkAll(data)| == |data| + EvenDigitStones(data)
  {
    if data != [] {
      BlinkGrowth(data[..|data| - 1]);
    }
  }

  /** The number of stones never decreases from one blink to the next. */
  lemma NeverShrinks(data: seq<nat>, n: nat)
    ensures |Iterate(data, n + 1)| >= |Iterate(data, n)|
  {
    IterateLast(data, n);
    BlinkGrowth(Iterate(data, n));
  }

  /** Number of stones a single stone `k` becomes after `n` blinks. */
  ghost function Len(k: nat, n: nat): nat
  {
    |Iterate([k], n)|
  }

  /** `Len` after `n` blinks, as a function of the engraved number. */
  ghost function LenAfter(n: nat): nat -> nat
  {
    k => Len(k, n)
  }

  lemma BlinkAllSingle(k: nat)
    ensures BlinkAll([k]) == Blink(k)
  {
    assert [k][..0] == [];
  }

  lemma BlinkLen(k: nat, n: nat)
    ensures Len(k, n + 1) == |Iterate(Blink(k), n)|
  {
    assert Iterate([k], n + 1) == Iterate(BlinkAll([k]), n);
    BlinkAllSingle(k);
  }

  lemma PairLen(a: nat, b: nat, n: nat)
    ensures |Iterate([a, b], n)| == Len(a, n) + Len(b, n)
  {
    IterateAppend([a], [b], n);
    assert [a] + [b] == [a, b];
  }

  /** The `update_or_create!` macro: add `val` to the entry of `key`, inserting it if absent. */
  function UpdateOrCreate(m: map<nat, nat>, key: nat, val: nat): (r: map<nat, nat>)
    ensures r.Keys == m.Keys + {key}
    ensures r[key] == (if key in m then m[key] else 0) + val
    ensures forall k :: k in m && k != key ==> r[k] == m[k]
  {
    if key in m then m[key := m[key] + val] else m[key := val]
  }

  /** What each entry of a count map stands for, when one stone `k` stands for `len(k)`. */
  ghost function Weighted(m: map<nat, nat>, len: nat -> nat): nat -> int
  {
    k => if k in m then m[k] * len(k) else 0
  }

  /** What a count map stands for; with `LenAfter(n)`, the stones after `n` more blinks. */
  ghost function Weight(m: map<nat, nat>, len: nat -> nat): int
  {
    SetSum(m.Keys, Weighted(m, len))
  }

  /** The number of stones a count map stands for after `n` more blinks. */
  ghost function StonesAfter(m: map<nat, nat>, n: nat): int
  {
    Weight(m, LenAfter(n))
  }

  /** What the entries of `m` under the keys still to be processed stand for after `n` more blinks. */
  ghost function Pending(keys: set<nat>, m: map<nat, nat>, n: nat): int
  {
    SetSum(keys, Weighted(m, LenAfter(n)))
  }

  /** Adding `val` stones engraved `key` adds `val` times what one such stone stands for. */
  lemma UpdateWeight(m: map<nat, nat>, key: nat, val: nat, len: nat -> nat)
    ensures Weight(UpdateOrCreate(m, key, val), len) == Weight(m, len) + val * len(key)
  {
    var m' := UpdateOrCreate(m, key, val);
    forall k | k in m && k != key ensures Weighted(m, len)(k) == Weighted(m', len)(k) {
      assert m'[k] == m[k];
    }
    if key in m {
      UpdatePresentWeight(m, key, val, len);
    } else {
      UpdateAbsentWeight(m, key, val, len);
    }
  }

  lemma Distributes(a: int, b: int, c: int)
    ensures (a + b) * c == a * c + b * c
  {
  }

  lemma UpdatePresentWeight(m: map<nat, nat>, key: nat, val: nat, len: nat -> nat)
    requires key in m
    requires forall k | k in m && k != key :: Weighted(m, len)(k) == Weighted(UpdateOrCreate(m, key, val), len)(k)
    ensures Weight(UpdateOrCreate(m, key, val), len) == Weight(m, len) + val * len(key)
  {
    var m' := UpdateOrCreate(m, key, val);
    var f := Weighted(m, len);
    var g := Weighted(m', len);
    var c := m[key];
    var l := len(key);
    Distributes(c, val, l);
    assert g(key) == (c + val) * l == c * l + val * l;
    assert f(key) == c * l;
    assert m'.Keys == m.Keys;
    SetSumRemove(m.Keys, key, f);
    SetSumRemove(m.Keys, key, g);
    SetSumCongruent(m.Keys - {key}, f, g);
  }

  lemma UpdateAbsentWeight(m: map<nat, nat>, key: nat, val: nat, len: nat -> nat)
    requires key !in m
    requires forall k | k in m && k != key :: Weighted(m, len)(k) == Weighted(UpdateOrCreate(m, key, val), len)(k)
    ensures Weight(UpdateOrCreate(m, key, val), len) == Weight(m, len) + val * len(key)
  {
    var g := Weighted(UpdateOrCreate(m, key, val), len);
    assert g(key) == val * len(key);
    SetSumAdd(m.Keys, key, g);
    SetSumCongruent(m.Keys, Weighted(m, len), g);
  }

  lemma {:induction false} IterateEmpty(n: nat)
    ensures Iterate([], n) == []
  {
    if n > 0 {
      IterateEmpty(n - 1);
    }
  }

  /** Counting one more stone `x` keeps the count map in step with the row. */
  lemma TallyStep(counts: map<nat, nat>, prefix: seq<nat>, x: nat)
    requires forall n: nat :: StonesAfter(counts, n) == |Iterate(prefix, n)|
    ensures forall n: nat :: StonesAfter(UpdateOrCreate(counts, x, 1), n) == |Iterate(prefix + [x], n)|
  {
    forall n: nat ensures StonesAfter(UpdateOrCreate(counts, x, 1), n) == |Iterate(prefix + [x], n)| {
      UpdateWeight(counts, x, 1, LenAfter(n));
      IterateAppend(prefix, [x], n);
    }
  }

  /** The first loop of `count`: one entry per distinct stone, counting its copies. */
  method Tally(data: seq<nat>) returns (counts: map<nat, nat>)
    ensures counts.Keys == set k | k in data
    ensures Represents(counts, data)
  {
    counts := map[];
    forall n: nat ensures StonesAfter(counts, n) == |Iterate(data[..0], n)| {
      IterateEmpty(n);
    }
    for i := 0 to |data|
      invariant counts.Keys == set k | k in data[..i]
      invariant forall n: nat :: StonesAfter(counts, n) == |Iterate(data[..i], n)|
    {
      var x := data[i];
      TallyStep(counts, data[..i], x);
      assert data[..i + 1] == data[..i] + [x];
      counts := UpdateOrCreate(counts, x, 1);
    }
    assert data[..|data|] == data;
  }

  /** Taking one key out of the set still to be processed. */
  lemma TakeOut(remaining: set<nat>, k: nat, m: map<nat, nat>, n: nat)
    requires k in remaining
    ensures Pending(remaining, m, n) == (if k in m then m[k] * Len(k, n) else 0) + Pending(remaining - {k}, m, n)
  {
    SetSumRemove(remaining, k, Weighted(m, LenAfter(n)));
  }

  /** The body of the inner loop: file the `v` stones engraved `k` under what they become. */
  function BlinkInto(next: map<nat, nat>, k: nat, v: nat): map<nat, nat>
  {
    if k == 0 then UpdateOrCreate(next, 1, v)
    else if NumDigits(k) % 2 == 0 then UpdateOrCreate(UpdateOrCreate(next, Left(k), v), Right(k), v)
    else UpdateOrCreate(next, k * 2024, v)
  }

  /** Two updates add the weights of both halves. */
  lemma PairWeight(next: map<nat, nat>, a: nat, b: nat, v: nat, len: nat -> nat)
    ensures Weight(UpdateOrCreate(UpdateOrCreate(next, a, v), b, v), len) == Weight(next, len) + v * (len(a) + len(b))
  {
    UpdateWeight(next, a, v, len);
    UpdateWeight(UpdateOrCreate(next, a, v), b, v, len);
    assert v * (len(a) + len(b)) == v * len(a) + v * len(b);
  }

  /** A splitting stone becomes, one blink on, what its two halves become. */
  lemma SplitLen(k: nat, n: nat)
    requires k != 0 && NumDigits(k) % 2 == 0
    ensures Len(k, n + 1) == Len(Left(k), n) + Len(Right(k), n)
  {
    assert Blink(k) == [Left(k), Right(k)];
    BlinkLen(k, n);
    PairLen(Left(k), Right(k), n);
  }

  lemma BlinkIntoSplit(next: map<nat, nat>, k: nat, v: nat)
    requires k != 0 && NumDigits(k) % 2 == 0
    ensures BlinkInto(next, k, v) == UpdateOrCreate(UpdateOrCreate(next, Left(k), v), Right(k), v)
  {
  }

  /** Filing `v` stones under each of `a` and `b` adds `v` times what `a` and `b` become. */
  lemma PairStones(next: map<nat, nat>, a: nat, b: nat, v: nat, n: nat, t: nat)
    requires t == Len(a, n) + Len(b, n)
    ensures StonesAfter(UpdateOrCreate(UpdateOrCreate(next, a, v), b, v), n) == StonesAfter(next, n) + v * t
  {
    PairWeight(next, a, b, v, LenAfter(n));
    assert LenAfter(n)(a) + LenAfter(n)(b) == t;
  }

  lemma SplitWeight(next: map<nat, nat>, k: nat, v: nat, n: nat)
    requires k != 0 && NumDigits(k) % 2 == 0
    ensures StonesAfter(BlinkInto(next, k, v), n) == StonesAfter(next, n) + v * Len(k, n + 1)
  {
    BlinkIntoSplit(next, k, v);
    SplitLen(k, n);
    PairStones(next, Left(k), Right(k), v, n, Len(k, n + 1));
  }

  /**
    Filing the stones that `v` copies of stone `k` become after one blink
    adds their weight one blink further on.
   */
  lemma BlinkIntoWeight(next: map<nat, nat>, k: nat, v: nat, n: nat)
    ensures StonesAfter(BlinkInto(next, k, v), n) == StonesAfter(next, n) + v * Len(k, n + 1)
  {
    if k == 0 {
      BlinkLen(k, n);
      assert Blink(k) == [1];
      UpdateWeight(next, 1, v, LenAfter(n));
    } else if NumDigits(k) % 2 == 0 {
      SplitWeight(next, k, v, n);
    } else {
      BlinkLen(k, n);
      assert Blink(k) == [k * 2024];
      UpdateWeight(next, k * 2024, v, LenAfter(n));
    }
  }

  /**
    Midway through one blink of `current`: `next` holds what the entries
    already processed become, and the keys in `remaining` are still to do.
   */
  ghost predicate Filed(current: map<nat, nat>, next: map<nat, nat>, remaining: set<nat>)
  {
    forall j: nat :: StonesAfter(next, j) + Pending(remaining, current, j + 1) == StonesAfter(current, j + 1)
  }

  /** The inner-loop invariant survives filing one more entry of `current`. */
  lemma InnerStep(current: map<nat, nat>, next: map<nat, nat>, remaining: set<nat>, k: nat)
    requires k in remaining && k in current
    requires Filed(current, next, remaining)
    ensures Filed(current, BlinkInto(next, k, current[k]), remaining - {k})
  {
    var next' := BlinkInto(next, k, current[k]);
    forall j: nat ensures StonesAfter(next', j) + Pending(remaining - {k}, current, j + 1) == StonesAfter(current, j + 1) {
      TakeOut(remaining, k, current, j + 1);
      BlinkIntoWeight(next, k, current[k], j);
    }
  }

  /** The count map `m` stands for the row `row`, now and after any number of blinks. */
  ghost predicate Represents(m: map<nat, nat>, row: seq<nat>)
  {
    forall n: nat :: StonesAfter(m, n) == |Iterate(row, n)|
  }

  /** The outer-loop invariant survives one blink. */
  lemma OuterStep(data: seq<nat>, i: nat, counts: map<nat, nat>, next: map<nat, nat>)
    requires Represents(counts, Iterate(data, i))
    requires forall j: nat :: StonesAfter(next, j) == StonesAfter(counts, j + 1)
    ensures Represents(next, Iterate(data, i + 1))
  {
    IterateLast(data, i);
    var row := Iterate(data, i);
    forall j: nat ensures StonesAfter(next, j) == |Iterate(BlinkAll(row), j)| {
      assert StonesAfter(counts, j + 1) == |Iterate(row, j + 1)|;
    }
  }

  /** One blink of a count map, as in the body of `count`'s outer loop. */
  method BlinkCounts(counts: map<nat, nat>) returns (next: map<nat, nat>)
    ensures forall n: nat :: StonesAfter(next, n) == StonesAfter(counts, n + 1)
  {
    next := map[];
    var remaining := counts.Keys;
    while remaining != {}
      invariant remaining <= counts.Keys
      invariant Filed(counts, next, remaining)
      decreases |remaining|
    {
      var k :| k in remaining;
      var v := counts[k];
      InnerStep(counts, next, remaining, k);
      var out;
      if k == 0 {
        out := UpdateOrCreate(next, 1, v);
      } else {
        var digits := NumDigits(k);
        if digits % 2 == 0 {
          var split := digits / 2;
          var pow := Pow10(split);
          var left := k / pow;
          var right := k - left * pow;
          assert left == Left(k) && right == Right(k);
          out := UpdateOrCreate(next, left, v);
          out := UpdateOrCreate(out, right, v);
        } else {
          out := UpdateOrCreate(next, k * 2024, v);
        }
      }
      assert out == BlinkInto(next, k, v);
      next := out;
      remaining := remaining - {k};
    }
  }

  /** `counts.values().sum()`: the number of stones the map stands for now. */
  method SumValues(m: map<nat, nat>) returns (total: nat)
    ensures total == StonesAfter(m, 0)
  {
    total := 0;
    var remaining := m.Keys;
    while remaining != {}
      invariant remaining <= m.Keys
      invariant total + Pending(remaining, m, 0) == StonesAfter(m, 0)
      decreases |remaining|
    {
      var k :| k in remaining;
      TakeOut(remaining, k, m, 0);
      assert Len(k, 0) == 1;
      assert m[k] * Len(k, 0) == m[k];
      total := total + m[k];
      remaining := remaining - {k};
    }
  }

  /** `count`: the number of stones after `n` blinks, through a count map. */
  method Count(data: seq<nat>, n: nat) returns (r: nat)
    ensures r == |Iterate(data, n)|
  {
    var counts := Tally(data);
    for i := 0 to n
      invariant Represents(counts, Iterate(data, i))
    {
      var next := BlinkCounts(counts);
      OuterStep(data, i, counts, next);
      counts := next;
    }
    r := SumValues(counts);
    assert StonesAfter(counts, 0) == |Iterate(Iterate(data, n), 0)|;
  }

  /**
    The body of `get_stone_count`'s blink loop: the same filing as in
    `BlinkCounts`, written with an early `continue` for stones engraved 0.
   */
  method NextCounts(current: map<nat, nat>) returns (next: map<nat, nat>)
    ensures forall n: nat :: StonesAfter(next, n) == StonesAfter(current, n + 1)
  {
    next := map[];
    var remaining := current.Keys;
    while remaining != {}
      invariant remaining <= current.Keys
      invariant Filed(current, next, remaining)
      decreases |remaining|
    {
      var k :| k in remaining;
      var v := current[k];
      InnerStep(current, next, remaining, k);
      remaining := remaining - {k};
      if k == 0 {
        next := UpdateOrCreate(next, 1, v);
        continue;
      }
      var digits := NumDigits(k);
      var out;
      if digits % 2 == 0 {
        var split := digits / 2;
        var pow := Pow10(split);
        var left := k / pow;
        var right := k - left * pow;
        assert left == Left(k) && right == Right(k);
        out := UpdateOrCreate(next, left, v);
        out := UpdateOrCreate(out, right, v);
      } else {
        out := UpdateOrCreate(next, k * 2024, v);
      }
      assert out == BlinkInto(next, k, v);
      next := out;
    }
  }

  /** `get_stone_count`: the second solver; it agrees with `count` on every input. */
  method GetStoneCount(data: seq<nat>, blinks: nat) returns (r: nat)
    ensures r == |Iterate(data, blinks)|
  {
    var current := Tally(data);
    var done := 0;
    while done < blinks
      invariant done <= blinks
      invariant Represents(current, Iterate(data, done))
    {
      var next := NextCounts(current);
      OuterStep(data, done, current, next);
      current := next;
      done := done + 1;
    }
    r := SumValues(current);
    assert StonesAfter(current, 0) == |Iterate(Iterate(data, blinks), 0)|;
  }

  /** `part_one` on the parsed stones: 25 blinks. */
  method PartOne(data: seq<nat>) returns (r: nat)
    ensures r == |Iterate(data, 25)|
  {
    r := Count(data, 25);
  }

  /** `part_two` on the parsed stones: 75 blinks. */
  method PartTwo(data: seq<nat>) returns (r: nat)
    ensures r == |Iterate(data, 75)|
  {
    r := Count(data, 75);
  }
}
