/**
  The shared helpers of src/lib.rs: a frequency counter over any sequence,
  and the `FilterOnce` iterator adaptor, which drops the first element that
  fails its predicate and passes every other element through.
 */
module Helpers {
  import opened Common

  /** `count_element_function`: a map from each distinct element to its number of occurrences. */
  method CountElements<T(==)>(items: seq<T>) returns (counts: map<T, nat>)
    ensures counts.Keys == set x | x in items
    ensures forall x :: x in counts ==> counts[x] == multiset(items)[x]
  {
    counts := map[];
    for i := 0 to |items|
      invariant counts.Keys == set x | x in items[..i]
      invariant forall x :: x in counts ==> counts[x] == multiset(items[..i])[x]
    {
      var item := items[i];
      assert items[..i + 1] == items[..i] + [item];
      if item in counts {
        counts := counts[item := counts[item] + 1];
      } else {
        counts := counts[item := 1];
      }
    }
    assert items[..|items|] == items;
  }

  /** The number of occurrences of each value in `items`. */
  ghost function Occurrences<T>(items: seq<T>): T -> int
  {
    x => multiset(items)[x]
  }

  /** The counts add up to the number of elements. */
  lemma {:induction false} CountsSum<T>(items: seq<T>)
    ensures SetSum((set x | x in items), Occurrences(items)) == |items|
  {
    if items != [] {
      var n := |items| - 1;
      var init := items[..n];
      var y := items[n];
      assert items == init + [y];
      assert multiset(items) == multiset(init) + multiset{y};
      var s := set x | x in init;
      var f := Occurrences(init);
      var g := Occurrences(items);
      assert forall x :: x != y ==> g(x) == f(x);
      assert g(y) == f(y) + 1;
      CountsSum(init);
      assert (set x | x in items) == s + {y};
      if y in s {
        assert s + {y} == s;
        SetSumRemove(s, y, f);
        SetSumRemove(s, y, g);
        SetSumCongruent(s - {y}, f, g);
      } else {
        assert f(y) == 0;
        SetSumAdd(s, y, g);
        SetSumCongruent(s, f, g);
      }
    }
  }

  /** What `filter_once` yields from `s`: `s` without its first element that fails `f`. */
  function RemoveFirstFailing<T>(s: seq<T>, f: T -> bool): (r: seq<T>)
    ensures |r| == |s| || |r| == |s| - 1
  {
    if s == [] then []
    else if f(s[0]) then [s[0]] + RemoveFirstFailing(s[1..], f)
    else s[1..]
  }

  /** When every element passes, nothing is removed. */
  lemma {:induction false} AllPassKeepsAll<T>(s: seq<T>, f: T -> bool)
    requires forall k :: 0 <= k < |s| ==> f(s[k])
    ensures RemoveFirstFailing(s, f) == s
  {
    if s != [] {
      forall k | 0 <= k < |s| - 1 ensures f(s[1..][k]) {
        assert s[1..][k] == s[k + 1];
      }
      AllPassKeepsAll(s[1..], f);
      assert s == [s[0]] + s[1..];
    }
  }

  /** Exactly the first failing element is removed; the order of the rest is kept. */
  lemma {:induction false} FirstFailingRemoved<T>(s: seq<T>, f: T -> bool, i: nat)
    requires i < |s| && !f(s[i])
    requires forall k :: 0 <= k < i ==> f(s[k])
    ensures RemoveFirstFailing(s, f) == s[..i] + s[i + 1..]
  {
    if i > 0 {
      forall k | 0 <= k < i - 1 ensures f(s[1..][k]) {
        assert s[1..][k] == s[k + 1];
      }
      FirstFailingRemoved(s[1..], f, i - 1);
      assert s[..i] == [s[0]] + s[1..][..i - 1];
      assert s[i + 1..] == s[1..][i..];
    }
  }

  /**
    `FilterOnce`: the wrapped iterator is the sequence of elements it has not
    produced yet; `done` records that the failing element was dropped.
   */
  class FilterOnce<T> {
    var inner: seq<T>
    var done: bool
    const func: T -> bool

    /** What the iterator will still produce. */
    function Remaining(): seq<T>
      reads this
    {
      if done then inner else RemoveFirstFailing(inner, func)
    }

    /** `filter_once(it, f)`. */
    constructor (it: seq<T>, f: T -> bool)
      ensures inner == it && func == f && !done
      ensures Remaining() == RemoveFirstFailing(it, f)
    {
      inner := it;
      func := f;
      done := false;
    }

    /** `Iterator::next`: produces the head of what remains; `done` is never reset. */
    method Next() returns (r: Option<T>)
      modifies this
      ensures r.None? ==> old(Remaining()) == [] && inner == []
      ensures r.Some? ==> old(Remaining()) == [r.value] + Remaining()
      ensures |inner| < |old(inner)| || inner == old(inner) == []
      ensures old(done) ==> done && r == (if old(inner) == [] then None else Some(old(inner)[0]))
    {
      if done {
        if inner == [] {
          r := None;
        } else {
          r := Some(inner[0]);
          inner := inner[1..];
        }
      } else if inner != [] {
        var v := inner[0];
        inner := inner[1..];
        if func(v) {
          r := Some(v);
        } else {
          done := true;
          if inner == [] {
            r := None;
          } else {
            r := Some(inner[0]);
            inner := inner[1..];
          }
        }
      } else {
        r := None;
      }
    }

    /** Draining the iterator with repeated `next` calls yields exactly `Remaining()`. */
    method Collect() returns (out: seq<T>)
      modifies this
      ensures out == old(Remaining())
      ensures Remaining() == []
    {
      out := [];
      while true
        invariant out + Remaining() == old(Remaining())
        decreases |inner|
      {
        var r := Next();
        if r.None? {
          assert Remaining() == [];
          return;
        }
        out := out + [r.value];
      }
    }

    /** `size_hint` over a slice iterator, whose own hint is exact: `(len - 1, Some(len))`, saturating. */
    function SizeHint(): (r: (nat, Option<nat>))
      reads this
      ensures r.1.Some? && r.0 <= |Remaining()| <= r.1.value
    {
      var lo: nat := |inner|;
      var hi: Option<nat> := Some(|inner|);
      (if lo == 0 then 0 else lo - 1, hi)
    }
  }
}
