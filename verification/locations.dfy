/**
  Historian hysteria (src/bin/01.rs): two columns of location ids are read
  from the input, each column is sorted, and the answer is the sum of the
  distances between the i-th smallest ids of the two columns.
 */
module LocationLists {
  import opened Common
  import opened Text

  /**
    One line of input: split at the first space, trim both halves and parse
    each as an i64. `None` when there is no space or either half is not an
    integer (such lines are skipped).
   */
  function ParsePair(line: string): Option<(int, int)>
  {
    match SplitOnce(line, ' ')
    case None => None
    case Some((a, b)) =>
      match (ParseSigned(Trim(a)), ParseSigned(Trim(b)))
      case (Some(x), Some(y)) => Some((x, y))
      case _ => None
  }

  /** A pair is read only from a line holding a space, from the two trimmed halves around it. */
  lemma ParsePairShape(line: string)
    ensures SplitOnce(line, ' ').None? ==> ParsePair(line).None?
    ensures ParsePair(line).Some? ==> exists a, b :: line == a + " " + b && ParseSigned(Trim(a)) == Some(ParsePair(line).value.0)
                                                  && ParseSigned(Trim(b)) == Some(ParsePair(line).value.1)
  {
  }

  /** The `filter_map` over the lines: the pairs of the well-formed lines, in order. */
  function Pairs(lines: seq<string>): (r: seq<(int, int)>)
    ensures |r| <= |lines|
  {
    if lines == [] then []
    else
      var init := Pairs(lines[..|lines| - 1]);
      match ParsePair(lines[|lines| - 1])
      case None => init
      case Some(p) => init + [p]
  }

  /** Every pair comes from some line of the input. */
  lemma {:induction false} PairsFromLines(lines: seq<string>, p: (int, int))
    requires p in Pairs(lines)
    ensures exists k :: 0 <= k < |lines| && ParsePair(lines[k]) == Some(p)
  {
    var init := lines[..|lines| - 1];
    if p in Pairs(init) {
      PairsFromLines(init, p);
      var k :| 0 <= k < |init| && ParsePair(init[k]) == Some(p);
      assert lines[k] == init[k];
    } else {
      assert ParsePair(lines[|lines| - 1]) == Some(p);
    }
  }

  /** A malformed line contributes nothing, wherever it is. */
  lemma {:induction false} PairsAppend(a: seq<string>, b: seq<string>)
    ensures Pairs(a + b) == Pairs(a) + Pairs(b)
    decreases |b|
  {
    if b == [] {
      assert a + b == a;
    } else {
      assert (a + b)[..|a + b| - 1] == a + b[..|b| - 1];
      PairsAppend(a, b[..|b| - 1]);
    }
  }

  function Firsts(pairs: seq<(int, int)>): (r: seq<int>)
    ensures |r| == |pairs|
  {
    seq(|pairs|, i requires 0 <= i < |pairs| => pairs[i].0)
  }

  function Seconds(pairs: seq<(int, int)>): (r: seq<int>)
    ensures |r| == |pairs|
  {
    seq(|pairs|, i requires 0 <= i < |pairs| => pairs[i].1)
  }

  predicate Sorted(s: seq<int>)
  {
    forall i, j :: 0 <= i < j < |s| ==> s[i] <= s[j]
  }

  /** Insertion of one element into a sorted sequence. */
  function Insert(x: int, s: seq<int>): (r: seq<int>)
    ensures |r| == |s| + 1
  {
    if s == [] then [x]
    else if x <= s[0] then [x] + s
    else [s[0]] + Insert(x, s[1..])
  }

  lemma {:induction false} InsertPermutes(x: int, s: seq<int>)
    ensures multiset(Insert(x, s)) == multiset(s) + multiset{x}
  {
    if s != [] && x > s[0] {
      InsertPermutes(x, s[1..]);
      assert s == [s[0]] + s[1..];
    }
  }

  /** A lower bound of `x` and of `s` bounds the result of the insertion. */
  lemma {:induction false} InsertBounded(x: int, s: seq<int>, lo: int)
    requires lo <= x && forall k :: 0 <= k < |s| ==> lo <= s[k]
    ensures forall k :: 0 <= k < |Insert(x, s)| ==> lo <= Insert(x, s)[k]
  {
    if s != [] && x > s[0] {
      InsertBounded(x, s[1..], lo);
    }
  }

  lemma {:induction false} InsertSorted(x: int, s: seq<int>)
    requires Sorted(s)
    ensures Sorted(Insert(x, s))
  {
    if s != [] && x > s[0] {
      var t := Insert(x, s[1..]);
      InsertSorted(x, s[1..]);
      InsertBounded(x, s[1..], s[0]);
      var r := Insert(x, s);
      forall i, j | 0 <= i < j < |r| ensures r[i] <= r[j] {
        assert r[j] == t[j - 1];
        if i > 0 {
          assert r[i] == t[i - 1];
        }
      }
    }
  }

  /** `slice::sort` (ascending; equal elements are indistinguishable integers). */
  function Sort(s: seq<int>): (r: seq<int>)
    ensures |r| == |s|
  {
    if s == [] then [] else Insert(s[|s| - 1], Sort(s[..|s| - 1]))
  }

  /** `Sort` yields a sorted permutation of its input. */
  lemma {:induction false} SortSorts(s: seq<int>)
    ensures Sorted(Sort(s)) && multiset(Sort(s)) == multiset(s)
  {
    if s != [] {
      SortSorts(s[..|s| - 1]);
      InsertSorted(s[|s| - 1], Sort(s[..|s| - 1]));
      InsertPermutes(s[|s| - 1], Sort(s[..|s| - 1]));
      assert s == s[..|s| - 1] + [s[|s| - 1]];
    }
  }

  lemma HeadIsLeast(a: seq<int>, x: int)
    requires Sorted(a) && x in multiset(a)
    ensures a[0] <= x
  {
    assert x in a;
    var j :| 0 <= j < |a| && a[j] == x;
    if j > 0 {
      assert a[0] <= a[j];
    }
  }

  lemma MultisetTail<T>(a: seq<T>)
    requires a != []
    ensures multiset(a[1..]) == multiset(a) - multiset{a[0]}
  {
    assert a == [a[0]] + a[1..];
  }

  /** Two sorted arrangements of one multiset start with the same element. */
  lemma SortedSameHead(a: seq<int>, b: seq<int>)
    requires Sorted(a) && Sorted(b) && multiset(a) == multiset(b) && a != [] && b != []
    ensures a[0] == b[0]
  {
    assert a[0] in multiset(a) && b[0] in multiset(b);
    HeadIsLeast(a, b[0]);
    HeadIsLeast(b, a[0]);
  }

  /** A sorted arrangement of a multiset is unique. */
  lemma {:induction false} SortedUnique(a: seq<int>, b: seq<int>)
    requires Sorted(a) && Sorted(b) && multiset(a) == multiset(b)
    ensures a == b
  {
    assert |a| == |multiset(a)| == |multiset(b)| == |b|;
    if a != [] {
      SortedSameHead(a, b);
      MultisetTail(a);
      MultisetTail(b);
      assert Sorted(a[1..]) && Sorted(b[1..]);
      SortedUnique(a[1..], b[1..]);
      assert a == [a[0]] + a[1..] && b == [b[0]] + b[1..];
    }
  }

  /** `zip(...).map(|(c1, c2)| (c1 - c2).abs()).sum()`. */
  function Distance(a: seq<int>, b: seq<int>): (r: nat)
    requires |a| == |b|
  {
    if a == [] then 0 else Distance(a[..|a| - 1], b[..|b| - 1]) + Abs(a[|a| - 1] - b[|b| - 1])
  }

  /** The distance between two sequences vanishes exactly when they are equal. */
  lemma {:induction false} DistanceZero(a: seq<int>, b: seq<int>)
    requires |a| == |b|
    ensures Distance(a, b) == 0 <==> a == b
  {
    if a != [] {
      DistanceZero(a[..|a| - 1], b[..|b| - 1]);
      if Distance(a, b) == 0 {
        assert a == a[..|a| - 1] + [a[|a| - 1]] && b == b[..|b| - 1] + [b[|b| - 1]];
      }
    }
  }

  lemma {:induction false} DistanceSymmetric(a: seq<int>, b: seq<int>)
    requires |a| == |b|
    ensures Distance(a, b) == Distance(b, a)
  {
    if a != [] {
      DistanceSymmetric(a[..|a| - 1], b[..|b| - 1]);
    }
  }

  /** Sort both columns, then add up the distances. */
  function TotalDistance(pairs: seq<(int, int)>): (r: nat)
  {
    Distance(Sort(Firsts(pairs)), Sort(Seconds(pairs)))
  }

  /** `part_one` (the answer is always `Some`). */
  function PartOne(input: string): Option<nat>
  {
    Some(TotalDistance(Pairs(Split(input, '\n'))))
  }

  function Swap(pairs: seq<(int, int)>): (r: seq<(int, int)>)
    ensures |r| == |pairs|
  {
    seq(|pairs|, i requires 0 <= i < |pairs| => (pairs[i].1, pairs[i].0))
  }

  /** Exchanging the two columns does not change the answer. */
  lemma ColumnsSymmetric(pairs: seq<(int, int)>)
    ensures TotalDistance(Swap(pairs)) == TotalDistance(pairs)
  {
    assert Firsts(Swap(pairs)) == Seconds(pairs);
    assert Seconds(Swap(pairs)) == Firsts(pairs);
    DistanceSymmetric(Sort(Firsts(pairs)), Sort(Seconds(pairs)));
  }

  /** The answer is zero exactly when the two columns hold the same multiset of ids. */
  lemma ZeroIffSameIds(pairs: seq<(int, int)>)
    ensures TotalDistance(pairs) == 0 <==> multiset(Firsts(pairs)) == multiset(Seconds(pairs))
  {
    var a := Sort(Firsts(pairs));
    var b := Sort(Seconds(pairs));
    SortSorts(Firsts(pairs));
    SortSorts(Seconds(pairs));
    DistanceZero(a, b);
    if multiset(Firsts(pairs)) == multiset(Seconds(pairs)) {
      SortedUnique(a, b);
    }
  }

  /** Removing the element at `j` removes one copy from the multiset. */
  lemma MultisetRemove<T>(q: seq<T>, j: nat)
    requires j < |q|
    ensures multiset(q[..j] + q[j + 1..]) == multiset(q) - multiset{q[j]}
  {
    assert q == q[..j] + [q[j]] + q[j + 1..];
  }

  function MapSeq<A, B>(s: seq<A>, f: A -> B): (r: seq<B>)
    ensures |r| == |s| && forall i :: 0 <= i < |s| ==> r[i] == f(s[i])
  {
    seq(|s|, i requires 0 <= i < |s| => f(s[i]))
  }

  lemma MapRemove<A, B>(q: seq<A>, j: nat, f: A -> B)
    requires j < |q|
    ensures multiset(MapSeq(q, f)) == multiset(MapSeq(q[..j] + q[j + 1..], f)) + multiset{f(q[j])}
  {
    var mq := MapSeq(q, f);
    assert MapSeq(q[..j] + q[j + 1..], f) == mq[..j] + mq[j + 1..];
    assert mq == mq[..j] + [f(q[j])] + mq[j + 1..];
  }

  lemma RemoveMatching<A>(p: seq<A>, q: seq<A>, j: nat)
    requires multiset(p) == multiset(q) && p != [] && j < |q| && q[j] == p[|p| - 1]
    ensures multiset(p[..|p| - 1]) == multiset(q[..j] + q[j + 1..])
  {
    MultisetRemove(q, j);
    assert p == p[..|p| - 1] + [p[|p| - 1]];
  }

  /** Mapping a function over two permutations of each other gives permutations. */
  lemma {:induction false} MapPermutation<A, B>(p: seq<A>, q: seq<A>, f: A -> B)
    requires multiset(p) == multiset(q)
    ensures multiset(MapSeq(p, f)) == multiset(MapSeq(q, f))
  {
    if p == [] {
      assert |q| == |multiset(q)| == 0;
    } else {
      var n := |p| - 1;
      assert p[n] in multiset(q);
      var j :| 0 <= j < |q| && q[j] == p[n];
      RemoveMatching(p, q, j);
      MapPermutation(p[..n], q[..j] + q[j + 1..], f);
      MapRemove(p, n, f);
      MapRemove(q, j, f);
      assert p[..n] + p[n + 1..] == p[..n];
    }
  }

  /** The multiset of a column depends only on the multiset of the pairs. */
  lemma ColumnsOfPermutation(p: seq<(int, int)>, q: seq<(int, int)>)
    requires multiset(p) == multiset(q)
    ensures multiset(Firsts(p)) == multiset(Firsts(q))
    ensures multiset(Seconds(p)) == multiset(Seconds(q))
  {
    var first := (x: (int, int)) => x.0;
    var second := (x: (int, int)) => x.1;
    MapPermutation(p, q, first);
    MapPermutation(p, q, second);
    assert Firsts(p) == MapSeq(p, first) && Firsts(q) == MapSeq(q, first);
    assert Seconds(p) == MapSeq(p, second) && Seconds(q) == MapSeq(q, second);
  }

  /** Reordering the input lines does not change the answer. */
  lemma PermutationInvariant(p: seq<(int, int)>, q: seq<(int, int)>)
    requires multiset(p) == multiset(q)
    ensures TotalDistance(p) == TotalDistance(q)
  {
    ColumnsOfPermutation(p, q);
    SortSorts(Firsts(p));
    SortSorts(Firsts(q));
    SortSorts(Seconds(p));
    SortSorts(Seconds(q));
    SortedUnique(Sort(Firsts(p)), Sort(Firsts(q)));
    SortedUnique(Sort(Seconds(p)), Sort(Seconds(q)));
  }
}
