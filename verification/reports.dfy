/**
  Red-nosed reports (src/bin/02.rs): a report is a list of levels; it is safe
  when the levels move in one direction by 1 to 3 at every step. Part two
  also accepts a report that becomes safe after dropping a single level.
  The nom grammar that reads the reports is not part of this model: the
  functions here take the parsed reports.
 */
module RedNosedReports {
  import opened Common

  /** `are_all_elements_equal`: false on the empty slice, else every element equals the head. */
  function AreAllElementsEqual<T(==)>(elems: seq<T>): (r: bool)
    ensures r <==> |elems| >= 1 && forall i :: 0 <= i < |elems| ==> elems[i] == elems[0]
  {
    if elems == [] then false
    else
      var r := forall x :: x in elems[1..] ==> x == elems[0];
      TailAllEqual(elems);
      r
  }

  lemma TailAllEqual<T>(elems: seq<T>)
    requires elems != []
    ensures (forall x :: x in elems[1..] ==> x == elems[0]) <==> forall i :: 0 <= i < |elems| ==> elems[i] == elems[0]
  {
    if forall x :: x in elems[1..] ==> x == elems[0] {
      forall i | 1 <= i < |elems| ensures elems[i] == elems[0] {
        assert elems[i] == elems[1..][i - 1] && elems[1..][i - 1] in elems[1..];
      }
    }
  }

  /** The `windows(2)` differences `p[0] - p[1]`, as i64 values. */
  function Diffs(data: seq<int>): (d: seq<int>)
    ensures |d| == if |data| == 0 then 0 else |data| - 1
    ensures forall i :: 0 <= i < |d| ==> d[i] == data[i] - data[i + 1]
  {
    if |data| < 2 then [] else seq(|data| - 1, i requires 0 <= i < |data| - 1 => data[i] - data[i + 1])
  }

  function Signum(x: int): int { if x > 0 then 1 else if x < 0 then -1 else 0 }

  function Signs(d: seq<int>): (s: seq<int>)
    ensures |s| == |d| && forall i :: 0 <= i < |d| ==> s[i] == Signum(d[i])
  {
    seq(|d|, i requires 0 <= i < |d| => Signum(d[i]))
  }

  /** `accumulate_safe`: adds one to `acc` when the report is safe. */
  function AccumulateSafe(acc: nat, data: seq<int>): nat
  {
    var diffs := Diffs(data);
    if !AreAllElementsEqual(Signs(diffs)) then acc
    else if !(forall x :: x in diffs ==> 1 <= Abs(x) <= 3) then acc
    else acc + 1
  }

  /** Reference definition: strictly decreasing or strictly increasing by steps of 1 to 3. */
  predicate IsSafe(data: seq<int>)
  {
    |data| >= 2 &&
    (Decreasing(data) || Increasing(data))
  }

  predicate Decreasing(data: seq<int>)
  {
    forall i :: 0 <= i < |data| - 1 ==> 1 <= data[i] - data[i + 1] <= 3
  }

  predicate Increasing(data: seq<int>)
  {
    forall i :: 0 <= i < |data| - 1 ==> 1 <= data[i + 1] - data[i] <= 3
  }

  /** `accumulate_safe` adds exactly one for a safe report and nothing otherwise. */
  lemma AccumulateSafeCounts(acc: nat, data: seq<int>)
    ensures AccumulateSafe(acc, data) == acc + (if IsSafe(data) then 1 else 0)
  {
    var d := Diffs(data);
    var s := Signs(d);
    var within := forall x :: x in d ==> 1 <= Abs(x) <= 3;
    if IsSafe(data) {
      if Decreasing(data) {
        forall i | 0 <= i < |s| ensures s[i] == 1 && 1 <= Abs(d[i]) <= 3 {
          assert d[i] == data[i] - data[i + 1];
        }
      } else {
        assert Increasing(data);
        forall i | 0 <= i < |s| ensures s[i] == -1 && 1 <= Abs(d[i]) <= 3 {
          assert d[i] == data[i] - data[i + 1];
        }
      }
      assert AreAllElementsEqual(s);
      forall x | x in d ensures 1 <= Abs(x) <= 3 {
        var i :| 0 <= i < |d| && d[i] == x;
      }
    } else if AreAllElementsEqual(s) && within {
      assert |d| >= 1;
      assert d[0] in d;
      if s[0] == 1 {
        forall i | 0 <= i < |data| - 1 ensures 1 <= data[i] - data[i + 1] <= 3 {
          assert d[i] in d && s[i] == 1;
        }
        assert Decreasing(data);
      } else {
        forall i | 0 <= i < |data| - 1 ensures 1 <= data[i + 1] - data[i] <= 3 {
          assert d[i] in d && s[i] == -1;
        }
        assert Increasing(data);
      }
      assert false;
    }
  }

  /** A report with fewer than two levels is never safe. */
  lemma ShortReportUnsafe(acc: nat, data: seq<int>)
    requires |data| < 2
    ensures AccumulateSafe(acc, data) == acc
  {
    AccumulateSafeCounts(acc, data);
  }

  function Reverse<T>(s: seq<T>): (r: seq<T>)
    ensures |r| == |s| && forall i :: 0 <= i < |s| ==> r[i] == s[|s| - 1 - i]
  {
    seq(|s|, i requires 0 <= i < |s| => s[|s| - 1 - i])
  }

  lemma DecreasingReversed(data: seq<int>)
    ensures Decreasing(data) <==> Increasing(Reverse(data))
  {
    var r := Reverse(data);
    var n := |data|;
    if Decreasing(data) {
      forall i | 0 <= i < n - 1 ensures 1 <= r[i + 1] - r[i] <= 3 {
        assert r[i + 1] - r[i] == data[n - 2 - i] - data[n - 1 - i];
      }
    }
    if Increasing(r) {
      forall i | 0 <= i < n - 1 ensures 1 <= data[i] - data[i + 1] <= 3 {
        assert data[i] - data[i + 1] == r[n - 1 - i] - r[n - 2 - i];
      }
    }
  }

  lemma IncreasingReversed(data: seq<int>)
    ensures Increasing(data) <==> Decreasing(Reverse(data))
  {
    var r := Reverse(data);
    var n := |data|;
    if Increasing(data) {
      forall i | 0 <= i < n - 1 ensures 1 <= r[i] - r[i + 1] <= 3 {
        assert r[i] - r[i + 1] == data[n - 1 - i] - data[n - 2 - i];
      }
    }
    if Decreasing(r) {
      forall i | 0 <= i < n - 1 ensures 1 <= data[i + 1] - data[i] <= 3 {
        assert data[i + 1] - data[i] == r[n - 2 - i] - r[n - 1 - i];
      }
    }
  }

  /** Safety does not depend on the direction the report is read in. */
  lemma SafeReversed(data: seq<int>)
    ensures AccumulateSafe(0, Reverse(data)) == AccumulateSafe(0, data)
  {
    AccumulateSafeCounts(0, data);
    AccumulateSafeCounts(0, Reverse(data));
    DecreasingReversed(data);
    IncreasingReversed(data);
  }

  /** Number of safe reports, by the reference definition. */
  function CountSafe(reports: seq<seq<int>>): nat
  {
    if reports == [] then 0
    else CountSafe(reports[..|reports| - 1]) + (if IsSafe(reports[|reports| - 1]) then 1 else 0)
  }

  /** `part_one`: the fold of `accumulate_safe` counts the safe reports. */
  function PartOne(reports: seq<seq<int>>): (r: nat)
    ensures r == CountSafe(reports)
    ensures r <= |reports|
  {
    if reports == [] then 0
    else
      var acc := PartOne(reports[..|reports| - 1]);
      AccumulateSafeCounts(acc, reports[|reports| - 1]);
      AccumulateSafe(acc, reports[|reports| - 1])
  }

  /** `Vec::remove(i)` on a clone. */
  function Remove<T>(s: seq<T>, i: nat): (r: seq<T>)
    requires i < |s|
    ensures |r| == |s| - 1
  {
    s[..i] + s[i + 1..]
  }

  /** The inner fold of `part_two` over the first `n` removals. */
  function BestRemoval(report: seq<int>, n: nat): (r: nat)
    requires n <= |report|
    ensures r == (if exists i :: 0 <= i < n && IsSafe(Remove(report, i)) then 1 else 0)
  {
    if n == 0 then 0
    else
      var prev := BestRemoval(report, n - 1);
      AccumulateSafeCounts(0, Remove(report, n - 1));
      Max(prev, AccumulateSafe(0, Remove(report, n - 1)))
  }

  /** What one report adds in `part_two`: 1 when safe or safe after removing one level. */
  function Dampened(report: seq<int>): (r: nat)
    ensures r == (if IsSafe(report) || exists i :: 0 <= i < |report| && IsSafe(Remove(report, i)) then 1 else 0)
  {
    AccumulateSafeCounts(0, report);
    Max(BestRemoval(report, |report|), AccumulateSafe(0, report))
  }

  /** `part_two`: the fold over all reports. */
  function PartTwo(reports: seq<seq<int>>): (r: nat)
    ensures r >= PartOne(reports)
    ensures r <= |reports|
  {
    if reports == [] then 0
    else PartTwo(reports[..|reports| - 1]) + Dampened(reports[|reports| - 1])
  }
}
