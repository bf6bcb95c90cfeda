/**
  Bridge repair (src/bin/07.rs): each calibration line has a target and a
  list of operands; the line counts when some choice of `+` and `*` between
  consecutive operands, evaluated strictly left to right, gives the target.
  The nom grammar that reads the lines is not part of this model; the
  functions here take the parsed `(target, operands)` pairs.
 */
module BridgeRepair {
  import opened Common

  datatype Operation = Plus | Mult

  function Apply(op: Operation, a: nat, b: nat): nat
  {
    match op
    case Plus => a + b
    case Mult => a * b
  }

  /** One element of the zipped iterator: an operand window and its operator. */
  type Step = ((nat, nat), Operation)

  /**
    `operations_folder`: the first step combines both operands of its window,
    every later step combines the accumulator with the window's second operand.
   */
  function OperationsFolder(acc: Option<nat>, step: Step): (r: Option<nat>)
    ensures r.Some?
    ensures acc.None? ==> r.value == Apply(step.1, step.0.0, step.0.1)
    ensures acc.Some? ==> r.value == Apply(step.1, acc.value, step.0.1)
  {
    match (acc, step)
    case (None, ((a, b), Plus)) => Some(a + b)
    case (None, ((a, b), Mult)) => Some(a * b)
    case (Some(acc), ((_, b), Plus)) => Some(acc + b)
    case (Some(acc), ((_, b), Mult)) => Some(acc * b)
  }

  /** `Iterator::fold(None, operations_folder)`. */
  function Fold(steps: seq<Step>): (r: Option<nat>)
    ensures r.None? <==> steps == []
  {
    if steps == [] then None else OperationsFolder(Fold(steps[..|steps| - 1]), steps[|steps| - 1])
  }

  /** Number of `tuple_windows` pairs of the operand list. */
  function WindowCount(nums: seq<nat>): nat
  {
    if |nums| == 0 then 0 else |nums| - 1
  }

  /** `tuple_windows` zipped with one operator sequence. */
  function Steps(nums: seq<nat>, ops: seq<Operation>): (r: seq<Step>)
    requires |ops| == WindowCount(nums)
    ensures |r| == |ops|
  {
    seq(|ops|, i requires 0 <= i < |ops| => ((nums[i], nums[i + 1]), ops[i]))
  }

  /** Reference semantics: `n0 op1 n1 op2 n2 ...` evaluated left to right, without precedence. */
  function EvalLeft(nums: seq<nat>, ops: seq<Operation>): nat
    requires |nums| >= 1 && |ops| == |nums| - 1
  {
    if ops == [] then nums[0]
    else Apply(ops[|ops| - 1], EvalLeft(nums[..|nums| - 1], ops[..|ops| - 1]), nums[|nums| - 1])
  }

  /** Folding the zipped windows is left-to-right evaluation. */
  lemma {:induction false} FoldIsEvalLeft(nums: seq<nat>, ops: seq<Operation>)
    requires |nums| >= 2 && |ops| == |nums| - 1
    ensures Fold(Steps(nums, ops)) == Some(EvalLeft(nums, ops))
  {
    var steps := Steps(nums, ops);
    if |ops| == 1 {
      assert steps[..0] == [];
    } else {
      var nums' := nums[..|nums| - 1];
      var ops' := ops[..|ops| - 1];
      assert steps[..|steps| - 1] == Steps(nums', ops');
      FoldIsEvalLeft(nums', ops');
    }
  }

  function Pow2(n: nat): nat
  {
    if n == 0 then 1 else 2 * Pow2(n - 1)
  }

  /**
    `get_all_operations`: the operator sequences of length `n`. The itertools
    pipeline enumerates them in another order, which no caller observes.
   */
  function AllOps(n: nat): (r: seq<seq<Operation>>)
    ensures |r| == Pow2(n)
    ensures forall i :: 0 <= i < |r| ==> |r[i]| == n
  {
    if n == 0 then [[]]
    else
      var prev := AllOps(n - 1);
      seq(|prev|, i requires 0 <= i < |prev| => prev[i] + [Plus]) +
      seq(|prev|, i requires 0 <= i < |prev| => prev[i] + [Mult])
  }

  /** Every operator sequence of length `n` is enumerated. */
  lemma {:induction false} AllOpsComplete(n: nat, ops: seq<Operation>)
    requires |ops| == n
    ensures ops in AllOps(n)
  {
    var r := AllOps(n);
    if n == 0 {
      assert ops == [];
    } else {
      var prev := AllOps(n - 1);
      AllOpsComplete(n - 1, ops[..n - 1]);
      var k :| 0 <= k < |prev| && prev[k] == ops[..n - 1];
      assert ops == prev[k] + [ops[n - 1]];
      if ops[n - 1] == Plus {
        assert r[k] == ops;
      } else {
        assert r[|prev| + k] == ops;
      }
    }
  }

  /** No operator sequence is enumerated twice, so there are exactly 2^n of them. */
  lemma {:induction false} AllOpsDistinct(n: nat)
    ensures forall i, j :: 0 <= i < j < |AllOps(n)| ==> AllOps(n)[i] != AllOps(n)[j]
  {
    if n > 0 {
      AllOpsDistinct(n - 1);
      var r := AllOps(n);
      var prev := AllOps(n - 1);
      forall i, j | 0 <= i < j < |r| ensures r[i] != r[j] {
        if j < |prev| {
          assert r[i][..n - 1] == prev[i] && r[j][..n - 1] == prev[j];
        } else if i >= |prev| {
          assert r[i][..n - 1] == prev[i - |prev|] && r[j][..n - 1] == prev[j - |prev|];
        } else {
          assert r[i][n - 1] == Plus && r[j][n - 1] == Mult;
        }
      }
    }
  }

  /** Some operator choice makes the operands evaluate to the target. */
  ghost predicate Solvable(target: nat, nums: seq<nat>)
  {
    |nums| >= 2 && exists ops :: |ops| == |nums| - 1 && EvalLeft(nums, ops) == target
  }

  /** The `filter_map(fold).any(== target)` search over a list of operator sequences. */
  function AnyHit(target: nat, nums: seq<nat>, candidates: seq<seq<Operation>>): (r: bool)
    requires forall i :: 0 <= i < |candidates| ==> |candidates[i]| == WindowCount(nums)
    ensures r <==> exists i :: 0 <= i < |candidates| && Fold(Steps(nums, candidates[i])) == Some(target)
  {
    if candidates == [] then false
    else Fold(Steps(nums, candidates[0])) == Some(target) || AnyHit(target, nums, candidates[1..])
  }

  /** Searching all operator sequences finds the target exactly when the line is solvable. */
  lemma SearchFindsSolvable(target: nat, nums: seq<nat>)
    ensures AnyHit(target, nums, AllOps(WindowCount(nums))) <==> Solvable(target, nums)
  {
    var candidates := AllOps(WindowCount(nums));
    if |nums| < 2 {
      assert candidates == [[]];
      assert Fold(Steps(nums, candidates[0])) == None;
    } else {
      if AnyHit(target, nums, candidates) {
        var i :| 0 <= i < |candidates| && Fold(Steps(nums, candidates[i])) == Some(target);
        FoldIsEvalLeft(nums, candidates[i]);
      }
      if Solvable(target, nums) {
        SolvableIsFound(target, nums);
      }
    }
  }

  lemma SolvableIsFound(target: nat, nums: seq<nat>)
    requires |nums| >= 2 && Solvable(target, nums)
    ensures AnyHit(target, nums, AllOps(WindowCount(nums)))
  {
    var candidates := AllOps(WindowCount(nums));
    var ops :| |ops| == |nums| - 1 && EvalLeft(nums, ops) == target;
    FoldIsEvalLeft(nums, ops);
    AllOpsComplete(|ops|, ops);
    var i :| 0 <= i < |candidates| && candidates[i] == ops;
    assert Fold(Steps(nums, candidates[i])) == Some(target);
  }

  /** What one calibration line adds to `part_one`. */
  function LineValue(target: nat, nums: seq<nat>): (r: nat)
    ensures r == if Solvable(target, nums) then target else 0
  {
    SearchFindsSolvable(target, nums);
    if AnyHit(target, nums, AllOps(WindowCount(nums))) then target else 0
  }

  /** A line with fewer than two operands never counts: the fold over no windows is `None`. */
  lemma ShortLineContributesNothing(target: nat, nums: seq<nat>)
    requires |nums| < 2
    ensures LineValue(target, nums) == 0
  {
  }

  ghost function SolvableTotal(lines: seq<(nat, seq<nat>)>): nat
  {
    if lines == [] then 0
    else
      var (target, nums) := lines[|lines| - 1];
      SolvableTotal(lines[..|lines| - 1]) + (if Solvable(target, nums) then target else 0)
  }

  /** `part_one` on the parsed lines: the sum of the targets of the solvable lines. */
  function PartOne(lines: seq<(nat, seq<nat>)>): (r: nat)
    ensures r == SolvableTotal(lines)
  {
    if lines == [] then 0
    else PartOne(lines[..|lines| - 1]) + LineValue(lines[|lines| - 1].0, lines[|lines| - 1].1)
  }
}
