/**
  Print queue (src/bin/05.rs): page-ordering rules `a|b` say that page `a`
  must be printed before page `b`; an update (a list of pages) is valid when
  no page comes after a page it has to precede. Part one adds up the middle
  pages of the valid updates; part two repairs each invalid update by
  repeated swap passes and adds up the middle pages of the repaired ones.
  The rules are a map from a page to the pages it must precede, in input
  order.
 */
module PrintQueue {
  import opened Common
  import opened Text

  type Rules = map<nat, seq<nat>>

  /** `str::parse::<u32>`: an unsigned decimal that fits in 32 bits. */
  function ParseU32(s: string): (r: Option<nat>)
    ensures r.Some? ==> r.value < 0x1_0000_0000 && ParseUnsigned(s) == r
    ensures r.None? ==> ParseUnsigned(s).None? || ParseUnsigned(s).value >= 0x1_0000_0000
  {
    match ParseUnsigned(s)
    case Some(v) => if v < 0x1_0000_0000 then Some(v) else None
    case None => None
  }

  /** `line.trim().is_empty()`. */
  predicate IsBlank(line: string)
  {
    Trim(line) == []
  }

  /** A rule line: the trimmed line split at its first '|', both halves pages. */
  function ParseRule(line: string): Option<(nat, nat)>
  {
    match SplitOnce(Trim(line), '|')
    case None => None
    case Some((a, b)) =>
      match (ParseU32(a), ParseU32(b))
      case (Some(x), Some(y)) => Some((x, y))
      case _ => None
  }

  /** The pages of the trimmed update line; pieces that are not pages are skipped. */
  function ParseUpdate(line: string): (r: seq<nat>)
  {
    PagesOf(Split(Trim(line), ','))
  }

  function PagesOf(pieces: seq<string>): (r: seq<nat>)
    ensures |r| <= |pieces|
  {
    if pieces == [] then []
    else
      var init := PagesOf(pieces[..|pieces| - 1]);
      match ParseU32(pieces[|pieces| - 1])
      case Some(v) => init + [v]
      case None => init
  }

  /**
    What `parse` reads from one line: whether it is blank, the rule it
    states (first section) and the pages it lists (second section).
   */
  datatype Line = Line(blank: bool, rule: Option<(nat, nat)>, pages: seq<nat>)

  function ReadLine(line: string): Line
  {
    Line(IsBlank(line), ParseRule(line), ParseUpdate(line))
  }

  function ReadLines(lines: seq<string>): (r: seq<Line>)
    ensures |r| == |lines|
  {
    seq(|lines|, i requires 0 <= i < |lines| => ReadLine(lines[i]))
  }

  /** Index of the first blank line, or the number of lines when there is none. */
  function FirstBlank(ls: seq<Line>): (k: nat)
    ensures k <= |ls|
  {
    if ls == [] || ls[0].blank then 0 else 1 + FirstBlank(ls[1..])
  }

  /** No line before `FirstBlank` is blank, and the line at it is. */
  lemma {:induction false} FirstBlankIsFirst(ls: seq<Line>)
    ensures forall j :: 0 <= j < FirstBlank(ls) ==> !ls[j].blank
    ensures FirstBlank(ls) < |ls| ==> ls[FirstBlank(ls)].blank
  {
    if ls != [] && !ls[0].blank {
      FirstBlankIsFirst(ls[1..]);
      forall j | 1 <= j < FirstBlank(ls) ensures !ls[j].blank {
        assert ls[j] == ls[1..][j - 1];
      }
    }
  }

  /** Record rule `a|b`: append `b` to the list of `a`, creating it if absent. */
  function AddRule(orders: Rules, a: nat, b: nat): (r: Rules)
    ensures r.Keys == orders.Keys + {a}
    ensures r[a] == (if a in orders then orders[a] else []) + [b]
    ensures forall x :: x in orders && x != a ==> r[x] == orders[x]
  {
    orders[a := (if a in orders then orders[a] else []) + [b]]
  }

  /** The loop body of `parse` on a line of the first section. */
  function AddRuleLine(orders: Rules, l: Line): Rules
  {
    match l.rule
    case Some((a, b)) => AddRule(orders, a, b)
    case None => orders
  }

  /** The rule map built from the lines of the first section; malformed lines are ignored. */
  function RulesOf(ls: seq<Line>): Rules
  {
    if ls == [] then map[] else AddRuleLine(RulesOf(ls[..|ls| - 1]), ls[|ls| - 1])
  }

  /** `b` is listed under `a` exactly when some line states the rule `a|b`. */
  lemma {:induction false} RulesOfMember(ls: seq<Line>, a: nat, b: nat)
    ensures (a in RulesOf(ls) && b in RulesOf(ls)[a]) <==> exists k :: 0 <= k < |ls| && ls[k].rule == Some((a, b))
  {
    if ls != [] {
      var init := ls[..|ls| - 1];
      RulesOfMember(init, a, b);
      assert forall k :: 0 <= k < |init| ==> init[k] == ls[k];
      if exists k :: 0 <= k < |ls| && ls[k].rule == Some((a, b)) {
        var k :| 0 <= k < |ls| && ls[k].rule == Some((a, b));
        if k < |init| {
          assert init[k].rule == Some((a, b));
        }
      }
    }
  }

  /** The updates listed by the lines of the second section, one per line. */
  function UpdatesOf(ls: seq<Line>): (r: seq<seq<nat>>)
    ensures |r| == |ls|
  {
    if ls == [] then [] else UpdatesOf(ls[..|ls| - 1]) + [ls[|ls| - 1].pages]
  }

  /**
    What `parse` produces: the rules of the lines before the first blank
    line, and the updates of the lines after it up to the next blank line.
   */
  function Sections(ls: seq<Line>): (Rules, seq<seq<nat>>)
  {
    var k := FirstBlank(ls);
    var rest := if k < |ls| then ls[k + 1..] else [];
    (RulesOf(ls[..k]), UpdatesOf(rest[..FirstBlank(rest)]))
  }

  function ParseSpec(lines: seq<string>): (Rules, seq<seq<nat>>)
  {
    Sections(ReadLines(lines))
  }

  /**
    The invariant of `parse`'s loop after `i` lines: before the first blank
    line the rules read so far; after it, all rules and the updates read so far.
   */
  ghost predicate Collected(ls: seq<Line>, i: nat, orders: Rules, updates: seq<seq<nat>>, changedSection: bool)
  {
    var k := FirstBlank(ls);
    if !changedSection then
      i <= k && orders == RulesOf(ls[..i]) && updates == []
    else
      k < i <= |ls| && i - k - 1 <= FirstBlank(ls[k + 1..])
      && orders == RulesOf(ls[..k]) && updates == UpdatesOf(ls[k + 1..i])
  }

  lemma CollectedRule(ls: seq<Line>, i: nat, orders: Rules, updates: seq<seq<nat>>)
    requires Collected(ls, i, orders, updates, false) && i < |ls| && !ls[i].blank
    ensures Collected(ls, i + 1, AddRuleLine(orders, ls[i]), updates, false)
  {
    FirstBlankIsFirst(ls);
    assert ls[..i + 1][..i] == ls[..i];
  }

  lemma CollectedBlank(ls: seq<Line>, i: nat, orders: Rules, updates: seq<seq<nat>>)
    requires Collected(ls, i, orders, updates, false) && i < |ls| && ls[i].blank
    ensures Collected(ls, i + 1, orders, updates, true)
  {
    FirstBlankIsFirst(ls);
  }

  lemma CollectedUpdate(ls: seq<Line>, i: nat, orders: Rules, updates: seq<seq<nat>>)
    requires Collected(ls, i, orders, updates, true) && i < |ls| && !ls[i].blank
    ensures Collected(ls, i + 1, orders, updates + [ls[i].pages], true)
  {
    var k := FirstBlank(ls);
    var rest := ls[k + 1..];
    FirstBlankIsFirst(rest);
    assert ls[i] == rest[i - k - 1];
    assert ls[k + 1..i + 1] == ls[k + 1..i] + [ls[i]];
    UpdatesOfSnoc(ls[k + 1..i], ls[i]);
  }

  /** One more line of the second section adds its update at the end. */
  lemma UpdatesOfSnoc(ls: seq<Line>, line: Line)
    ensures UpdatesOf(ls + [line]) == UpdatesOf(ls) + [line.pages]
  {
    assert (ls + [line])[..|ls|] == ls;
  }

  /** The `break` at the second blank line: both sections are complete. */
  lemma CollectedStop(ls: seq<Line>, i: nat, orders: Rules, updates: seq<seq<nat>>)
    requires Collected(ls, i, orders, updates, true) && i < |ls| && ls[i].blank
    ensures (orders, updates) == Sections(ls)
  {
    var k := FirstBlank(ls);
    var rest := ls[k + 1..];
    FirstBlankIsFirst(rest);
    assert rest[i - k - 1] == ls[i];
    assert rest[..i - k - 1] == ls[k + 1..i];
  }

  /** The end of the input: both sections are complete. */
  lemma CollectedEnd(ls: seq<Line>, orders: Rules, updates: seq<seq<nat>>, changedSection: bool)
    requires Collected(ls, |ls|, orders, updates, changedSection)
    ensures (orders, updates) == Sections(ls)
  {
    var k := FirstBlank(ls);
    if changedSection {
      var rest := ls[k + 1..];
      assert rest[..|rest|] == ls[k + 1..|ls|];
    } else {
      assert ls[..|ls|] == ls;
    }
  }

  /** The variables of `parse`'s loop; `stopped` is the `break` at the second blank line. */
  datatype ParseState = ParseState(orders: Rules, updates: seq<seq<nat>>, changedSection: bool, stopped: bool)

  /** One iteration of `parse`'s loop. */
  function Step(st: ParseState, l: Line): ParseState
  {
    if st.stopped then st
    else if !st.changedSection then
      if l.blank then st.(changedSection := true) else st.(orders := AddRuleLine(st.orders, l))
    else if l.blank then st.(stopped := true)
    else st.(updates := st.updates + [l.pages])
  }

  /** The loop state after the given lines. */
  function Run(ls: seq<Line>): ParseState
  {
    if ls == [] then ParseState(map[], [], false, false) else Step(Run(ls[..|ls| - 1]), ls[|ls| - 1])
  }

  lemma RunStep(ls: seq<Line>, i: nat)
    requires i < |ls|
    ensures Run(ls[..i + 1]) == Step(Run(ls[..i]), ls[i])
  {
    assert ls[..i + 1][..i] == ls[..i];
  }

  /**
    The loop after `i` lines: still running with the `Collected` invariant,
    or stopped with both sections complete.
   */
  lemma {:induction false} RunCollected(ls: seq<Line>, i: nat)
    requires i <= |ls|
    ensures var st := Run(ls[..i]);
      if st.stopped then (st.orders, st.updates) == Sections(ls)
      else Collected(ls, i, st.orders, st.updates, st.changedSection)
  {
    if i == 0 {
      assert ls[..0] == [];
    } else {
      RunCollected(ls, i - 1);
      RunStep(ls, i - 1);
      var st := Run(ls[..i - 1]);
      if !st.stopped {
        if !st.changedSection {
          if ls[i - 1].blank {
            CollectedBlank(ls, i - 1, st.orders, st.updates);
          } else {
            CollectedRule(ls, i - 1, st.orders, st.updates);
          }
        } else if ls[i - 1].blank {
          CollectedStop(ls, i - 1, st.orders, st.updates);
        } else {
          CollectedUpdate(ls, i - 1, st.orders, st.updates);
        }
      }
    }
  }

  /** The loop computes the two sections, whether it breaks or reaches the end. */
  lemma RunSections(ls: seq<Line>)
    ensures (Run(ls).orders, Run(ls).updates) == Sections(ls)
  {
    RunCollected(ls, |ls|);
    assert ls[..|ls|] == ls;
    var st := Run(ls);
    if !st.stopped {
      CollectedEnd(ls, st.orders, st.updates, st.changedSection);
    }
  }

  /** `parse`: one pass over the lines with a flag for the second section. */
  method Parse(lines: seq<string>) returns (orders: Rules, updates: seq<seq<nat>>)
    ensures (orders, updates) == ParseSpec(lines)
  {
    ghost var ls := ReadLines(lines);
    orders := map[];
    updates := [];
    var changedSection := false;
    var i := 0;
    while i < |lines|
      invariant i <= |lines|
      invariant Run(ls[..i]) == ParseState(orders, updates, changedSection, false)
    {
      var line := lines[i];
      assert ls[i] == ReadLine(line);
      RunStep(ls, i);
      if !changedSection {
        if IsBlank(line) {
          changedSection := true;
          i := i + 1;
          continue;
        }
        match ParseRule(line)
        case Some((a, b)) =>
          orders := AddRule(orders, a, b);
        case None =>
      } else {
        if IsBlank(line) {
          RunCollected(ls, i + 1);
          return;
        }
        updates := updates + [ParseUpdate(line)];
      }
      i := i + 1;
    }
    assert ls[..i] == ls;
    RunSections(ls);
  }

  /** Reference definition: no page comes after a page it must precede. */
  predicate IsValid(update: seq<nat>, orders: Rules)
  {
    forall i, j :: 0 <= j < i < |update| && update[i] in orders ==> update[j] !in orders[update[i]]
  }

  /** `update_is_valid`: nested loops with an early `return false`. */
  method UpdateIsValid(update: seq<nat>, orders: Rules) returns (valid: bool)
    ensures valid <==> IsValid(update, orders)
  {
    for i := 0 to |update|
      invariant forall i', j :: 0 <= j < i' < i && update[i'] in orders ==> update[j] !in orders[update[i']]
    {
      var u := update[i];
      if u in orders {
        var order := orders[u];
        for k := 0 to |order|
          invariant forall k' :: 0 <= k' < k ==> order[k'] !in update[..i]
        {
          if order[k] in update[..i] {
            var j :| 0 <= j < i && update[..i][j] == order[k];
            assert update[j] in orders[update[i]];
            return false;
          }
        }
        forall j | 0 <= j < i ensures update[j] !in orders[update[i]] {
          assert update[j] == update[..i][j];
        }
      }
    }
    return true;
  }

  /** An empty update is always valid, so an invalid one has a middle page. */
  lemma InvalidNotEmpty(update: seq<nat>, orders: Rules)
    requires !IsValid(update, orders)
    ensures |update| >= 2
  {
  }

  /** `iter().position`: the index of the first occurrence of `x`. */
  function IndexOf(s: seq<nat>, x: nat): (r: Option<nat>)
    ensures r.Some? ==> r.value < |s| && s[r.value] == x && x !in s[..r.value]
    ensures r.None? <==> x !in s
  {
    if s == [] then None
    else if s[0] == x then Some(0)
    else match IndexOf(s[1..], x)
      case None => None
      case Some(p) =>
        assert s[..p + 1] == [s[0]] + s[1..][..p];
        Some(p + 1)
  }

  /** `Vec::swap`. */
  function Swap(s: seq<nat>, p: nat, q: nat): (r: seq<nat>)
    requires p < |s| && q < |s|
    ensures |r| == |s| && multiset(r) == multiset(s)
    ensures r[p] == s[q] && r[q] == s[p] && forall k :: 0 <= k < |s| && k != p && k != q ==> r[k] == s[k]
  {
    s[p := s[q]][q := s[p]]
  }

  /** One step of the inner loop: swap the first earlier `o` with position `i`. */
  function SwapFirst(result: seq<nat>, i: nat, o: nat): (r: seq<nat>)
    requires i < |result|
    ensures |r| == |result|
  {
    match IndexOf(result[..i], o)
    case Some(p) => Swap(result, p, i)
    case None => result
  }

  /** The inner loop over the pages `os` that page `update[i]` must precede. */
  function SwapEach(result: seq<nat>, i: nat, os: seq<nat>): (r: seq<nat>)
    requires i < |result|
    ensures |r| == |result|
  {
    if os == [] then result else SwapFirst(SwapEach(result, i, os[..|os| - 1]), i, os[|os| - 1])
  }

  function OrderOf(orders: Rules, u: nat): seq<nat>
  {
    if u in orders then orders[u] else []
  }

  /** The outer loop of `sub_reorder_update` over the first `n` positions of the original update. */
  function SubReorderFrom(update: seq<nat>, orders: Rules, n: nat): (r: seq<nat>)
    requires n <= |update|
    ensures |r| == |update|
  {
    if n == 0 then update
    else SwapEach(SubReorderFrom(update, orders, n - 1), n - 1, OrderOf(orders, update[n - 1]))
  }

  /** One pass of `sub_reorder_update`. */
  function SubReorder(update: seq<nat>, orders: Rules): (r: seq<nat>)
    ensures |r| == |update|
  {
    SubReorderFrom(update, orders, |update|)
  }

  lemma {:induction false} SwapEachPermutes(result: seq<nat>, i: nat, os: seq<nat>)
    requires i < |result|
    ensures multiset(SwapEach(result, i, os)) == multiset(result)
  {
    if os != [] {
      SwapEachPermutes(result, i, os[..|os| - 1]);
    }
  }

  lemma {:induction false} SubReorderFromPermutes(update: seq<nat>, orders: Rules, n: nat)
    requires n <= |update|
    ensures multiset(SubReorderFrom(update, orders, n)) == multiset(update)
  {
    if n > 0 {
      SubReorderFromPermutes(update, orders, n - 1);
      SwapEachPermutes(SubReorderFrom(update, orders, n - 1), n - 1, OrderOf(orders, update[n - 1]));
    }
  }

  /** A pass only swaps: the result is a permutation of the update. */
  lemma SubReorderPermutes(update: seq<nat>, orders: Rules)
    ensures multiset(SubReorder(update, orders)) == multiset(update)
  {
    SubReorderFromPermutes(update, orders, |update|);
  }

  /** `sub_reorder_update`, swapping within a copy of the update. */
  method SubReorderUpdate(update: seq<nat>, orders: Rules) returns (result: seq<nat>)
    ensures result == SubReorder(update, orders)
  {
    result := update;
    for i := 0 to |update|
      invariant result == SubReorderFrom(update, orders, i)
    {
      var u := update[i];
      if u in orders {
        result := SwapEarlier(result, i, orders[u]);
      }
    }
  }

  /** The inner loop of `sub_reorder_update`: for each page `o` of `order`, swap an earlier `o` with position `i`. */
  method SwapEarlier(s: seq<nat>, i: nat, order: seq<nat>) returns (result: seq<nat>)
    requires i < |s|
    ensures result == SwapEach(s, i, order)
  {
    result := s;
    for j := 0 to |order|
      invariant |result| == |s|
      invariant result == SwapEach(s, i, order[..j])
    {
      assert order[..j + 1][..j] == order[..j];
      var p := IndexOf(result[..i], order[j]);
      if p.Some? {
        result := Swap(result, p.value, i);
      }
    }
    assert order[..|order|] == order;
  }

  /** Nothing earlier in a valid update has to move: `SwapEach` leaves it alone. */
  lemma {:induction false} SwapEachValid(update: seq<nat>, orders: Rules, i: nat, os: seq<nat>)
    requires i < |update|
    requires forall o :: o in os ==> o !in update[..i]
    ensures SwapEach(update, i, os) == update
  {
    if os != [] {
      var init := os[..|os| - 1];
      forall o | o in init ensures o !in update[..i] {
        assert o in os;
      }
      SwapEachValid(update, orders, i, init);
    }
  }

  lemma {:induction false} SubReorderFromValid(update: seq<nat>, orders: Rules, n: nat)
    requires n <= |update| && IsValid(update, orders)
    ensures SubReorderFrom(update, orders, n) == update
  {
    if n > 0 {
      SubReorderFromValid(update, orders, n - 1);
      var i := n - 1;
      forall o | o in OrderOf(orders, update[i]) ensures o !in update[..i] {
        forall j | 0 <= j < i ensures update[..i][j] != o {
          assert update[..i][j] == update[j];
        }
      }
      SwapEachValid(update, orders, i, OrderOf(orders, update[i]));
    }
  }

  /** A pass over a valid update changes nothing. */
  lemma SubReorderValid(update: seq<nat>, orders: Rules)
    requires IsValid(update, orders)
    ensures SubReorder(update, orders) == update
  {
    SubReorderFromValid(update, orders, |update|);
  }

  /**
    `reorder_update`, with at most `fuel` passes: `None` when the update is
    still invalid after that many passes (the source keeps looping).
   */
  function Reorder(update: seq<nat>, orders: Rules, fuel: nat): Option<seq<nat>>
    decreases fuel
  {
    if IsValid(update, orders) then Some(update)
    else if fuel == 0 then None
    else Reorder(SubReorder(update, orders), orders, fuel - 1)
  }

  /**
    A repaired update is valid and a permutation of the original, and a valid
    update is returned unchanged.
   */
  lemma {:induction false} ReorderSound(update: seq<nat>, orders: Rules, fuel: nat)
    ensures Reorder(update, orders, fuel).Some? ==>
      var fixed := Reorder(update, orders, fuel).value;
      IsValid(fixed, orders) && multiset(fixed) == multiset(update) && |fixed| == |update|
    ensures IsValid(update, orders) ==> Reorder(update, orders, fuel) == Some(update)
    decreases fuel
  {
    if !IsValid(update, orders) && fuel > 0 {
      ReorderSound(SubReorder(update, orders), orders, fuel - 1);
      SubReorderPermutes(update, orders);
    }
  }

  /** The loop of `reorder_update`: validity check, then one more pass. */
  method ReorderUpdate(update: seq<nat>, orders: Rules, fuel: nat) returns (r: Option<seq<nat>>)
    ensures r == Reorder(update, orders, fuel)
  {
    var result := update;
    var f := fuel;
    while true
      invariant Reorder(result, orders, f) == Reorder(update, orders, fuel)
      decreases f
    {
      var valid := UpdateIsValid(result, orders);
      if valid {
        return Some(result);
      }
      if f == 0 {
        return None;
      }
      result := SubReorderUpdate(result, orders);
      f := f - 1;
    }
  }

  function Middle(update: seq<nat>): nat
    requires update != []
  {
    update[|update| / 2]
  }

  /** The middle pages of the valid updates, added up. */
  function SumValid(orders: Rules, updates: seq<seq<nat>>): nat
    requires forall k :: 0 <= k < |updates| ==> updates[k] != []
  {
    if updates == [] then 0
    else
      var last := updates[|updates| - 1];
      SumValid(orders, updates[..|updates| - 1]) + (if IsValid(last, orders) then Middle(last) else 0)
  }

  /** The middle pages of the repaired invalid updates, added up; `None` if a repair runs out of fuel. */
  function SumReordered(orders: Rules, updates: seq<seq<nat>>, fuel: nat): Option<nat>
  {
    if updates == [] then Some(0)
    else
      var last := updates[|updates| - 1];
      match SumReordered(orders, updates[..|updates| - 1], fuel)
      case None => None
      case Some(sum) =>
        if IsValid(last, orders) then Some(sum)
        else match Reorder(last, orders, fuel)
          case None => None
          case Some(fixed) =>
            ReorderSound(last, orders, fuel);
            Some(sum + Middle(fixed))
  }

  /** Once a repair runs out of fuel, the whole sum is `None`. */
  lemma {:induction false} SumReorderedNone(orders: Rules, updates: seq<seq<nat>>, fuel: nat, k: nat)
    requires k <= |updates| && SumReordered(orders, updates[..k], fuel).None?
    ensures SumReordered(orders, updates, fuel).None?
    decreases |updates| - k
  {
    if k < |updates| {
      assert updates[..k + 1][..k] == updates[..k];
      SumReorderedNone(orders, updates, fuel, k + 1);
    } else {
      assert updates[..k] == updates;
    }
  }

  /** A valid update counts in part one only, an invalid one in part two only. */
  lemma {:induction false} PartsSplitUpdates(orders: Rules, updates: seq<seq<nat>>, fuel: nat)
    requires forall k :: 0 <= k < |updates| ==> IsValid(updates[k], orders)
    ensures SumReordered(orders, updates, fuel) == Some(0)
  {
    if updates != [] {
      PartsSplitUpdates(orders, updates[..|updates| - 1], fuel);
    }
  }

  /** The loop of `part_one` over the parsed updates. */
  method SumValidUpdates(orders: Rules, updates: seq<seq<nat>>) returns (sum: nat)
    requires forall k :: 0 <= k < |updates| ==> updates[k] != []
    ensures sum == SumValid(orders, updates)
  {
    sum := 0;
    for k := 0 to |updates|
      invariant sum == SumValid(orders, updates[..k])
    {
      assert updates[..k + 1][..k] == updates[..k];
      var update := updates[k];
      var valid := UpdateIsValid(update, orders);
      if valid {
        sum := sum + update[|update| / 2];
      }
    }
    assert updates[..|updates|] == updates;
  }

  /** The loop of `part_two` over the parsed updates. */
  method SumReorderedUpdates(orders: Rules, updates: seq<seq<nat>>, fuel: nat) returns (r: Option<nat>)
    ensures r == SumReordered(orders, updates, fuel)
  {
    var sum := 0;
    for k := 0 to |updates|
      invariant SumReordered(orders, updates[..k], fuel) == Some(sum)
    {
      assert updates[..k + 1][..k] == updates[..k];
      var update := updates[k];
      var valid := UpdateIsValid(update, orders);
      if valid {
        continue;
      }
      var fixed := ReorderUpdate(update, orders, fuel);
      if fixed.None? {
        SumReorderedNone(orders, updates, fuel, k + 1);
        return None;
      }
      ReorderSound(update, orders, fuel);
      sum := sum + fixed.value[|fixed.value| / 2];
    }
    assert updates[..|updates|] == updates;
    r := Some(sum);
  }

  /** `part_one`; every update must be non-empty, since the middle of a valid one is read. */
  method PartOne(input: string) returns (r: Option<nat>)
    requires forall k :: 0 <= k < |ParseSpec(Lines(input)).1| ==> ParseSpec(Lines(input)).1[k] != []
    ensures r == Some(SumValid(ParseSpec(Lines(input)).0, ParseSpec(Lines(input)).1))
  {
    var orders, updates := Parse(Lines(input));
    var sum := SumValidUpdates(orders, updates);
    r := Some(sum);
  }

  /** `part_two`, with at most `fuel` repair passes per update. */
  method PartTwo(input: string, fuel: nat) returns (r: Option<nat>)
    ensures r == SumReordered(ParseSpec(Lines(input)).0, ParseSpec(Lines(input)).1, fuel)
  {
    var orders, updates := Parse(Lines(input));
    r := SumReorderedUpdates(orders, updates, fuel);
  }
}
