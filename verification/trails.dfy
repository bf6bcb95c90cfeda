/**
  Hoof it (src/bin/10.rs): a topographic map of heights 0 to 9. A hiking
  trail starts at height 0 and climbs by exactly one at every up, down, left
  or right step. `depth_search_1` counts the cells of height 9 a trailhead
  reaches (its score); `depth_search_2` counts the trails themselves (its
  rating). Both are stack-driven depth-first searches; the first keeps a set
  of visited cells.
 */
module HoofIt {
  import opened Common
  import opened Text
  import opened Grid

  // ---------------------------------------------------------------- heights

  /** The largest height in a list of heights, 0 for none. */
  function Highest(s: seq<nat>): nat
  {
    if s == [] then 0 else Max(Highest(s[..|s| - 1]), s[|s| - 1])
  }

  lemma {:induction false} HighestBound(s: seq<nat>, i: nat)
    requires i < |s|
    ensures s[i] <= Highest(s)
  {
    if i < |s| - 1 {
      HighestBound(s[..|s| - 1], i);
    }
  }

  /** Every height on the map is at most the largest one. */
  lemma HeightBound(m: Map<nat>, c: Coordinate)
    requires Valid(m) && InBounds(m, c)
    ensures Get(m, c).value <= Highest(m.data)
  {
    GetAt(m, c);
    HighestBound(m.data, c.row * m.nCols + c.col);
  }

  /** The height of a cell, 0 off the map. */
  function Height(m: Map<nat>, c: Coordinate): nat
    requires Valid(m)
  {
    if InBounds(m, c) then Get(m, c).value else 0
  }

  /** How many more climbs are possible from height `h`: the termination measure of every trail. */
  function Headroom(m: Map<nat>, h: nat): nat
  {
    if h <= Highest(m.data) then Highest(m.data) - h + 1 else 0
  }

  // ---------------------------------------------------------------- neighbours and climbs

  /** `neighbours`: the cells up, down, left and right of `c` on the map. */
  function Neighbours(m: Map<nat>, c: Coordinate): (r: seq<Coordinate>)
    ensures |r| <= 4
  {
    var nbs := Neighbourhood(m, c);
    seq(|nbs|, i requires 0 <= i < |nbs| => nbs[i].0)
  }

  lemma NeighboursMember(m: Map<nat>, c: Coordinate, n: Coordinate)
    ensures n in Neighbours(m, c) <==> InBounds(m, n) && Adjacent(c, n)
  {
    var nbs := Neighbourhood(m, c);
    NeighbourhoodMember(m, c, n, Up);
    if n in Neighbours(m, c) {
      var i :| 0 <= i < |nbs| && nbs[i].0 == n;
      assert (n, nbs[i].1) in nbs;
    }
    if InBounds(m, n) && Adjacent(c, n) {
      var e :| (n, e) in nbs;
      var i :| 0 <= i < |nbs| && nbs[i] == (n, e);
      assert Neighbours(m, c)[i] == n;
    }
  }

  /** The test on a neighbour's height `w` from height `h`: higher, and by exactly one. */
  predicate Climbs(h: nat, w: nat)
  {
    w > h && w - h == 1
  }

  /** The entries of `ws` on the map whose height climbs from `h`. */
  function ClimbIn(m: Map<nat>, h: nat, ws: seq<Coordinate>): (r: seq<Coordinate>)
    requires Valid(m)
    ensures |r| <= |ws|
  {
    if ws == [] then []
    else
      var w := ws[|ws| - 1];
      ClimbIn(m, h, ws[..|ws| - 1]) + (if Get(m, w).Some? && Climbs(h, Get(m, w).value) then [w] else [])
  }

  lemma {:induction false} ClimbInMember(m: Map<nat>, h: nat, ws: seq<Coordinate>, w: Coordinate)
    requires Valid(m)
    ensures w in ClimbIn(m, h, ws) <==> w in ws && Get(m, w) == Some(h + 1)
  {
    if ws != [] {
      ClimbInMember(m, h, ws[..|ws| - 1], w);
      assert ws == ws[..|ws| - 1] + [ws[|ws| - 1]];
    }
  }

  lemma ClimbInStep(m: Map<nat>, h: nat, ws: seq<Coordinate>, k: nat)
    requires Valid(m) && k < |ws|
    ensures ClimbIn(m, h, ws[..k + 1]) ==
            ClimbIn(m, h, ws[..k]) + (if Get(m, ws[k]).Some? && Climbs(h, Get(m, ws[k]).value) then [ws[k]] else [])
  {
    assert ws[..k + 1][..k] == ws[..k];
  }

  /** The cells a search pushes from `v`: its neighbours one higher. */
  function Climb(m: Map<nat>, v: Coordinate): seq<Coordinate>
    requires Valid(m)
  {
    if InBounds(m, v) then ClimbIn(m, Get(m, v).value, Neighbours(m, v)) else []
  }

  /** A climb from `v` is a cell on the map, next to `v`, one higher. */
  lemma ClimbMember(m: Map<nat>, v: Coordinate)
    requires Valid(m)
    ensures forall w :: w in Climb(m, v) <==>
      InBounds(m, v) && InBounds(m, w) && Adjacent(v, w) && Get(m, w).value == Get(m, v).value + 1
  {
    forall w ensures w in Climb(m, v) <==>
      InBounds(m, v) && InBounds(m, w) && Adjacent(v, w) && Get(m, w).value == Get(m, v).value + 1
    {
      if InBounds(m, v) {
        ClimbInMember(m, Get(m, v).value, Neighbours(m, v), w);
        NeighboursMember(m, v, w);
      }
    }
  }

  /**
    The inner loop of both searches: push every neighbour whose height
    climbs from `value`.
   */
  method PushClimbs(m: Map<nat>, nbs: seq<Coordinate>, value: nat, search: seq<Coordinate>) returns (pushed: seq<Coordinate>)
    requires Valid(m)
    ensures pushed == search + ClimbIn(m, value, nbs)
  {
    pushed := search;
    for k := 0 to |nbs|
      invariant pushed == search + ClimbIn(m, value, nbs[..k])
    {
      ClimbInStep(m, value, nbs, k);
      var w := nbs[k];
      var wvalue := Get(m, w);
      if wvalue.Some? {
        if wvalue.value > value && wvalue.value - value == 1 {
          pushed := pushed + [w];
        }
      }
    }
    assert nbs[..|nbs|] == nbs;
  }

  // ---------------------------------------------------------------- what a trailhead reaches

  /** The cells reachable from `c` by climbing one at a time, `c` included when it is on the map. */
  function Desc(m: Map<nat>, c: Coordinate): (r: set<Coordinate>)
    requires Valid(m)
    ensures forall v :: v in r ==> InBounds(m, v)
    decreases Headroom(m, Height(m, c)), 1, 0
  {
    if !InBounds(m, c) then {}
    else
      ClimbMember(m, c);
      {c} + DescAll(m, Climb(m, c), Get(m, c).value)
  }

  /** The cells reachable from any of `ws`, cells of height `h + 1`. */
  function DescAll(m: Map<nat>, ws: seq<Coordinate>, h: nat): (r: set<Coordinate>)
    requires Valid(m) && forall w :: w in ws ==> InBounds(m, w) && Get(m, w).value == h + 1
    ensures forall v :: v in r ==> InBounds(m, v)
    decreases Headroom(m, h), 0, |ws|
  {
    if ws == [] then {}
    else
      var w := ws[|ws| - 1];
      HeightBound(m, w);
      DescAll(m, ws[..|ws| - 1], h) + Desc(m, w)
  }

  /** The sum over the trails from `c` of `weight` at each cell: with weight one at height 9, the number of trails to a 9. */
  function Tally(m: Map<nat>, c: Coordinate, weight: nat -> nat): nat
    requires Valid(m)
    decreases Headroom(m, Height(m, c)), 1, 0
  {
    if !InBounds(m, c) then 0
    else
      ClimbMember(m, c);
      weight(Get(m, c).value) + TallyAll(m, Climb(m, c), weight, Get(m, c).value)
  }

  function TallyAll(m: Map<nat>, ws: seq<Coordinate>, weight: nat -> nat, h: nat): nat
    requires Valid(m) && forall w :: w in ws ==> InBounds(m, w) && Get(m, w).value == h + 1
    decreases Headroom(m, h), 0, |ws|
  {
    if ws == [] then 0
    else
      var w := ws[|ws| - 1];
      HeightBound(m, w);
      TallyAll(m, ws[..|ws| - 1], weight, h) + Tally(m, w, weight)
  }

  /** Weight one at the summits. */
  function Summit(h: nat): nat
  {
    if h == 9 then 1 else 0
  }

  /** Weight one everywhere: `Tally` then counts every step of every trail. */
  function Every(h: nat): nat
  {
    1
  }

  /** The score of a trailhead: the cells of height 9 it reaches. */
  function Nines(m: Map<nat>, c: Coordinate): set<Coordinate>
    requires Valid(m)
  {
    NinesIn(m, Desc(m, c))
  }

  function NinesIn(m: Map<nat>, s: set<Coordinate>): set<Coordinate>
    requires Valid(m)
  {
    set v | v in s && Get(m, v) == Some(9)
  }

  /** The rating of a trailhead: the number of trails from it to a 9. */
  function Paths(m: Map<nat>, c: Coordinate): nat
    requires Valid(m)
  {
    Tally(m, c, Summit)
  }

  // ---------------------------------------------------------------- facts about reachability

  lemma DescSelf(m: Map<nat>, c: Coordinate)
    requires Valid(m) && InBounds(m, c)
    ensures c in Desc(m, c)
  {
  }

  lemma {:induction false} DescAllHas(m: Map<nat>, ws: seq<Coordinate>, h: nat, w: Coordinate)
    requires Valid(m) && forall x :: x in ws ==> InBounds(m, x) && Get(m, x).value == h + 1
    requires w in ws
    ensures Desc(m, w) <= DescAll(m, ws, h)
  {
    var prefix := ws[..|ws| - 1];
    if w != ws[|ws| - 1] {
      assert w in prefix;
      DescAllHas(m, prefix, h, w);
    }
  }

  /** Reachability is transitive: a climb from a reachable cell is reachable. */
  lemma {:induction false} DescClimb(m: Map<nat>, c: Coordinate, v: Coordinate, w: Coordinate)
    requires Valid(m) && v in Desc(m, c) && w in Climb(m, v)
    ensures w in Desc(m, c)
    decreases Headroom(m, Height(m, c)), 1, 0
  {
    ClimbMember(m, c);
    ClimbMember(m, v);
    if v == c {
      DescSelf(m, w);
      DescAllHas(m, Climb(m, c), Get(m, c).value, w);
    } else {
      DescAllClimb(m, Climb(m, c), Get(m, c).value, v, w);
    }
  }

  lemma {:induction false} DescAllClimb(m: Map<nat>, ws: seq<Coordinate>, h: nat, v: Coordinate, w: Coordinate)
    requires Valid(m) && forall x :: x in ws ==> InBounds(m, x) && Get(m, x).value == h + 1
    requires v in DescAll(m, ws, h) && w in Climb(m, v)
    ensures w in DescAll(m, ws, h)
    decreases Headroom(m, h), 0, |ws|
  {
    var last := ws[|ws| - 1];
    var prefix := ws[..|ws| - 1];
    HeightBound(m, last);
    if v in DescAll(m, prefix, h) {
      DescAllClimb(m, prefix, h, v, w);
    } else {
      DescClimb(m, last, v, w);
    }
  }

  /** A set closed under climbing. */
  ghost predicate ClimbClosed(m: Map<nat>, s: set<Coordinate>)
    requires Valid(m)
  {
    forall v, w :: v in s && w in Climb(m, v) ==> w in s
  }

  /** A set closed under climbing holds everything reachable from its cells. */
  lemma {:induction false} DescWithin(m: Map<nat>, c: Coordinate, s: set<Coordinate>)
    requires Valid(m) && ClimbClosed(m, s) && c in s
    ensures Desc(m, c) <= s
    decreases Headroom(m, Height(m, c)), 1, 0
  {
    if InBounds(m, c) {
      ClimbMember(m, c);
      DescAllWithin(m, Climb(m, c), Get(m, c).value, s, c);
    }
  }

  lemma {:induction false} DescAllWithin(m: Map<nat>, ws: seq<Coordinate>, h: nat, s: set<Coordinate>, from: Coordinate)
    requires Valid(m) && forall x :: x in ws ==> InBounds(m, x) && Get(m, x).value == h + 1
    requires ClimbClosed(m, s) && from in s && forall x :: x in ws ==> x in Climb(m, from)
    ensures DescAll(m, ws, h) <= s
    decreases Headroom(m, h), 0, |ws|
  {
    if ws != [] {
      var last := ws[|ws| - 1];
      HeightBound(m, last);
      DescAllWithin(m, ws[..|ws| - 1], h, s, from);
      DescWithin(m, last, s);
    }
  }

  // ---------------------------------------------------------------- depth_search_1

  /**
    The loop invariant of `depth_search_1`: every visited or stacked cell
    is reachable from `c` (or is `c` itself, off the map), every climb from
    a visited cell is visited or on the stack, and `c` has been seen.
   */
  ghost predicate SearchState(m: Map<nat>, c: Coordinate, visited: set<Coordinate>, search: seq<Coordinate>)
    requires Valid(m)
  {
    (InBounds(m, c) ==> visited <= Desc(m, c) && forall k :: 0 <= k < |search| ==> search[k] in Desc(m, c)) &&
    (!InBounds(m, c) ==> visited <= {c} && forall k :: 0 <= k < |search| ==> search[k] == c) &&
    (forall v, w :: v in visited && w in Climb(m, v) ==> w in visited || w in search) &&
    (c in visited || c in search)
  }

  lemma SearchStart(m: Map<nat>, c: Coordinate)
    requires Valid(m)
    ensures SearchState(m, c, {}, [c])
  {
    if InBounds(m, c) {
      DescSelf(m, c);
    }
  }

  /** Popping a visited cell keeps the invariant. */
  lemma SearchPop(m: Map<nat>, c: Coordinate, visited: set<Coordinate>, rest: seq<Coordinate>, v: Coordinate)
    requires Valid(m) && SearchState(m, c, visited, rest + [v]) && v in visited
    ensures SearchState(m, c, visited, rest)
  {
    var search := rest + [v];
    assert forall k :: 0 <= k < |rest| ==> rest[k] == search[k];
    forall x | x in search && x != v ensures x in rest {
      var k :| 0 <= k < |search| && search[k] == x;
    }
  }

  /** Visiting an unvisited cell and pushing its climbs keeps the invariant. */
  lemma SearchVisit(m: Map<nat>, c: Coordinate, visited: set<Coordinate>, rest: seq<Coordinate>, v: Coordinate)
    requires Valid(m) && SearchState(m, c, visited, rest + [v]) && v !in visited
    ensures SearchState(m, c, visited + {v}, rest + Climb(m, v))
    ensures v in AllCells(m) + {c}
  {
    var search := rest + [v];
    var after := rest + Climb(m, v);
    assert search[|search| - 1] == v;
    ClimbMember(m, v);
    forall x | x in search && x != v ensures x in after {
      var k :| 0 <= k < |search| && search[k] == x;
      assert rest[k] == x;
    }
    if InBounds(m, c) {
      assert v in Desc(m, c);
      forall k | 0 <= k < |after| ensures after[k] in Desc(m, c) {
        if k >= |rest| {
          assert after[k] in Climb(m, v);
          DescClimb(m, c, v, after[k]);
        } else {
          assert after[k] == search[k];
        }
      }
    } else {
      assert v == c;
      assert Climb(m, v) == [];
      assert after == rest;
      forall k | 0 <= k < |after| ensures after[k] == c {
        assert after[k] == search[k];
      }
    }
  }

  /** A climb-closed set of reachable cells that holds `c` is everything reachable from `c`. */
  lemma ReachedAll(m: Map<nat>, c: Coordinate, visited: set<Coordinate>)
    requires Valid(m) && InBounds(m, c) && c in visited && visited <= Desc(m, c)
    requires forall v, w :: v in visited && w in Climb(m, v) ==> w in visited
    ensures visited == Desc(m, c)
  {
    DescWithin(m, c, visited);
  }

  lemma SearchEnd(m: Map<nat>, c: Coordinate, visited: set<Coordinate>)
    requires Valid(m) && SearchState(m, c, visited, [])
    ensures NinesIn(m, visited) == Nines(m, c)
  {
    if InBounds(m, c) {
      ReachedAll(m, c, visited);
    } else {
      assert visited == {c} && Desc(m, c) == {};
      assert NinesIn(m, visited) == {};
    }
  }

  lemma Shrinks(u: set<Coordinate>, v: set<Coordinate>, c: Coordinate)
    requires c in u && c !in v
    ensures |u - (v + {c})| < |u - v|
  {
    assert u - (v + {c}) == (u - v) - {c};
  }

  lemma NinesAdd(m: Map<nat>, s: set<Coordinate>, v: Coordinate)
    requires Valid(m) && v !in s
    ensures |NinesIn(m, s + {v})| == |NinesIn(m, s)| + (if Get(m, v) == Some(9) then 1 else 0)
  {
    if Get(m, v) == Some(9) {
      assert NinesIn(m, s + {v}) == NinesIn(m, s) + {v};
    } else {
      assert NinesIn(m, s + {v}) == NinesIn(m, s);
    }
  }

  /** `Vec::pop` on a stack that is not empty. */
  method Pop(stack: seq<Coordinate>) returns (rest: seq<Coordinate>, top: Coordinate)
    requires stack != []
    ensures stack == rest + [top]
  {
    rest, top := stack[..|stack| - 1], stack[|stack| - 1];
  }

  /**
    `depth_search_1`: the score of `c`, the number of cells of height 9
    reachable from it by climbing one at a time; 0 off the map.
   */
  method DepthSearch1(m: Map<nat>, c: Coordinate) returns (count: nat)
    requires Valid(m)
    ensures count == |Nines(m, c)|
  {
    var visited: set<Coordinate> := {};
    var search := [c];
    count := 0;
    SearchStart(m, c);
    while search != []
      invariant SearchState(m, c, visited, search)
      invariant count == |NinesIn(m, visited)|
      decreases |(AllCells(m) + {c}) - visited|, |search|
    {
      var rest, v := Pop(search);
      search := rest;
      if v !in visited {
        SearchVisit(m, c, visited, rest, v);
        Shrinks(AllCells(m) + {c}, visited, v);
        NinesAdd(m, visited, v);
        visited := visited + {v};
        var vvalue := Get(m, v);
        if vvalue.Some? {
          if vvalue.value == 9 {
            count := count + 1;
          }
          search := PushClimbs(m, Neighbours(m, v), vvalue.value, search);
        }
      } else {
        SearchPop(m, c, visited, rest, v);
      }
    }
    SearchEnd(m, c, visited);
  }

  // ---------------------------------------------------------------- depth_search_2

  /** The tally of every cell on a stack. */
  function StackTally(m: Map<nat>, s: seq<Coordinate>, weight: nat -> nat): nat
    requires Valid(m)
  {
    if s == [] then 0 else StackTally(m, s[..|s| - 1], weight) + Tally(m, s[|s| - 1], weight)
  }

  lemma {:induction false} StackTallyAppend(m: Map<nat>, a: seq<Coordinate>, b: seq<Coordinate>, weight: nat -> nat)
    requires Valid(m)
    ensures StackTally(m, a + b, weight) == StackTally(m, a, weight) + StackTally(m, b, weight)
  {
    if b != [] {
      assert (a + b)[..|a + b| - 1] == a + b[..|b| - 1];
      StackTallyAppend(m, a, b[..|b| - 1], weight);
    } else {
      assert a + b == a;
    }
  }

  lemma {:induction false} TallyAllStack(m: Map<nat>, ws: seq<Coordinate>, weight: nat -> nat, h: nat)
    requires Valid(m) && forall w :: w in ws ==> InBounds(m, w) && Get(m, w).value == h + 1
    ensures TallyAll(m, ws, weight, h) == StackTally(m, ws, weight)
  {
    if ws != [] {
      TallyAllStack(m, ws[..|ws| - 1], weight, h);
    }
  }

  /** Popping `v` and pushing its climbs takes `weight` at `v` out of the stack's tally. */
  lemma TallyStep(m: Map<nat>, rest: seq<Coordinate>, v: Coordinate, weight: nat -> nat)
    requires Valid(m)
    ensures StackTally(m, rest + [v], weight) == StackTally(m, rest, weight) + Tally(m, v, weight)
    ensures InBounds(m, v) ==>
      StackTally(m, rest + Climb(m, v), weight) + weight(Get(m, v).value) == StackTally(m, rest + [v], weight)
  {
    assert (rest + [v])[..|rest|] == rest;
    if InBounds(m, v) {
      ClimbMember(m, v);
      StackTallyAppend(m, rest, Climb(m, v), weight);
      TallyAllStack(m, Climb(m, v), weight, Get(m, v).value);
    }
  }

  /**
    `depth_search_2`: the rating of `c`, the number of distinct trails from
    it to a cell of height 9, found by pushing every climb without a
    visited set; 0 off the map.
   */
  method DepthSearch2(m: Map<nat>, c: Coordinate) returns (count: nat)
    requires Valid(m)
    ensures count == Paths(m, c)
  {
    var search := [c];
    count := 0;
    assert StackTally(m, search, Summit) == Tally(m, c, Summit) by {
      assert search[..0] == [];
    }
    while search != []
      invariant count + StackTally(m, search, Summit) == Paths(m, c)
      decreases StackTally(m, search, Every), |search|
    {
      var rest, v := Pop(search);
      TallyStep(m, rest, v, Summit);
      TallyStep(m, rest, v, Every);
      search := rest;
      var vvalue := Get(m, v);
      if vvalue.Some? {
        if vvalue.value == 9 {
          count := count + 1;
        }
        search := PushClimbs(m, Neighbours(m, v), vvalue.value, search);
      }
    }
  }

  /** A trailhead's score is at most its rating: each reachable 9 ends at least one trail. */
  lemma {:induction false} ScoreAtMostRating(m: Map<nat>, c: Coordinate)
    requires Valid(m)
    ensures |Nines(m, c)| <= Paths(m, c)
    decreases Headroom(m, Height(m, c)), 1, 0
  {
    if InBounds(m, c) {
      ClimbMember(m, c);
      var h := Get(m, c).value;
      var below := DescAll(m, Climb(m, c), h);
      assert Nines(m, c) == NinesIn(m, {c}) + NinesIn(m, below);
      assert NinesIn(m, {c}) == if h == 9 then {c} else {};
      SummitsAtMostTrails(m, Climb(m, c), h);
    }
  }

  lemma {:induction false} SummitsAtMostTrails(m: Map<nat>, ws: seq<Coordinate>, h: nat)
    requires Valid(m) && forall w :: w in ws ==> InBounds(m, w) && Get(m, w).value == h + 1
    ensures |NinesIn(m, DescAll(m, ws, h))| <= TallyAll(m, ws, Summit, h)
    decreases Headroom(m, h), 0, |ws|
  {
    if ws != [] {
      var last := ws[|ws| - 1];
      var prefix := ws[..|ws| - 1];
      HeightBound(m, last);
      SummitsAtMostTrails(m, prefix, h);
      ScoreAtMostRating(m, last);
      assert NinesIn(m, DescAll(m, ws, h)) == NinesIn(m, DescAll(m, prefix, h)) + Nines(m, last);
    }
  }

  // ---------------------------------------------------------------- trailheads and parts

  /** The cells of height 0 among the first `n` in reading order. */
  function TrailheadsBelow(m: Map<nat>, n: nat): seq<Coordinate>
    requires Valid(m) && n <= |m.data|
  {
    if n == 0 then []
    else
      TrailheadsBelow(m, n - 1) +
      (if m.data[n - 1] == 0 then [IndexToCoordinate(m, n - 1).value] else [])
  }

  /** `find_trailheads`: the cells of height 0, in reading order. */
  function Trailheads(m: Map<nat>): seq<Coordinate>
    requires Valid(m)
  {
    TrailheadsBelow(m, |m.data|)
  }

  lemma {:induction false} TrailheadsBelowMember(m: Map<nat>, n: nat, c: Coordinate)
    requires Valid(m) && n <= |m.data|
    ensures c in TrailheadsBelow(m, n) <==>
      InBounds(m, c) && CoordinateToIndex(m, c).value < n && Get(m, c) == Some(0)
  {
    if n > 0 {
      TrailheadsBelowMember(m, n - 1, c);
      IndexRoundTrip(m, n - 1);
      if InBounds(m, c) {
        CoordinateRoundTrip(m, c);
        GetAt(m, c);
      }
    }
  }

  /** The trailheads are exactly the cells of height 0. */
  lemma TrailheadsMember(m: Map<nat>, c: Coordinate)
    requires Valid(m)
    ensures c in Trailheads(m) <==> InBounds(m, c) && Get(m, c) == Some(0)
  {
    TrailheadsBelowMember(m, |m.data|, c);
  }

  /** `to_digit(10)`: a decimal digit's value, `None` for any other character. */
  function Digit(c: char): (r: Option<nat>)
    ensures r.Some? <==> '0' <= c <= '9'
    ensures r.Some? ==> r.value <= 9
  {
    if '0' <= c <= '9' then Some(c as int - '0' as int) else None
  }

  /** The sum of the scores of `ts`. */
  function Scores(m: Map<nat>, ts: seq<Coordinate>): nat
    requires Valid(m)
  {
    if ts == [] then 0 else Scores(m, ts[..|ts| - 1]) + |Nines(m, ts[|ts| - 1])|
  }

  /** The sum of the ratings of `ts`. */
  function Ratings(m: Map<nat>, ts: seq<Coordinate>): nat
    requires Valid(m)
  {
    if ts == [] then 0 else Ratings(m, ts[..|ts| - 1]) + Paths(m, ts[|ts| - 1])
  }

  /** The first answer never exceeds the second. */
  lemma {:induction false} ScoresAtMostRatings(m: Map<nat>, ts: seq<Coordinate>)
    requires Valid(m)
    ensures Scores(m, ts) <= Ratings(m, ts)
  {
    if ts != [] {
      ScoresAtMostRatings(m, ts[..|ts| - 1]);
      ScoreAtMostRating(m, ts[|ts| - 1]);
    }
  }

  /** The topographic map parsed from non-empty, rectangular lines of digits. */
  function Topography(lines: seq<string>): (m: Map<nat>)
    requires lines != [] && Rectangular(lines) && Parses(lines, Digit)
    ensures Valid(m)
  {
    CellsLength(lines, Digit);
    Map(Cells(lines, Digit), |lines|, |lines[0]|)
  }

  /** Whether `parse` succeeds on the input's lines. */
  predicate Parsable(lines: seq<string>)
  {
    lines != [] && Rectangular(lines) && Parses(lines, Digit)
  }

  /**
    `part_one`: `None` unless the input's lines form a non-empty rectangle
    of digits; otherwise the sum of the trailheads' scores.
   */
  method PartOne(input: string) returns (r: Option<nat>)
    ensures r.Some? <==> Parsable(Lines(input))
    ensures r.Some? ==> r.value == Scores(Topography(Lines(input)), Trailheads(Topography(Lines(input))))
  {
    var parsed := Parse(Lines(input), Digit);
    if parsed.None? {
      return None;
    }
    var m := parsed.value;
    var heads := Trailheads(m);
    var total := 0;
    for i := 0 to |heads|
      invariant total == Scores(m, heads[..i])
    {
      var score := DepthSearch1(m, heads[i]);
      assert heads[..i + 1][..i] == heads[..i];
      total := total + score;
    }
    assert heads[..|heads|] == heads;
    r := Some(total);
  }

  /**
    `part_two`: `None` unless the input's lines form a non-empty rectangle
    of digits; otherwise the sum of the trailheads' ratings.
   */
  method PartTwo(input: string) returns (r: Option<nat>)
    ensures r.Some? <==> Parsable(Lines(input))
    ensures r.Some? ==> r.value == Ratings(Topography(Lines(input)), Trailheads(Topography(Lines(input))))
  {
    var parsed := Parse(Lines(input), Digit);
    if parsed.None? {
      return None;
    }
    var m := parsed.value;
    var heads := Trailheads(m);
    var total := 0;
    for i := 0 to |heads|
      invariant total == Ratings(m, heads[..i])
    {
      var rating := DepthSearch2(m, heads[i]);
      assert heads[..i + 1][..i] == heads[..i];
      total := total + rating;
    }
    assert heads[..|heads|] == heads;
    r := Some(total);
  }
}
