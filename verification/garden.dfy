/**
  Garden groups (src/bin/12.rs): the map holds one plant per cell; a region
  is a maximal set of same-plant cells connected through up, down, left and
  right steps. `get_region` floods one region with an explicit stack,
  counting its area and its perimeter (one fence per side of a cell without
  a same-plant neighbour, the edge of the map included) and splitting its
  cells into inner cells (four same-plant neighbours) and edge cells.
  `get_regions` floods from every cell in reading order.
 */
module GardenGroups {
  import opened Common
  import opened Text
  import opened Grid

  datatype Region = Region(area: nat, perimeter: nat, value: char,
                           inner: set<Coordinate>, edges: set<Coordinate>, all: set<Coordinate>)

  // ---------------------------------------------------------------- neighbours with the same plant

  /** The entries of `nbs` whose cell holds `value`. */
  function SameIn(m: Map<char>, value: char, nbs: seq<(Coordinate, Direction)>): (r: seq<(Coordinate, Direction)>)
    requires Valid(m)
    ensures |r| <= |nbs|
  {
    if nbs == [] then []
    else SameIn(m, value, nbs[..|nbs| - 1]) + (if Get(m, nbs[|nbs| - 1].0) == Some(value) then [nbs[|nbs| - 1]] else [])
  }

  lemma {:induction false} SameInMember(m: Map<char>, value: char, nbs: seq<(Coordinate, Direction)>, e: (Coordinate, Direction))
    requires Valid(m)
    ensures e in SameIn(m, value, nbs) <==> e in nbs && Get(m, e.0) == Some(value)
  {
    if nbs != [] {
      SameInMember(m, value, nbs[..|nbs| - 1], e);
      assert nbs == nbs[..|nbs| - 1] + [nbs[|nbs| - 1]];
    }
  }

  lemma SameInStep(m: Map<char>, value: char, nbs: seq<(Coordinate, Direction)>, k: nat)
    requires Valid(m) && k < |nbs|
    ensures SameIn(m, value, nbs[..k + 1]) ==
            SameIn(m, value, nbs[..k]) + (if Get(m, nbs[k].0) == Some(value) then [nbs[k]] else [])
  {
    assert nbs[..k + 1][..k] == nbs[..k];
  }

  /** The neighbours of a cell on the map that grow the same plant. */
  function SameNeighbours(m: Map<char>, c: Coordinate): (r: seq<(Coordinate, Direction)>)
    requires Valid(m) && InBounds(m, c)
    ensures |r| <= 4
  {
    SameIn(m, Get(m, c).value, Neighbourhood(m, c))
  }

  /** Two cells on the map, side by side, with the same plant. */
  predicate Alike(m: Map<char>, a: Coordinate, b: Coordinate)
    requires Valid(m)
  {
    InBounds(m, a) && InBounds(m, b) && Adjacent(a, b) && Get(m, a) == Get(m, b)
  }

  /** The same-plant neighbours listed are exactly the alike cells. */
  lemma SameNeighboursMember(m: Map<char>, c: Coordinate, n: Coordinate)
    requires Valid(m) && InBounds(m, c)
    ensures (exists d :: (n, d) in SameNeighbours(m, c)) <==> Alike(m, c, n)
  {
    forall d ensures (n, d) in SameNeighbours(m, c) <==> (n, d) in Neighbourhood(m, c) && Get(m, n) == Get(m, c) {
      SameInMember(m, Get(m, c).value, Neighbourhood(m, c), (n, d));
    }
    NeighbourhoodMember(m, c, n, Up);
  }

  /** The fences of a cell: one per side without a same-plant neighbour. */
  function Fences(m: Map<char>): Coordinate -> int
    requires Valid(m)
  {
    c => if InBounds(m, c) then 4 - |SameNeighbours(m, c)| else 0
  }

  /** The perimeter of a set of cells: the sum of their fences. */
  ghost function Perimeter(m: Map<char>, s: set<Coordinate>): (r: nat)
    requires Valid(m)
  {
    SetSumNonNegative(s, Fences(m));
    SetSum(s, Fences(m))
  }

  /** The cells with four same-plant neighbours. */
  function Inner(m: Map<char>, s: set<Coordinate>): set<Coordinate>
    requires Valid(m)
  {
    set c | c in s && InBounds(m, c) && |SameNeighbours(m, c)| == 4
  }

  // ---------------------------------------------------------------- regions as components

  /** A walk through side-by-side cells of one plant. */
  ghost predicate IsPath(m: Map<char>, p: seq<Coordinate>)
    requires Valid(m)
  {
    |p| >= 1 && InBounds(m, p[0]) && forall i :: 0 <= i < |p| - 1 ==> Alike(m, p[i], p[i + 1])
  }

  ghost predicate Connected(m: Map<char>, a: Coordinate, b: Coordinate)
    requires Valid(m)
  {
    exists p :: IsPath(m, p) && p[0] == a && p[|p| - 1] == b
  }

  /** The region of `start`: the cells connected to it. */
  ghost function Component(m: Map<char>, start: Coordinate): set<Coordinate>
    requires Valid(m)
  {
    set c | c in AllCells(m) && Connected(m, start, c)
  }

  /** A set no alike step leaves. */
  ghost predicate Closed(m: Map<char>, s: set<Coordinate>)
    requires Valid(m)
  {
    forall a, b :: a in s && Alike(m, a, b) ==> b in s
  }

  lemma ConnectedSelf(m: Map<char>, a: Coordinate)
    requires Valid(m) && InBounds(m, a)
    ensures Connected(m, a, a)
  {
    assert IsPath(m, [a]);
  }

  lemma ConnectedStep(m: Map<char>, a: Coordinate, b: Coordinate, c: Coordinate)
    requires Valid(m) && Connected(m, a, b) && Alike(m, b, c)
    ensures Connected(m, a, c)
  {
    var p :| IsPath(m, p) && p[0] == a && p[|p| - 1] == b;
    var q := p + [c];
    forall i | 0 <= i < |q| - 1 ensures Alike(m, q[i], q[i + 1]) {
      if i < |p| - 1 {
        assert q[i] == p[i] && q[i + 1] == p[i + 1];
      }
    }
    assert IsPath(m, q);
  }

  lemma ConnectedSameValue(m: Map<char>, a: Coordinate, b: Coordinate)
    requires Valid(m) && Connected(m, a, b)
    ensures InBounds(m, a) && InBounds(m, b) && Get(m, a) == Get(m, b)
  {
    var p :| IsPath(m, p) && p[0] == a && p[|p| - 1] == b;
    var i := 0;
    while i < |p| - 1
      invariant 0 <= i <= |p| - 1 && InBounds(m, p[i]) && Get(m, p[i]) == Get(m, a)
    {
      i := i + 1;
    }
  }

  /**
    What one flood of `get_region` from an unvisited cell on the map leaves:
    the new cells contain `start`, are connected to it, and every alike
    step out of them ends in a visited cell.
   */
  ghost predicate Flooded(m: Map<char>, start: Coordinate, visited0: set<Coordinate>, visited: set<Coordinate>)
    requires Valid(m)
  {
    var all := visited - visited0;
    visited0 <= visited && start in all && all <= AllCells(m) &&
    (forall c :: c in all ==> Connected(m, start, c)) &&
    (forall a, b :: a in all && Alike(m, a, b) ==> b in visited)
  }

  /** The region `get_region` reports for the cells `all` of `start`'s flood. */
  ghost function RegionOf(m: Map<char>, start: Coordinate, all: set<Coordinate>): Option<Region>
    requires Valid(m) && InBounds(m, start)
  {
    if Perimeter(m, all) == 0 then None
    else Some(Region(|all|, Perimeter(m, all), Get(m, start).value, Inner(m, all), all - Inner(m, all), all))
  }

  /**
    When the visited cells are a union of whole regions, a flood from an
    unvisited cell takes in exactly that cell's region, and the visited
    cells stay a union of whole regions.
   */
  lemma {:induction false} FloodIsComponent(m: Map<char>, start: Coordinate, visited0: set<Coordinate>, visited: set<Coordinate>)
    requires Valid(m) && Closed(m, visited0) && start !in visited0 && Flooded(m, start, visited0, visited)
    ensures visited - visited0 == Component(m, start)
    ensures Closed(m, visited)
  {
    var all := visited - visited0;
    forall c | c in Component(m, start) ensures c in all {
      var p :| IsPath(m, p) && p[0] == start && p[|p| - 1] == c;
      var i := 0;
      while i < |p| - 1
        invariant 0 <= i <= |p| - 1 && p[i] in all
      {
        assert Alike(m, p[i], p[i + 1]);
        assert Alike(m, p[i + 1], p[i]);
        i := i + 1;
      }
    }
    forall a, b | a in visited && Alike(m, a, b) ensures b in visited {
      if a in visited0 {
        assert b in visited0;
      }
    }
  }

  // ---------------------------------------------------------------- get_region

  /** The stack entries `get_region` pushes for same-plant neighbours. */
  function Tagged(s: seq<(Coordinate, Direction)>): (r: seq<(Coordinate, Option<Direction>)>)
    ensures |r| == |s|
    ensures forall i :: 0 <= i < |s| ==> r[i] == (s[i].0, Some(s[i].1))
  {
    seq(|s|, i requires 0 <= i < |s| => (s[i].0, Some(s[i].1)))
  }

  /** The cells on the stack. */
  ghost function OnStack(search: seq<(Coordinate, Option<Direction>)>): set<Coordinate>
  {
    set k | 0 <= k < |search| :: search[k].0
  }

  /**
    The loop invariant of `get_region`'s flood: the visited cells are the
    old ones, the region's cells `all` and possibly `start` when it is off
    the map; everything in the region and on the stack is connected to
    `start`; and every alike step out of the region ends in a visited cell or
    on the stack.
   */
  ghost predicate FloodState(m: Map<char>, start: Coordinate, visited0: set<Coordinate>, visited: set<Coordinate>,
                             all: set<Coordinate>, outside: set<Coordinate>, search: seq<(Coordinate, Option<Direction>)>)
    requires Valid(m)
  {
    visited == visited0 + all + outside &&
    all !! visited0 && outside !! visited0 && all !! outside &&
    outside <= {start} && (start in outside ==> !InBounds(m, start)) &&
    all <= AllCells(m) &&
    (forall k :: 0 <= k < |search| ==> search[k].0 in AllCells(m) + {start}) &&
    (InBounds(m, start) ==>
      (forall c :: c in all ==> Connected(m, start, c)) &&
      (forall k :: 0 <= k < |search| ==> Connected(m, start, search[k].0))) &&
    (!InBounds(m, start) ==> all == {} && forall k :: 0 <= k < |search| ==> search[k].0 == start) &&
    (start in visited0 ==> all == {} && outside == {}) &&
    (all == {} && outside == {} ==> search == [] || search == [(start, None)]) &&
    (start in visited || (|search| > 0 && search[0].0 == start)) &&
    (forall a, b :: a in all && Alike(m, a, b) ==> b in visited || b in OnStack(search))
  }

  lemma FloodStart(m: Map<char>, start: Coordinate, visited0: set<Coordinate>)
    requires Valid(m)
    ensures FloodState(m, start, visited0, visited0, {}, {}, [(start, None)])
  {
    if InBounds(m, start) {
      ConnectedSelf(m, start);
    }
  }

  /** Popping a visited cell keeps the invariant. */
  lemma FloodPop(m: Map<char>, start: Coordinate, visited0: set<Coordinate>, visited: set<Coordinate>,
                 all: set<Coordinate>, outside: set<Coordinate>, rest: seq<(Coordinate, Option<Direction>)>,
                 top: (Coordinate, Option<Direction>))
    requires Valid(m) && FloodState(m, start, visited0, visited, all, outside, rest + [top]) && top.0 in visited
    ensures FloodState(m, start, visited0, visited, all, outside, rest)
  {
    var search := rest + [top];
    assert forall k :: 0 <= k < |rest| ==> rest[k] == search[k];
    forall a, b | a in all && Alike(m, a, b) && b !in visited ensures b in OnStack(rest) {
      var k :| 0 <= k < |search| && search[k].0 == b;
      assert rest[k].0 == b;
    }
  }

  /** Visiting the off-map `start` keeps the invariant. */
  lemma FloodOutside(m: Map<char>, start: Coordinate, visited0: set<Coordinate>, visited: set<Coordinate>,
                     all: set<Coordinate>, outside: set<Coordinate>, rest: seq<(Coordinate, Option<Direction>)>,
                     top: (Coordinate, Option<Direction>))
    requires Valid(m) && FloodState(m, start, visited0, visited, all, outside, rest + [top])
    requires top.0 !in visited && !InBounds(m, top.0)
    ensures FloodState(m, start, visited0, visited + {top.0}, all, outside + {top.0}, rest)
  {
    var search := rest + [top];
    assert search[|search| - 1] == top;
  }

  /** Every pushed neighbour is a cell on the map with the same plant. */
  lemma PushedAlike(m: Map<char>, c: Coordinate, i: nat)
    requires Valid(m) && InBounds(m, c) && i < |SameNeighbours(m, c)|
    ensures Tagged(SameNeighbours(m, c))[i].0 in AllCells(m) && Alike(m, c, Tagged(SameNeighbours(m, c))[i].0)
  {
    var same := SameNeighbours(m, c);
    assert same[i] in same;
    SameNeighboursMember(m, c, same[i].0);
  }

  /** The pushed neighbours of a cell connected to `start` are connected to `start`. */
  lemma PushedReach(m: Map<char>, start: Coordinate, c: Coordinate)
    requires Valid(m) && InBounds(m, c) && (InBounds(m, start) ==> Connected(m, start, c))
    ensures forall i :: 0 <= i < |SameNeighbours(m, c)| ==> Tagged(SameNeighbours(m, c))[i].0 in AllCells(m)
    ensures InBounds(m, start) ==>
      forall i :: 0 <= i < |SameNeighbours(m, c)| ==> Connected(m, start, Tagged(SameNeighbours(m, c))[i].0)
  {
    forall i | 0 <= i < |SameNeighbours(m, c)|
      ensures Tagged(SameNeighbours(m, c))[i].0 in AllCells(m)
      ensures InBounds(m, start) ==> Connected(m, start, Tagged(SameNeighbours(m, c))[i].0)
    {
      PushedAlike(m, c, i);
      if InBounds(m, start) {
        ConnectedStep(m, start, c, Tagged(SameNeighbours(m, c))[i].0);
      }
    }
  }

  /** Visiting a cell on the map and pushing its same-plant neighbours keeps the invariant. */
  lemma FloodVisit(m: Map<char>, start: Coordinate, visited0: set<Coordinate>, visited: set<Coordinate>,
                   all: set<Coordinate>, outside: set<Coordinate>, rest: seq<(Coordinate, Option<Direction>)>,
                   top: (Coordinate, Option<Direction>))
    requires Valid(m) && FloodState(m, start, visited0, visited, all, outside, rest + [top])
    requires top.0 !in visited && InBounds(m, top.0)
    ensures FloodState(m, start, visited0, visited + {top.0}, all + {top.0}, outside,
                       rest + Tagged(SameNeighbours(m, top.0)))
  {
    var c := top.0;
    var search := rest + [top];
    var pushed := Tagged(SameNeighbours(m, c));
    var after := rest + pushed;
    assert search[|search| - 1] == top;
    assert forall k :: 0 <= k < |rest| ==> rest[k] == search[k] && after[k] == rest[k];
    PushedReach(m, start, c);
    forall k | |rest| <= k < |after|
      ensures after[k].0 in AllCells(m) && (InBounds(m, start) ==> Connected(m, start, after[k].0))
    {
      assert after[k] == pushed[k - |rest|];
    }
    ClosureStep(m, all, visited, rest, top, pushed);
  }

  /** Every alike step out of the region ends in a visited cell or on the stack. */
  lemma {:induction false} ClosureStep(m: Map<char>, all: set<Coordinate>, visited: set<Coordinate>,
                                       rest: seq<(Coordinate, Option<Direction>)>, top: (Coordinate, Option<Direction>),
                                       pushed: seq<(Coordinate, Option<Direction>)>)
    requires Valid(m) && InBounds(m, top.0)
    requires forall a, b :: a in all && Alike(m, a, b) ==> b in visited || b in OnStack(rest + [top])
    requires pushed == Tagged(SameNeighbours(m, top.0))
    ensures forall a, b :: a in all + {top.0} && Alike(m, a, b) ==> b in visited + {top.0} || b in OnStack(rest + pushed)
  {
    var c := top.0;
    forall a, b | a in all + {c} && Alike(m, a, b) ensures b in visited + {c} || b in OnStack(rest + pushed) {
      if a == c {
        SameNeighboursMember(m, c, b);
        var d :| (b, d) in SameNeighbours(m, c);
        var i :| 0 <= i < |SameNeighbours(m, c)| && SameNeighbours(m, c)[i] == (b, d);
        assert (rest + pushed)[|rest| + i].0 == b;
      } else if b !in visited + {c} {
        var k :| 0 <= k < |rest + [top]| && (rest + [top])[k].0 == b;
        assert (rest + pushed)[k].0 == b;
      }
    }
  }

  /** With the stack empty, the flood is complete. */
  lemma FloodEnd(m: Map<char>, start: Coordinate, visited0: set<Coordinate>, visited: set<Coordinate>,
                 all: set<Coordinate>, outside: set<Coordinate>)
    requires Valid(m) && FloodState(m, start, visited0, visited, all, outside, [])
    ensures start in visited0 ==> all == {} && outside == {} && visited == visited0
    ensures start !in visited0 && !InBounds(m, start) ==> all == {} && visited == visited0 + {start}
    ensures start !in visited0 && InBounds(m, start) ==>
      all == visited - visited0 && outside == {} && Flooded(m, start, visited0, visited)
  {
  }

  lemma Shrinks(u: set<Coordinate>, v: set<Coordinate>, c: Coordinate)
    requires c in u && c !in v
    ensures |u - (v + {c})| < |u - v|
  {
    assert u - (v + {c}) == (u - v) - {c};
  }

  /** The area, perimeter and inner and edge cells grow with one more cell of the region. */
  lemma AddCell(m: Map<char>, all: set<Coordinate>, c: Coordinate)
    requires Valid(m) && InBounds(m, c) && c !in all
    ensures Perimeter(m, all + {c}) == Perimeter(m, all) + (4 - |SameNeighbours(m, c)|)
  {
    SetSumAdd(all, c, Fences(m));
  }

  /** Adding a cell with four alike neighbours grows the inner set only. */
  lemma AddInner(m: Map<char>, all: set<Coordinate>, c: Coordinate, inner: set<Coordinate>, edges: set<Coordinate>)
    requires Valid(m) && InBounds(m, c) && c !in all && |SameNeighbours(m, c)| == 4
    requires inner == Inner(m, all) && edges == all - inner
    ensures inner + {c} == Inner(m, all + {c}) && edges == (all + {c}) - (inner + {c})
  {
  }

  /** Adding a cell with fewer than four alike neighbours grows the edge set only. */
  lemma AddEdge(m: Map<char>, all: set<Coordinate>, c: Coordinate, inner: set<Coordinate>, edges: set<Coordinate>)
    requires Valid(m) && InBounds(m, c) && c !in all && |SameNeighbours(m, c)| != 4
    requires inner == Inner(m, all) && edges == all - inner
    ensures inner == Inner(m, all + {c}) && edges + {c} == (all + {c}) - inner
  {
  }

  /**
    The loop over `limited_neighbourhood` in `get_region`: push every
    neighbour holding `value`, and count them.
   */
  method PushAlike(m: Map<char>, nbs: seq<(Coordinate, Direction)>, value: char, search: seq<(Coordinate, Option<Direction>)>)
    returns (pushed: seq<(Coordinate, Option<Direction>)>, validNeighbours: nat)
    requires Valid(m)
    ensures pushed == search + Tagged(SameIn(m, value, nbs))
    ensures validNeighbours == |SameIn(m, value, nbs)|
  {
    var directions: seq<Direction> := [];
    pushed := search;
    for k := 0 to |nbs|
      invariant pushed == search + Tagged(SameIn(m, value, nbs[..k]))
      invariant |directions| == |SameIn(m, value, nbs[..k])|
    {
      SameInStep(m, value, nbs, k);
      var (neighbour, neighbourDirection) := nbs[k];
      var neighbourValue := Get(m, neighbour);
      if neighbourValue.Some? {
        if value == neighbourValue.value {
          assert Tagged(SameIn(m, value, nbs[..k + 1])) ==
                 Tagged(SameIn(m, value, nbs[..k])) + [(neighbour, Some(neighbourDirection))];
          pushed := pushed + [(neighbour, Some(neighbourDirection))];
          directions := directions + [neighbourDirection];
        }
      }
    }
    assert nbs[..|nbs|] == nbs;
    validNeighbours := |directions|;
  }

  /** The counters `get_region` keeps beside the flood: area, perimeter, inner and edge cells. */
  ghost predicate Tallies(m: Map<char>, all: set<Coordinate>, outside: set<Coordinate>, area: nat, perimeter: nat,
                          inner: set<Coordinate>, edges: set<Coordinate>)
    requires Valid(m)
  {
    area == |all| + |outside| && perimeter == Perimeter(m, all) && inner == Inner(m, all) && edges == all - inner
  }

  lemma SplitLast<T>(s: seq<T>)
    requires s != []
    ensures s == s[..|s| - 1] + [s[|s| - 1]]
  {
  }

  /**
    The part of a turn of `get_region` that visits an unvisited cell on the
    map: push its same-plant neighbours and update the counters.
   */
  method Visit(m: Map<char>, coordinate: Coordinate, value: char, all: set<Coordinate>, ghost outside: set<Coordinate>,
               rest: seq<(Coordinate, Option<Direction>)>, area: nat, perimeter: nat, inner: set<Coordinate>, edges: set<Coordinate>)
    returns (search': seq<(Coordinate, Option<Direction>)>, area': nat, perimeter': nat, inner': set<Coordinate>, edges': set<Coordinate>)
    requires Valid(m) && Get(m, coordinate) == Some(value) && coordinate !in all && coordinate !in outside
    requires Tallies(m, all, outside, area, perimeter, inner, edges)
    ensures search' == rest + Tagged(SameNeighbours(m, coordinate))
    ensures Tallies(m, all + {coordinate}, outside, area', perimeter', inner', edges')
  {
    area' := area + 1;
    var validNeighbours;
    search', validNeighbours := PushAlike(m, Neighbourhood(m, coordinate), value, rest);
    AddCell(m, all, coordinate);
    perimeter' := perimeter + (4 - validNeighbours);
    if validNeighbours == 4 {
      AddInner(m, all, coordinate, inner, edges);
      inner', edges' := inner + {coordinate}, edges;
    } else {
      AddEdge(m, all, coordinate, inner, edges);
      inner', edges' := inner, edges + {coordinate};
    }
  }

  /**
    One turn of the loop in `get_region`: pop the top of the stack; a
    visited cell is dropped, an unvisited cell off the map is only marked,
    and an unvisited cell on the map is visited. The visited cells grow, or
    stay and the stack shrinks.
   */
  method Turn(m: Map<char>, ghost start: Coordinate, ghost visited0: set<Coordinate>, visited: set<Coordinate>,
              all: set<Coordinate>, ghost outside: set<Coordinate>, search: seq<(Coordinate, Option<Direction>)>,
              area: nat, perimeter: nat, inner: set<Coordinate>, edges: set<Coordinate>)
    returns (visited': set<Coordinate>, all': set<Coordinate>, ghost outside': set<Coordinate>,
             search': seq<(Coordinate, Option<Direction>)>,
             area': nat, perimeter': nat, inner': set<Coordinate>, edges': set<Coordinate>)
    requires Valid(m) && FloodState(m, start, visited0, visited, all, outside, search) && search != []
    requires Tallies(m, all, outside, area, perimeter, inner, edges)
    ensures FloodState(m, start, visited0, visited', all', outside', search')
    ensures Tallies(m, all', outside', area', perimeter', inner', edges')
    ensures |(AllCells(m) + {start}) - visited'| < |(AllCells(m) + {start}) - visited| ||
            (visited' == visited && |search'| < |search|)
  {
    var top := search[|search| - 1];
    var rest := search[..|search| - 1];
    SplitLast(search);
    visited', all', outside', search', area', perimeter', inner', edges' :=
      visited, all, outside, rest, area, perimeter, inner, edges;
    if top.0 !in visited {
      ghost var universe := AllCells(m) + {start};
      assert top.0 in universe;
      Shrinks(universe, visited, top.0);
      var current := Get(m, top.0);
      if current.Some? {
        FloodVisit(m, start, visited0, visited, all, outside, rest, top);
        search', area', perimeter', inner', edges' :=
          Visit(m, top.0, current.value, all, outside, rest, area, perimeter, inner, edges);
        visited' := visited + {top.0};
        all' := all + {top.0};
      } else {
        FloodOutside(m, start, visited0, visited, all, outside, rest, top);
        visited' := visited + {top.0};
        outside' := outside + {top.0};
        area' := area + 1;
      }
    } else {
      FloodPop(m, start, visited0, visited, all, outside, rest, top);
    }
  }

  /**
    `get_region`: flood from `start` with a stack, skipping visited cells.
    From a visited cell nothing changes and the result is `None`; from an
    unvisited cell off the map only that cell is marked; otherwise the flood
    marks its cells and reports them as a region unless the perimeter is 0.
   */
  method GetRegion(start: Coordinate, m: Map<char>, visited0: set<Coordinate>) returns (r: Option<Region>, visited: set<Coordinate>)
    requires Valid(m)
    ensures start in visited0 ==> r == None && visited == visited0
    ensures start !in visited0 && !InBounds(m, start) ==> r == None && visited == visited0 + {start}
    ensures start !in visited0 && InBounds(m, start) ==>
      Flooded(m, start, visited0, visited) && r == RegionOf(m, start, visited - visited0)
  {
    visited := visited0;
    var area: nat := 0;
    var perimeter: nat := 0;
    var inner: set<Coordinate> := {};
    var edges: set<Coordinate> := {};
    var all: set<Coordinate> := {};
    var search: seq<(Coordinate, Option<Direction>)> := [(start, None)];
    ghost var outside: set<Coordinate> := {};
    FloodStart(m, start, visited0);
    while search != []
      invariant FloodState(m, start, visited0, visited, all, outside, search)
      invariant Tallies(m, all, outside, area, perimeter, inner, edges)
      decreases |(AllCells(m) + {start}) - visited|, |search|
    {
      visited, all, outside, search, area, perimeter, inner, edges :=
        Turn(m, start, visited0, visited, all, outside, search, area, perimeter, inner, edges);
    }
    FloodEnd(m, start, visited0, visited, all, outside);
    if area != 0 && perimeter != 0 {
      var value := Get(m, start);
      if value.None? {
        return None, visited;
      }
      r := Some(Region(area, perimeter, value.value, inner, edges, all));
    } else {
      r := None;
    }
  }

  // ---------------------------------------------------------------- every region has a fence

  /** A filter that keeps every entry found the value everywhere. */
  lemma {:induction false} SameInAll(m: Map<char>, value: char, nbs: seq<(Coordinate, Direction)>, e: (Coordinate, Direction))
    requires Valid(m) && |SameIn(m, value, nbs)| == |nbs| && e in nbs
    ensures Get(m, e.0) == Some(value)
  {
    var prefix := nbs[..|nbs| - 1];
    assert nbs == prefix + [nbs[|nbs| - 1]];
    if e != nbs[|nbs| - 1] {
      SameInAll(m, value, prefix, e);
    }
  }

  /** A cell whose lower neighbour is missing or another plant has a fence. */
  lemma BottomFence(m: Map<char>, c: Coordinate)
    requires Valid(m) && InBounds(m, c)
    requires !(c.row + 1 < m.nRows && Get(m, Coordinate(c.row + 1, c.col)) == Get(m, c))
    ensures |SameNeighbours(m, c)| < 4
  {
    var nbs := Neighbourhood(m, c);
    if |SameNeighbours(m, c)| == 4 {
      var below := Coordinate(c.row + 1, c.col);
      assert c.row + 1 < m.nRows;
      NeighbourhoodMember(m, c, below, Down);
      SameInAll(m, Get(m, c).value, nbs, (below, Down));
      assert false;
    }
  }

  /**
    Every region has a positive perimeter: the lowest cell reached by walking
    down through the region has a fence below it. So `get_region` never drops
    a region of the map.
   */
  lemma PerimeterPositive(m: Map<char>, start: Coordinate)
    requires Valid(m) && InBounds(m, start)
    ensures Perimeter(m, Component(m, start)) > 0
    ensures RegionOf(m, start, Component(m, start)).Some?
  {
    var x := start;
    ConnectedSelf(m, start);
    while x.row + 1 < m.nRows && Get(m, Coordinate(x.row + 1, x.col)) == Get(m, x)
      invariant InBounds(m, x) && Connected(m, start, x)
      decreases m.nRows - x.row
    {
      var y := Coordinate(x.row + 1, x.col);
      assert Alike(m, x, y);
      ConnectedStep(m, start, x, y);
      x := y;
    }
    BottomFence(m, x);
    var region := Component(m, start);
    assert x in region;
    SetSumRemove(region, x, Fences(m));
    SetSumNonNegative(region - {x}, Fences(m));
  }

  // ---------------------------------------------------------------- get_regions

  /** The cells of a list of regions. */
  ghost function AllOf(rs: seq<Region>): set<Coordinate>
  {
    if rs == [] then {} else AllOf(rs[..|rs| - 1]) + rs[|rs| - 1].all
  }

  /** The total area of a list of regions. */
  function AreaSum(rs: seq<Region>): nat
  {
    if rs == [] then 0 else AreaSum(rs[..|rs| - 1]) + rs[|rs| - 1].area
  }

  /** A region of the map: what `get_region` reports for some cell's component. */
  ghost predicate IsRegion(m: Map<char>, r: Region)
    requires Valid(m)
  {
    exists c :: InBounds(m, c) && r.all == Component(m, c) && RegionOf(m, c, Component(m, c)) == Some(r)
  }

  ghost predicate Disjoint(rs: seq<Region>)
  {
    forall i, j :: 0 <= i < j < |rs| ==> rs[i].all !! rs[j].all
  }

  /** Every entry of the list is a region of the map. */
  ghost predicate AllRegions(m: Map<char>, rs: seq<Region>)
    requires Valid(m)
  {
    forall i :: 0 <= i < |rs| ==> IsRegion(m, rs[i])
  }

  /** The regions found so far cover the visited cells exactly once. */
  ghost predicate Scanned(m: Map<char>, visited: set<Coordinate>, rs: seq<Region>)
    requires Valid(m)
  {
    visited <= AllCells(m) && Closed(m, visited) &&
    AllOf(rs) == visited && AreaSum(rs) == |visited| &&
    (forall i :: 0 <= i < |rs| ==> rs[i].all <= visited) &&
    Disjoint(rs) && AllRegions(m, rs)
  }

  lemma RegionsAppend(m: Map<char>, rs: seq<Region>, region: Region)
    requires Valid(m) && AllRegions(m, rs) && IsRegion(m, region)
    ensures AllRegions(m, rs + [region])
  {
    var rs' := rs + [region];
    forall i | 0 <= i < |rs'| ensures IsRegion(m, rs'[i]) {
      if i < |rs| {
        assert rs'[i] == rs[i];
      }
    }
  }

  /** A region disjoint from the cells of the earlier ones extends the list's cells and area. */
  lemma CellsAppend(visited: set<Coordinate>, rs: seq<Region>, region: Region)
    requires AllOf(rs) == visited && (forall i :: 0 <= i < |rs| ==> rs[i].all <= visited) && Disjoint(rs)
    requires region.all !! visited
    ensures AllOf(rs + [region]) == visited + region.all
    ensures AreaSum(rs + [region]) == AreaSum(rs) + region.area
    ensures forall i :: 0 <= i < |rs + [region]| ==> (rs + [region])[i].all <= visited + region.all
    ensures Disjoint(rs + [region])
  {
    var rs' := rs + [region];
    assert rs'[..|rs|] == rs;
    forall i | 0 <= i < |rs'| ensures rs'[i].all <= visited + region.all {
      if i < |rs| {
        assert rs'[i] == rs[i];
      }
    }
    forall i, j | 0 <= i < j < |rs'| ensures rs'[i].all !! rs'[j].all {
      assert rs'[i] == rs[i];
      if j < |rs| {
        assert rs'[j] == rs[j];
      }
    }
  }

  /** Adding a region disjoint from the visited cells keeps the scan's invariant. */
  lemma ScanAppend(m: Map<char>, visited: set<Coordinate>, rs: seq<Region>, region: Region)
    requires Valid(m) && Scanned(m, visited, rs) && IsRegion(m, region)
    requires region.all !! visited && region.area == |region.all| && region.all <= AllCells(m)
    requires Closed(m, visited + region.all)
    ensures Scanned(m, visited + region.all, rs + [region])
  {
    CellsAppend(visited, rs, region);
    RegionsAppend(m, rs, region);
  }

  /** One call of `get_region` from an unvisited cell on the map adds that cell's region. */
  lemma ScanStep(m: Map<char>, visited: set<Coordinate>, rs: seq<Region>, start: Coordinate,
                 visited': set<Coordinate>, r: Option<Region>)
    requires Valid(m) && Scanned(m, visited, rs) && InBounds(m, start) && start !in visited
    requires Flooded(m, start, visited, visited') && r == RegionOf(m, start, visited' - visited)
    ensures r.Some? && Scanned(m, visited', rs + [r.value])
  {
    FloodRegion(m, start, visited, visited', r);
    ScanAppend(m, visited, rs, r.value);
  }

  /** A flood from an unvisited cell reports the region of that cell, made of the newly visited cells. */
  lemma FloodRegion(m: Map<char>, start: Coordinate, visited: set<Coordinate>, visited': set<Coordinate>, r: Option<Region>)
    requires Valid(m) && Closed(m, visited) && InBounds(m, start) && start !in visited
    requires Flooded(m, start, visited, visited') && r == RegionOf(m, start, visited' - visited)
    ensures r.Some? && IsRegion(m, r.value) && r.value.all == visited' - visited
    ensures r.value.all !! visited && r.value.area == |r.value.all| && r.value.all <= AllCells(m)
    ensures visited' == visited + r.value.all && Closed(m, visited')
  {
    FloodIsComponent(m, start, visited, visited');
    PerimeterPositive(m, start);
    var cells := visited' - visited;
    assert visited' == visited + cells;
    assert IsRegion(m, r.value);
  }

  /** A partition of the map into its regions. */
  ghost predicate Partition(m: Map<char>, rs: seq<Region>)
    requires Valid(m)
  {
    AllRegions(m, rs) && Disjoint(rs) && AllOf(rs) == AllCells(m)
  }

  /** One turn of `get_regions`: flood from `coordinate` and keep the region found. */
  method ScanCell(m: Map<char>, coordinate: Coordinate, visited: set<Coordinate>, regions: seq<Region>)
    returns (visited': set<Coordinate>, regions': seq<Region>)
    requires Valid(m) && InBounds(m, coordinate) && Scanned(m, visited, regions)
    ensures Scanned(m, visited', regions') && visited <= visited' && coordinate in visited'
  {
    var region;
    region, visited' := GetRegion(coordinate, m, visited);
    regions' := regions;
    if coordinate !in visited {
      ScanStep(m, visited, regions, coordinate, visited', region);
      regions' := regions + [region.value];
    }
  }

  /** Every cell of the map before `(row, col)` in reading order has been visited. */
  ghost predicate Covered(m: Map<char>, visited: set<Coordinate>, row: nat, col: nat)
  {
    forall c :: InBounds(m, c) && (c.row < row || (c.row == row && c.col < col)) ==> c in visited
  }

  lemma CoverStep(m: Map<char>, visited: set<Coordinate>, visited': set<Coordinate>, row: nat, col: nat)
    requires Covered(m, visited, row, col) && visited <= visited' && Coordinate(row, col) in visited'
    ensures Covered(m, visited', row, col + 1)
  {
  }

  lemma CoverRow(m: Map<char>, visited: set<Coordinate>, row: nat)
    requires Covered(m, visited, row, m.nCols)
    ensures Covered(m, visited, row + 1, 0)
  {
  }

  /**
    `get_regions`: flood from every cell in reading order. Every region of
    the map is reported once: the regions are disjoint, cover the map, and
    their areas add up to the number of cells.
   */
  /** The inner loop of `get_regions`: one turn per cell of row `row`. */
  method ScanRow(m: Map<char>, row: nat, visited: set<Coordinate>, regions: seq<Region>)
    returns (visited': set<Coordinate>, regions': seq<Region>)
    requires Valid(m) && row < m.nRows && Scanned(m, visited, regions) && Covered(m, visited, row, 0)
    ensures Scanned(m, visited', regions') && Covered(m, visited', row + 1, 0)
  {
    visited', regions' := visited, regions;
    for col := 0 to m.nCols
      invariant Scanned(m, visited', regions') && Covered(m, visited', row, col)
    {
      ghost var before := visited';
      visited', regions' := ScanCell(m, Coordinate(row, col), visited', regions');
      CoverStep(m, before, visited', row, col);
    }
    CoverRow(m, visited', row);
  }

  method GetRegions(m: Map<char>) returns (regions: seq<Region>)
    requires Valid(m)
    ensures Partition(m, regions)
    ensures AreaSum(regions) == m.nRows * m.nCols
  {
    regions := [];
    var visited: set<Coordinate> := {};
    for row := 0 to m.nRows
      invariant Scanned(m, visited, regions) && Covered(m, visited, row, 0)
    {
      visited, regions := ScanRow(m, row, visited, regions);
    }
    ScanDone(m, visited, regions);
  }

  /** Once every row is covered, the regions found partition the map. */
  lemma ScanDone(m: Map<char>, visited: set<Coordinate>, regions: seq<Region>)
    requires Valid(m) && Scanned(m, visited, regions) && Covered(m, visited, m.nRows, 0)
    ensures Partition(m, regions) && AreaSum(regions) == m.nRows * m.nCols
  {
    assert visited == AllCells(m);
    AllCellsCard(m);
  }

  // ---------------------------------------------------------------- count_sides

  /** The number of consecutive entries whose directions differ: the corners `count_sides` counts at a cell. */
  function CornerCount(s: seq<(Coordinate, Direction)>): nat
  {
    if |s| <= 1 then 0
    else CornerCount(s[..|s| - 1]) + (if s[|s| - 2].1 != s[|s| - 1].1 then 1 else 0)
  }

  /** The neighbours `count_sides` marks as visited at a cell: every listed one but the last. */
  function Marked(s: seq<(Coordinate, Direction)>): set<Coordinate>
  {
    if |s| <= 1 then {} else Marked(s[..|s| - 1]) + {s[|s| - 2].0}
  }

  lemma CornerStep(s: seq<(Coordinate, Direction)>, e: (Coordinate, Direction))
    ensures CornerCount(s + [e]) == CornerCount(s) + (if s != [] && s[|s| - 1].1 != e.1 then 1 else 0)
    ensures Marked(s + [e]) == Marked(s) + (if s != [] then {s[|s| - 1].0} else {})
  {
    var t := s + [e];
    assert t[..|t| - 1] == s;
  }

  /**
    The inner loop of `count_sides` at one edge cell holding `value`: walk
    the neighbourhood, and for every same-plant neighbour after the first
    count a corner when its direction differs from the previous one and mark
    the previous one as visited.
   */
  method WalkCell(m: Map<char>, nbs: seq<(Coordinate, Direction)>, value: char, corners: nat, visited: set<Coordinate>)
    returns (corners': nat, visited': set<Coordinate>)
    requires Valid(m)
    ensures corners' == corners + CornerCount(SameIn(m, value, nbs))
    ensures visited' == visited + Marked(SameIn(m, value, nbs))
  {
    var previous: Option<(Coordinate, Direction)> := None;
    ghost var kept: seq<(Coordinate, Direction)> := [];
    corners', visited' := corners, visited;
    for k := 0 to |nbs|
      invariant kept == SameIn(m, value, nbs[..k])
      invariant previous == if kept == [] then None else Some(kept[|kept| - 1])
      invariant corners' == corners + CornerCount(kept)
      invariant visited' == visited + Marked(kept)
    {
      SameInStep(m, value, nbs, k);
      CornerStep(kept, nbs[k]);
      var (neighbour, direction) := nbs[k];
      if Get(m, neighbour) == Some(value) {
        if previous.Some? {
          var (previousNeighbour, previousDirection) := previous.value;
          if previousDirection != direction {
            corners' := corners' + 1;
          }
          visited' := visited' + {previousNeighbour};
        }
        previous := Some((neighbour, direction));
        kept := kept + [nbs[k]];
      }
    }
    assert nbs[..|nbs|] == nbs;
  }

  /**
    `count_sides` over the edge cells taken in the order `order`: a cell
    already marked is skipped, a cell on the map adds the corners at it and
    marks its neighbours.
   */
  function SidesScan(m: Map<char>, order: seq<Coordinate>): (nat, set<Coordinate>)
    requires Valid(m)
  {
    if order == [] then (0, {})
    else
      var (corners, visited) := SidesScan(m, order[..|order| - 1]);
      var edge := order[|order| - 1];
      if edge in visited || !InBounds(m, edge) then (corners, visited)
      else
        var same := SameNeighbours(m, edge);
        (corners + CornerCount(same), visited + Marked(same))
  }

  /** `order` lists every cell of `s` once. */
  ghost predicate Enumerates(order: seq<Coordinate>, s: set<Coordinate>)
  {
    |order| == |s| && forall c :: c in order <==> c in s
  }

  /** One more cell in the order of `count_sides`. */
  lemma SidesNext(m: Map<char>, order: seq<Coordinate>, edge: Coordinate)
    requires Valid(m)
    ensures SidesScan(m, order + [edge]) ==
      var (corners, visited) := SidesScan(m, order);
      if edge in visited || Get(m, edge).None? then (corners, visited)
      else
        var same := SameIn(m, Get(m, edge).value, Neighbourhood(m, edge));
        (corners + CornerCount(same), visited + Marked(same))
  {
    assert (order + [edge])[..|order|] == order;
  }

  /** Moving a cell from the remaining ones to the end of the order. */
  lemma Enlist(order: seq<Coordinate>, edges: set<Coordinate>, remaining: set<Coordinate>, edge: Coordinate)
    requires edge in remaining && Listing(order, edges, remaining)
    ensures Listing(order + [edge], edges, remaining - {edge})
  {
  }

  /** The loop invariant of `count_sides`: `order` lists the edge cells taken so far, each once. */
  ghost predicate Listing(order: seq<Coordinate>, edges: set<Coordinate>, remaining: set<Coordinate>)
  {
    remaining <= edges && |order| + |remaining| == |edges| &&
    forall c :: c in order <==> c in edges && c !in remaining
  }

  /**
    `count_sides`: the sum runs over the edge cells in the unspecified order
    of a `HashSet`; the result is the scan of one order listing every edge
    cell once.
   */
  method CountSides(edges: set<Coordinate>, m: Map<char>) returns (corners: nat, ghost order: seq<Coordinate>)
    requires Valid(m)
    ensures Enumerates(order, edges)
    ensures corners == SidesScan(m, order).0
    ensures corners <= 3 * |edges|
  {
    var visited: set<Coordinate> := {};
    var remaining := edges;
    corners := 0;
    order := [];
    while remaining != {}
      invariant Listing(order, edges, remaining)
      invariant (corners, visited) == SidesScan(m, order)
      decreases |remaining|
    {
      var edge :| edge in remaining;
      Enlist(order, edges, remaining, edge);
      remaining := remaining - {edge};
      SidesNext(m, order, edge);
      order := order + [edge];
      if edge in visited {
        continue;
      }
      var current := Get(m, edge);
      if current.Some? {
        corners, visited := WalkCell(m, Neighbourhood(m, edge), current.value, corners, visited);
      }
    }
    SidesBound(m, order);
  }

  // ---------------------------------------------------------------- what count_sides counts

  function Rank(d: Direction): nat
  {
    match d
    case Up => 0
    case Down => 1
    case Left => 2
    case Right => 3
  }

  /** Directions strictly in the order `limited_neighbourhood` lists them. */
  predicate Ascending(s: seq<(Coordinate, Direction)>)
  {
    forall i, j :: 0 <= i < j < |s| ==> Rank(s[i].1) < Rank(s[j].1)
  }

  lemma NeighbourhoodAscending(m: Map<char>, c: Coordinate)
    ensures Ascending(Neighbourhood(m, c))
  {
  }

  lemma {:induction false} SameInAscending(m: Map<char>, value: char, nbs: seq<(Coordinate, Direction)>)
    requires Valid(m) && Ascending(nbs)
    ensures Ascending(SameIn(m, value, nbs))
  {
    if nbs != [] {
      var prefix := nbs[..|nbs| - 1];
      var last := nbs[|nbs| - 1];
      SameInAscending(m, value, prefix);
      var kept := SameIn(m, value, prefix);
      forall i | 0 <= i < |kept| ensures Rank(kept[i].1) < Rank(last.1) {
        SameInMember(m, value, prefix, kept[i]);
        var p :| 0 <= p < |prefix| && prefix[p] == kept[i];
        assert prefix[p] == nbs[p];
      }
    }
  }

  /** With distinct directions, every pair of consecutive entries is a corner. */
  lemma {:induction false} CornerCountAscending(s: seq<(Coordinate, Direction)>)
    requires Ascending(s)
    ensures CornerCount(s) == if s == [] then 0 else |s| - 1
  {
    if |s| > 1 {
      CornerCountAscending(s[..|s| - 1]);
    }
  }

  /**
    The direction test in `count_sides` never fails: an edge cell with `n`
    same-plant neighbours adds `n - 1` corners (none when it has none), so
    at most three.
   */
  lemma CellCorners(m: Map<char>, c: Coordinate)
    requires Valid(m) && InBounds(m, c)
    ensures CornerCount(SameNeighbours(m, c)) == if SameNeighbours(m, c) == [] then 0 else |SameNeighbours(m, c)| - 1
    ensures CornerCount(SameNeighbours(m, c)) <= 3
  {
    NeighbourhoodAscending(m, c);
    SameInAscending(m, Get(m, c).value, Neighbourhood(m, c));
    CornerCountAscending(SameNeighbours(m, c));
  }

  /** `count_sides` counts at most three corners per edge cell, whatever the order. */
  lemma {:induction false} SidesBound(m: Map<char>, order: seq<Coordinate>)
    requires Valid(m)
    ensures SidesScan(m, order).0 <= 3 * |order|
  {
    if order != [] {
      SidesBound(m, order[..|order| - 1]);
      var edge := order[|order| - 1];
      if InBounds(m, edge) {
        CellCorners(m, edge);
      }
    }
  }

  // ---------------------------------------------------------------- the two parts

  /** The cell parser of `part_one` and `part_two`: every character is a plant. */
  function Plant(c: char): Option<char>
  {
    Some(c)
  }

  /** The garden parsed from non-empty rectangular lines. */
  function Garden(lines: seq<string>): (m: Map<char>)
    requires lines != [] && Rectangular(lines)
    ensures Valid(m) && m.nRows == |lines|
  {
    assert Parses(lines, Plant);
    CellsLength(lines, Plant);
    Map(Cells(lines, Plant), |lines|, |lines[0]|)
  }

  /** The fence price of `part_one`: the sum of area times perimeter. */
  function Price(rs: seq<Region>): nat
  {
    if rs == [] then 0 else Price(rs[..|rs| - 1]) + rs[|rs| - 1].area * rs[|rs| - 1].perimeter
  }

  /** The bulk price of `part_two`: the sum of area times the corners `count_sides` finds along each region's edge cells. */
  function BulkPrice(m: Map<char>, rs: seq<Region>, orders: seq<seq<Coordinate>>): nat
    requires Valid(m) && |orders| == |rs|
  {
    if rs == [] then 0
    else BulkPrice(m, rs[..|rs| - 1], orders[..|rs| - 1]) + rs[|rs| - 1].area * SidesScan(m, orders[|rs| - 1]).0
  }

  ghost predicate EdgeOrders(rs: seq<Region>, orders: seq<seq<Coordinate>>)
  {
    |orders| == |rs| && forall i :: 0 <= i < |rs| ==> Enumerates(orders[i], rs[i].edges)
  }

  /** One more region in the fold of `part_two`. */
  lemma BulkStep(m: Map<char>, rs: seq<Region>, orders: seq<seq<Coordinate>>, i: nat, order: seq<Coordinate>)
    requires Valid(m) && i < |rs| && EdgeOrders(rs[..i], orders) && Enumerates(order, rs[i].edges)
    ensures EdgeOrders(rs[..i + 1], orders + [order])
    ensures BulkPrice(m, rs[..i + 1], orders + [order]) == BulkPrice(m, rs[..i], orders) + rs[i].area * SidesScan(m, order).0
  {
    assert rs[..i + 1][..i] == rs[..i];
    assert (orders + [order])[..i] == orders;
  }

  /** The fold of `part_two` over the regions, calling `count_sides` on each region's edge cells. */
  method BulkTotal(m: Map<char>, regions: seq<Region>) returns (total: nat, ghost orders: seq<seq<Coordinate>>)
    requires Valid(m)
    ensures EdgeOrders(regions, orders) && total == BulkPrice(m, regions, orders)
  {
    total := 0;
    orders := [];
    for i := 0 to |regions|
      invariant EdgeOrders(regions[..i], orders)
      invariant total == BulkPrice(m, regions[..i], orders)
    {
      var region := regions[i];
      var sides, order := CountSides(region.edges, m);
      BulkStep(m, regions, orders, i, order);
      orders := orders + [order];
      total := total + region.area * sides;
    }
    assert regions[..|regions|] == regions;
  }

  /**
    `part_one`: `None` when the trimmed input has no lines or a ragged line;
    otherwise the price of the partition of the garden into its regions.
   */
  method PartOne(input: string) returns (r: Option<nat>)
    ensures r.Some? <==> Lines(Trim(input)) != [] && Rectangular(Lines(Trim(input)))
    ensures r.Some? ==> exists rs :: Partition(Garden(Lines(Trim(input))), rs) && r.value == Price(rs)
  {
    var lines := Lines(Trim(input));
    var parsed := Parse(lines, Plant);
    if parsed.None? {
      return None;
    }
    var regions := GetRegions(parsed.value);
    r := Some(Price(regions));
  }

  /**
    `part_two`: like `part_one`, with each region's perimeter replaced by
    the corners `count_sides` finds along its edge cells, in some order of
    each `HashSet` of edge cells.
   */
  method PartTwo(input: string) returns (r: Option<nat>)
    ensures r.Some? <==> Lines(Trim(input)) != [] && Rectangular(Lines(Trim(input)))
    ensures r.Some? ==> exists rs, orders :: Partition(Garden(Lines(Trim(input))), rs) && EdgeOrders(rs, orders) &&
                                             r.value == BulkPrice(Garden(Lines(Trim(input))), rs, orders)
  {
    var lines := Lines(Trim(input));
    var parsed := Parse(lines, Plant);
    if parsed.None? {
      return None;
    }
    var m := parsed.value;
    var regions := GetRegions(m);
    var total, orders := BulkTotal(m, regions);
    assert Partition(Garden(lines), regions) && EdgeOrders(regions, orders);
    r := Some(total);
  }
}
