/**
  Resonant collinearity (src/bin/08.rs): antennas of one frequency (a
  character other than '.') create antinodes. In part one each ordered pair
  of antennas a, b of a frequency produces the two points 2b - a and 2a - b
  when they lie on the board; in part two it produces both antennas and
  every point b + k(b - a) and a - k(b - a), k >= 1, up to the edge of the
  board. The answers count the distinct antinodes over all frequencies.
 */
module ResonantCollinearity {
  import opened Common
  import opened Text

  /** A lattice point; the source uses i128 and no computation comes near its range. */
  datatype Coordinate = Coordinate(row: int, col: int)

  function Plus(p: Coordinate, d: Coordinate): Coordinate { Coordinate(p.row + d.row, p.col + d.col) }
  function Minus(p: Coordinate, d: Coordinate): Coordinate { Coordinate(p.row - d.row, p.col - d.col) }

  /** `p + k * d`. */
  function Along(p: Coordinate, d: Coordinate, k: int): Coordinate
  {
    Coordinate(p.row + k * d.row, p.col + k * d.col)
  }

  // ---------------------------------------------------------------- parsing

  /** `input.trim().lines()`, each line trimmed as the inner loop reads it. */
  function Rows(lines: seq<string>): (rows: seq<string>)
    ensures |rows| == |lines|
  {
    seq(|lines|, i requires 0 <= i < |lines| => Trim(lines[i]))
  }

  /** The board size: the number of lines, and the length of the last line (untrimmed). */
  function Size(lines: seq<string>): Coordinate
  {
    Coordinate(|lines|, if lines == [] then 0 else |lines[|lines| - 1]|)
  }

  /** The body of the inner loop: record an antenna `c` at `p`, unless `c` is '.'. */
  function AddAntenna(m: map<char, seq<Coordinate>>, c: char, p: Coordinate): map<char, seq<Coordinate>>
  {
    if c == '.' then m
    else if c in m then m[c := m[c] + [p]]
    else m[c := [p]]
  }

  /** The inner loop over one row. */
  function AddRow(m: map<char, seq<Coordinate>>, row: nat, line: string): map<char, seq<Coordinate>>
  {
    if line == [] then m
    else AddAntenna(AddRow(m, row, line[..|line| - 1]), line[|line| - 1], Coordinate(row, |line| - 1))
  }

  /** The antennas of every frequency, in reading order. */
  function AntennasOf(rows: seq<string>): map<char, seq<Coordinate>>
  {
    if rows == [] then map[] else AddRow(AntennasOf(rows[..|rows| - 1]), |rows| - 1, rows[|rows| - 1])
  }

  lemma AddRowStep(m: map<char, seq<Coordinate>>, row: nat, line: string, col: nat)
    requires col < |line|
    ensures AddRow(m, row, line[..col + 1]) == AddAntenna(AddRow(m, row, line[..col]), line[col], Coordinate(row, col))
  {
    assert line[..col + 1][..col] == line[..col];
  }

  lemma AntennasOfStep(rows: seq<string>, row: nat)
    requires row < |rows|
    ensures AntennasOf(rows[..row + 1]) == AddRow(AntennasOf(rows[..row]), row, rows[row])
  {
    assert rows[..row + 1][..row] == rows[..row];
  }

  /** `parse`: the board size and, per frequency, the positions of its antennas. */
  method Parse(input: string) returns (size: Coordinate, antennas: map<char, seq<Coordinate>>)
    ensures size == Size(Lines(Trim(input)))
    ensures antennas == AntennasOf(Rows(Lines(Trim(input))))
  {
    var lines := Lines(Trim(input));
    ghost var rows := Rows(lines);
    size := Coordinate(|lines|, 0);
    antennas := map[];
    for row := 0 to |lines|
      invariant size == Coordinate(|lines|, if row == 0 then 0 else |lines[row - 1]|)
      invariant antennas == AntennasOf(rows[..row])
    {
      var line := lines[row];
      size := size.(col := |line|);
      var chars := Trim(line);
      assert chars == rows[row];
      assert chars[..0] == [];
      for col := 0 to |chars|
        invariant antennas == AddRow(AntennasOf(rows[..row]), row, chars[..col])
      {
        AddRowStep(AntennasOf(rows[..row]), row, chars, col);
        ghost var before := antennas;
        var c := chars[col];
        if c != '.' {
          if c in antennas {
            antennas := antennas[c := antennas[c] + [Coordinate(row, col)]];
          } else {
            antennas := antennas[c := [Coordinate(row, col)]];
          }
        }
        assert antennas == AddAntenna(before, c, Coordinate(row, col));
      }
      assert chars[..|chars|] == chars;
      AntennasOfStep(rows, row);
    }
    assert rows[..|lines|] == rows;
  }

  /** Antenna `c` is listed at `p` after the row exactly when it was before, or `p` is a `c` of this row. */
  lemma {:induction false} AddRowMember(m: map<char, seq<Coordinate>>, row: nat, line: string, c: char, p: Coordinate)
    ensures (c in AddRow(m, row, line) && p in AddRow(m, row, line)[c]) <==>
            (c in m && p in m[c]) || (c != '.' && p.row == row && 0 <= p.col < |line| && line[p.col] == c)
  {
    if line != [] {
      var init := line[..|line| - 1];
      AddRowMember(m, row, init, c, p);
      if 0 <= p.col < |init| {
        assert init[p.col] == line[p.col];
      }
    }
  }

  /** The antennas of frequency `c` are exactly the cells holding `c`; '.' is no frequency. */
  lemma {:induction false} AntennasOfMember(rows: seq<string>, c: char, p: Coordinate)
    ensures (c in AntennasOf(rows) && p in AntennasOf(rows)[c]) <==>
            c != '.' && 0 <= p.row < |rows| && 0 <= p.col < |rows[p.row]| && rows[p.row][p.col] == c
  {
    if rows != [] {
      var init := rows[..|rows| - 1];
      AntennasOfMember(init, c, p);
      AddRowMember(AntennasOf(init), |rows| - 1, rows[|rows| - 1], c, p);
      if 0 <= p.row < |init| {
        assert init[p.row] == rows[p.row];
      }
    }
  }

  /** `p` comes before `q` in reading order. */
  predicate Before(p: Coordinate, q: Coordinate)
  {
    p.row < q.row || (p.row == q.row && p.col < q.col)
  }

  predicate Increasing(s: seq<Coordinate>)
  {
    forall i, j :: 0 <= i < j < |s| ==> Before(s[i], s[j])
  }

  /** Every list of the map is in strictly increasing reading order. */
  ghost predicate AllIncreasing(m: map<char, seq<Coordinate>>)
  {
    forall c :: c in m ==> Increasing(m[c])
  }

  /** Every recorded antenna comes before `p`. */
  ghost predicate AllBefore(m: map<char, seq<Coordinate>>, p: Coordinate)
  {
    forall c, q :: c in m && q in m[c] ==> Before(q, p)
  }

  lemma {:induction false} AddRowOrdered(m: map<char, seq<Coordinate>>, row: nat, line: string)
    requires AllIncreasing(m) && AllBefore(m, Coordinate(row, 0))
    ensures AllIncreasing(AddRow(m, row, line)) && AllBefore(AddRow(m, row, line), Coordinate(row, |line|))
  {
    if line != [] {
      var init := line[..|line| - 1];
      AddRowOrdered(m, row, init);
      var m' := AddRow(m, row, init);
      var p := Coordinate(row, |init|);
      var c := line[|line| - 1];
      var m'' := AddAntenna(m', c, p);
      if c != '.' {
        var old_ := if c in m' then m'[c] else [];
        assert forall q :: q in old_ ==> Before(q, p);
        var s := old_ + [p];
        assert m''[c] == s;
        forall i, j | 0 <= i < j < |s| ensures Before(s[i], s[j]) {
          if j == |old_| {
            assert s[i] in old_;
          }
        }
      }
      forall c2, q | c2 in m'' && q in m''[c2] ensures Before(q, Coordinate(row, |line|)) {
        if c2 in m' && q in m'[c2] {
          assert Before(q, p);
        } else {
          assert q == p;
        }
      }
    }
  }

  /** `parse` lists the antennas of each frequency in reading order, so without repetition. */
  lemma {:induction false} AntennasOfOrdered(rows: seq<string>)
    ensures AllIncreasing(AntennasOf(rows)) && AllBefore(AntennasOf(rows), Coordinate(|rows|, 0))
  {
    if rows != [] {
      var init := rows[..|rows| - 1];
      AntennasOfOrdered(init);
      var line := rows[|rows| - 1];
      AddRowOrdered(AntennasOf(init), |rows| - 1, line);
      var m := AntennasOf(rows);
      forall c, q | c in m && q in m[c] ensures Before(q, Coordinate(|rows|, 0)) {
        assert Before(q, Coordinate(|rows| - 1, |line|));
      }
    }
  }

  predicate Distinct(s: seq<Coordinate>)
  {
    forall i, j :: 0 <= i < |s| && 0 <= j < |s| && i != j ==> s[i] != s[j]
  }

  lemma IncreasingDistinct(s: seq<Coordinate>)
    requires Increasing(s)
    ensures Distinct(s)
  {
    forall i, j | 0 <= i < |s| && 0 <= j < |s| && i != j ensures s[i] != s[j] {
      if i < j {
        assert Before(s[i], s[j]);
      } else {
        assert Before(s[j], s[i]);
      }
    }
  }

  /** Every frequency's antennas are pairwise distinct. */
  lemma AntennasDistinct(rows: seq<string>)
    ensures forall c :: c in AntennasOf(rows) ==> Distinct(AntennasOf(rows)[c])
  {
    AntennasOfOrdered(rows);
    forall c | c in AntennasOf(rows) ensures Distinct(AntennasOf(rows)[c]) {
      IncreasingDistinct(AntennasOf(rows)[c]);
    }
  }

  // ---------------------------------------------------------------- geometry

  /** `in_board`. */
  predicate InBoard(p: Coordinate, size: Coordinate)
  {
    p.row >= 0 && p.col >= 0 && p.row < size.row && p.col < size.col
  }

  /** `validate`: the point itself when it lies on the board. */
  function Validate(p: Coordinate, size: Coordinate): (r: Option<Coordinate>)
    ensures r.Some? <==> InBoard(p, size)
    ensures r.Some? ==> r.value == p
  {
    if InBoard(p, size) then Some(p) else None
  }

  /** `nearest_antinodes(a, b)`: `b + (b - a)` and `a - (b - a)`, each kept only on the board. */
  function NearestAntinodes(a: Coordinate, b: Coordinate, size: Coordinate): seq<Option<Coordinate>>
  {
    var d := Minus(b, a);
    [Validate(Plus(b, d), size), Validate(Minus(a, d), size)]
  }

  /** Both candidates are reflections of one antenna in the other, kept only on the board. */
  lemma NearestShape(a: Coordinate, b: Coordinate, size: Coordinate, x: Coordinate)
    ensures |NearestAntinodes(a, b, size)| == 2
    ensures Some(x) in NearestAntinodes(a, b, size) <==>
            InBoard(x, size) && (x == Minus(Plus(b, b), a) || x == Minus(Plus(a, a), b))
  {
  }

  /** Swapping the two antennas swaps the two candidates. */
  lemma NearestSymmetric(a: Coordinate, b: Coordinate, size: Coordinate)
    ensures NearestAntinodes(b, a, size) == [NearestAntinodes(a, b, size)[1], NearestAntinodes(a, b, size)[0]]
  {
    var d := Minus(b, a);
    var e := Minus(a, b);
    assert Plus(a, e) == Minus(a, d) && Minus(b, e) == Plus(b, d);
  }

  /**
    A bound on the steps left before a ray from `p` in direction `d` leaves
    the board, along the first nonzero component of `d`.
   */
  function RayBound(p: Coordinate, d: Coordinate, size: Coordinate): nat
  {
    var x := if d.row > 0 then size.row - p.row
             else if d.row < 0 then p.row + 1
             else if d.col > 0 then size.col - p.col
             else p.col + 1;
    if x < 0 then 0 else x
  }

  lemma RayBoundDecreases(p: Coordinate, d: Coordinate, size: Coordinate)
    requires d != Coordinate(0, 0) && InBoard(Plus(p, d), size)
    ensures RayBound(Plus(p, d), d, size) < RayBound(p, d, size)
  {
  }

  /**
    One `while let` loop of `line_antinodes`: the validated points `p + d`,
    `p + 2d`, ..., up to and including the first `None`.
   */
  function Ray(p: Coordinate, d: Coordinate, size: Coordinate): seq<Option<Coordinate>>
    requires d != Coordinate(0, 0)
    decreases RayBound(p, d, size)
  {
    var q := Plus(p, d);
    if InBoard(q, size) then
      RayBoundDecreases(p, d, size);
      [Some(q)] + Ray(q, d, size)
    else [None]
  }

  /** A ray ends with its one `None`; every point before it is on the board. */
  lemma {:induction false} RayShape(p: Coordinate, d: Coordinate, size: Coordinate)
    requires d != Coordinate(0, 0)
    ensures var r := Ray(p, d, size);
      |r| >= 1 && r[|r| - 1].None? &&
      forall k :: 0 <= k < |r| - 1 ==> r[k].Some? && InBoard(r[k].value, size)
    decreases RayBound(p, d, size)
  {
    var q := Plus(p, d);
    if InBoard(q, size) {
      RayBoundDecreases(p, d, size);
      RayShape(q, d, size);
    }
  }

  /** Every point of a ray lies on the line through `p` in direction `d`, beyond `p`. */
  lemma {:induction false} RayOnLine(p: Coordinate, d: Coordinate, size: Coordinate, x: Coordinate)
    requires d != Coordinate(0, 0) && Some(x) in Ray(p, d, size)
    ensures exists k :: k >= 1 && x == Along(p, d, k)
    decreases RayBound(p, d, size)
  {
    var q := Plus(p, d);
    assert InBoard(q, size);
    RayBoundDecreases(p, d, size);
    var r := Ray(q, d, size);
    assert Ray(p, d, size) == [Some(q)] + r;
    if x == q {
      assert x == Along(p, d, 1);
    } else {
      assert Some(x) in r;
      RayOnLine(q, d, size, x);
      var k :| k >= 1 && x == Along(q, d, k);
      AlongStep(p, d, k);
    }
  }

  lemma AlongStep(p: Coordinate, d: Coordinate, k: int)
    ensures Along(Plus(p, d), d, k) == Along(p, d, k + 1)
  {
    assert (k + 1) * d.row == k * d.row + d.row;
    assert (k + 1) * d.col == k * d.col + d.col;
  }

  /** Every point on the board from `p + d` onwards, with no gap off the board, is on the ray. */
  lemma {:induction false} RayComplete(p: Coordinate, d: Coordinate, size: Coordinate, k: nat)
    requires d != Coordinate(0, 0) && k >= 1
    requires forall j :: 1 <= j <= k ==> InBoard(Along(p, d, j), size)
    ensures Some(Along(p, d, k)) in Ray(p, d, size)
    decreases k
  {
    var q := Plus(p, d);
    assert q == Along(p, d, 1);
    RayBoundDecreases(p, d, size);
    assert Ray(p, d, size) == [Some(q)] + Ray(q, d, size);
    if k > 1 {
      forall j | 1 <= j <= k - 1 ensures InBoard(Along(q, d, j), size) {
        AlongStep(p, d, j);
      }
      RayComplete(q, d, size, k - 1);
      AlongStep(p, d, k - 1);
    }
  }

  /** What `line_antinodes(a, b)` returns: both antennas, the ray beyond `b`, the ray beyond `a`. */
  function LineAntinodes(a: Coordinate, b: Coordinate, size: Coordinate): seq<Option<Coordinate>>
    requires a != b
  {
    var d := Minus(b, a);
    [Some(a), Some(b)] + Ray(b, d, size) + Ray(a, Coordinate(-d.row, -d.col), size)
  }

  /**
    The line antinodes start with both antennas, unchecked; every other point
    is on the board, and each of the two rays ends in a `None`.
   */
  lemma LineAntinodesShape(a: Coordinate, b: Coordinate, size: Coordinate)
    requires a != b
    ensures var r := LineAntinodes(a, b, size);
      |r| >= 4 && r[0] == Some(a) && r[1] == Some(b) && r[|r| - 1].None? &&
      forall k :: 2 <= k < |r| && r[k].Some? ==> InBoard(r[k].value, size)
  {
    var d := Minus(b, a);
    var e := Coordinate(-d.row, -d.col);
    RayShape(b, d, size);
    RayShape(a, e, size);
    var r1 := Ray(b, d, size);
    var r2 := Ray(a, e, size);
    var r := LineAntinodes(a, b, size);
    forall k | 2 <= k < |r| && r[k].Some? ensures InBoard(r[k].value, size) {
      if k < 2 + |r1| {
        assert r[k] == r1[k - 2];
      } else {
        assert r[k] == r2[k - 2 - |r1|];
      }
    }
  }

  /** A point on the board on the line through both antennas, beyond `b` with no gap, is a line antinode. */
  lemma LineAntinodesComplete(a: Coordinate, b: Coordinate, size: Coordinate, k: nat)
    requires a != b && k >= 1
    requires forall j :: 1 <= j <= k ==> InBoard(Along(b, Minus(b, a), j), size)
    ensures Some(Along(b, Minus(b, a), k)) in LineAntinodes(a, b, size)
  {
    RayComplete(b, Minus(b, a), size, k);
  }

  /** `line_antinodes`: the two `while let` loops. */
  method LineAntinodesLoops(a: Coordinate, b: Coordinate, size: Coordinate) returns (results: seq<Option<Coordinate>>)
    requires a != b
    ensures results == LineAntinodes(a, b, size)
  {
    var d := Minus(b, a);
    results := [Some(a), Some(b)];
    var result := Some(b);
    while result.Some?
      invariant result.Some? ==> results + Ray(result.value, d, size) == [Some(a), Some(b)] + Ray(b, d, size)
      invariant result.None? ==> results == [Some(a), Some(b)] + Ray(b, d, size)
      decreases if result.Some? then RayBound(result.value, d, size) + 1 else 0
    {
      var r := result.value;
      var next := Plus(r, d);
      ghost var rest := Ray(r, d, size);
      result := Validate(next, size);
      if result.Some? {
        RayBoundDecreases(r, d, size);
        assert rest == [Some(next)] + Ray(next, d, size);
      }
      results := results + [result];
    }
    ghost var front := results;
    var e := Coordinate(-d.row, -d.col);
    result := Some(a);
    while result.Some?
      invariant result.Some? ==> results + Ray(result.value, e, size) == front + Ray(a, e, size)
      invariant result.None? ==> results == front + Ray(a, e, size)
      decreases if result.Some? then RayBound(result.value, e, size) + 1 else 0
    {
      var r := result.value;
      var next := Coordinate(r.row - d.row, r.col - d.col);
      assert next == Plus(r, e);
      ghost var rest := Ray(r, e, size);
      result := Validate(next, size);
      if result.Some? {
        RayBoundDecreases(r, e, size);
        assert rest == [Some(next)] + Ray(next, e, size);
      }
      results := results + [result];
    }
  }

  /** Every nearest antinode is also a line antinode. */
  lemma NearestOnLine(a: Coordinate, b: Coordinate, size: Coordinate, x: Coordinate)
    requires a != b && Some(x) in NearestAntinodes(a, b, size)
    ensures Some(x) in LineAntinodes(a, b, size)
  {
    var d := Minus(b, a);
    var e := Coordinate(-d.row, -d.col);
    if x == Plus(b, d) {
      assert Ray(b, d, size)[0] == Some(x);
    } else {
      assert x == Plus(a, e);
      assert Ray(a, e, size)[0] == Some(x);
    }
  }

  // ---------------------------------------------------------------- all antinodes

  /** Which of the two antinode functions `all_antinodes` is given. */
  datatype Rule = Nearest | Line

  function Antinodes(rule: Rule, a: Coordinate, b: Coordinate, size: Coordinate): seq<Option<Coordinate>>
    requires a != b
  {
    match rule
    case Nearest => NearestAntinodes(a, b, size)
    case Line => LineAntinodes(a, b, size)
  }

  /** `(i, j)` for `j` in `0..n`, skipping `j == i`. */
  function PairsWith(i: nat, n: nat): (r: seq<(nat, nat)>)
    ensures forall k :: 0 <= k < |r| ==> r[k].0 == i && r[k].1 < n && r[k].1 != i
  {
    if n == 0 then [] else PairsWith(i, n - 1) + (if n - 1 == i then [] else [(i, n - 1)])
  }

  /** The index pairs `permutations(2)` visits over `n` items, first `i = 0`, then `i = 1`, ... */
  function PairsUpTo(i: nat, n: nat): (r: seq<(nat, nat)>)
    ensures forall k :: 0 <= k < |r| ==> r[k].0 < i && r[k].1 < n && r[k].0 != r[k].1
  {
    if i == 0 then [] else PairsUpTo(i - 1, n) + PairsWith(i - 1, n)
  }

  lemma {:induction false} PairsWithComplete(i: nat, n: nat, j: nat)
    requires j < n && j != i
    ensures (i, j) in PairsWith(i, n)
  {
    if j < n - 1 {
      PairsWithComplete(i, n - 1, j);
    }
  }

  /** `permutations(2)` visits every ordered pair of distinct positions. */
  lemma {:induction false} PairsUpToComplete(i: nat, n: nat, a: nat, b: nat)
    requires a < i && b < n && a != b
    ensures (a, b) in PairsUpTo(i, n)
  {
    if a == i - 1 {
      PairsWithComplete(a, n, b);
    } else {
      PairsUpToComplete(i - 1, n, a, b);
    }
  }

  /** Pairs of positions of two different antennas among `n`. */
  predicate ValidPairs(pairs: seq<(nat, nat)>, n: nat)
  {
    forall k :: 0 <= k < |pairs| ==> pairs[k].0 < n && pairs[k].1 < n && pairs[k].0 != pairs[k].1
  }

  /** The antinode function `all_antinodes` is given, for a board of `size`. */
  function Producer(rule: Rule, size: Coordinate): (Coordinate, Coordinate) --> seq<Option<Coordinate>>
  {
    (a, b) requires a != b => Antinodes(rule, a, b, size)
  }

  /** What `f` returns for each pair, in order. */
  function Groups<U>(ants: seq<Coordinate>, f: (Coordinate, Coordinate) --> U, pairs: seq<(nat, nat)>): (r: seq<U>)
    requires ValidPairs(pairs, |ants|)
    requires forall i, j :: 0 <= i < |ants| && 0 <= j < |ants| && i != j ==> f.requires(ants[i], ants[j])
    ensures |r| == |pairs|
  {
    seq(|pairs|, k requires 0 <= k < |pairs| => f(ants[pairs[k].0], ants[pairs[k].1]))
  }

  /** The `flat_map`: the groups one after another. */
  function Concat<T>(gs: seq<seq<T>>): seq<T>
  {
    if gs == [] then [] else Concat(gs[..|gs| - 1]) + gs[|gs| - 1]
  }

  lemma {:induction false} ConcatMember<T>(gs: seq<seq<T>>, x: T)
    ensures x in Concat(gs) <==> exists k :: 0 <= k < |gs| && x in gs[k]
  {
    if gs != [] {
      var init := gs[..|gs| - 1];
      ConcatMember(init, x);
      if exists k :: 0 <= k < |gs| && x in gs[k] {
        var k :| 0 <= k < |gs| && x in gs[k];
        if k < |init| {
          assert init[k] == gs[k];
        }
      }
    }
  }

  /** `flatten`: the present points, in order. */
  function Flatten(s: seq<Option<Coordinate>>): seq<Coordinate>
  {
    if s == [] then [] else Flatten(s[..|s| - 1]) + (if s[|s| - 1].Some? then [s[|s| - 1].value] else [])
  }

  /** `unique`: the first occurrence of each point, in order. */
  function Unique(s: seq<Coordinate>): seq<Coordinate>
  {
    if s == [] then []
    else
      var u := Unique(s[..|s| - 1]);
      if s[|s| - 1] in u then u else u + [s[|s| - 1]]
  }

  /** `all_antinodes`. */
  function AllAntinodes(ants: seq<Coordinate>, size: Coordinate, rule: Rule): seq<Coordinate>
    requires Distinct(ants)
  {
    Unique(Flatten(Concat(Groups(ants, Producer(rule, size), PairsUpTo(|ants|, |ants|)))))
  }

  lemma {:induction false} FlattenMember(s: seq<Option<Coordinate>>, x: Coordinate)
    ensures x in Flatten(s) <==> Some(x) in s
  {
    if s != [] {
      FlattenMember(s[..|s| - 1], x);
      assert s == s[..|s| - 1] + [s[|s| - 1]];
    }
  }

  /** `unique` keeps every point once and drops no point. */
  lemma {:induction false} UniqueSpec(s: seq<Coordinate>)
    ensures Distinct(Unique(s))
    ensures forall x :: x in Unique(s) <==> x in s
  {
    if s != [] {
      var init := s[..|s| - 1];
      UniqueSpec(init);
      assert s == init + [s[|s| - 1]];
    }
  }

  /** A point is in some group exactly when `f` produces it for one ordered pair of two different antennas. */
  lemma GroupsMember<U>(ants: seq<Coordinate>, f: (Coordinate, Coordinate) --> seq<U>, pairs: seq<(nat, nat)>, x: U)
    requires ValidPairs(pairs, |ants|)
    requires forall i, j :: 0 <= i < |ants| && 0 <= j < |ants| && i != j ==> (i, j) in pairs
    requires forall i, j :: 0 <= i < |ants| && 0 <= j < |ants| && i != j ==> f.requires(ants[i], ants[j])
    ensures (exists k :: 0 <= k < |pairs| && x in Groups(ants, f, pairs)[k]) <==>
            exists i, j :: 0 <= i < |ants| && 0 <= j < |ants| && i != j && x in f(ants[i], ants[j])
  {
    var groups := Groups(ants, f, pairs);
    if exists k :: 0 <= k < |pairs| && x in groups[k] {
      var k :| 0 <= k < |pairs| && x in groups[k];
      var (i, j) := pairs[k];
      assert x in f(ants[i], ants[j]);
    }
    if exists i, j :: 0 <= i < |ants| && 0 <= j < |ants| && i != j && x in f(ants[i], ants[j]) {
      var i, j :| 0 <= i < |ants| && 0 <= j < |ants| && i != j && x in f(ants[i], ants[j]);
      var k :| 0 <= k < |pairs| && pairs[k] == (i, j);
      assert x in groups[k];
    }
  }

  /** The producer's points for a pair are the antinode function's. */
  lemma ProducerMember(ants: seq<Coordinate>, size: Coordinate, rule: Rule, x: Coordinate)
    requires Distinct(ants)
    ensures (exists i, j :: 0 <= i < |ants| && 0 <= j < |ants| && i != j && Some(x) in Producer(rule, size)(ants[i], ants[j])) <==>
            exists i, j :: 0 <= i < |ants| && 0 <= j < |ants| && i != j && Some(x) in Antinodes(rule, ants[i], ants[j], size)
  {
    var f := Producer(rule, size);
    if exists i, j :: 0 <= i < |ants| && 0 <= j < |ants| && i != j && Some(x) in f(ants[i], ants[j]) {
      var i, j :| 0 <= i < |ants| && 0 <= j < |ants| && i != j && Some(x) in f(ants[i], ants[j]);
      assert Some(x) in Antinodes(rule, ants[i], ants[j], size);
    }
    if exists i, j :: 0 <= i < |ants| && 0 <= j < |ants| && i != j && Some(x) in Antinodes(rule, ants[i], ants[j], size) {
      var i, j :| 0 <= i < |ants| && 0 <= j < |ants| && i != j && Some(x) in Antinodes(rule, ants[i], ants[j], size);
      assert Some(x) in f(ants[i], ants[j]);
    }
  }

  /** `permutations(2)` lists each ordered pair of different positions. */
  lemma PairsUpToAll(n: nat)
    ensures ValidPairs(PairsUpTo(n, n), n)
    ensures forall i, j :: 0 <= i < n && 0 <= j < n && i != j ==> (i, j) in PairsUpTo(n, n)
  {
    forall i, j | 0 <= i < n && 0 <= j < n && i != j ensures (i, j) in PairsUpTo(n, n) {
      PairsUpToComplete(n, n, i, j);
    }
  }

  /**
    A point is an antinode of a frequency exactly when one ordered pair of
    two different antennas produces it; the list has no repetition.
   */
  lemma AllAntinodesMember(ants: seq<Coordinate>, size: Coordinate, rule: Rule, x: Coordinate)
    requires Distinct(ants)
    ensures Distinct(AllAntinodes(ants, size, rule))
    ensures x in AllAntinodes(ants, size, rule) <==>
            exists i, j :: 0 <= i < |ants| && 0 <= j < |ants| && i != j && Some(x) in Antinodes(rule, ants[i], ants[j], size)
  {
    var f := Producer(rule, size);
    var pairs := PairsUpTo(|ants|, |ants|);
    PairsUpToAll(|ants|);
    var groups := Groups(ants, f, pairs);
    var cands := Concat(groups);
    UniqueSpec(Flatten(cands));
    FlattenMember(cands, x);
    ConcatMember(groups, Some(x));
    GroupsMember(ants, f, pairs, Some(x));
    ProducerMember(ants, size, rule, x);
  }

  /** The nearest antinodes of a frequency are among its line antinodes. */
  lemma NearestAmongLine(ants: seq<Coordinate>, size: Coordinate, x: Coordinate)
    requires Distinct(ants) && x in AllAntinodes(ants, size, Nearest)
    ensures x in AllAntinodes(ants, size, Line)
  {
    AllAntinodesMember(ants, size, Nearest, x);
    AllAntinodesMember(ants, size, Line, x);
    var i, j :| 0 <= i < |ants| && 0 <= j < |ants| && i != j && Some(x) in Antinodes(Nearest, ants[i], ants[j], size);
    NearestOnLine(ants[i], ants[j], size, x);
  }

  // ---------------------------------------------------------------- answers

  ghost predicate AllDistinct(antennas: map<char, seq<Coordinate>>)
  {
    forall c :: c in antennas ==> Distinct(antennas[c])
  }

  /** The distinct antinodes over all frequencies (`flat_map`, `unique`). */
  function AntinodeSet(antennas: map<char, seq<Coordinate>>, size: Coordinate, rule: Rule): set<Coordinate>
    requires forall c :: c in antennas ==> Distinct(antennas[c])
  {
    set c, x | c in antennas && x in AllAntinodes(antennas[c], size, rule) :: x
  }

  /** `part_one` never has more antinodes than `part_two`. */
  lemma PartOneAtMostPartTwo(antennas: map<char, seq<Coordinate>>, size: Coordinate)
    requires forall c :: c in antennas ==> Distinct(antennas[c])
    ensures AntinodeSet(antennas, size, Nearest) <= AntinodeSet(antennas, size, Line)
    ensures |AntinodeSet(antennas, size, Nearest)| <= |AntinodeSet(antennas, size, Line)|
  {
    var one := AntinodeSet(antennas, size, Nearest);
    var two := AntinodeSet(antennas, size, Line);
    forall x | x in one ensures x in two {
      var c :| c in antennas && x in AllAntinodes(antennas[c], size, Nearest);
      NearestAmongLine(antennas[c], size, x);
    }
    SubsetCard(one, two);
  }

  lemma {:induction false} SubsetCard<T>(a: set<T>, b: set<T>)
    requires a <= b
    ensures |a| <= |b|
    decreases |a|
  {
    if a != {} {
      var x :| x in a;
      SubsetCard(a - {x}, b - {x});
    }
  }

  /** `part_one`. */
  method PartOne(input: string) returns (r: Option<nat>)
    ensures AllDistinct(AntennasOf(Rows(Lines(Trim(input)))))
    ensures r == Some(|AntinodeSet(AntennasOf(Rows(Lines(Trim(input)))), Size(Lines(Trim(input))), Nearest)|)
  {
    var size, antennas := Parse(input);
    AntennasDistinct(Rows(Lines(Trim(input))));
    r := Some(|AntinodeSet(antennas, size, Nearest)|);
  }

  /** `part_two`. */
  method PartTwo(input: string) returns (r: Option<nat>)
    ensures AllDistinct(AntennasOf(Rows(Lines(Trim(input)))))
    ensures r == Some(|AntinodeSet(AntennasOf(Rows(Lines(Trim(input)))), Size(Lines(Trim(input))), Line)|)
  {
    var size, antennas := Parse(input);
    AntennasDistinct(Rows(Lines(Trim(input))));
    r := Some(|AntinodeSet(antennas, size, Line)|);
  }
}
