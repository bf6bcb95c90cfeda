/**
  The dense row-major map shared by src/bin/12.rs and src/bin/10.rs: a
  vector of `n_rows * n_cols` values, bounds-checked access, conversion
  between flat indices and coordinates, a parser that rejects ragged input,
  and the orthogonal neighbours of a cell that lie on the map.
 */
module Grid {
  import opened Common

  /** A cell; the source uses `usize`. */
  datatype Coordinate = Coordinate(row: nat, col: nat)

  datatype Direction = Up | Right | Down | Left

  /** `Map<T>`: `data` holds the rows one after another. */
  datatype Map<T> = Map(data: seq<T>, nRows: nat, nCols: nat)

  /** What `parse` establishes and every access relies on. */
  predicate Valid<T>(m: Map<T>)
  {
    |m.data| == m.nRows * m.nCols
  }

  predicate InBounds<T>(m: Map<T>, c: Coordinate)
  {
    c.row < m.nRows && c.col < m.nCols
  }

  // ---------------------------------------------------------------- arithmetic

  lemma MulMonotone(a: nat, b: nat, n: nat)
    requires a <= b
    ensures a * n <= b * n
  {
    assert b * n == a * n + (b - a) * n;
  }

  lemma IndexBound(row: nat, col: nat, nRows: nat, nCols: nat)
    requires row < nRows && col < nCols
    ensures row * nCols + col < nRows * nCols
  {
    assert (row + 1) * nCols == row * nCols + nCols;
    MulMonotone(row + 1, nRows, nCols);
  }

  lemma DivBound(i: nat, nRows: nat, nCols: nat)
    requires i < nRows * nCols
    ensures nCols > 0 && i / nCols < nRows
  {
    assert nCols != 0;
    assert i == (i / nCols) * nCols + i % nCols;
    if i / nCols >= nRows {
      MulMonotone(nRows, i / nCols, nCols);
    }
  }

  lemma DivModOf(row: nat, col: nat, n: nat)
    requires col < n
    ensures (row * n + col) / n == row && (row * n + col) % n == col
  {
    var i := row * n + col;
    var q := i / n;
    var r := i % n;
    assert i == q * n + r;
    assert (q - row) * n == q * n - row * n;
    assert (row - q) * n == row * n - q * n;
    if q > row {
      MulMonotone(1, q - row, n);
    } else if q < row {
      MulMonotone(1, row - q, n);
    }
  }

  // ---------------------------------------------------------------- access

  /** `coordinate_to_index`: the flat index of a cell on the map. */
  function CoordinateToIndex<T>(m: Map<T>, c: Coordinate): (r: Option<nat>)
    ensures r.Some? <==> InBounds(m, c)
    ensures r.Some? ==> r.value < m.nRows * m.nCols
  {
    if InBounds(m, c) then
      IndexBound(c.row, c.col, m.nRows, m.nCols);
      Some(c.row * m.nCols + c.col)
    else None
  }

  /** `index_to_coordinate`: the cell of a flat index below `n_rows * n_cols`. */
  function IndexToCoordinate<T>(m: Map<T>, index: nat): (r: Option<Coordinate>)
    ensures r.Some? <==> index < m.nRows * m.nCols
    ensures r.Some? ==> InBounds(m, r.value)
  {
    if index < m.nRows * m.nCols then
      DivBound(index, m.nRows, m.nCols);
      Some(Coordinate(index / m.nCols, index % m.nCols))
    else None
  }

  /** Converting an index to a cell and back gives the index. */
  lemma IndexRoundTrip<T>(m: Map<T>, index: nat)
    requires index < m.nRows * m.nCols
    ensures IndexToCoordinate(m, index).Some?
    ensures CoordinateToIndex(m, IndexToCoordinate(m, index).value) == Some(index)
  {
    DivBound(index, m.nRows, m.nCols);
    assert index == (index / m.nCols) * m.nCols + index % m.nCols;
  }

  /** Converting a cell to an index and back gives the cell. */
  lemma CoordinateRoundTrip<T>(m: Map<T>, c: Coordinate)
    requires InBounds(m, c)
    ensures CoordinateToIndex(m, c).Some?
    ensures IndexToCoordinate(m, CoordinateToIndex(m, c).value) == Some(c)
  {
    DivModOf(c.row, c.col, m.nCols);
  }

  /** `get`: the value of a cell, `None` off the map. */
  function Get<T>(m: Map<T>, c: Coordinate): (r: Option<T>)
    requires Valid(m)
    ensures r.Some? <==> InBounds(m, c)
  {
    match CoordinateToIndex(m, c)
    case None => None
    case Some(index) => Some(m.data[index])
  }

  /** On the map, `get` reads `data[row * n_cols + col]`. */
  lemma GetAt<T>(m: Map<T>, c: Coordinate)
    requires Valid(m) && InBounds(m, c)
    ensures c.row * m.nCols + c.col < |m.data|
    ensures Get(m, c) == Some(m.data[c.row * m.nCols + c.col])
  {
    IndexBound(c.row, c.col, m.nRows, m.nCols);
  }

  // ---------------------------------------------------------------- parsing

  /** Every line is as long as the first. */
  predicate Rectangular(lines: seq<string>)
  {
    forall i :: 0 <= i < |lines| ==> |lines[i]| == |lines[0]|
  }

  /** The parser accepts every character. */
  predicate Parses<T>(lines: seq<string>, parser: char -> Option<T>)
  {
    forall i, j :: 0 <= i < |lines| && 0 <= j < |lines[i]| ==> parser(lines[i][j]).Some?
  }

  predicate RowParses<T>(line: string, parser: char -> Option<T>)
  {
    forall j :: 0 <= j < |line| ==> parser(line[j]).Some?
  }

  /** The parsed values of one line. */
  function Row<T>(line: string, parser: char -> Option<T>): (r: seq<T>)
    requires RowParses(line, parser)
    ensures |r| == |line|
    ensures forall j :: 0 <= j < |line| ==> Some(r[j]) == parser(line[j])
  {
    seq(|line|, j requires 0 <= j < |line| => parser(line[j]).value)
  }

  /** The parsed values of all lines, one after another. */
  function Cells<T>(lines: seq<string>, parser: char -> Option<T>): seq<T>
    requires Parses(lines, parser)
  {
    if lines == [] then []
    else
      var last := lines[|lines| - 1];
      assert RowParses(last, parser) by {
        forall j | 0 <= j < |last| ensures parser(last[j]).Some? {
          assert parser(lines[|lines| - 1][j]).Some?;
        }
      }
      Cells(lines[..|lines| - 1], parser) + Row(last, parser)
  }

  /** The value of cell (i, j) is the parsed character `j` of line `i`. */
  lemma {:induction false} CellsAt<T>(lines: seq<string>, parser: char -> Option<T>, i: nat, j: nat)
    requires Rectangular(lines) && Parses(lines, parser)
    requires i < |lines| && j < |lines[0]|
    ensures |Cells(lines, parser)| == |lines| * |lines[0]|
    ensures i * |lines[0]| + j < |Cells(lines, parser)|
    ensures Some(Cells(lines, parser)[i * |lines[0]| + j]) == parser(lines[i][j])
    decreases |lines|, 1
  {
    CellsLength(lines, parser);
    IndexBound(i, j, |lines|, |lines[0]|);
    if i + 1 < |lines| {
      CellsAtInit(lines, parser, i, j);
    } else {
      CellsAtLast(lines, parser, j);
    }
  }

  /** A cell above the last line lies in the cells of the lines before it. */
  lemma {:induction false} CellsAtInit<T>(lines: seq<string>, parser: char -> Option<T>, i: nat, j: nat)
    requires Rectangular(lines) && Parses(lines, parser)
    requires i + 1 < |lines| && j < |lines[0]|
    ensures i * |lines[0]| + j < |Cells(lines, parser)|
    ensures Some(Cells(lines, parser)[i * |lines[0]| + j]) == parser(lines[i][j])
    decreases |lines|, 0
  {
    var init := lines[..|lines| - 1];
    assert init[0] == lines[0] && init[i] == lines[i];
    CellsAt(init, parser, i, j);
    assert Cells(lines, parser)[..|Cells(init, parser)|] == Cells(init, parser);
  }

  /** A cell of the last line lies in that line's row, after the cells of the lines before it. */
  lemma CellsAtLast<T>(lines: seq<string>, parser: char -> Option<T>, j: nat)
    requires Rectangular(lines) && Parses(lines, parser)
    requires 0 < |lines| && j < |lines[0]|
    ensures (|lines| - 1) * |lines[0]| + j < |Cells(lines, parser)|
    ensures Some(Cells(lines, parser)[(|lines| - 1) * |lines[0]| + j]) == parser(lines[|lines| - 1][j])
  {
    var k := |lines| - 1;
    var init := lines[..k];
    CellsLength(lines, parser);
    if k > 0 {
      assert init[0] == lines[0];
      CellsLength(init, parser);
    }
    var row := lines[k];
    assert RowParses(row, parser) by {
      forall c | 0 <= c < |row| ensures parser(row[c]).Some? {
        assert parser(lines[k][c]).Some?;
      }
    }
    assert Cells(lines, parser) == Cells(init, parser) + Row(row, parser);
  }

  lemma {:induction false} CellsLength<T>(lines: seq<string>, parser: char -> Option<T>)
    requires Rectangular(lines) && Parses(lines, parser)
    ensures lines != [] ==> |Cells(lines, parser)| == |lines| * |lines[0]|
  {
    if |lines| > 1 {
      var init := lines[..|lines| - 1];
      assert init[0] == lines[0];
      CellsLength(init, parser);
      assert (|init| + 1) * |lines[0]| == |init| * |lines[0]| + |lines[0]|;
    }
  }

  lemma CellsStep<T>(lines: seq<string>, parser: char -> Option<T>, i: nat)
    requires i < |lines| && Parses(lines[..i + 1], parser)
    ensures Parses(lines[..i], parser) && RowParses(lines[i], parser)
    ensures Cells(lines[..i + 1], parser) == Cells(lines[..i], parser) + Row(lines[i], parser)
  {
    assert lines[..i + 1][..i] == lines[..i];
    assert lines[..i + 1][i] == lines[i];
  }

  /**
    `parse`: `None` for no lines, for a line whose length differs from the
    first, or for a character the parser rejects; otherwise the map of the
    parsed characters, `n_rows` lines of `n_cols` values.
   */
  method Parse<T>(lines: seq<string>, parser: char -> Option<T>) returns (r: Option<Map<T>>)
    ensures r.None? <==> lines == [] || !Rectangular(lines) || !Parses(lines, parser)
    ensures r.Some? ==>
      (Parses(lines, parser) && r.value == Map(Cells(lines, parser), |lines|, |lines[0]|) && Valid(r.value))
  {
    if |lines| == 0 {
      return None;
    }
    var nRows := |lines|;
    var nCols := |lines[0]|;
    var data: seq<T> := [];
    for i := 0 to |lines|
      invariant Rectangular(lines[..i]) && Parses(lines[..i], parser)
      invariant forall k :: 0 <= k < i ==> |lines[k]| == nCols
      invariant data == Cells(lines[..i], parser)
    {
      var line := lines[i];
      if |line| != nCols {
        assert !Rectangular(lines);
        return None;
      }
      for j := 0 to |line|
        invariant RowParses(line[..j], parser)
        invariant data == Cells(lines[..i], parser) + Row(line[..j], parser)
      {
        var num := parser(line[j]);
        if num.None? {
          assert !Parses(lines, parser) by {
            assert parser(lines[i][j]).None?;
          }
          return None;
        }
        assert Row(line[..j + 1], parser) == Row(line[..j], parser) + [num.value];
        data := data + [num.value];
      }
      assert line[..|line|] == line;
      ghost var pre := lines[..i + 1];
      assert Parses(pre, parser) by {
        forall a, b | 0 <= a < i + 1 && 0 <= b < |pre[a]| ensures parser(pre[a][b]).Some? {
          if a < i {
            assert pre[a] == lines[..i][a];
          }
        }
      }
      CellsStep(lines, parser, i);
    }
    assert lines[..|lines|] == lines;
    CellsLength(lines, parser);
    return Some(Map(data, nRows, nCols));
  }

  /** A parsed map holds, at each cell, the parsed character of the input there. */
  lemma ParseGet<T>(lines: seq<string>, parser: char -> Option<T>, c: Coordinate)
    requires lines != [] && Rectangular(lines) && Parses(lines, parser)
    requires c.row < |lines| && c.col < |lines[0]|
    ensures Valid(Map(Cells(lines, parser), |lines|, |lines[0]|))
    ensures Get(Map(Cells(lines, parser), |lines|, |lines[0]|), c) == parser(lines[c.row][c.col])
  {
    CellsAt(lines, parser, c.row, c.col);
  }

  // ---------------------------------------------------------------- neighbours

  /** The cell one step from `c` in direction `d` (`checked_sub` fails at row or column 0). */
  function Step(c: Coordinate, d: Direction): Option<Coordinate>
  {
    match d
    case Up => if c.row == 0 then None else Some(Coordinate(c.row - 1, c.col))
    case Down => Some(Coordinate(c.row + 1, c.col))
    case Left => if c.col == 0 then None else Some(Coordinate(c.row, c.col - 1))
    case Right => Some(Coordinate(c.row, c.col + 1))
  }

  /** Manhattan distance 1. */
  predicate Adjacent(a: Coordinate, b: Coordinate)
  {
    (a.row == b.row && (a.col + 1 == b.col || b.col + 1 == a.col)) ||
    (a.col == b.col && (a.row + 1 == b.row || b.row + 1 == a.row))
  }

  function KeepOnMap<T>(m: Map<T>, c: Option<Coordinate>, d: Direction): seq<(Coordinate, Direction)>
  {
    if c.Some? && InBounds(m, c.value) then [(c.value, d)] else []
  }

  /** `limited_neighbourhood`: the cells up, down, left and right of `c` that lie on the map. */
  function Neighbourhood<T>(m: Map<T>, c: Coordinate): (r: seq<(Coordinate, Direction)>)
    ensures |r| <= 4
  {
    KeepOnMap(m, Step(c, Up), Up) + KeepOnMap(m, Step(c, Down), Down) +
    KeepOnMap(m, Step(c, Left), Left) + KeepOnMap(m, Step(c, Right), Right)
  }

  /**
    A cell is listed exactly when it is on the map and adjacent to `c`, and
    it is listed with the direction that leads to it, once.
   */
  lemma NeighbourhoodMember<T>(m: Map<T>, c: Coordinate, n: Coordinate, d: Direction)
    ensures (n, d) in Neighbourhood(m, c) <==> Step(c, d) == Some(n) && InBounds(m, n)
    ensures (exists e :: (n, e) in Neighbourhood(m, c)) <==> InBounds(m, n) && Adjacent(c, n)
  {
    if InBounds(m, n) && Adjacent(c, n) {
      if n.row + 1 == c.row {
        assert (n, Up) in Neighbourhood(m, c);
      } else if c.row + 1 == n.row {
        assert (n, Down) in Neighbourhood(m, c);
      } else if n.col + 1 == c.col {
        assert (n, Left) in Neighbourhood(m, c);
      } else {
        assert (n, Right) in Neighbourhood(m, c);
      }
    }
  }

  /** No direction, and so no cell, is listed twice. */
  lemma NeighbourhoodDistinct<T>(m: Map<T>, c: Coordinate)
    ensures forall i, j :: 0 <= i < j < |Neighbourhood(m, c)| ==>
      Neighbourhood(m, c)[i].1 != Neighbourhood(m, c)[j].1 && Neighbourhood(m, c)[i].0 != Neighbourhood(m, c)[j].0
  {
  }

  /** The cells of the map. */
  function AllCells<T>(m: Map<T>): set<Coordinate>
  {
    set row: nat, col: nat | row < m.nRows && col < m.nCols :: Coordinate(row, col)
  }

  function RowCells(row: nat, nCols: nat): set<Coordinate>
  {
    set col: nat | col < nCols :: Coordinate(row, col)
  }

  lemma {:induction false} RowCellsCard(row: nat, nCols: nat)
    ensures |RowCells(row, nCols)| == nCols
  {
    if nCols > 0 {
      RowCellsCard(row, nCols - 1);
      assert RowCells(row, nCols) == RowCells(row, nCols - 1) + {Coordinate(row, nCols - 1)};
    } else {
      assert RowCells(row, nCols) == {};
    }
  }

  function RowsCells(nRows: nat, nCols: nat): set<Coordinate>
  {
    set row: nat, col: nat | row < nRows && col < nCols :: Coordinate(row, col)
  }

  /** The cells of the first `last + 1` rows: those of the first `last` rows and, apart from them, those of row `last`. */
  lemma RowsCellsSplit(last: nat, nCols: nat)
    ensures RowsCells(last + 1, nCols) == RowsCells(last, nCols) + RowCells(last, nCols)
    ensures RowsCells(last, nCols) !! RowCells(last, nCols)
  {
    forall c | c in RowsCells(last + 1, nCols)
      ensures c in RowsCells(last, nCols) + RowCells(last, nCols)
    {
      if c.row < last {
        assert c in RowsCells(last, nCols);
      } else {
        assert c in RowCells(last, nCols);
      }
    }
  }

  lemma DisjointCard(a: set<Coordinate>, b: set<Coordinate>)
    requires a !! b
    ensures |a + b| == |a| + |b|
  {
    assert a * b == {};
  }

  lemma MulStep(a: nat, b: nat)
    ensures (a + 1) * b == a * b + b
  {
  }

  lemma {:induction false} RowsCellsCard(nRows: nat, nCols: nat)
    ensures |RowsCells(nRows, nCols)| == nRows * nCols
  {
    if nRows > 0 {
      RowsCellsCard(nRows - 1, nCols);
      RowCellsCard(nRows - 1, nCols);
      RowsCellsSplit(nRows - 1, nCols);
      DisjointCard(RowsCells(nRows - 1, nCols), RowCells(nRows - 1, nCols));
      MulStep(nRows - 1, nCols);
    } else {
      assert RowsCells(nRows, nCols) == {};
    }
  }

  /** The map has `n_rows * n_cols` cells. */
  lemma AllCellsCard<T>(m: Map<T>)
    ensures |AllCells(m)| == m.nRows * m.nCols
  {
    RowsCellsCard(m.nRows, m.nCols);
    assert AllCells(m) == RowsCells(m.nRows, m.nCols);
  }
}
