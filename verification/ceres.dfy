/**
  Ceres search (src/bin/04.rs): a word search over a grid of characters.
  Part one counts the straight runs of four cells that spell XMAS in either
  direction; part two counts the cells at the centre of two crossed
  diagonal MAS words. Grid cells are read as `data[row][col]`; every read
  the source would make out of bounds (a panic there) is excluded by a
  precondition that names exactly those reads.
 */
module CeresSearch {
  import opened Common
  import opened Text

  type Grid = seq<seq<char>>

  /** A run of four cells: the row indices and the column indices, zipped. */
  type WordSlice = (seq<nat>, seq<nat>)

  /** `parse`: one row per line, trimmed. */
  function Parse(input: string): (data: Grid)
    ensures |data| == |Lines(input)|
  {
    var lines := Lines(input);
    seq(|lines|, row requires 0 <= row < |lines| => Trim(lines[row]))
  }

  /** `negative_word_range(i)`: the four indices ending at `i`, counting down; `None` when `i < 3`. */
  function NegativeWordRange(i: nat): (r: Option<seq<nat>>)
    ensures r.None? <==> i < 3
    ensures r.Some? ==> |r.value| == 4 && forall j :: 0 <= j < 4 ==> r.value[j] + j == i
  {
    if i + 1 < 4 then None else Some([i, i - 1, i - 2, i - 3])
  }

  /** `positive_word_range(i, max)`: the four indices starting at `i`, when they all lie below `max`. */
  function PositiveWordRange(i: nat, max: nat): (r: Option<seq<nat>>)
    ensures r.Some? <==> i + 4 <= max
    ensures r.Some? ==> |r.value| == 4 && forall j :: 0 <= j < 4 ==> r.value[j] == i + j < max
  {
    if i + 4 <= max then Some([i, i + 1, i + 2, i + 3]) else None
  }

  /** Four copies of `i`. */
  function Repeat(i: nat): (r: seq<nat>)
    ensures |r| == 4 && forall j :: 0 <= j < 4 ==> r[j] == i
  {
    [i, i, i, i]
  }

  /** The run `(row + j * dr, col + j * dc)` for `j` in 0..4. */
  predicate IsRun(ws: WordSlice, row: nat, col: nat, dr: int, dc: int)
  {
    |ws.0| == 4 && |ws.1| == 4 &&
    forall j :: 0 <= j < 4 ==> ws.0[j] == row + j * dr && ws.1[j] == col + j * dc
  }

  /** `slice_left_down_diagonal`: the row bound is `max` (the source passes the row's length). */
  function SliceLeftDownDiagonal(row: nat, col: nat, max: nat): (r: Option<WordSlice>)
    ensures r.Some? <==> row + 4 <= max && col >= 3
    ensures r.Some? ==> IsRun(r.value, row, col, 1, -1)
  {
    match (PositiveWordRange(row, max), NegativeWordRange(col))
    case (Some(rows), Some(cols)) => Some((rows, cols))
    case _ => None
  }

  /** `slice_left`. */
  function SliceLeft(row: nat, col: nat): (r: Option<WordSlice>)
    ensures r.Some? <==> col >= 3
    ensures r.Some? ==> IsRun(r.value, row, col, 0, -1)
  {
    match NegativeWordRange(col)
    case Some(cols) => Some((Repeat(row), cols))
    case None => None
  }

  /** `slice_left_up_diagonal`. */
  function SliceLeftUpDiagonal(row: nat, col: nat): (r: Option<WordSlice>)
    ensures r.Some? <==> row >= 3 && col >= 3
    ensures r.Some? ==> IsRun(r.value, row, col, -1, -1)
  {
    match (NegativeWordRange(row), NegativeWordRange(col))
    case (Some(rows), Some(cols)) => Some((rows, cols))
    case _ => None
  }

  /** `slice_up`. */
  function SliceUp(row: nat, col: nat): (r: Option<WordSlice>)
    ensures r.Some? <==> row >= 3
    ensures r.Some? ==> IsRun(r.value, row, col, -1, 0)
  {
    match NegativeWordRange(row)
    case Some(rows) => Some((rows, Repeat(col)))
    case None => None
  }

  /** The four directions `slices` walks from a cell: down-left, left, up-left and up. */
  const DIRECTIONS: seq<(int, int)> := [(1, -1), (0, -1), (-1, -1), (-1, 0)]

  /** `slices`: the candidate runs starting at `(row, col)`, one per direction in `DIRECTIONS`. */
  function Slices(row: nat, col: nat, max: nat): (r: seq<Option<WordSlice>>)
    ensures |r| == 4
    ensures forall k :: 0 <= k < 4 && r[k].Some? ==> IsRun(r[k].value, row, col, DIRECTIONS[k].0, DIRECTIONS[k].1)
  {
    [SliceLeftDownDiagonal(row, col, max), SliceLeft(row, col), SliceLeftUpDiagonal(row, col), SliceUp(row, col)]
  }

  /**
    Every non-zero direction of the eight neighbours is either walked by
    `slices` or is the reverse of one that is, never both: each straight
    line of four cells is looked at from exactly one of its two ends.
   */
  lemma OneDirectionPerLine(dr: int, dc: int)
    requires -1 <= dr <= 1 && -1 <= dc <= 1 && (dr, dc) != (0, 0)
    ensures ((dr, dc) in DIRECTIONS) != ((-dr, -dc) in DIRECTIONS)
  {
  }

  /** The run read backwards is the run from its other end in the reverse direction. */
  lemma RunReversed(ws: WordSlice, row: nat, col: nat, dr: int, dc: int)
    requires IsRun(ws, row, col, dr, dc)
    requires row + 3 * dr >= 0 && col + 3 * dc >= 0
    ensures IsRun((Reverse(ws.0), Reverse(ws.1)), row + 3 * dr, col + 3 * dc, -dr, -dc)
  {
    forall j | 0 <= j < 4 ensures Reverse(ws.0)[j] == row + 3 * dr + j * -dr {
      assert Reverse(ws.0)[j] == ws.0[3 - j];
    }
    forall j | 0 <= j < 4 ensures Reverse(ws.1)[j] == col + 3 * dc + j * -dc {
      assert Reverse(ws.1)[j] == ws.1[3 - j];
    }
  }

  function Reverse<T>(s: seq<T>): (r: seq<T>)
    ensures |r| == |s| && forall j :: 0 <= j < |s| ==> r[j] == s[|s| - 1 - j]
  {
    seq(|s|, j requires 0 <= j < |s| => s[|s| - 1 - j])
  }

  predicate InGrid(data: Grid, row: nat, col: nat)
  {
    row < |data| && col < |data[row]|
  }

  /** Every cell of the run lies in the grid. */
  predicate SliceInGrid(data: Grid, ws: WordSlice)
  {
    |ws.0| == 4 && |ws.1| == 4 && forall j :: 0 <= j < 4 ==> InGrid(data, ws.0[j], ws.1[j])
  }

  /** The word spelled by a run: the `zip`/`fold` that appends `data[r][c]` for each pair. */
  function Word(data: Grid, ws: WordSlice): (w: string)
    requires SliceInGrid(data, ws)
    ensures |w| == 4 && forall j :: 0 <= j < 4 ==> w[j] == data[ws.0[j]][ws.1[j]]
  {
    seq(4, j requires 0 <= j < 4 => data[ws.0[j]][ws.1[j]])
  }

  predicate IsMatch(w: string)
  {
    w == "XMAS" || w == "SAMX"
  }

  /** A run counts the same read from either end. */
  lemma MatchReversed(data: Grid, ws: WordSlice)
    requires SliceInGrid(data, ws)
    ensures SliceInGrid(data, (Reverse(ws.0), Reverse(ws.1)))
    ensures IsMatch(Word(data, ws)) <==> IsMatch(Word(data, (Reverse(ws.0), Reverse(ws.1))))
  {
    var rs := (Reverse(ws.0), Reverse(ws.1));
    assert forall j :: 0 <= j < 4 ==> rs.0[j] == ws.0[3 - j] && rs.1[j] == ws.1[3 - j];
    var w := Word(data, ws);
    var v := Word(data, rs);
    assert v == [w[3], w[2], w[1], w[0]];
  }

  /** The runs from `(row, col)` the source reads are all in the grid (otherwise it panics). */
  predicate CellReadsInGrid(data: Grid, row: nat, col: nat)
    requires InGrid(data, row, col)
  {
    var ss := Slices(row, col, |data[row]|);
    forall k :: 0 <= k < 4 && ss[k].Some? ==> SliceInGrid(data, ss[k].value)
  }

  /** `part_one` reads no cell outside the grid. */
  predicate ReadsInGrid(data: Grid)
  {
    forall row, col :: 0 <= row < |data| && 0 <= col < |data[row]| ==> CellReadsInGrid(data, row, col)
  }

  /** A rectangular grid with no more columns than rows is read in bounds by `part_one`. */
  lemma RectangularReadsInGrid(data: Grid, width: nat)
    requires forall row :: 0 <= row < |data| ==> |data[row]| == width
    requires width <= |data|
    ensures ReadsInGrid(data)
  {
    forall row: nat, col: nat | InGrid(data, row, col) ensures CellReadsInGrid(data, row, col) {
      var ss := Slices(row, col, |data[row]|);
      forall k | 0 <= k < 4 && ss[k].Some? ensures SliceInGrid(data, ss[k].value) {
        assert IsRun(ss[k].value, row, col, DIRECTIONS[k].0, DIRECTIONS[k].1);
      }
    }
  }

  /** The number of runs in `ss` that spell XMAS or SAMX. */
  function Hits(data: Grid, ss: seq<Option<WordSlice>>): (n: nat)
    requires forall k :: 0 <= k < |ss| && ss[k].Some? ==> SliceInGrid(data, ss[k].value)
    ensures n <= |ss|
  {
    if ss == [] then 0
    else
      var last := ss[|ss| - 1];
      Hits(data, ss[..|ss| - 1]) + (if last.Some? && IsMatch(Word(data, last.value)) then 1 else 0)
  }

  /** The matches found from the first `n` cells of row `row`. */
  function RowHits(data: Grid, row: nat, n: nat): nat
    requires ReadsInGrid(data) && row < |data| && n <= |data[row]|
  {
    if n == 0 then 0
    else
      assert CellReadsInGrid(data, row, n - 1);
      RowHits(data, row, n - 1) + Hits(data, Slices(row, n - 1, |data[row]|))
  }

  /** The matches found from the cells of the first `m` rows. */
  function GridHits(data: Grid, m: nat): nat
    requires ReadsInGrid(data) && m <= |data|
  {
    if m == 0 then 0 else GridHits(data, m - 1) + RowHits(data, m - 1, |data[m - 1]|)
  }

  /** At most four matches start from any one cell. */
  lemma {:induction false} RowHitsBound(data: Grid, row: nat, n: nat)
    requires ReadsInGrid(data) && row < |data| && n <= |data[row]|
    ensures RowHits(data, row, n) <= 4 * n
  {
    if n > 0 {
      RowHitsBound(data, row, n - 1);
    }
  }

  /** The nested loops of `part_one` over the parsed grid. */
  method CountXmas(data: Grid) returns (count: nat)
    requires ReadsInGrid(data)
    ensures count == GridHits(data, |data|)
  {
    count := 0;
    for row := 0 to |data|
      invariant count == GridHits(data, row)
    {
      for col := 0 to |data[row]|
        invariant count == GridHits(data, row) + RowHits(data, row, col)
      {
        assert CellReadsInGrid(data, row, col);
        var ss := Slices(row, col, |data[row]|);
        for k := 0 to 4
          invariant count == GridHits(data, row) + RowHits(data, row, col) + Hits(data, ss[..k])
        {
          assert ss[..k + 1][..k] == ss[..k];
          if ss[k].Some? && IsMatch(Word(data, ss[k].value)) {
            count := count + 1;
          }
        }
        assert ss[..4] == ss;
      }
    }
  }

  /** `part_one`: the number of XMAS runs in the parsed grid. */
  method PartOne(input: string) returns (r: Option<nat>)
    requires ReadsInGrid(Parse(input))
    ensures r == Some(GridHits(Parse(input), |Parse(input)|))
  {
    var data := Parse(input);
    var count := CountXmas(data);
    r := Some(count);
  }

  /** `char::to_ascii_lowercase`. */
  function ToAsciiLower(c: char): (l: char)
    ensures 'A' <= c <= 'Z' ==> l as int == c as int + 32
    ensures !('A' <= c <= 'Z') ==> l == c
  {
    if 'A' <= c <= 'Z' then (c as int + 32) as char else c
  }

  /** `mtc`: the two characters are an M and an S, in either order and either case. */
  function Mtc(c1: char, c2: char): (r: bool)
    ensures r <==> {ToAsciiLower(c1), ToAsciiLower(c2)} == {'m', 's'}
  {
    var l1, l2 := ToAsciiLower(c1), ToAsciiLower(c2);
    assert {l1, l2} == {'m', 's'} ==> l1 in {'m', 's'} && l2 in {'m', 's'} && 'm' in {l1, l2} && 's' in {l1, l2};
    (l1 == 'm' && l2 == 's') || (l1 == 's' && l2 == 'm')
  }

  /** `mtc` does not depend on the order of its arguments or their case. */
  lemma MtcSymmetric(c1: char, c2: char)
    ensures Mtc(c1, c2) == Mtc(c2, c1)
    ensures Mtc(c1, c2) == Mtc(ToAsciiLower(c1), ToAsciiLower(c2))
  {
    assert {ToAsciiLower(c1), ToAsciiLower(c2)} == {ToAsciiLower(c2), ToAsciiLower(c1)};
  }

  /** The diagonal reads of `part_two` around `(row, col)` are in the grid. */
  predicate CrossInGrid(data: Grid, row: nat, col: nat)
  {
    1 <= row && row + 1 < |data| && 1 <= col &&
    col + 1 < |data[row - 1]| && col + 1 < |data[row]| && col + 1 < |data[row + 1]|
  }

  /**
    What the loops of `part_two` need: at least one line (`data.len() - 1`
    must not underflow), every inner row non-empty, and the neighbours of
    each inner 'a' in the grid.
   */
  predicate CrossReadsInGrid(data: Grid)
  {
    |data| >= 1 &&
    forall row :: 1 <= row < |data| - 1 ==>
      (|data[row]| >= 1 &&
       forall col :: 1 <= col < |data[row]| - 1 && ToAsciiLower(data[row][col]) == 'a' ==> CrossInGrid(data, row, col))
  }

  /** The test in the body of `part_two`'s loops. */
  predicate CrossHit(data: Grid, row: nat, col: nat)
    requires InGrid(data, row, col)
    requires ToAsciiLower(data[row][col]) == 'a' ==> CrossInGrid(data, row, col)
  {
    ToAsciiLower(data[row][col]) == 'a' &&
    Mtc(data[row - 1][col - 1], data[row + 1][col + 1]) && Mtc(data[row + 1][col - 1], data[row - 1][col + 1])
  }

  function Lower(s: string): (l: string)
    ensures |l| == |s| && forall j :: 0 <= j < |s| ==> l[j] == ToAsciiLower(s[j])
  {
    seq(|s|, j requires 0 <= j < |s| => ToAsciiLower(s[j]))
  }

  /** Reference definition: both diagonals through `(row, col)` spell MAS, forwards or backwards, ignoring case. */
  predicate IsXMas(data: Grid, row: nat, col: nat)
    requires CrossInGrid(data, row, col)
  {
    var down := [data[row - 1][col - 1], data[row][col], data[row + 1][col + 1]];
    var up := [data[row + 1][col - 1], data[row][col], data[row - 1][col + 1]];
    Lower(down) in {"mas", "sam"} && Lower(up) in {"mas", "sam"}
  }

  /** The test of `part_two` recognises exactly the crossed MAS words. */
  lemma CrossHitIsXMas(data: Grid, row: nat, col: nat)
    requires CrossInGrid(data, row, col)
    ensures CrossHit(data, row, col) <==> IsXMas(data, row, col)
  {
    var down := [data[row - 1][col - 1], data[row][col], data[row + 1][col + 1]];
    var up := [data[row + 1][col - 1], data[row][col], data[row - 1][col + 1]];
    var ld, lu := Lower(down), Lower(up);
    assert ld == [ld[0], ld[1], ld[2]] && lu == [lu[0], lu[1], lu[2]];
    assert ld in {"mas", "sam"} <==> ld[1] == 'a' && ((ld[0] == 'm' && ld[2] == 's') || (ld[0] == 's' && ld[2] == 'm'));
    assert lu in {"mas", "sam"} <==> lu[1] == 'a' && ((lu[0] == 'm' && lu[2] == 's') || (lu[0] == 's' && lu[2] == 'm'));
  }

  /** The hits among columns `1..n` of inner row `row`. */
  function CrossRowHits(data: Grid, row: nat, n: nat): nat
    requires CrossReadsInGrid(data) && 1 <= row < |data| - 1 && (n <= 1 || n < |data[row]|)
  {
    if n <= 1 then 0
    else CrossRowHits(data, row, n - 1) + (if CrossHit(data, row, n - 1) then 1 else 0)
  }

  /** The hits among rows `1..m`. */
  function CrossGridHits(data: Grid, m: nat): nat
    requires CrossReadsInGrid(data) && (m <= 1 || m < |data|)
  {
    if m <= 1 then 0 else CrossGridHits(data, m - 1) + CrossRowHits(data, m - 1, |data[m - 1]| - 1)
  }

  /** At most one hit per inner column: the border columns are never counted. */
  lemma {:induction false} CrossRowHitsInner(data: Grid, row: nat, n: nat)
    requires CrossReadsInGrid(data) && 1 <= row < |data| - 1 && (n <= 1 || n < |data[row]|)
    ensures CrossRowHits(data, row, n) <= if n == 0 then 0 else n - 1
  {
    if n > 1 {
      CrossRowHitsInner(data, row, n - 1);
    }
  }

  /** The nested loops of `part_two` over the parsed grid (`1..len - 1` is empty when `len <= 2`). */
  method CountCrosses(data: Grid) returns (count: nat)
    requires CrossReadsInGrid(data)
    ensures count == CrossGridHits(data, |data| - 1)
  {
    count := 0;
    var row := 1;
    while row < |data| - 1
      invariant 1 <= row && (row == 1 || row <= |data| - 1)
      invariant count == CrossGridHits(data, row)
    {
      var col := 1;
      while col < |data[row]| - 1
        invariant 1 <= col && (col == 1 || col <= |data[row]| - 1)
        invariant count == CrossGridHits(data, row) + CrossRowHits(data, row, col)
      {
        if ToAsciiLower(data[row][col]) != 'a' {
          col := col + 1;
          continue;
        }
        var tl := data[row - 1][col - 1];
        var tr := data[row - 1][col + 1];
        var bl := data[row + 1][col - 1];
        var br := data[row + 1][col + 1];
        if Mtc(tl, br) && Mtc(bl, tr) {
          count := count + 1;
        }
        col := col + 1;
      }
      row := row + 1;
    }
  }

  /** `part_two`: the number of crossed MAS words in the parsed grid. */
  method PartTwo(input: string) returns (r: Option<nat>)
    requires CrossReadsInGrid(Parse(input))
    ensures r == Some(CrossGridHits(Parse(input), |Parse(input)| - 1))
  {
    var data := Parse(input);
    var count := CountCrosses(data);
    r := Some(count);
  }

  /** A non-empty rectangular grid with non-empty rows is read in bounds by `part_two`. */
  lemma RectangularCrossReadsInGrid(data: Grid, width: nat)
    requires |data| >= 1 && width >= 1
    requires forall row :: 0 <= row < |data| ==> |data[row]| == width
    ensures CrossReadsInGrid(data)
  {
  }
}
