/**
  Day 6 (src/bin/06.rs): a guard patrols a rectangular lab. In front of an
  obstacle it turns right, otherwise it steps forward, until the next step
  would leave the lab ("Finite") or it comes back to a state it has been in
  ("Loops"). Part one counts the distinct cells of a finite patrol; part two
  counts the cells of that patrol where one extra obstacle traps the guard.

  The patrol is specified by `Trace`, the state after `n` iterations of the
  loop in `follow_guard`; the methods are proved against it.
 */
module GuardGallivant {
  import opened Common
  import opened Text
  import Grid

  /** A cell of the lab; the source uses `usize`. */
  datatype Position = Position(row: nat, col: nat)

  datatype Direction = Up | Right | Down | Left

  /** A state of the patrol. */
  datatype DirectedPosition = DirectedPosition(position: Position, direction: Direction)

  /** `size` holds the number of rows and of columns. */
  datatype Board = Board(size: Position, guard: DirectedPosition, obstacles: set<Position>)

  /** The outcome of a patrol, with the states recorded on the way. */
  datatype VisitedPositions =
    | Loops(positions: set<DirectedPosition>)
    | Finite(positions: set<DirectedPosition>)

  predicate OnBoard(p: Position, size: Position)
  {
    p.row < size.row && p.col < size.col
  }

  /** The cell one step ahead of the guard, in signed coordinates: it may lie off the lab. */
  function Ahead(guard: DirectedPosition): (int, int)
  {
    var p := guard.position;
    match guard.direction
    case Up => (p.row - 1, p.col)
    case Right => (p.row, p.col + 1)
    case Down => (p.row + 1, p.col)
    case Left => (p.row, p.col - 1)
  }

  predicate Within(cell: (int, int), size: Position)
  {
    0 <= cell.0 < size.row && 0 <= cell.1 < size.col
  }

  // ------------------------------------------------------------------ moves

  /**
    `next_position`: the cell ahead, or None when it lies off the lab. The
    source computes `size.col - 1` and `size.row - 1` in `usize`, so a lab
    without columns (rows) cannot be asked for the cell to the right (below).
   */
  function NextPosition(guard: DirectedPosition, size: Position): (r: Option<Position>)
    requires guard.direction == Right ==> 0 < size.col
    requires guard.direction == Down ==> 0 < size.row
    ensures r.Some? ==> (r.value.row, r.value.col) == Ahead(guard)
    ensures OnBoard(guard.position, size) ==> (r.Some? <==> Within(Ahead(guard), size))
  {
    var p := guard.position;
    match guard.direction
    case Up => if p.row == 0 then None else Some(Position(p.row - 1, p.col))
    case Right => if p.col == size.col - 1 then None else Some(Position(p.row, p.col + 1))
    case Down => if p.row == size.row - 1 then None else Some(Position(p.row + 1, p.col))
    case Left => if p.col == 0 then None else Some(Position(p.row, p.col - 1))
  }

  /** A quarter turn to the right. */
  function Clockwise(d: Direction): Direction
  {
    match d
    case Up => Right
    case Right => Down
    case Down => Left
    case Left => Up
  }

  /** Four right turns, and no fewer, bring the guard back to its heading. */
  lemma FourTurns(d: Direction)
    ensures Clockwise(Clockwise(Clockwise(Clockwise(d)))) == d
    ensures Clockwise(d) != d && Clockwise(Clockwise(d)) != d
    ensures Clockwise(Clockwise(Clockwise(d))) != d
  {
    match d
    case Up =>
    case Right =>
    case Down =>
    case Left =>
  }

  /** `next_direction`: the new heading when the cell ahead holds an obstacle. */
  function NextDirection(direction: Direction, next: Position, obstacles: set<Position>): (r: Option<Direction>)
    ensures r.Some? <==> next in obstacles
    ensures r.Some? ==> r.value == Clockwise(direction)
  {
    if next in obstacles then Some(Clockwise(direction)) else None
  }

  /**
    One pass of the loop in `follow_guard`, leaving out its test for a
    repeated state: None once the next step leaves the lab, otherwise a right
    turn in front of an obstacle or a step forward.
   */
  function Advance(board: Board, guard: DirectedPosition): (r: Option<DirectedPosition>)
    requires OnBoard(guard.position, board.size)
    ensures r.None? <==> !Within(Ahead(guard), board.size)
    ensures r.Some? ==> OnBoard(r.value.position, board.size)
    ensures r.Some? && r.value.position == guard.position ==>
      r.value.direction == Clockwise(guard.direction) && NextPosition(guard, board.size).value in board.obstacles
    ensures r.Some? && r.value.position != guard.position ==>
      r.value.direction == guard.direction && r.value.position !in board.obstacles
  {
    match NextPosition(guard, board.size)
    case None => None
    case Some(p) =>
      match NextDirection(guard.direction, p, board.obstacles)
      case Some(d) => Some(DirectedPosition(guard.position, d))
      case None => Some(DirectedPosition(p, guard.direction))
  }

  // ----------------------------------------------------------------- patrol

  /** The state after `n` passes of the loop, or None once the guard has left the lab. */
  function Trace(board: Board, n: nat): (r: Option<DirectedPosition>)
    requires OnBoard(board.guard.position, board.size)
    ensures r.Some? ==> OnBoard(r.value.position, board.size)
  {
    if n == 0 then Some(board.guard) else Step(board, Trace(board, n - 1))
  }

  /** The loop's next state, once the guard has left the lab no state. */
  function Step(board: Board, state: Option<DirectedPosition>): (r: Option<DirectedPosition>)
    requires state.Some? ==> OnBoard(state.value.position, board.size)
    ensures r.Some? ==> OnBoard(r.value.position, board.size)
  {
    match state
    case None => None
    case Some(g) => Advance(board, g)
  }

  /** Every state of the first `n` passes. */
  ghost function States(board: Board, n: nat): set<DirectedPosition>
    requires OnBoard(board.guard.position, board.size)
  {
    if n == 0 then {board.guard}
    else States(board, n - 1) + (if Trace(board, n).Some? then {Trace(board, n).value} else {})
  }

  /** The guard stays in the lab for ever. */
  ghost predicate NeverLeaves(board: Board)
    requires OnBoard(board.guard.position, board.size)
  {
    forall n: nat :: Trace(board, n).Some?
  }

  /** The guard is in the lab after `n` passes and leaves it with the next one. */
  ghost predicate Leaves(board: Board, n: nat)
    requires OnBoard(board.guard.position, board.size)
  {
    Trace(board, n).Some? && Trace(board, n + 1).None?
  }

  /**
    The loop stops after `n` passes: the next step leaves the lab, or the
    state the source tests (the cell ahead with the current heading) or the
    state the guard would take next has been seen before.
   */
  ghost predicate Halts(board: Board, n: nat)
    requires OnBoard(board.guard.position, board.size)
  {
    match Trace(board, n)
    case None => false
    case Some(g) =>
      match NextPosition(g, board.size)
      case None => true
      case Some(p) =>
        DirectedPosition(p, g.direction) in States(board, n) || Advance(board, g).value in States(board, n)
  }

  /** The lab with one obstacle more. */
  function Obstruct(board: Board, p: Position): (b: Board)
    ensures b.size == board.size && b.guard == board.guard
    ensures b.obstacles == board.obstacles + {p}
  {
    board.(obstacles := board.obstacles + {p})
  }

  /** The cells of a set of states: `unique_by(|x| x.position)`. */
  function Footprint(states: set<DirectedPosition>): (r: set<Position>)
    ensures forall g :: g in states ==> g.position in r
    ensures forall p :: p in r ==> exists d :: DirectedPosition(p, d) in states
  {
    set g | g in states :: g.position
  }

  lemma {:induction false} TraceEarlier(board: Board, k: nat, n: nat)
    requires OnBoard(board.guard.position, board.size)
    requires k <= n && Trace(board, n).Some?
    ensures Trace(board, k).Some?
    decreases n
  {
    if k < n {
      TraceEarlier(board, k, n - 1);
    }
  }

  /** The state after pass `k <= n` is one of the states of the first `n` passes. */
  lemma {:induction false} StatesHas(board: Board, n: nat, k: nat)
    requires OnBoard(board.guard.position, board.size)
    requires k <= n && Trace(board, k).Some?
    ensures Trace(board, k).value in States(board, n)
  {
    if k < n {
      StatesHas(board, n - 1, k);
    }
  }

  /** A state of the first `n` passes is the state after some pass `k <= n`. */
  lemma {:induction false} StatesWitness(board: Board, n: nat, g: DirectedPosition) returns (k: nat)
    requires OnBoard(board.guard.position, board.size)
    requires g in States(board, n)
    ensures k <= n && Trace(board, k) == Some(g)
  {
    if n == 0 || g !in States(board, n - 1) {
      k := n;
    } else {
      k := StatesWitness(board, n - 1, g);
    }
  }

  /** Two passes in the same state stay in step for ever after. */
  lemma {:induction false} TraceShift(board: Board, a: nat, b: nat, i: nat)
    requires OnBoard(board.guard.position, board.size)
    requires Trace(board, a) == Trace(board, b)
    ensures Trace(board, a + i) == Trace(board, b + i)
  {
    if i > 0 {
      TraceShift(board, a, b, i - 1);
      var prior := Trace(board, a + (i - 1));
      assert Trace(board, a + i) == Step(board, prior);
      assert Trace(board, b + i) == Step(board, prior);
    }
  }

  /** A patrol that comes back to a state never leaves the lab. */
  lemma {:induction false} Periodic(board: Board, a: nat, b: nat)
    requires OnBoard(board.guard.position, board.size)
    requires a < b && Trace(board, b).Some? && Trace(board, a) == Trace(board, b)
    ensures NeverLeaves(board)
  {
    forall n: nat
      ensures Trace(board, n).Some?
    {
      PeriodicAt(board, a, b, n);
    }
  }

  lemma {:induction false} PeriodicAt(board: Board, a: nat, b: nat, n: nat)
    requires OnBoard(board.guard.position, board.size)
    requires a < b && Trace(board, b).Some? && Trace(board, a) == Trace(board, b)
    ensures Trace(board, n).Some?
    decreases n
  {
    if n <= b {
      TraceEarlier(board, n, b);
    } else {
      TraceShift(board, a, b, n - b);
      PeriodicAt(board, a, b, a + (n - b));
    }
  }

  /** A guard that starts on a free cell only ever stands on free cells. */
  lemma {:induction false} StatesFree(board: Board, n: nat)
    requires OnBoard(board.guard.position, board.size)
    requires board.guard.position !in board.obstacles
    ensures forall g :: g in States(board, n) ==> g.position !in board.obstacles
    ensures Trace(board, n).Some? ==> Trace(board, n).value.position !in board.obstacles
  {
    if n > 0 {
      StatesFree(board, n - 1);
    }
  }

  /**
    When the guard starts on a free cell, the loop stops on a repeated state
    only if the patrol really is a cycle: the state the source tests then is
    the state the guard takes next.
   */
  lemma LoopsMeansStuck(board: Board, s: nat)
    requires OnBoard(board.guard.position, board.size)
    requires board.guard.position !in board.obstacles
    requires Halts(board, s) && Trace(board, s + 1).Some?
    ensures NeverLeaves(board)
  {
    var g := Trace(board, s).value;
    var p := NextPosition(g, board.size).value;
    var next := Trace(board, s + 1).value;
    StatesFree(board, s);
    if DirectedPosition(p, g.direction) in States(board, s) {
      assert p !in board.obstacles;
    }
    assert next in States(board, s);
    var k := StatesWitness(board, s, next);
    Periodic(board, k, s + 1);
  }

  /** A pass that meets neither stopping test adds the state it reaches. */
  lemma Proceeds(board: Board, n: nat)
    requires OnBoard(board.guard.position, board.size)
    requires Trace(board, n).Some?
    requires Advance(board, Trace(board, n).value).Some?
    requires var g := Trace(board, n).value;
      DirectedPosition(NextPosition(g, board.size).value, g.direction) !in States(board, n) &&
      Advance(board, g).value !in States(board, n)
    ensures !Halts(board, n)
    ensures Trace(board, n + 1) == Advance(board, Trace(board, n).value)
    ensures States(board, n + 1) == States(board, n) + {Advance(board, Trace(board, n).value).value}
  {
  }

  /** The loop does not stop in the first `n` passes. */
  ghost predicate RunsPast(board: Board, n: nat)
    requires OnBoard(board.guard.position, board.size)
  {
    forall k :: 0 <= k < n ==> !Halts(board, k)
  }

  lemma RunsPastStep(board: Board, n: nat)
    requires OnBoard(board.guard.position, board.size)
    requires RunsPast(board, n) && !Halts(board, n)
    ensures RunsPast(board, n + 1)
  {
  }

  /** Every state on the lab, with each of the four headings. */
  ghost function Universe(size: Position): set<DirectedPosition>
  {
    set r: nat, c: nat, d: Direction | r < size.row && c < size.col && d in {Up, Right, Down, Left} ::
      DirectedPosition(Position(r, c), d)
  }

  lemma UniverseShrinks(size: Position, seen: set<DirectedPosition>, g: DirectedPosition)
    requires OnBoard(g.position, size) && g !in seen
    ensures |Universe(size) - (seen + {g})| < |Universe(size) - seen|
  {
    assert g == DirectedPosition(Position(g.position.row, g.position.col), g.direction);
    assert g.direction.Up? || g.direction.Right? || g.direction.Down? || g.direction.Left?;
    assert g in Universe(size) - seen;
    assert Universe(size) - (seen + {g}) == (Universe(size) - seen) - {g};
  }

  /**
    `follow_guard`, corrected: the source tests for a repeated state only
    before a step, so a guard walled in on all four sides turns for ever
    (see `WalledInSpins`); here the state after a turn is tested and recorded
    as well. The loop stops at the first pass where `Halts` holds; it reports
    `Finite` exactly when the guard leaves, and, from a free start cell,
    `Loops` exactly when the guard never leaves.
   */
  method FollowGuard(board: Board) returns (result: VisitedPositions, ghost steps: nat)
    requires OnBoard(board.guard.position, board.size)
    ensures Trace(board, steps).Some? && Halts(board, steps)
    ensures RunsPast(board, steps)
    ensures result.positions == States(board, steps)
    ensures result.Finite? <==> Leaves(board, steps)
    ensures board.guard.position !in board.obstacles ==> (result.Loops? <==> NeverLeaves(board))
  {
    var guard := board.guard;
    var positions := {guard};
    steps := 0;
    while true
      invariant Trace(board, steps) == Some(guard)
      invariant positions == States(board, steps)
      invariant RunsPast(board, steps)
      decreases |Universe(board.size) - positions|
    {
      var next := NextPosition(guard, board.size);
      if next.None? {
        result := Finite(positions);
        return;
      }
      var nextGuard := DirectedPosition(next.value, guard.direction);
      if nextGuard in positions {
        result := Loops(positions);
        if board.guard.position !in board.obstacles {
          LoopsMeansStuck(board, steps);
        }
        return;
      }
      ghost var before := guard;
      var turn := NextDirection(guard.direction, next.value, board.obstacles);
      if turn.Some? {
        guard := DirectedPosition(guard.position, turn.value);
        if guard in positions {
          result := Loops(positions);
          if board.guard.position !in board.obstacles {
            LoopsMeansStuck(board, steps);
          }
          return;
        }
      } else {
        guard := nextGuard;
      }
      assert guard == Advance(board, before).value;
      Proceeds(board, steps);
      RunsPastStep(board, steps);
      UniverseShrinks(board.size, positions, guard);
      positions := positions + {guard};
      steps := steps + 1;
    }
  }

  // ---------------------------------------------------------- the source as written

  /**
    The states `follow_guard` records as written: the start and each state
    the guard steps into; states after a turn are not recorded.
   */
  ghost function Recorded(board: Board, n: nat): set<DirectedPosition>
    requires OnBoard(board.guard.position, board.size)
  {
    if n == 0 then {board.guard}
    else
      var stepped :=
        match (Trace(board, n - 1), Trace(board, n))
        case (Some(a), Some(b)) => if a.position != b.position then {b} else {}
        case _ => {};
      Recorded(board, n - 1) + stepped
  }

  /**
    The loop of `follow_guard` as written stops after `n` passes: the next
    step leaves the lab, or the cell ahead with the current heading is a
    recorded state.
   */
  ghost predicate StopsAsWritten(board: Board, n: nat)
    requires OnBoard(board.guard.position, board.size)
  {
    match Trace(board, n)
    case None => false
    case Some(g) =>
      match NextPosition(g, board.size)
      case None => true
      case Some(p) => DirectedPosition(p, g.direction) in Recorded(board, n)
  }

  /** ".#.", "#^#", ".#.": the guard has an obstacle on every side. */
  function WalledIn(): Board
  {
    Board(Position(3, 3), DirectedPosition(Position(1, 1), Up),
          {Position(0, 1), Position(1, 0), Position(1, 2), Position(2, 1)})
  }

  lemma {:induction false} WalledInTurns(n: nat)
    ensures Trace(WalledIn(), n).Some? && Trace(WalledIn(), n).value.position == Position(1, 1)
    ensures Recorded(WalledIn(), n) == {WalledIn().guard}
    ensures !StopsAsWritten(WalledIn(), n)
  {
    if n > 0 {
      WalledInTurns(n - 1);
    }
  }

  /**
    On the walled-in lab the loop of `follow_guard` as written never stops
    (the guard turns for ever on its cell), while the patrol never leaves
    and the corrected loop stops after four turns.
   */
  lemma WalledInSpins()
    ensures forall n: nat :: !StopsAsWritten(WalledIn(), n)
    ensures NeverLeaves(WalledIn())
    ensures Halts(WalledIn(), 3) && forall k :: 0 <= k < 3 ==> !Halts(WalledIn(), k)
  {
    forall n: nat
      ensures !StopsAsWritten(WalledIn(), n) && Trace(WalledIn(), n).Some?
    {
      WalledInTurns(n);
    }
    var w := WalledIn();
    assert Trace(w, 1) == Some(DirectedPosition(Position(1, 1), Right));
    assert Trace(w, 2) == Some(DirectedPosition(Position(1, 1), Down));
    assert Trace(w, 3) == Some(DirectedPosition(Position(1, 1), Left));
    assert Trace(w, 4) == Some(w.guard);
    assert States(w, 3) == {w.guard, Trace(w, 1).value, Trace(w, 2).value, Trace(w, 3).value};
  }

  /** ".#.", "#.#", ".^.": the guard steps up, turns twice and walks out at the bottom. */
  function Corridor(): Board
  {
    Board(Position(3, 3), DirectedPosition(Position(2, 1), Up),
          {Position(0, 1), Position(1, 0), Position(1, 2)})
  }

  lemma {:induction false} CorridorBlockedTurns(n: nat)
    requires 1 <= n
    ensures var b := Obstruct(Corridor(), Position(2, 1));
      Trace(b, n).Some? && Trace(b, n).value.position == Position(1, 1) &&
      Recorded(b, n) == {Corridor().guard, DirectedPosition(Position(1, 1), Up)} &&
      !StopsAsWritten(b, n)
  {
    if n > 1 {
      CorridorBlockedTurns(n - 1);
    }
  }

  /**
    `find_loops` as written also tries an obstacle on the guard's start
    cell. On the corridor the patrol visits (2, 1), the start, and (1, 1);
    an obstacle on the start walls the guard in at (1, 1), where the loop of
    `follow_guard` as written never stops; the one other candidate, (1, 1),
    lets the guard walk out, so with the start left out the count is 0.
   */
  lemma StartPlacementTraps()
    ensures Leaves(Corridor(), 4)
    ensures Footprint(States(Corridor(), 4)) == {Position(2, 1), Position(1, 1)}
    ensures NeverLeaves(Obstruct(Corridor(), Corridor().guard.position))
    ensures forall n: nat :: !StopsAsWritten(Obstruct(Corridor(), Corridor().guard.position), n)
    ensures Blocking(Corridor(), Footprint(States(Corridor(), 4)) - {Corridor().guard.position}) == {}
  {
    var c := Corridor();
    assert Trace(c, 1) == Some(DirectedPosition(Position(1, 1), Up));
    assert Trace(c, 2) == Some(DirectedPosition(Position(1, 1), Right));
    assert Trace(c, 3) == Some(DirectedPosition(Position(1, 1), Down));
    assert Trace(c, 4) == Some(DirectedPosition(Position(2, 1), Down));
    assert Trace(c, 5) == None;
    assert States(c, 4) == {c.guard, Trace(c, 1).value, Trace(c, 2).value, Trace(c, 3).value, Trace(c, 4).value};
    var b := Obstruct(c, Position(2, 1));
    assert Trace(b, 1) == Some(DirectedPosition(Position(1, 1), Up));
    assert Recorded(b, 0) == {c.guard};
    assert !StopsAsWritten(b, 0);
    forall n: nat
      ensures !StopsAsWritten(b, n) && Trace(b, n).Some?
    {
      if n > 0 {
        CorridorBlockedTurns(n);
      }
    }
    var o := Obstruct(c, Position(1, 1));
    assert Trace(o, 1) == Some(DirectedPosition(Position(2, 1), Right));
    assert Trace(o, 2) == Some(DirectedPosition(Position(2, 2), Right));
    assert Trace(o, 3) == None;
  }

  // ------------------------------------------------------------- candidates

  /** The cells of `ps` where one extra obstacle keeps the guard in the lab for ever. */
  ghost function Blocking(board: Board, ps: set<Position>): set<Position>
    requires OnBoard(board.guard.position, board.size)
  {
    set p | p in ps && NeverLeaves(Obstruct(board, p))
  }

  lemma BlockingAdd(board: Board, ps: set<Position>, p: Position)
    requires OnBoard(board.guard.position, board.size)
    requires p !in ps
    ensures |Blocking(board, ps + {p})| ==
      |Blocking(board, ps)| + (if NeverLeaves(Obstruct(board, p)) then 1 else 0)
  {
    BlockingSplit(board, ps, p);
    if NeverLeaves(Obstruct(board, p)) {
      assert Blocking(board, {p}) == {p};
    } else {
      assert Blocking(board, {p}) == {};
    }
  }

  lemma BlockingSplit(board: Board, ps: set<Position>, p: Position)
    requires OnBoard(board.guard.position, board.size)
    requires p !in ps
    ensures Blocking(board, ps + {p}) == Blocking(board, ps) + Blocking(board, {p})
    ensures Blocking(board, ps) !! Blocking(board, {p})
  {
  }

  /**
    `find_loops`, with the start cell left out of the candidates and the
    corrected `follow_guard`: None when the unobstructed patrol never leaves,
    otherwise the number of cells of that patrol, other than the start, where
    one extra obstacle keeps the guard in the lab for ever. The source folds
    over the candidates in parallel; the sum does not depend on the order.
   */
  method FindLoops(board: Board) returns (r: Option<nat>, ghost steps: nat)
    requires OnBoard(board.guard.position, board.size)
    requires board.guard.position !in board.obstacles
    ensures r.None? <==> NeverLeaves(board)
    ensures r.Some? ==> Leaves(board, steps)
    ensures r.Some? ==> r.value == |Blocking(board, Footprint(States(board, steps)) - {board.guard.position})|
  {
    var outcome;
    outcome, steps := FollowGuard(board);
    if outcome.Loops? {
      return None, steps;
    }
    var candidates := Footprint(outcome.positions) - {board.guard.position};
    ghost var all := candidates;
    var count := 0;
    while candidates != {}
      invariant candidates <= all
      invariant count == |Blocking(board, all - candidates)|
      decreases |candidates|
    {
      var p :| p in candidates;
      var proposed := Obstruct(board, p);
      var trapped, _ := FollowGuard(proposed);
      BlockingAdd(board, all - candidates, p);
      assert all - (candidates - {p}) == (all - candidates) + {p};
      if trapped.Loops? {
        count := count + 1;
      }
      candidates := candidates - {p};
    }
    assert all - candidates == all;
    r := Some(count);
  }

  // ---------------------------------------------------------------- parsing

  /** The guard characters and the heading each stands for. */
  function Heading(c: char): (r: Option<Direction>)
    ensures r.Some? <==> c in "^>v<"
    ensures r.Some? ==> c != '#'
  {
    if c == '^' then Some(Up)
    else if c == '>' then Some(Right)
    else if c == 'v' then Some(Down)
    else if c == '<' then Some(Left)
    else None
  }

  /** The right-most guard character of row `row`, if any. */
  function LastGuard(line: string, row: nat): Option<DirectedPosition>
  {
    if line == [] then None
    else match Heading(line[|line| - 1])
      case Some(d) => Some(DirectedPosition(Position(row, |line| - 1), d))
      case None => LastGuard(line[..|line| - 1], row)
  }

  /** The last guard character in reading order: each one overwrites the one before. */
  function GuardOf(lines: seq<string>): Option<DirectedPosition>
  {
    if lines == [] then None
    else match LastGuard(lines[|lines| - 1], |lines| - 1)
      case Some(g) => Some(g)
      case None => GuardOf(lines[..|lines| - 1])
  }

  function RowObstacles(line: string, row: nat): set<Position>
  {
    set c | 0 <= c < |line| && line[c] == '#' :: Position(row, c)
  }

  function ObstaclesOf(lines: seq<string>): set<Position>
  {
    if lines == [] then {}
    else ObstaclesOf(lines[..|lines| - 1]) + RowObstacles(lines[|lines| - 1], |lines| - 1)
  }

  /** The obstacles are exactly the '#' cells. */
  lemma {:induction false} ObstaclesOfMember(lines: seq<string>, p: Position)
    ensures p in ObstaclesOf(lines) <==>
      p.row < |lines| && p.col < |lines[p.row]| && lines[p.row][p.col] == '#'
  {
    if lines != [] {
      ObstaclesOfMember(lines[..|lines| - 1], p);
    }
  }

  lemma {:induction false} LastGuardSpec(line: string, row: nat)
    ensures LastGuard(line, row).None? <==> forall c :: 0 <= c < |line| ==> Heading(line[c]).None?
    ensures LastGuard(line, row).Some? ==>
      var g := LastGuard(line, row).value;
      g.position.row == row && g.position.col < |line| &&
      Heading(line[g.position.col]) == Some(g.direction) &&
      forall c :: g.position.col < c < |line| ==> Heading(line[c]).None?
  {
    if line != [] {
      LastGuardSpec(line[..|line| - 1], row);
    }
  }

  /**
    The guard is read off the last guard character in reading order; there
    is none exactly when no cell holds one.
   */
  lemma {:induction false} GuardOfSpec(lines: seq<string>)
    ensures GuardOf(lines).None? <==>
      forall r, c :: 0 <= r < |lines| && 0 <= c < |lines[r]| ==> Heading(lines[r][c]).None?
    ensures GuardOf(lines).Some? ==>
      var g := GuardOf(lines).value;
      g.position.row < |lines| && g.position.col < |lines[g.position.row]| &&
      Heading(lines[g.position.row][g.position.col]) == Some(g.direction) &&
      (forall c :: g.position.col < c < |lines[g.position.row]| ==> Heading(lines[g.position.row][c]).None?) &&
      forall r, c :: g.position.row < r < |lines| && 0 <= c < |lines[r]| ==> Heading(lines[r][c]).None?
  {
    if lines != [] {
      var prefix := lines[..|lines| - 1];
      var last := |lines| - 1;
      GuardOfSpec(prefix);
      LastGuardSpec(lines[last], last);
      assert forall r :: 0 <= r < last ==> lines[r] == prefix[r];
    }
  }

  /** The lab `parse` builds from well-formed lines. */
  function Lab(lines: seq<string>): (b: Board)
    requires Grid.Rectangular(lines) && GuardOf(lines).Some?
    ensures OnBoard(b.guard.position, b.size)
    ensures b.guard.position !in b.obstacles
  {
    GuardOfSpec(lines);
    var g := GuardOf(lines).value;
    ObstaclesOfMember(lines, g.position);
    Board(Position(|lines|, |lines[0]|), g, ObstaclesOf(lines))
  }

  lemma RowStep(line: string, row: nat, col: nat)
    requires col < |line|
    ensures LastGuard(line[..col + 1], row) ==
      if Heading(line[col]).Some? then Some(DirectedPosition(Position(row, col), Heading(line[col]).value))
      else LastGuard(line[..col], row)
    ensures RowObstacles(line[..col + 1], row) ==
      RowObstacles(line[..col], row) + (if line[col] == '#' then {Position(row, col)} else {})
  {
    assert line[..col + 1][..col] == line[..col];
  }

  lemma LinesStep(lines: seq<string>, row: nat)
    requires row < |lines|
    ensures GuardOf(lines[..row + 1]) ==
      if LastGuard(lines[row], row).Some? then LastGuard(lines[row], row) else GuardOf(lines[..row])
    ensures ObstaclesOf(lines[..row + 1]) == ObstaclesOf(lines[..row]) + RowObstacles(lines[row], row)
  {
    assert lines[..row + 1][..row] == lines[..row];
  }

  /**
    `parse`: one pass over the cells in reading order, each guard character
    replacing the guard found so far and each '#' adding an obstacle. A
    ragged line fails the source's `assert!`, so the lines must be
    rectangular. None when there is no guard (in particular, no line).
   */
  method Parse(input: string) returns (r: Option<Board>)
    requires Grid.Rectangular(Lines(input))
    ensures r.None? <==> GuardOf(Lines(input)).None?
    ensures r.Some? ==> GuardOf(Lines(input)).Some? && r.value == Lab(Lines(input))
  {
    var lines := Lines(input);
    var guard: Option<DirectedPosition> := None;
    var obstacles: set<Position> := {};
    var nCols: Option<nat> := None;
    for row := 0 to |lines|
      invariant guard == GuardOf(lines[..row])
      invariant obstacles == ObstaclesOf(lines[..row])
      invariant nCols == if row == 0 then None else Some(|lines[0]|)
    {
      var line := lines[row];
      if nCols.None? {
        nCols := Some(|line|);
      }
      ghost var before := guard;
      for col := 0 to |line|
        invariant guard == if LastGuard(line[..col], row).Some? then LastGuard(line[..col], row) else before
        invariant obstacles == ObstaclesOf(lines[..row]) + RowObstacles(line[..col], row)
      {
        var c := line[col];
        var heading := Heading(c);
        if heading.Some? {
          guard := Some(DirectedPosition(Position(row, col), heading.value));
        } else if c == '#' {
          obstacles := obstacles + {Position(row, col)};
        }
        RowStep(line, row, col);
      }
      assert line[..|line|] == line;
      LinesStep(lines, row);
    }
    assert lines[..|lines|] == lines;
    if guard.Some? && nCols.Some? {
      r := Some(Board(Position(|lines|, nCols.value), guard.value, obstacles));
    } else {
      r := None;
    }
  }

  // ------------------------------------------------------------------ parts

  /**
    `part_one`: the number of distinct cells of the patrol, or None when
    there is no guard or the guard never leaves.
   */
  method PartOne(input: string) returns (r: Option<nat>)
    requires Grid.Rectangular(Lines(input))
    ensures r.Some? ==> GuardOf(Lines(input)).Some?
    ensures GuardOf(Lines(input)).Some? ==> (r.None? <==> NeverLeaves(Lab(Lines(input))))
    ensures r.Some? ==> exists s ::
                          Leaves(Lab(Lines(input)), s) && r.value == |Footprint(States(Lab(Lines(input)), s))|
  {
    var board := Parse(input);
    if board.None? {
      return None;
    }
    var outcome, steps := FollowGuard(board.value);
    if outcome.Finite? {
      r := Some(|Footprint(outcome.positions)|);
      assert Leaves(board.value, steps);
    } else {
      r := None;
    }
  }

  /**
    `part_two`: None when there is no guard or the guard never leaves,
    otherwise the count of `FindLoops`.
   */
  method PartTwo(input: string) returns (r: Option<nat>)
    requires Grid.Rectangular(Lines(input))
    ensures r.Some? ==> GuardOf(Lines(input)).Some?
    ensures GuardOf(Lines(input)).Some? ==> (r.None? <==> NeverLeaves(Lab(Lines(input))))
    ensures r.Some? ==> exists s ::
                          Leaves(Lab(Lines(input)), s) && r.value == |Blocking(Lab(Lines(input)), Footprint(States(Lab(Lines(input)), s)) - {Lab(Lines(input)).guard.position})|
  {
    var board := Parse(input);
    if board.None? {
      return None;
    }
    ghost var steps;
    r, steps := FindLoops(board.value);
    if r.Some? {
      assert Leaves(board.value, steps);
    }
  }
}
