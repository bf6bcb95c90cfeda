/**
  Claw contraption (src/bin/13.rs): a machine has two buttons, each moving
  the claw by a fixed (dx, dy), and a prize location. Pressing A costs 3
  tokens and B costs 1; the answer for a machine is the cost of reaching the
  prize exactly. The improved solver applies Cramer's rule in i64 arithmetic
  and casts the press counts back to usize; the naive solver tries every
  pair of press counts below 100.
 */
module ClawContraption {
  import opened Common
  import opened Text

  datatype Button = Button(dx: nat, dy: nat)
  datatype Prize = Prize(x: nat, y: nat)
  datatype Machine = Machine(a: Button, b: Button, p: Prize)

  // ---------------------------------------------------------------- grammar

  /**
    `parse_button_coordinate_x/_y` and `parse_prize_coordinate_x/_y`: a
    literal prefix followed by `digit1` read as a number; the result is the
    remainder and the number.
   */
  function PrefixedNumber(s: string, prefix: string): (r: Option<(string, nat)>)
    ensures r.Some? ==> |r.value.0| < |s| - |prefix|
  {
    match Tag(s, prefix)
    case None => None
    case Some(rest) => Digit1(rest)
  }

  /** `prefix` + number + `", "` + `second` + number, as in both button and prize lines. */
  function NumberPair(s: string, first: string, second: string): (r: Option<(string, (nat, nat))>)
    ensures r.Some? ==> |r.value.0| < |s|
  {
    match PrefixedNumber(s, first)
    case None => None
    case Some((rest, x)) =>
      match Tag(rest, ", ")
      case None => None
      case Some(rest') =>
        match PrefixedNumber(rest', second)
        case None => None
        case Some((rest'', y)) => Some((rest'', (x, y)))
  }

  /** `parse_button_a` / `parse_button_b`, which differ only in their name. */
  function ParseButton(s: string, name: string): (r: Option<(string, Button)>)
    ensures r.Some? ==> |r.value.0| < |s|
  {
    match Tag(s, name)
    case None => None
    case Some(rest) =>
      match NumberPair(rest, "X+", "Y+")
      case None => None
      case Some((rest', (dx, dy))) => Some((rest', Button(dx, dy)))
  }

  /** `parse_prize_location`. */
  function ParsePrize(s: string): (r: Option<(string, Prize)>)
    ensures r.Some? ==> |r.value.0| < |s|
  {
    match Tag(s, "Prize: ")
    case None => None
    case Some(rest) =>
      match NumberPair(rest, "X=", "Y=")
      case None => None
      case Some((rest', (x, y))) => Some((rest', Prize(x, y)))
  }

  /** The inner `separated_pair(parse_button_a, tag("\n"), parse_button_b)`. */
  function ParseButtons(s: string): (r: Option<(string, (Button, Button))>)
    ensures r.Some? ==> |r.value.0| < |s|
  {
    match ParseButton(s, "Button A: ")
    case None => None
    case Some((r1, a)) =>
      match Tag(r1, "\n")
      case None => None
      case Some(r2) =>
        match ParseButton(r2, "Button B: ")
        case None => None
        case Some((r3, b)) => Some((r3, (a, b)))
  }

  /** `parse_machine`: the two buttons, a newline, the prize. */
  function ParseMachine(s: string): (r: Option<(string, Machine)>)
    ensures r.Some? ==> |r.value.0| < |s|
  {
    match ParseButtons(s)
    case None => None
    case Some((r1, (a, b))) =>
      match Tag(r1, "\n")
      case None => None
      case Some(r2) =>
        match ParsePrize(r2)
        case None => None
        case Some((r3, p)) => Some((r3, Machine(a, b, p)))
  }

  /** nom's `multispace1`: one or more spaces, tabs, carriage returns or newlines. */
  predicate IsMultispace(c: char) { c == ' ' || c == '\t' || c == '\r' || c == '\n' }

  function Multispace1(s: string): (r: Option<string>)
    ensures r.Some? ==> |r.value| < |s| && (r.value == [] || !IsMultispace(r.value[0]))
  {
    if s == [] || !IsMultispace(s[0]) then None
    else match Multispace1(s[1..])
      case None => Some(s[1..])
      case Some(rest) => Some(rest)
  }

  /**
    The repetition inside `separated_list1(multispace1, parse_machine)`: when
    the separator or the next machine fails, the list ends and the input
    before the separator is returned.
   */
  function MoreMachines(s: string, acc: seq<Machine>): (r: (string, seq<Machine>))
    ensures |r.1| >= |acc|
    decreases |s|
  {
    match Multispace1(s)
    case None => (s, acc)
    case Some(after) =>
      match ParseMachine(after)
      case None => (s, acc)
      case Some((rest, m)) =>
        MoreMachines(rest, acc + [m])
  }

  /** `parse`: one or more machines separated by whitespace. */
  function ParseMachines(s: string): (r: Option<(string, seq<Machine>)>)
    ensures r.Some? ==> |r.value.1| >= 1
  {
    match ParseMachine(s)
    case None => None
    case Some((rest, m)) => Some(MoreMachines(rest, [m]))
  }

  /** `first` + number + `", "` + `second` + number, followed by `rest`. */
  function ShowNumberPairThen(first: string, second: string, x: nat, y: nat, rest: string): string
  {
    first + (ShowNat(x) + (", " + (second + (ShowNat(y) + rest))))
  }

  function ShowButtonThen(name: string, b: Button, rest: string): string
  {
    name + ShowNumberPairThen("X+", "Y+", b.dx, b.dy, rest)
  }

  function ShowPrizeThen(p: Prize, rest: string): string
  {
    "Prize: " + ShowNumberPairThen("X=", "Y=", p.x, p.y, rest)
  }

  /** The text of one machine in the puzzle's layout, followed by `rest`. */
  function ShowMachineThen(m: Machine, rest: string): string
  {
    ShowButtonThen("Button A: ", m.a, "\n" + ShowButtonThen("Button B: ", m.b, "\n" + ShowPrizeThen(m.p, rest)))
  }

  /** Machines separated by blank lines, followed by `rest`. */
  function ShowMachinesThen(ms: seq<Machine>, rest: string): string
    requires |ms| >= 1
  {
    if |ms| == 1 then ShowMachineThen(ms[0], rest)
    else ShowMachineThen(ms[0], "\n\n" + ShowMachinesThen(ms[1..], rest))
  }

  /** The remainder cannot extend the last number nor start another separator. */
  predicate Terminates(rest: string)
  {
    rest == [] || !(IsDigit(rest[0]) || IsMultispace(rest[0]))
  }

  lemma PrefixedNumberShow(prefix: string, n: nat, rest: string)
    requires rest == [] || !IsDigit(rest[0])
    ensures PrefixedNumber(prefix + (ShowNat(n) + rest), prefix) == Some((rest, n))
  {
    TagAppend(prefix, ShowNat(n) + rest);
    Digit1ShowNat(n, rest);
  }

  lemma NumberPairShow(first: string, second: string, x: nat, y: nat, rest: string)
    requires rest == [] || !IsDigit(rest[0])
    ensures NumberPair(ShowNumberPairThen(first, second, x, y, rest), first, second) == Some((rest, (x, y)))
  {
    var tail := second + (ShowNat(y) + rest);
    PrefixedNumberShow(first, x, ", " + tail);
    TagAppend(", ", tail);
    PrefixedNumberShow(second, y, rest);
  }

  lemma ButtonShow(name: string, b: Button, rest: string)
    requires rest == [] || !IsDigit(rest[0])
    ensures ParseButton(ShowButtonThen(name, b, rest), name) == Some((rest, b))
  {
    TagAppend(name, ShowNumberPairThen("X+", "Y+", b.dx, b.dy, rest));
    NumberPairShow("X+", "Y+", b.dx, b.dy, rest);
  }

  lemma PrizeShow(p: Prize, rest: string)
    requires rest == [] || !IsDigit(rest[0])
    ensures ParsePrize(ShowPrizeThen(p, rest)) == Some((rest, p))
  {
    TagAppend("Prize: ", ShowNumberPairThen("X=", "Y=", p.x, p.y, rest));
    NumberPairShow("X=", "Y=", p.x, p.y, rest);
  }

  lemma ButtonsShow(a: Button, b: Button, rest: string)
    requires rest == [] || !IsDigit(rest[0])
    ensures ParseButtons(ShowButtonThen("Button A: ", a, "\n" + ShowButtonThen("Button B: ", b, rest)))
            == Some((rest, (a, b)))
  {
    var r2 := ShowButtonThen("Button B: ", b, rest);
    ButtonShow("Button A: ", a, "\n" + r2);
    TagAppend("\n", r2);
    ButtonShow("Button B: ", b, rest);
  }

  /** A printed machine parses back to the same machine, leaving the remainder. */
  lemma MachineRoundTrip(m: Machine, rest: string)
    requires rest == [] || !IsDigit(rest[0])
    ensures ParseMachine(ShowMachineThen(m, rest)) == Some((rest, m))
  {
    var r2 := ShowPrizeThen(m.p, rest);
    ButtonsShow(m.a, m.b, "\n" + r2);
    TagAppend("\n", r2);
    PrizeShow(m.p, rest);
  }

  lemma MachineTextStart(m: Machine, rest: string)
    ensures ShowMachineThen(m, rest) != [] && ShowMachineThen(m, rest)[0] == 'B'
  {
    var t := ShowMachineThen(m, rest);
    assert t == "Button A: " + ShowNumberPairThen("X+", "Y+", m.a.dx, m.a.dy, "\n" + ShowButtonThen("Button B: ", m.b, "\n" + ShowPrizeThen(m.p, rest)));
  }

  lemma Multispace1Blank(rest: string)
    requires rest != [] && !IsMultispace(rest[0])
    ensures Multispace1("\n\n" + rest) == Some(rest)
  {
    assert Multispace1(rest) == None;
    assert ("\n" + rest)[1..] == rest;
    assert Multispace1("\n" + rest) == Some(rest);
    assert ("\n\n" + rest)[1..] == "\n" + rest;
  }

  lemma HeadTail<T>(acc: seq<T>, ms: seq<T>)
    requires |ms| >= 1
    ensures acc + [ms[0]] + ms[1..] == acc + ms
    ensures |ms| == 1 ==> acc + [ms[0]] == acc + ms
    ensures [] + ms == ms
  {
    assert ms == [ms[0]] + ms[1..];
  }

  /** The remainder after the last machine ends the list. */
  lemma MoreMachinesStop(rest: string, acc: seq<Machine>)
    requires Terminates(rest)
    ensures MoreMachines(rest, acc) == (rest, acc)
  {
    assert Multispace1(rest) == None;
  }

  /** A blank line followed by a machine extends the list. */
  lemma MoreMachinesStep(m: Machine, tail: string, acc: seq<Machine>)
    requires tail == [] || !IsDigit(tail[0])
    ensures MoreMachines("\n\n" + ShowMachineThen(m, tail), acc) == MoreMachines(tail, acc + [m])
  {
    var after := ShowMachineThen(m, tail);
    MachineTextStart(m, tail);
    Multispace1Blank(after);
    MachineRoundTrip(m, tail);
  }

  lemma {:induction false} MoreMachinesRoundTrip(acc: seq<Machine>, ms: seq<Machine>, rest: string)
    requires |ms| >= 1 && Terminates(rest)
    ensures MoreMachines("\n\n" + ShowMachinesThen(ms, rest), acc) == (rest, acc + ms)
    decreases |ms|
  {
    if |ms| == 1 {
      assert ShowMachinesThen(ms, rest) == ShowMachineThen(ms[0], rest);
      MoreMachinesStep(ms[0], rest, acc);
      MoreMachinesStop(rest, acc + [ms[0]]);
      HeadTail(acc, ms);
    } else {
      var tail := "\n\n" + ShowMachinesThen(ms[1..], rest);
      assert ShowMachinesThen(ms, rest) == ShowMachineThen(ms[0], tail);
      MoreMachinesStep(ms[0], tail, acc);
      MoreMachinesRoundTrip(acc + [ms[0]], ms[1..], rest);
      HeadTail(acc, ms);
    }
  }

  /** `separated_list1` after its first element. */
  lemma ParseMachinesThen(s: string, tail: string, m: Machine, rest: string, ms: seq<Machine>)
    requires ParseMachine(s) == Some((tail, m))
    requires MoreMachines(tail, [m]) == (rest, ms)
    ensures ParseMachines(s) == Some((rest, ms))
  {
  }

  /** A list of one machine and the remainder. */
  lemma SingleMachineRoundTrip(ms: seq<Machine>, rest: string)
    requires |ms| == 1 && Terminates(rest)
    ensures ParseMachines(ShowMachinesThen(ms, rest)) == Some((rest, ms))
  {
    var m := ms[0];
    MachineRoundTrip(m, rest);
    MoreMachinesStop(rest, [m]);
    assert [m] == ms;
    ParseMachinesThen(ShowMachineThen(m, rest), rest, m, rest, ms);
  }

  /** A first machine followed by a text from which the repetition reads `ms`. */
  lemma FirstMachineThen(m: Machine, tail: string, rest: string, ms: seq<Machine>)
    requires tail == [] || !IsDigit(tail[0])
    requires MoreMachines(tail, [m]) == (rest, ms)
    ensures ParseMachines(ShowMachineThen(m, tail)) == Some((rest, ms))
  {
    MachineRoundTrip(m, tail);
    ParseMachinesThen(ShowMachineThen(m, tail), tail, m, rest, ms);
  }

  /** The first machine, then the list continues after a blank line. */
  lemma FirstOfManyRoundTrip(ms: seq<Machine>, rest: string)
    requires |ms| >= 2 && Terminates(rest)
    ensures ParseMachines(ShowMachinesThen(ms, rest)) == Some((rest, ms))
  {
    var tail := "\n\n" + ShowMachinesThen(ms[1..], rest);
    MoreMachinesRoundTrip([ms[0]], ms[1..], rest);
    assert [ms[0]] + ms[1..] == ms;
    FirstMachineThen(ms[0], tail, rest, ms);
    assert ShowMachinesThen(ms, rest) == ShowMachineThen(ms[0], tail);
  }

  /** Machines printed with blank lines between them parse back to the same list. */
  lemma MachinesRoundTrip(ms: seq<Machine>, rest: string)
    requires |ms| >= 1 && Terminates(rest)
    ensures ParseMachines(ShowMachinesThen(ms, rest)) == Some((rest, ms))
  {
    if |ms| == 1 {
      SingleMachineRoundTrip(ms, rest);
    } else {
      FirstOfManyRoundTrip(ms, rest);
    }
  }

  // ------------------------------------------------------------- arithmetic

  /** i64 `/`: the quotient truncated toward zero. */
  function TDiv(a: int, d: int): int
    requires d != 0
  {
    if (a >= 0) == (d > 0) then Abs(a) / Abs(d) else -(Abs(a) / Abs(d))
  }

  /** i64 `%`: the remainder takes the sign of the dividend. */
  function TRem(a: int, d: int): int
    requires d != 0
  {
    a - d * TDiv(a, d)
  }

  lemma {:induction false} MulAtLeast(t: nat, y: nat)
    requires t >= 1
    ensures t * y >= y
  {
    if t > 1 {
      MulAtLeast(t - 1, y);
      assert t * y == (t - 1) * y + y;
    }
  }

  /** A nonzero multiplier moves a product at least one factor away from zero. */
  lemma MulAwayFromZero(t: int, y: nat)
    ensures t >= 1 ==> t * y >= y
    ensures t <= -1 ==> t * y + y <= 0
  {
    if t >= 1 {
      MulAtLeast(t, y);
    } else if t <= -1 {
      MulAtLeast(-t, y);
      assert t * y == -((-t) * y);
    }
  }

  /** `x / y` of naturals is the only `q` with `q * y == x`. */
  lemma DivUnique(x: nat, y: nat, q: nat)
    requires y > 0 && q * y == x
    ensures x / y == q
  {
    var r := x / y;
    var e := x % y;
    assert x == r * y + e && 0 <= e < y;
    assert (r - q) * y == r * y - q * y;
    MulAwayFromZero(r - q, y);
  }

  lemma AbsMul(k: int, d: int)
    ensures Abs(k * d) == Abs(k) * Abs(d)
    ensures k > 0 && d > 0 ==> k * d > 0
    ensures k > 0 && d < 0 ==> k * d < 0
    ensures k < 0 && d > 0 ==> k * d < 0
    ensures k < 0 && d < 0 ==> k * d > 0
  {
    if k < 0 && d > 0 {
      assert k * d == -((-k) * d);
    } else if k > 0 && d < 0 {
      assert k * d == -(k * (-d));
    } else if k < 0 && d < 0 {
      assert k * d == (-k) * (-d);
    }
  }

  /** Truncating division of an exact multiple gives back the multiplier, with no remainder. */
  lemma TDivExact(k: int, d: int)
    requires d != 0
    ensures TDiv(k * d, d) == k && TRem(k * d, d) == 0
  {
    AbsMul(k, d);
    DivUnique(Abs(k * d), Abs(d), Abs(k));
  }

  /** A zero remainder means the quotient is exact. */
  lemma TRemZero(a: int, d: int)
    requires d != 0 && TRem(a, d) == 0
    ensures a == TDiv(a, d) * d
  {
  }

  const USIZE_MODULUS: nat := 0x1_0000_0000_0000_0000

  /** `x as usize` for an i64 `x`: the two's-complement bits read as unsigned. */
  function WrapUsize(x: int): (r: nat)
    ensures r < USIZE_MODULUS
    ensures 0 <= x < USIZE_MODULUS ==> r == x
  {
    x % USIZE_MODULUS
  }

  /** The determinant and the two Cramer numerators of a machine. */
  function Det(m: Machine): int { m.a.dx * m.b.dy - m.a.dy * m.b.dx }
  function DetA(m: Machine): int { m.p.x * m.b.dy - m.p.y * m.b.dx }
  function DetB(m: Machine): int { m.p.y * m.a.dx - m.p.x * m.a.dy }

  /** `na` presses of A and `nb` of B put the claw exactly on the prize. */
  predicate Solves(m: Machine, na: int, nb: int)
  {
    na * m.a.dx + nb * m.b.dx == m.p.x && na * m.a.dy + nb * m.b.dy == m.p.y
  }

  /** Cramer's rule, forward: any solution is the quotient of the numerators by the determinant. */
  lemma Cramer(m: Machine, na: int, nb: int)
    requires Solves(m, na, nb)
    ensures na * Det(m) == DetA(m) && nb * Det(m) == DetB(m)
  {
    PressesIdentity(m.a.dx, m.a.dy, m.b.dx, m.b.dy, na, nb);
  }

  /** The numerators of Cramer's rule, evaluated at the point the presses reach. */
  lemma PressesIdentity(adx: int, ady: int, bdx: int, bdy: int, na: int, nb: int)
    ensures na * (adx * bdy - ady * bdx) == (na * adx + nb * bdx) * bdy - (na * ady + nb * bdy) * bdx
    ensures nb * (adx * bdy - ady * bdx) == (na * ady + nb * bdy) * adx - (na * adx + nb * bdx) * ady
  {
    assert (na * adx + nb * bdx) * bdy == na * adx * bdy + nb * bdx * bdy;
    assert (na * ady + nb * bdy) * bdx == na * ady * bdx + nb * bdy * bdx;
    assert (na * ady + nb * bdy) * adx == na * ady * adx + nb * bdy * adx;
    assert (na * adx + nb * bdx) * ady == na * adx * ady + nb * bdx * ady;
  }

  lemma Cancel(d: int, x: int, y: int)
    requires d != 0 && d * x == d * y
    ensures x == y
  {
    assert d * (x - y) == 0;
  }

  /** The numerators recombine into the prize coordinates, each times the determinant. */
  lemma CramerIdentity(adx: int, ady: int, bdx: int, bdy: int, px: int, py: int)
    ensures (px * bdy - py * bdx) * adx + (py * adx - px * ady) * bdx == px * (adx * bdy - ady * bdx)
    ensures (px * bdy - py * bdx) * ady + (py * adx - px * ady) * bdy == py * (adx * bdy - ady * bdx)
  {
  }

  lemma Distribute(d: int, na: int, nb: int, u: int, v: int)
    ensures d * (na * u + nb * v) == (na * d) * u + (nb * d) * v
  {
  }

  /** Cramer's rule, backward: quotients of the numerators by a nonzero determinant solve the machine. */
  lemma CramerBack(m: Machine, na: int, nb: int)
    requires Det(m) != 0 && na * Det(m) == DetA(m) && nb * Det(m) == DetB(m)
    ensures Solves(m, na, nb)
  {
    var d := Det(m);
    CramerIdentity(m.a.dx, m.a.dy, m.b.dx, m.b.dy, m.p.x, m.p.y);
    Distribute(d, na, nb, m.a.dx, m.b.dx);
    Distribute(d, na, nb, m.a.dy, m.b.dy);
    Cancel(d, na * m.a.dx + nb * m.b.dx, m.p.x);
    Cancel(d, na * m.a.dy + nb * m.b.dy, m.p.y);
  }

  /** With a nonzero determinant a machine has at most one solution. */
  lemma SolutionUnique(m: Machine, na: int, nb: int, na': int, nb': int)
    requires Det(m) != 0 && Solves(m, na, nb) && Solves(m, na', nb')
    ensures na == na' && nb == nb'
  {
    Cramer(m, na, nb);
    Cramer(m, na', nb');
    Cancel(Det(m), na, na');
    Cancel(Det(m), nb, nb');
  }

  // ---------------------------------------------------------------- solvers

  /**
    `improved_find_minimum_token`, as written: `3 * di / d + dj / d` in i64,
    then `as usize`. A determinant of zero makes `%` panic.
   */
  function Improved(m: Machine): (r: Option<nat>)
    requires Det(m) != 0
  {
    var d, di, dj := Det(m), DetA(m), DetB(m);
    if TRem(di, d) == 0 && TRem(dj, d) == 0 then Some(WrapUsize(TDiv(3 * di, d) + TDiv(dj, d))) else None
  }

  /**
    The improved solver answers exactly for the machines that have an integer
    solution, and its answer is the wrapped cost of that (unique) solution,
    whatever the signs of the press counts.
   */
  lemma ImprovedSolves(m: Machine)
    requires Det(m) != 0
    ensures Improved(m).Some? <==> exists na, nb :: Solves(m, na, nb)
    ensures forall na, nb :: Solves(m, na, nb) ==> Improved(m) == Some(WrapUsize(3 * na + nb))
  {
    if Improved(m).Some? {
      ImprovedHasSolution(m);
    }
    forall na, nb | Solves(m, na, nb) ensures Improved(m) == Some(WrapUsize(3 * na + nb)) {
      ImprovedAtSolution(m, na, nb);
    }
  }

  /** An answer from the improved solver comes from the solution given by Cramer's rule. */
  lemma ImprovedHasSolution(m: Machine)
    requires Det(m) != 0 && Improved(m).Some?
    ensures Solves(m, TDiv(DetA(m), Det(m)), TDiv(DetB(m), Det(m)))
  {
    var d, di, dj := Det(m), DetA(m), DetB(m);
    TRemZero(di, d);
    TRemZero(dj, d);
    CramerBack(m, TDiv(di, d), TDiv(dj, d));
  }

  /** At a solution, the improved solver answers with the wrapped cost of its presses. */
  lemma ImprovedAtSolution(m: Machine, na: int, nb: int)
    requires Det(m) != 0 && Solves(m, na, nb)
    ensures Improved(m) == Some(WrapUsize(3 * na + nb))
  {
    var d, di, dj := Det(m), DetA(m), DetB(m);
    Cramer(m, na, nb);
    TDivExact(na, d);
    TDivExact(nb, d);
    assert 3 * di == (3 * na) * d;
    TDivExact(3 * na, d);
  }

  /** The as-written solver on a machine whose only solution presses A a negative number of times. */
  const WrapExample: Machine := Machine(Button(1, 1), Button(2, 1), Prize(5, 1))

  /**
    The machine above is unreachable with real button presses (its only
    solution is -3 presses of A and 4 of B), yet the as-written solver
    reports a token count of 2^64 - 5.
   */
  lemma NegativePressesWrap()
    ensures Det(WrapExample) != 0
    ensures !exists na: nat, nb: nat :: Solves(WrapExample, na, nb)
    ensures Improved(WrapExample) == Some(USIZE_MODULUS - 5)
  {
    var m := WrapExample;
    assert Solves(m, -3, 4);
    ImprovedSolves(m);
    forall na: nat, nb: nat | Solves(m, na, nb) ensures false {
      SolutionUnique(m, na, nb, -3, 4);
    }
  }

  /** The evidently intended solver: like `Improved`, but negative press counts are no solution. */
  function ImprovedChecked(m: Machine): (r: Option<nat>)
    requires Det(m) != 0
  {
    var d, di, dj := Det(m), DetA(m), DetB(m);
    if TRem(di, d) == 0 && TRem(dj, d) == 0 && TDiv(di, d) >= 0 && TDiv(dj, d) >= 0
    then Some(3 * TDiv(di, d) + TDiv(dj, d))
    else None
  }

  /** The checked solver answers exactly for the reachable prizes, with the cost of the presses. */
  lemma ImprovedCheckedSolves(m: Machine)
    requires Det(m) != 0
    ensures ImprovedChecked(m).Some? <==> exists na: nat, nb: nat :: Solves(m, na, nb)
    ensures forall na: nat, nb: nat :: Solves(m, na, nb) ==> ImprovedChecked(m) == Some(3 * na + nb)
  {
    var d, di, dj := Det(m), DetA(m), DetB(m);
    if ImprovedChecked(m).Some? {
      TRemZero(di, d);
      TRemZero(dj, d);
      var na: nat, nb: nat := TDiv(di, d), TDiv(dj, d);
      CramerBack(m, na, nb);
    }
    forall na: nat, nb: nat | Solves(m, na, nb) ensures ImprovedChecked(m) == Some(3 * na + nb) {
      Cramer(m, na, nb);
      TDivExact(na, d);
      TDivExact(nb, d);
    }
  }

  /** Both solvers agree on every machine whose solution, if any, uses no negative press count and fits a usize. */
  lemma CheckedAgrees(m: Machine)
    requires Det(m) != 0
    requires forall na, nb :: Solves(m, na, nb) ==> na >= 0 && nb >= 0 && 3 * na + nb < USIZE_MODULUS
    ensures Improved(m) == ImprovedChecked(m)
  {
    ImprovedSolves(m);
    ImprovedCheckedSolves(m);
    if Improved(m).Some? {
      var na, nb :| Solves(m, na, nb);
      assert Solves(m, na as nat, nb as nat);
    }
  }

  /** Pressing A `a` times and B `b` times hits the prize. */
  predicate Hit(m: Machine, a: nat, b: nat)
  {
    m.a.dx * a + m.b.dx * b == m.p.x && m.a.dy * a + m.b.dy * b == m.p.y
  }

  /** A hit never presses a button more than the prize distance allows. */
  lemma PressBound(a: nat, d: nat, rest: nat, p: nat)
    requires d > 0 && d * a + rest == p
    ensures a <= p / d
  {
    var q := p / d;
    assert p == q * d + p % d && p % d < d;
    assert (a - q) * d == d * a - q * d;
    MulAwayFromZero(a - q, d);
  }

  /** The naive solver's loop bound for one button: `min(px / dx, py / dy) + 1`. */
  function PressLimit(b: Button, p: Prize): (r: nat)
    requires b.dx > 0 && b.dy > 0
    ensures r >= 1
  {
    Min(p.x / b.dx, p.y / b.dy) + 1
  }

  /** Every hit lies below both loop bounds. */
  lemma HitWithinLimits(m: Machine, a: nat, b: nat)
    requires m.a.dx > 0 && m.a.dy > 0 && m.b.dx > 0 && m.b.dy > 0
    requires Hit(m, a, b)
    ensures a < PressLimit(m.a, m.p) && b < PressLimit(m.b, m.p)
  {
    PressBound(a, m.a.dx, m.b.dx * b, m.p.x);
    PressBound(a, m.a.dy, m.b.dy * b, m.p.y);
    PressBound(b, m.b.dx, m.a.dx * a, m.p.x);
    PressBound(b, m.b.dy, m.a.dy * a, m.p.y);
  }

  /** The pairs a row-by-row scan has visited before `(a, b)`, with `cols` columns per row. */
  predicate Scanned(a': nat, b': nat, a: nat, b: nat, cols: nat)
  {
    (a' < a && b' < cols) || (a' == a && b' < b)
  }

  /** The cost of a pair of press counts. */
  function Tokens(a: nat, b: nat): nat { 3 * a + b }

  /**
    `r` is the cheapest of the scanned pairs that satisfy `hit`, `None` when
    none of them does.
   */
  ghost predicate CheapestSoFar(hit: (nat, nat) -> bool, r: Option<nat>, a: nat, b: nat, cols: nat)
  {
    && (r.None? <==> forall a': nat, b': nat :: Scanned(a', b', a, b, cols) ==> !hit(a', b'))
    && (r.Some? ==> exists a': nat, b': nat :: Scanned(a', b', a, b, cols) && hit(a', b') && r.value == Tokens(a', b'))
    && (r.Some? ==> forall a': nat, b': nat :: Scanned(a', b', a, b, cols) && hit(a', b') ==> r.value <= Tokens(a', b'))
  }

  /** The scan's update at one pair: a hit replaces the best so far when it is cheaper. */
  function Consider(r: Option<nat>, hit: bool, tokens: nat): (r': Option<nat>)
    ensures r'.None? <==> r.None? && !hit
    ensures r'.Some? ==> (r.Some? && r'.value == r.value) || (hit && r'.value == tokens)
    ensures r'.Some? && r.Some? ==> r'.value <= r.value
    ensures r'.Some? && hit ==> r'.value <= tokens
  {
    if !hit then r else if r.Some? then Some(Min(r.value, tokens)) else Some(tokens)
  }

  /** Visiting one more pair keeps `CheapestSoFar`. */
  lemma ScanStep(hit: (nat, nat) -> bool, r: Option<nat>, a: nat, b: nat, cols: nat)
    requires CheapestSoFar(hit, r, a, b, cols) && b < cols
    ensures CheapestSoFar(hit, Consider(r, hit(a, b), Tokens(a, b)), a, b + 1, cols)
  {
    var r' := Consider(r, hit(a, b), Tokens(a, b));
    if r'.Some? {
      if r.Some? && r'.value == r.value {
        var a': nat, b': nat :| Scanned(a', b', a, b, cols) && hit(a', b') && r.value == Tokens(a', b');
        assert Scanned(a', b', a, b + 1, cols);
      } else {
        assert Scanned(a, b, a, b + 1, cols);
      }
    }
  }

  /** Finishing a row moves the scan to the start of the next one. */
  lemma ScanRow(hit: (nat, nat) -> bool, r: Option<nat>, a: nat, cols: nat)
    requires CheapestSoFar(hit, r, a, cols, cols)
    ensures CheapestSoFar(hit, r, a + 1, 0, cols)
  {
    assert forall a': nat, b': nat :: Scanned(a', b', a, cols, cols) <==> Scanned(a', b', a + 1, 0, cols);
  }

  /** Every hit of machine `m`. */
  function HitOf(m: Machine): (nat, nat) -> bool
  {
    (a: nat, b: nat) => Hit(m, a, b)
  }

  /** A scan of every pair below both loop bounds has found the cheapest hit with fewer than 100 presses. */
  lemma ScanComplete(m: Machine, r: Option<nat>, rows: nat, cols: nat)
    requires m.a.dx > 0 && m.a.dy > 0 && m.b.dx > 0 && m.b.dy > 0
    requires rows == Min(PressLimit(m.a, m.p), 100) && cols == Min(PressLimit(m.b, m.p), 100)
    requires CheapestSoFar(HitOf(m), r, rows, 0, cols)
    ensures r.None? <==> forall a: nat, b: nat :: a < 100 && b < 100 ==> !Hit(m, a, b)
    ensures r.Some? ==> exists a: nat, b: nat :: a < 100 && b < 100 && Hit(m, a, b) && r.value == Tokens(a, b)
    ensures r.Some? ==> forall a: nat, b: nat :: a < 100 && b < 100 && Hit(m, a, b) ==> r.value <= Tokens(a, b)
  {
    forall a: nat, b: nat | a < 100 && b < 100 && Hit(m, a, b) ensures Scanned(a, b, rows, 0, cols) {
      HitWithinLimits(m, a, b);
    }
    if r.Some? {
      var a: nat, b: nat :| Scanned(a, b, rows, 0, cols) && HitOf(m)(a, b) && r.value == Tokens(a, b);
      assert a < 100 && b < 100;
    }
  }

  /** When the naive solver finds a hit and the determinant is nonzero, the improved solver agrees. */
  lemma NaiveAgreesImproved(m: Machine, r: Option<nat>)
    requires Det(m) != 0 && r.Some?
    requires exists a: nat, b: nat :: a < 100 && b < 100 && Hit(m, a, b) && r.value == Tokens(a, b)
    ensures Improved(m) == r
  {
    var a: nat, b: nat :| a < 100 && b < 100 && Hit(m, a, b) && r.value == Tokens(a, b);
    assert Solves(m, a, b);
    ImprovedAtSolution(m, a, b);
  }

  /**
    `naive_find_minimum_token`: the cheapest hit with fewer than 100 presses
    of each button. The loop bounds `p / d + 1` never exclude a hit; a zero
    button component makes the division panic.
   */
  method NaiveFindMinimumToken(m: Machine) returns (r: Option<nat>)
    requires m.a.dx > 0 && m.a.dy > 0 && m.b.dx > 0 && m.b.dy > 0
    ensures r.None? <==> forall a: nat, b: nat :: a < 100 && b < 100 ==> !Hit(m, a, b)
    ensures r.Some? ==> exists a: nat, b: nat :: a < 100 && b < 100 && Hit(m, a, b) && r.value == Tokens(a, b)
    ensures r.Some? ==> forall a: nat, b: nat :: a < 100 && b < 100 && Hit(m, a, b) ==> r.value <= Tokens(a, b)
    ensures r.Some? && Det(m) != 0 ==> Improved(m) == r
  {
    var maxA := Min(m.p.x / m.a.dx, m.p.y / m.a.dy) + 1;
    var maxB := Min(m.p.x / m.b.dx, m.p.y / m.b.dy) + 1;
    var capA: nat := Min(maxA, 100);
    var capB: nat := Min(maxB, 100);
    r := None;
    for a := 0 to capA
      invariant CheapestSoFar(HitOf(m), r, a, 0, capB)
    {
      for b := 0 to capB
        invariant CheapestSoFar(HitOf(m), r, a, b, capB)
      {
        ScanStep(HitOf(m), r, a, b, capB);
        var x := m.a.dx * a + m.b.dx * b;
        var y := m.a.dy * a + m.b.dy * b;
        if x == m.p.x && y == m.p.y {
          var newTokens := 3 * a + b;
          if r.Some? {
            r := Some(Min(r.value, newTokens));
          } else {
            r := Some(newTokens);
          }
        }
      }
      ScanRow(HitOf(m), r, a, capB);
    }
    ScanComplete(m, r, capA, capB);
    if r.Some? && Det(m) != 0 {
      NaiveAgreesImproved(m, r);
    }
  }

  /** Machines for which the as-written solver is defined (no zero determinant). */
  predicate Solvable(ms: seq<Machine>)
  {
    forall i :: 0 <= i < |ms| ==> Det(ms[i]) != 0
  }

  /** The `filter_map(improved_find_minimum_token).sum()` over parsed machines. */
  function TotalTokens(ms: seq<Machine>): nat
    requires Solvable(ms)
  {
    if ms == [] then 0
    else
      var last := ms[|ms| - 1];
      TotalTokens(ms[..|ms| - 1]) + match Improved(last) case Some(t) => t case None => 0
  }

  /** The same sum with the corrected solver. */
  function TotalTokensChecked(ms: seq<Machine>): nat
    requires Solvable(ms)
  {
    if ms == [] then 0
    else
      var last := ms[|ms| - 1];
      TotalTokensChecked(ms[..|ms| - 1]) + match ImprovedChecked(last) case Some(t) => t case None => 0
  }

  /** Every solution of every machine presses each button a non-negative number of times. */
  ghost predicate NonNegativeSolutions(ms: seq<Machine>)
  {
    forall i, na, nb :: 0 <= i < |ms| && Solves(ms[i], na, nb) ==> na >= 0 && nb >= 0 && 3 * na + nb < USIZE_MODULUS
  }

  /** On inputs without negative solutions, the as-written total is the corrected total. */
  lemma {:induction false} TotalsAgree(ms: seq<Machine>)
    requires Solvable(ms)
    ensures NonNegativeSolutions(ms) ==> TotalTokens(ms) == TotalTokensChecked(ms)
  {
    if ms != [] && NonNegativeSolutions(ms) {
      var init := ms[..|ms| - 1];
      assert forall i :: 0 <= i < |init| ==> init[i] == ms[i];
      TotalsAgree(init);
      CheckedAgrees(ms[|ms| - 1]);
    }
  }

  /**
    `part_one`: `None` when the input does not parse, else the token total,
    summed with the corrected solver; on inputs without negative solutions
    this is the as-written total (`TotalsAgree`).
   */
  function PartOne(input: string): (r: Option<nat>)
    requires ParseMachines(input).Some? ==> Solvable(ParseMachines(input).value.1)
    ensures r.None? <==> ParseMachines(input).None?
    ensures r.Some? && NonNegativeSolutions(ParseMachines(input).value.1) ==>
      r.value == TotalTokens(ParseMachines(input).value.1)
  {
    match ParseMachines(input)
    case None => None
    case Some((_, ms)) =>
      TotalsAgree(ms);
      Some(TotalTokensChecked(ms))
  }

  const OFFSET: nat := 10000000000000

  /** The `part_two` correction: both prize coordinates move by 10^13. */
  function Offset(m: Machine): Machine
  {
    Machine(m.a, m.b, Prize(m.p.x + OFFSET, m.p.y + OFFSET))
  }

  function OffsetAll(ms: seq<Machine>): (r: seq<Machine>)
    ensures |r| == |ms|
  {
    seq(|ms|, i requires 0 <= i < |ms| => Offset(ms[i]))
  }

  /** Moving the prize leaves the determinant alone, so `part_two` panics exactly where `part_one` does. */
  lemma OffsetKeepsSolvable(ms: seq<Machine>)
    ensures Solvable(OffsetAll(ms)) <==> Solvable(ms)
  {
    assert forall i :: 0 <= i < |ms| ==> Det(OffsetAll(ms)[i]) == Det(ms[i]);
  }

  /** `part_two`: the same total after the offset. */
  function PartTwo(input: string): (r: Option<nat>)
    requires ParseMachines(input).Some? ==> Solvable(ParseMachines(input).value.1)
    ensures r.None? <==> ParseMachines(input).None?
    ensures r.Some? && NonNegativeSolutions(OffsetAll(ParseMachines(input).value.1)) ==>
      r.value == TotalTokens(OffsetAll(ParseMachines(input).value.1))
  {
    match ParseMachines(input)
    case None => None
    case Some((_, ms)) =>
      OffsetKeepsSolvable(ms);
      TotalsAgree(OffsetAll(ms));
      Some(TotalTokensChecked(OffsetAll(ms)))
  }
}
