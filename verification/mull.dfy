/**
  Mull it over (src/bin/03.rs): the corrupted memory is scanned for
  `mul(a,b)` instructions, whose products are summed; part two first cuts
  out every span from a `don't()` to the next `do()`.
 */
module MullItOver {
  import opened Common
  import opened Text

  /** Values that fit a u32. */
  const U32_LIMIT: nat := 0x1_0000_0000

  /** `parse_integer`: `digit1` read as a u32; a value that does not fit is an error. */
  function ParseInteger(s: string): (r: Option<(string, nat)>)
    ensures r.Some? ==> r.value.1 < U32_LIMIT && |r.value.0| < |s|
  {
    match Digit1(s)
    case None => None
    case Some((rest, v)) => if v < U32_LIMIT then Some((rest, v)) else None
  }

  /** `parse_args`: two integers separated by a comma. */
  function ParseArgs(s: string): (r: Option<(string, (nat, nat))>)
    ensures r.Some? ==> |r.value.0| < |s|
  {
    match ParseInteger(s)
    case None => None
    case Some((r1, a)) =>
      match Tag(r1, ",")
      case None => None
      case Some(r2) =>
        match ParseInteger(r2)
        case None => None
        case Some((r3, b)) => Some((r3, (a, b)))
  }

  /** `parse_multiply`: `mul`, then the arguments between parentheses. */
  function ParseMultiply(s: string): (r: Option<(string, (nat, nat))>)
    ensures r.Some? ==> StartsWith(s, "mul(") && |r.value.0| < |s| - 4
  {
    match Tag(s, "mul")
    case None => None
    case Some(r0) =>
      match Tag(r0, "(")
      case None => None
      case Some(r1) =>
        match ParseArgs(r1)
        case None => None
        case Some((r2, args)) =>
          match Tag(r2, ")")
          case None => None
          case Some(r3) =>
            assert s[..4] == "mul(";
            Some((r3, args))
  }

  /**
    `parse_multiply_with_garbage`: skip to the first `mul(`; either a whole
    instruction follows, or the four characters `mul(` are consumed and the
    item is `None`. Without any `mul(` the parser fails.
   */
  function ParseWithGarbage(s: string): (r: Option<(string, Option<(nat, nat)>)>)
    ensures r.Some? ==> |r.value.0| < |s|
  {
    match FindSubstring(s, "mul(")
    case None => None
    case Some(i) =>
      match ParseMultiply(s[i..])
      case Some((rest, args)) => Some((rest, Some(args)))
      case None => Some((s[i + 4..], None))
  }

  /** `parse_multiple`: `many0` of the above, until it fails. */
  function ParseMultiple(s: string): (r: seq<Option<(nat, nat)>>)
    decreases |s|
  {
    match ParseWithGarbage(s)
    case None => []
    case Some((rest, item)) => [item] + ParseMultiple(rest)
  }

  /** `flatten`: the present items, in order. */
  function Flatten(items: seq<Option<(nat, nat)>>): (r: seq<(nat, nat)>)
    ensures |r| <= |items|
  {
    if items == [] then []
    else (if items[0].Some? then [items[0].value] else []) + Flatten(items[1..])
  }

  /** `parse` (the remainder, which `part_one` ignores, is not kept). */
  function Parse(s: string): seq<(nat, nat)>
  {
    Flatten(ParseMultiple(s))
  }

  /**
    Reference reading: the well-formed instructions at every position of the
    text, in order of their positions.
   */
  function Instructions(s: string): seq<(nat, nat)>
  {
    if s == [] then []
    else (match ParseMultiply(s) case Some((_, args)) => [args] case None => []) + Instructions(s[1..])
  }

  /** Positions where no instruction starts can be skipped. */
  lemma {:induction false} SkipInvalid(s: string, k: nat)
    requires k <= |s|
    requires forall p :: 0 <= p < k ==> ParseMultiply(s[p..]).None?
    ensures Instructions(s) == Instructions(s[k..])
  {
    if k > 0 {
      assert s[0..] == s;
      forall p | 0 <= p < k - 1 ensures ParseMultiply(s[1..][p..]).None? {
        assert s[1..][p..] == s[p + 1..];
      }
      SkipInvalid(s[1..], k - 1);
      assert s[1..][k - 1..] == s[k..];
    }
  }

  /** The characters consumed by `digit1` are digits. */
  lemma {:induction false} DigitsFromConsumes(s: string, acc: nat)
    ensures var r := DigitsFrom(s, acc);
            s == s[..|s| - |r.0|] + r.0 && AllDigits(s[..|s| - |r.0|])
    decreases |s|
  {
    if s != [] && IsDigit(s[0]) {
      DigitsFromConsumes(s[1..], 10 * acc + DigitValue(s[0]));
      var r := DigitsFrom(s, acc);
      var d := s[1..][..|s| - 1 - |r.0|];
      assert s[..|s| - |r.0|] == [s[0]] + d;
    } else {
      assert s[..|s|] == s;
    }
  }

  /**
    `parse_integer` reads the whole run of digits at the front of `s`: it
    succeeds exactly when the run is non-empty and its value fits a u32.
   */
  lemma ParseIntegerOfDigits(d: string, rest: string)
    requires d != [] && AllDigits(d)
    requires rest == [] || !IsDigit(rest[0])
    ensures ParseInteger(d + rest) == if DigitsValue(d) < U32_LIMIT then Some((rest, DigitsValue(d))) else None
  {
    Digit1OfDigits(d, rest);
  }

  /** What `parse_integer` consumed: a non-empty run of digits whose value is the result. */
  lemma ParseIntegerReads(s: string)
    requires ParseInteger(s).Some?
    ensures var (rest, v) := ParseInteger(s).value;
            var d := s[..|s| - |rest|];
            d != [] && AllDigits(d) && s == d + rest && v == DigitsValue(d) &&
            (rest == [] || !IsDigit(rest[0]))
  {
    DigitsFromConsumes(s, 0);
    var rest := ParseInteger(s).value.0;
    var d := s[..|s| - |rest|];
    Digit1OfDigits(d, rest);
  }

  /** `parse_args` reads back two u32 arguments printed with a comma between them. */
  lemma ArgsShow(a: nat, b: nat, tail: string)
    requires a < U32_LIMIT && b < U32_LIMIT
    requires tail == [] || !IsDigit(tail[0])
    ensures ParseArgs(ShowNat(a) + "," + ShowNat(b) + tail) == Some((tail, (a, b)))
  {
    var second := ShowNat(b) + tail;
    var after := "," + second;
    assert ShowNat(a) + "," + ShowNat(b) + tail == ShowNat(a) + after;
    Digit1ShowNat(a, after);
    assert ParseInteger(ShowNat(a) + after) == Some((after, a));
    TagAppend(",", second);
    Digit1ShowNat(b, tail);
    assert ParseInteger(second) == Some((tail, b));
  }

  /** `parse_multiply` reads back an instruction printed with two u32 arguments. */
  lemma MultiplyShow(a: nat, b: nat, rest: string)
    requires a < U32_LIMIT && b < U32_LIMIT
    ensures ParseMultiply("mul(" + ShowNat(a) + "," + ShowNat(b) + ")" + rest) == Some((rest, (a, b)))
  {
    var tail := ")" + rest;
    var args := ShowNat(a) + "," + ShowNat(b) + tail;
    var r0 := "(" + args;
    var s := "mul(" + ShowNat(a) + "," + ShowNat(b) + ")" + rest;
    Regroup(ShowNat(a), ShowNat(b), rest);
    TagAppend("mul", r0);
    TagAppend("(", args);
    ArgsShow(a, b, tail);
    TagAppend(")", rest);
  }

  /**
    Conversely, what `parse_multiply` accepts is `mul(`, a run of digits, a
    comma, a run of digits and `)`, and the arguments are the runs' values.
   */
  lemma MultiplyReads(s: string)
    requires ParseMultiply(s).Some?
    ensures var (rest, (a, b)) := ParseMultiply(s).value;
            exists da, db :: da != [] && AllDigits(da) && db != [] && AllDigits(db) &&
                             a == DigitsValue(da) && b == DigitsValue(db) &&
                             s == "mul(" + da + "," + db + ")" + rest
  {
    var r0 := Tag(s, "mul").value;
    var r1 := Tag(r0, "(").value;
    var (r1a, a) := ParseInteger(r1).value;
    var r2 := Tag(r1a, ",").value;
    var (r2a, b) := ParseInteger(r2).value;
    var rest := Tag(r2a, ")").value;
    ParseIntegerReads(r1);
    ParseIntegerReads(r2);
    var da := r1[..|r1| - |r1a|];
    var db := r2[..|r2| - |r2a|];
    Assemble(s, r0, r1, r1a, r2, r2a, rest, da, db);
  }

  /** Regroups a printed instruction the way `parse_multiply` takes it apart. */
  lemma Regroup(x: string, y: string, rest: string)
    ensures "mul(" + x + "," + y + ")" + rest == "mul" + ("(" + (x + "," + y + (")" + rest)))
  {
  }

  /** Glues the pieces `parse_multiply` took off back together. */
  lemma Assemble(s: string, r0: string, r1: string, r1a: string, r2: string, r2a: string, rest: string, da: string, db: string)
    requires s == "mul" + r0 && r0 == "(" + r1 && r1 == da + r1a
    requires r1a == "," + r2 && r2 == db + r2a && r2a == ")" + rest
    ensures s == "mul(" + da + "," + db + ")" + rest
  {
  }

  /** `p` contains no `m`. */
  predicate NoM(p: string)
  {
    forall k :: 0 <= k < |p| ==> p[k] != 'm'
  }

  /** A parser went from `s` to its suffix `rest`, consuming no `m`. */
  predicate SkipsNoM(s: string, rest: string)
  {
    |rest| <= |s| && s[|s| - |rest|..] == rest && NoM(s[..|s| - |rest|])
  }

  lemma SkipsNoMTrans(s: string, t: string, u: string)
    requires SkipsNoM(s, t) && SkipsNoM(t, u)
    ensures SkipsNoM(s, u)
  {
    var a := s[..|s| - |t|];
    var b := t[..|t| - |u|];
    assert s == a + t && t == b + u;
    assert s[..|s| - |u|] == a + b;
  }

  /** `tag` of a literal without `m`. */
  lemma TagSkipsNoM(s: string, prefix: string)
    requires NoM(prefix) && Tag(s, prefix).Some?
    ensures SkipsNoM(s, Tag(s, prefix).value)
  {
    assert s[..|s| - |Tag(s, prefix).value|] == prefix;
  }

  /** The characters of a parsed integer are digits. */
  lemma IntegerSkipsNoM(s: string)
    requires ParseInteger(s).Some?
    ensures SkipsNoM(s, ParseInteger(s).value.0)
  {
    DigitsFromConsumes(s, 0);
  }

  lemma ArgsSkipsNoM(s: string)
    requires ParseArgs(s).Some?
    ensures SkipsNoM(s, ParseArgs(s).value.0)
  {
    var r1 := ParseInteger(s).value.0;
    var r2 := Tag(r1, ",").value;
    IntegerSkipsNoM(s);
    TagSkipsNoM(r1, ",");
    IntegerSkipsNoM(r2);
    SkipsNoMTrans(s, r1, r2);
    SkipsNoMTrans(s, r2, ParseArgs(s).value.0);
  }

  /** After its leading `m`, a parsed instruction contains no other `m`. */
  lemma MultiplyHasNoInnerM(s: string)
    requires ParseMultiply(s).Some?
    ensures SkipsNoM(s[1..], ParseMultiply(s).value.0)
  {
    var r0 := Tag(s, "mul").value;
    var r1 := Tag(r0, "(").value;
    var r2 := ParseArgs(r1).value.0;
    var r3 := Tag(r2, ")").value;
    assert r3 == ParseMultiply(s).value.0;
    assert s[1..] == "ul" + r0;
    TagSkipsNoM(s[1..], "ul");
    TagSkipsNoM(r0, "(");
    ArgsSkipsNoM(r1);
    TagSkipsNoM(r2, ")");
    SkipsNoMChain(s[1..], r0, r1, r2, r3);
  }

  lemma SkipsNoMChain(t: string, r0: string, r1: string, r2: string, r3: string)
    requires SkipsNoM(t, r0) && SkipsNoM(r0, r1) && SkipsNoM(r1, r2) && SkipsNoM(r2, r3)
    ensures SkipsNoM(t, r3)
  {
    SkipsNoMTrans(t, r0, r1);
    SkipsNoMTrans(t, r1, r2);
    SkipsNoMTrans(t, r2, r3);
  }

  /** No instruction starts at a character other than `m`. */
  lemma SkipNoM(t: string, n: nat)
    requires n <= |t| && NoM(t[..n])
    ensures Instructions(t) == Instructions(t[n..])
  {
    forall p | 0 <= p < n ensures ParseMultiply(t[p..]).None? {
      assert t[p..][0] == t[..n][p];
    }
    SkipInvalid(t, n);
  }

  /** Between the start of an instruction and its remainder, no other instruction starts. */
  lemma InstructionsAfterMultiply(s: string)
    requires ParseMultiply(s).Some?
    ensures Instructions(s) == [ParseMultiply(s).value.1] + Instructions(ParseMultiply(s).value.0)
  {
    var rest := ParseMultiply(s).value.0;
    MultiplyHasNoInnerM(s);
    var t := s[1..];
    SkipNoM(t, |t| - |rest|);
    assert t[|t| - |rest|..] == rest;
  }

  /** A failed `mul(` hides no instruction in its other three characters. */
  lemma InstructionsAfterFailedMultiply(s: string)
    requires StartsWith(s, "mul(") && ParseMultiply(s).None?
    ensures Instructions(s) == Instructions(s[4..])
  {
    var t := s[1..];
    forall p | 0 <= p < 3 ensures ParseMultiply(t[p..]).None? {
      assert t[p..][0] == s[p + 1];
    }
    SkipInvalid(t, 3);
    assert t[3..] == s[4..];
  }

  /** No instruction starts before the first `mul(`. */
  lemma InstructionsFromFirst(s: string, i: nat)
    requires i <= |s| && NoMatchBefore(s, "mul(", i)
    ensures Instructions(s) == Instructions(s[i..])
  {
    forall p | 0 <= p < i ensures ParseMultiply(s[p..]).None? {
      if ParseMultiply(s[p..]).Some? {
        assert s[p..][..4] == s[p..p + 4];
        assert MatchAt(s, p, "mul(");
      }
    }
    SkipInvalid(s, i);
  }

  /**
    `parse` returns every well-formed instruction in order: after a failed
    `mul(` the scan resumes just past those four characters, and no
    instruction is skipped.
   */
  lemma {:induction false} ParseFindsEveryInstruction(s: string)
    ensures Parse(s) == Instructions(s)
    decreases |s|
  {
    match FindSubstring(s, "mul(")
    case None =>
      InstructionsFromFirst(s, |s|);
      assert s[|s|..] == [];
    case Some(i) =>
      InstructionsFromFirst(s, i);
      var t := s[i..];
      assert t[..4] == s[i..i + 4];
      match ParseMultiply(t)
      case Some((rest, args)) =>
        InstructionsAfterMultiply(t);
        ParseFindsEveryInstruction(rest);
      case None =>
        InstructionsAfterFailedMultiply(t);
        assert t[4..] == s[i + 4..];
        ParseFindsEveryInstruction(s[i + 4..]);
  }

  /** The products of the instructions, summed (the `fold` of `part_one`). */
  function SumProducts(pairs: seq<(nat, nat)>): nat
  {
    if pairs == [] then 0 else SumProducts(pairs[..|pairs| - 1]) + pairs[|pairs| - 1].0 * pairs[|pairs| - 1].1
  }

  /** `part_one`: the parse never fails, so the answer is always present. */
  function PartOne(input: string): (r: Option<nat>)
    ensures r == Some(SumProducts(Instructions(input)))
  {
    ParseFindsEveryInstruction(input);
    Some(SumProducts(Parse(input)))
  }

  /** The markers; their lengths, 7 and 4, are written out where the code uses `len()`. */
  const DONT: string := "don't()"
  const DO: string := "do()"

  /**
    Every `don't()` the scan meets is followed by a `do()`. Otherwise
    `remove_dont_do` never advances `valid_index` and loops forever.
   */
  predicate DontsClosed(s: string)
    decreases |s|
  {
    match FindSubstring(s, DONT)
    case None => true
    case Some(i) =>
      match FindSubstring(s[i + 7..], DO)
      case None => false
      case Some(j) => DontsClosed(s[i + 7 + j + 4..])
  }

  /** The text that `remove_dont_do` keeps: everything outside the `don't()` ... `do()` spans. */
  function Kept(s: string): (r: string)
    requires DontsClosed(s)
    ensures |r| <= |s|
    decreases |s|
  {
    match FindSubstring(s, DONT)
    case None => s
    case Some(i) =>
      var j := FindSubstring(s[i + 7..], DO).value;
      s[..i] + Kept(s[i + 7 + j + 4..])
  }

  /** In a closed text, a `do()` follows the first `don't()`. */
  lemma DoFollows(s: string, i: nat)
    requires DontsClosed(s) && FindSubstring(s, DONT) == Some(i)
    ensures FindSubstring(s[i + 7..], DO).Some?
  {
  }

  /** A closed rest after the first span makes the whole text closed. */
  lemma ClosedStep(s: string, i: nat, j: nat)
    requires FindSubstring(s, DONT) == Some(i)
    requires FindSubstring(s[i + 7..], DO) == Some(j)
    requires DontsClosed(s[i + 7 + j + 4..])
    ensures DontsClosed(s)
  {
  }

  /** One step of `Kept`: the text before the first `don't()`, then the rest after its `do()`. */
  lemma KeptStep(s: string, i: nat, j: nat)
    requires DontsClosed(s)
    requires FindSubstring(s, DONT) == Some(i)
    requires FindSubstring(s[i + 7..], DO) == Some(j)
    ensures DontsClosed(s[i + 7 + j + 4..])
    ensures Kept(s) == s[..i] + Kept(s[i + 7 + j + 4..])
  {
  }

  /** Without any `don't()` the text is kept whole. */
  lemma NoDontKeepsAll(s: string)
    requires forall j :: 0 <= j ==> !MatchAt(s, j, DONT)
    ensures DontsClosed(s) && Kept(s) == s
  {
  }

  /**
    A span from the first `don't()` to the first `do()` after it is dropped,
    both markers included; the text before it is kept and the rest is
    processed in the same way.
   */
  lemma DropsFirstSpan(p: string, m: string, q: string)
    requires NoMatchBefore(p + DONT + m + DO + q, DONT, |p|)
    requires NoMatchBefore(m + DO + q, DO, |m|)
    requires DontsClosed(q)
    ensures DontsClosed(p + DONT + m + DO + q)
    ensures Kept(p + DONT + m + DO + q) == p + Kept(q)
  {
    var s := p + DONT + m + DO + q;
    assert s == p + DONT + (m + DO + q);
    FindSubstringAfter(p, DONT, m + DO + q);
    var after := s[|p| + 7..];
    assert after == m + DO + q;
    FindSubstringAfter(m, DO, q);
    assert after[|m| + 4..] == q;
    assert s[|p| + 7 + |m| + 4..] == q;
    assert s[..|p|] == p;
    ClosedStep(s, |p|, |m|);
    KeptStep(s, |p|, |m|);
  }

  /**
    `remove_dont_do`: copy the text up to each `don't()`, then resume after
    the next `do()`. (The flag `no_final_do` is only cleared on the path that
    never terminates, so the final copy always happens.)
   */
  method RemoveDontDo(input: string) returns (builder: string)
    requires DontsClosed(input)
    ensures builder == Kept(input)
  {
    builder := "";
    var validIndex: nat := 0;
    assert input[validIndex..] == input;
    while true
      invariant validIndex <= |input|
      invariant DontsClosed(input[validIndex..])
      invariant builder + Kept(input[validIndex..]) == Kept(input)
      decreases |input| - validIndex
    {
      var rest := input[validIndex..];
      var dontIndex := FindSubstring(rest, DONT);
      if dontIndex.Some? {
        DoFollows(rest, dontIndex.value);
        var doIndex := FindSubstring(rest[dontIndex.value + 7..], DO);
        var next := validIndex + dontIndex.value + 7 + doIndex.value + 4;
        SkipSpan(input, validIndex, builder, dontIndex.value, doIndex.value, next);
        builder := builder + rest[..dontIndex.value];
        validIndex := next;
      } else {
        builder := builder + rest;
        return;
      }
    }
  }

  /**
    The loop of `remove_dont_do` keeps its invariant when it copies up to a
    `don't()` and resumes after the next `do()`.
   */
  lemma SkipSpan(input: string, v: nat, builder: string, i: nat, j: nat, next: nat)
    requires DontsClosed(input) && v <= |input| && DontsClosed(input[v..])
    requires builder + Kept(input[v..]) == Kept(input)
    requires FindSubstring(input[v..], DONT) == Some(i)
    requires FindSubstring(input[v..][i + 7..], DO) == Some(j)
    requires next == v + i + 7 + j + 4
    ensures next <= |input| && DontsClosed(input[next..])
    ensures (builder + input[v..][..i]) + Kept(input[next..]) == Kept(input)
  {
    var rest := input[v..];
    ResumeAfterDo(input, v, i, j, next);
    KeptStep(rest, i, j);
    ConcatAssoc(builder, rest[..i], Kept(rest[i + 7 + j + 4..]));
  }

  /** Resuming after the `do()` lands inside the text, on what follows that `do()`. */
  lemma ResumeAfterDo(input: string, v: nat, i: nat, j: nat, next: nat)
    requires v <= |input|
    requires FindSubstring(input[v..], DONT) == Some(i)
    requires FindSubstring(input[v..][i + 7..], DO) == Some(j)
    requires next == v + i + 7 + j + 4
    ensures next <= |input| && input[next..] == input[v..][i + 7 + j + 4..]
  {
  }

  lemma ConcatAssoc(a: string, b: string, c: string)
    ensures (a + b) + c == a + (b + c)
  {
  }

  /** `part_two`: `part_one` on the kept text. */
  function PartTwo(input: string): (r: Option<nat>)
    requires DontsClosed(input)
    ensures r == Some(SumProducts(Instructions(Kept(input))))
  {
    PartOne(Kept(input))
  }
}
