/**
 * Day 1: a safe whose dial shows the positions 0..99. Each instruction turns the
 * dial left (towards lower numbers) or right by a number of clicks. The safe counts
 * how often the dial comes to rest on 0 (`zero_count`) and how often it passes 0
 * during a turn without stopping there (`zero_crosses`).
 * Source: src/bin/day-1/main.rs.
 */
module Dial {
  import opened Wrappers
  import opened Text

  datatype Direction = Left(count: nat) | Right(count: nat)

  /**
   * Why the instructions do not parse. `EmptyLine` stands for the panic of
   * `split_at(1)` on an empty line, which is reached only when every earlier
   * line parsed.
   */
  datatype ParseError = UnexpectedInput | CountParseError | EmptyLine

  // ---------------------------------------------------------------------------
  // Rust integer division on `isize`: `/` and `%` truncate toward zero,
  // `div_euclid` rounds toward negative infinity (Dafny's own `/` on int).

  function TruncDiv100(a: int): (q: int)
    ensures a >= 0 ==> q == a / 100
    ensures a < 0 ==> q == -((-a) / 100)
  {
    if a >= 0 then a / 100 else -((-a) / 100)
  }

  function TruncRem100(a: int): (r: int)
    ensures -100 < r < 100
    ensures a >= 0 ==> r >= 0
  {
    if a >= 0 then a % 100 else -((-a) % 100)
  }

  /** The number of multiples of 100 strictly between lo and hi: the times the dial shows 0. */
  function MultiplesBetween(lo: int, hi: int): nat
    decreases hi - lo
  {
    if hi - lo <= 1 then 0
    else MultiplesBetween(lo, hi - 1) + (if (hi - 1) % 100 == 0 then 1 else 0)
  }

  lemma FloorStep(n: int)
    ensures n / 100 == (n - 1) / 100 + (if n % 100 == 0 then 1 else 0)
  {
  }

  /** Counting the multiples one by one agrees with the difference of floor quotients. */
  lemma {:induction false} MultiplesBetweenClosedForm(lo: int, hi: int)
    requires lo < hi
    ensures MultiplesBetween(lo, hi) == (hi - 1) / 100 - lo / 100
    decreases hi - lo
  {
    if hi - lo > 1 {
      MultiplesBetweenClosedForm(lo, hi - 1);
      FloorStep(hi - 1);
    }
  }

  /**
   * `Safe::wrap`: the dial value the unwrapped target `input` comes to rest on,
   * and how many times the dial passes 0 on the way from `dial` to `input`
   * (`WrapCountsPasses`). A dial of 100 or more is not modelled: there the
   * crossing count can be negative and the source's cast to `usize` wraps around.
   */
  function Wrap(dial: nat, input: int): (r: (nat, nat))
    requires dial < 100
    ensures r.0 < 100
  {
    var wrapped := TruncRem100(TruncRem100(input) + 100);
    var crosses :=
      if input < dial then (dial - 1) / 100 - input / 100
      else TruncDiv100(input - 1) - TruncDiv100(dial);
    (wrapped, crosses)
  }

  /** The wrapped value of `wrap` is the target modulo 100, whatever the sign of the target. */
  lemma WrapRestsOnTarget(dial: nat, input: int)
    requires dial < 100
    ensures Wrap(dial, input).0 == input % 100
  {
    RemainderShift(input);
  }

  lemma RemainderShift(input: int)
    ensures TruncRem100(TruncRem100(input) + 100) == input % 100
  {
    var r := TruncRem100(input);
    assert TruncRem100(r + 100) == (r + 100) % 100;
    if input < 0 {
      var q, k := (-input) / 100, (-input) % 100;
      assert r == -k;
      assert input == 100 * (-q - 1) + (100 - k);
    }
  }

  /**
   * The crossing count of `wrap` is exactly the number of multiples of 100
   * strictly between the dial and the target, in either direction.
   */
  lemma WrapCountsPasses(dial: nat, input: int)
    requires dial < 100
    ensures Wrap(dial, input).1 ==
      if input < dial then MultiplesBetween(input, dial) else MultiplesBetween(dial, input)
  {
    if input < dial {
      MultiplesBetweenClosedForm(input, dial);
    } else if input > dial {
      MultiplesBetweenClosedForm(dial, input);
    }
  }

  /** The unwrapped target of one instruction from the dial value `dial`. */
  function Target(dial: nat, d: Direction): int {
    match d
    case Left(n) => dial - n
    case Right(n) => dial + n
  }

  /** The three numbers a safe keeps. */
  datatype Counters = Counters(dial: nat, zeroCount: nat, zeroCrosses: nat)

  /**
   * The counters after one `rotate`: the dial rests on the target modulo 100,
   * every multiple of 100 passed strictly between the old dial and the target
   * is a crossing, and resting on 0 counts once more.
   */
  function Turned(s: Counters, d: Direction): (t: Counters)
    requires s.dial < 100
    ensures t.dial < 100
    ensures t.zeroCrosses >= s.zeroCrosses
    ensures t.zeroCount == s.zeroCount + (if t.dial == 0 then 1 else 0)
  {
    var r := Wrap(s.dial, Target(s.dial, d));
    Counters(r.0, if r.0 == 0 then s.zeroCount + 1 else s.zeroCount, s.zeroCrosses + r.1)
  }

  /**
   * Each turn leaves the dial on the target modulo 100 and adds to the crossings
   * every multiple of 100 strictly between the old dial and the target.
   */
  lemma TurnedSpec(s: Counters, d: Direction)
    requires s.dial < 100
    ensures d.Right? ==> Turned(s, d).dial == (s.dial + d.count) % 100
    ensures d.Left? ==> Turned(s, d).dial == (s.dial - d.count) % 100
    ensures Turned(s, d).zeroCrosses == s.zeroCrosses + (
      if d.Left? then MultiplesBetween(s.dial - d.count, s.dial)
      else MultiplesBetween(s.dial, s.dial + d.count))
  {
    WrapRestsOnTarget(s.dial, Target(s.dial, d));
    WrapCountsPasses(s.dial, Target(s.dial, d));
  }

  /** The counters after a whole list of instructions. */
  function TurnedAll(s: Counters, ds: seq<Direction>): (t: Counters)
    requires s.dial < 100
    ensures t.dial < 100
    decreases ds
  {
    if ds == [] then s else TurnedAll(Turned(s, ds[0]), ds[1..])
  }

  /** Neither count ever goes down, however many instructions are applied. */
  lemma {:induction false} CountsNeverDecrease(s: Counters, ds: seq<Direction>)
    requires s.dial < 100
    ensures s.zeroCount <= TurnedAll(s, ds).zeroCount
    ensures s.zeroCrosses <= TurnedAll(s, ds).zeroCrosses
    decreases ds
  {
    if ds != [] {
      CountsNeverDecrease(Turned(s, ds[0]), ds[1..]);
    }
  }

  class Safe {
    var dialState: nat
    var zeroCount: nat
    var zeroCrosses: nat

    function Counts(): Counters
      reads this
    {
      Counters(dialState, zeroCount, zeroCrosses)
    }

    /** `Safe::new`: the dial at the given value, nothing counted yet. */
    constructor (dialState: nat)
      ensures Counts() == Counters(dialState, 0, 0)
    {
      this.dialState := dialState;
      zeroCount := 0;
      zeroCrosses := 0;
    }

    /** `Safe::rotate`: turn the dial, then count passes over 0 and a stop on 0. */
    method Rotate(d: Direction)
      requires dialState < 100
      modifies this
      ensures Counts() == Turned(old(Counts()), d)
    {
      var result := Target(dialState, d);
      var (wrapped, crosses) := Wrap(dialState, result);
      dialState := wrapped;
      zeroCrosses := zeroCrosses + crosses;
      if dialState == 0 {
        zeroCount := zeroCount + 1;
      }
    }
  }

  // ---------------------------------------------------------------------------
  // Parsing

  /** One instruction: 'L' or 'R' followed by a count `usize::from_str` accepts. */
  function ParseDirection(line: string): (r: Result<Direction, ParseError>)
    requires |line| >= 1
    ensures r.Ok? <==> (line[0] == 'L' || line[0] == 'R') && ParseNat(line[1..]).Some?
    ensures r.Ok? ==> r.value.count == ParseNat(line[1..]).value
    ensures r.Ok? ==> (r.value.Left? <==> line[0] == 'L')
    ensures r.Err? ==> (r.error == UnexpectedInput <==> line[0] != 'L' && line[0] != 'R')
    ensures r != Err(EmptyLine)
  {
    var (direction, count) := (line[..1], line[1..]);
    if direction == "L" || direction == "R" then
      match ParseNat(count)
      case None => Err(CountParseError)
      case Some(n) => Ok(if direction == "L" then Left(n) else Right(n))
    else
      Err(UnexpectedInput)
  }

  /** `split_at(1)` and the match on one line: an empty line panics, any other is `ParseDirection`. */
  function ParseLine(line: string): (r: Result<Direction, ParseError>)
    ensures r == Err(EmptyLine) <==> |line| == 0
    ensures |line| >= 1 ==> r == ParseDirection(line)
  {
    if |line| >= 1 then ParseDirection(line) else Err(EmptyLine)
  }

  /**
   * `Direction::parse`: every line parsed in order; the first failing line decides
   * the error, and the lines after it are never looked at. The result is the
   * `split_at(1)` panic exactly when that first failing line is empty.
   */
  function ParseDirections(lines: seq<string>): (r: Result<seq<Direction>, ParseError>)
    ensures r.Ok? <==> forall i :: 0 <= i < |lines| ==> |lines[i]| >= 1 && ParseDirection(lines[i]).Ok?
    ensures r.Ok? ==> (|r.value| == |lines|
      && forall i :: 0 <= i < |lines| ==> r.value[i] == ParseDirection(lines[i]).value)
    ensures r.Err? ==> exists i :: (0 <= i < |lines| && ParseLine(lines[i]) == Err(r.error)
      && forall j :: 0 <= j < i ==> ParseLine(lines[j]).Ok?)
    ensures r == Err(EmptyLine) <==> exists i :: (0 <= i < |lines| && |lines[i]| == 0
      && forall j :: 0 <= j < i ==> ParseLine(lines[j]).Ok?)
  {
    var r := CollectResults(lines, ParseLine);
    FirstFailureDecides(lines, r);
    r
  }

  /** Only one line can be the first failing one, so an empty first failing line is the panic. */
  lemma FirstFailureDecides(lines: seq<string>, r: Result<seq<Direction>, ParseError>)
    requires r == CollectResults(lines, ParseLine)
    ensures r == Err(EmptyLine) <==> exists i :: (0 <= i < |lines| && |lines[i]| == 0
      && forall j :: 0 <= j < i ==> ParseLine(lines[j]).Ok?)
  {
    if i :| 0 <= i < |lines| && |lines[i]| == 0 && forall j :: 0 <= j < i ==> ParseLine(lines[j]).Ok? {
      assert !ParseLine(lines[i]).Ok?;
      var k :| 0 <= k < |lines| && ParseLine(lines[k]) == Err(r.error)
        && forall j :: 0 <= j < k ==> ParseLine(lines[j]).Ok?;
    }
  }

  /** The instruction as the puzzle input writes it. */
  function Render(d: Direction): (line: string)
    ensures |line| >= 2
  {
    match d
    case Left(n) => "L" + ToDecimal(n)
    case Right(n) => "R" + ToDecimal(n)
  }

  function RenderAll(ds: seq<Direction>): (lines: seq<string>)
    ensures |lines| == |ds| && forall i :: 0 <= i < |ds| ==> lines[i] == Render(ds[i])
  {
    seq(|ds|, i requires 0 <= i < |ds| => Render(ds[i]))
  }

  /** Parsing rendered instructions gives the instructions back. */
  lemma ParseRendered(ds: seq<Direction>)
    ensures ParseDirections(RenderAll(ds)) == Ok(ds)
  {
    var lines := RenderAll(ds);
    forall i | 0 <= i < |ds| ensures ParseDirection(lines[i]) == Ok(ds[i]) {
      var line := lines[i];
      var n := ds[i].count;
      ParseToDecimal(n);
      assert line[1..] == ToDecimal(n);
      assert line[..1] == if ds[i].Left? then "L" else "R";
    }
    var r := ParseDirections(lines);
    assert r.Ok?;
    assert r.value == ds;
  }
}
