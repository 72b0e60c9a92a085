/**
 * Day 2: product ID ranges. The input is a comma-separated list of ranges
 * "left-right"; an ID is invalid when its decimal digits are a block written
 * twice ("reflected", first part) or a block written two or more times
 * ("repeated", second part). The extractors list the invalid IDs of a range.
 * Source: src/bin/day-2/main.rs.
 */
module ProductIds {
  import opened Wrappers
  import opened Text

  /** An inclusive range of IDs. */
  datatype Range = Range(left: nat, right: nat)

  /** Why a range did not parse: no '-', or one side is not a number. */
  // ---------------------------------------------------------------------------
  // Parsing

  /** `Range::try_from`: split at the first '-' and parse both sides. */
  function ParseRange(value: string): (r: Result<Range, string>)
    ensures r == Err("failed to parse range") <==> '-' !in value
  {
    SplitOnceAtFirst(value, '-');
    match SplitOnce(value, "-")
    case None => Err("failed to parse range")
    case Some((left, right)) =>
      match ParseNat(left)
      case None => Err("failed to parse left value in range " + left)
      case Some(l) =>
        match ParseNat(right)
        case None => Err("failed to parse right value in range " + right)
        case Some(r) => Ok(Range(l, r))
  }

  /**
   * The cut is at the first '-': the range parses exactly when the text on
   * either side of it does, and each failure names the side that failed.
   */
  lemma ParseRangeAtFirstDash(value: string)
    ensures var i := FirstIndexOf(value, '-');
      ParseRange(value).Ok? <==> i < |value| && ParseNat(value[..i]).Some? && ParseNat(value[i + 1..]).Some?
    ensures var i := FirstIndexOf(value, '-');
      i < |value| && ParseNat(value[..i]).Some? && ParseNat(value[i + 1..]).Some? ==>
        ParseRange(value) == Ok(Range(ParseNat(value[..i]).value, ParseNat(value[i + 1..]).value))
    ensures var i := FirstIndexOf(value, '-');
      i < |value| && ParseNat(value[..i]).None? ==>
        ParseRange(value) == Err("failed to parse left value in range " + value[..i])
    ensures var i := FirstIndexOf(value, '-');
      i < |value| && ParseNat(value[..i]).Some? && ParseNat(value[i + 1..]).None? ==>
        ParseRange(value) == Err("failed to parse right value in range " + value[i + 1..])
  {
    SplitOnceAtFirst(value, '-');
  }

  /** The text of a range as the input writes it. */
  function RenderRange(r: Range): string {
    ToDecimal(r.left) + "-" + ToDecimal(r.right)
  }

  /** A written range parses back to itself. */
  lemma ParseRenderRange(r: Range)
    ensures ParseRange(RenderRange(r)) == Ok(r)
  {
    var a, b := ToDecimal(r.left), ToDecimal(r.right);
    var value := RenderRange(r);
    assert OccursAt(value, "-", |a|) by { assert value[|a|..|a| + 1] == "-"; }
    forall j | 0 <= j < |a| ensures !OccursAt(value, "-", j) {
      assert value[j..j + 1][0] == value[j] == a[j] && IsDigit(a[j]);
    }
    assert Find(value, "-", 0) == Some(|a|);
    assert value[..|a|] == a && value[|a| + 1..] == b;
    ParseToDecimal(r.left);
    ParseToDecimal(r.right);
  }

  /** `parse_input_into_range`: the comma-separated ranges of the input. */
  function ParseInput(input: string): Result<seq<Range>, string> {
    CollectResults(Split(input, ','), ParseRange)
  }

  function RenderEach(rs: seq<Range>): (texts: seq<string>)
    ensures |texts| == |rs| && forall i :: 0 <= i < |rs| ==> texts[i] == RenderRange(rs[i])
  {
    if rs == [] then [] else [RenderRange(rs[0])] + RenderEach(rs[1..])
  }

  /** The text of a list of ranges as the input writes it. */
  function RenderRanges(rs: seq<Range>): string {
    Join(RenderEach(rs), ',')
  }

  lemma RenderRangeNoComma(r: Range)
    ensures ',' !in RenderRange(r)
  {
    var a, b := ToDecimal(r.left), ToDecimal(r.right);
    var text := RenderRange(r);
    forall j | 0 <= j < |text| ensures text[j] != ',' {
      if j < |a| { assert text[j] == a[j] && IsDigit(a[j]); }
      else if j > |a| { assert text[j] == b[j - |a| - 1] && IsDigit(b[j - |a| - 1]); }
    }
  }

  /** A written list of at least one range parses back to the same list. */
  lemma ParseRenderRanges(rs: seq<Range>)
    requires rs != []
    ensures ParseInput(RenderRanges(rs)) == Ok(rs)
  {
    var pieces := RenderEach(rs);
    forall i | 0 <= i < |pieces| ensures ',' !in pieces[i] {
      RenderRangeNoComma(rs[i]);
    }
    SplitJoin(pieces, ',');
    forall i | 0 <= i < |pieces| ensures ParseRange(pieces[i]) == Ok(rs[i]) {
      ParseRenderRange(rs[i]);
    }
    var r := CollectResults(pieces, ParseRange);
    assert r.Ok?;
    assert r.value == rs;
  }

  // ---------------------------------------------------------------------------
  // Reflected IDs

  /** `usize::ilog10`: the position of the leading decimal digit. */
  function Ilog10(n: nat): nat
    requires n >= 1
  {
    if n < 10 then 0 else 1 + Ilog10(n / 10)
  }

  /** `ilog10(n) + 1` is the number of decimal digits of n. */
  lemma {:induction false} Ilog10Digits(n: nat)
    requires n >= 1
    ensures Ilog10(n) + 1 == |ToDecimal(n)|
  {
    if n >= 10 {
      Ilog10Digits(n / 10);
    }
  }

  /**
   * `Range::number_is_reflected`: an even number of digits whose high half,
   * read as a number, equals the low half. `ilog10` panics on 0.
   */
  function IsReflected(num: nat): bool
    requires num >= 1
  {
    var digits := Ilog10(num) + 1;
    if digits % 2 != 0 then false
    else
      var halfBase := Pow10(digits / 2);
      var left := num / halfBase;
      var right := num - left * halfBase;
      left == right
  }

  /** A digit string that is one block written twice. */
  predicate Mirrored(s: string) {
    |s| % 2 == 0 && s[..|s| / 2] == s[|s| / 2..]
  }

  lemma AllDigitsSlice(s: string, i: nat, j: nat)
    requires AllDigits(s) && i <= j <= |s|
    ensures AllDigits(s[i..j])
  {
    forall k | 0 <= k < j - i ensures IsDigit(s[i..j][k]) {
      assert s[i..j][k] == s[i + k];
    }
  }

  lemma MulAtLeast(d: int, p: int)
    requires d >= 1 && p >= 0
    ensures d * p >= p
  {
  }

  /** Division is determined by any quotient and remainder that fit. */
  lemma DivUnique(n: int, p: int, q: int, r: int)
    requires 0 <= r < p && n == q * p + r
    ensures n / p == q && n % p == r
  {
    var q0, r0 := n / p, n % p;
    assert q0 * p + r0 == q * p + r;
    assert (q - q0) * p == r0 - r;
    if q > q0 {
      MulAtLeast(q - q0, p);
    } else if q < q0 {
      MulAtLeast(q0 - q, p);
    }
  }

  /** Quotient and remainder of `x * p + y` by p, for y below p. */
  lemma DivModShift(x: nat, p: nat, y: nat)
    requires y < p
    ensures (x * p + y) / p == x && (x * p + y) % p == y
  {
    DivUnique(x * p + y, p, x, y);
  }

  /** Digit strings of the same length and value are the same string. */
  lemma {:induction false} ValueOfInjective(a: string, b: string)
    requires AllDigits(a) && AllDigits(b) && |a| == |b|
    requires ValueOf(a) == ValueOf(b)
    ensures a == b
  {
    if a != [] {
      var a', b' := a[..|a| - 1], b[..|b| - 1];
      var da, db := DigitValue(a[|a| - 1]), DigitValue(b[|b| - 1]);
      DivModShift(ValueOf(a'), 10, da);
      DivModShift(ValueOf(b'), 10, db);
      ValueOfInjective(a', b');
      assert a == a' + [a[|a| - 1]] && b == b' + [b[|b| - 1]];
    }
  }

  /**
   * For a positive ID, `number_is_reflected` holds exactly when its decimal
   * digits are one block written twice.
   */
  lemma ReflectedIff(n: nat)
    requires n >= 1
    ensures IsReflected(n) <==> Mirrored(ToDecimal(n))
  {
    var s := ToDecimal(n);
    Ilog10Digits(n);
    if |s| % 2 == 0 {
      var h := |s| / 2;
      var a, b := s[..h], s[h..];
      AllDigitsSlice(s, 0, h);
      AllDigitsSlice(s, h, |s|);
      assert s == a + b;
      ValueOfAppend(a, b);
      ValueOfToDecimal(n);
      ValueOfBound(b);
      DivModShift(ValueOf(a), Pow10(h), ValueOf(b));
      var left := n / Pow10(h);
      assert left == ValueOf(a);
      assert n - left * Pow10(h) == ValueOf(b);
      if ValueOf(a) == ValueOf(b) {
        ValueOfInjective(a, b);
      }
    }
  }

  // ---------------------------------------------------------------------------
  // Repeated IDs

  /** s is its first k characters written over and over, with nothing left over. */
  ghost predicate RepeatsBlock(s: string, k: nat) {
    && 0 < k && |s| % k == 0
    && forall i :: 0 <= i < |s| ==> InBlock(s, k, i)
  }

  /** Character i of s repeats character i mod k of the leading block. */
  ghost predicate InBlock(s: string, k: nat, i: nat)
    requires 0 < k && i < |s|
  {
    s[i] == s[i % k]
  }

  /** The block b written m times. */
  function Repeat(b: string, m: nat): (s: string)
    ensures |s| == m * |b|
  {
    if m == 0 then [] else Repeat(b, m - 1) + b
  }

  /** The digit strings the second part calls invalid: a block written two or more times. */
  ghost predicate RepeatedDigits(s: string) {
    exists b, m :: |b| >= 1 && m >= 2 && s == Repeat(b, m)
  }

  lemma {:induction false} RepeatIndex(b: string, m: nat, i: nat)
    requires |b| >= 1 && i < m * |b|
    ensures Repeat(b, m)[i] == b[i % |b|]
  {
    assert m >= 1;
    if i < (m - 1) * |b| {
      RepeatIndex(b, m - 1, i);
    } else {
      DivModShift(m - 1, |b|, i - (m - 1) * |b|);
    }
  }

  /** A block written m >= 2 times repeats with the block's length. */
  lemma RepeatRepeatsBlock(b: string, m: nat)
    requires |b| >= 1 && m >= 2
    ensures 1 <= |b| < |Repeat(b, m)| && RepeatsBlock(Repeat(b, m), |b|)
  {
    var s, k := Repeat(b, m), |b|;
    MulAtLeast(m, k);
    forall i | 0 <= i < |s| ensures InBlock(s, k, i) {
      var j := i % k;
      DivModShift(0, k, j);
      RepeatIndex(b, m, i);
      RepeatIndex(b, m, j);
    }
    DivModShift(m, k, 0);
  }

  /** A string repeating its leading k characters is that block written |s| / k times. */
  lemma RepeatsBlockRepeat(s: string, k: nat)
    requires 1 <= k < |s| && RepeatsBlock(s, k)
    ensures |s| / k >= 2 && s == Repeat(s[..k], |s| / k)
  {
    var b, m := s[..k], |s| / k;
    DivModShift(m, k, 0);
    assert |s| == m * k;
    forall i | 0 <= i < |s| ensures s[i] == Repeat(b, m)[i] {
      RepeatIndex(b, m, i);
      assert InBlock(s, k, i);
    }
  }

  /** The two descriptions of a repeated block agree. */
  lemma RepeatedDigitsIff(s: string)
    ensures RepeatedDigits(s) <==> exists k :: 1 <= k < |s| && RepeatsBlock(s, k)
  {
    if RepeatedDigits(s) {
      var b, m :| |b| >= 1 && m >= 2 && s == Repeat(b, m);
      RepeatRepeatsBlock(b, m);
    }
    if k :| 1 <= k < |s| && RepeatsBlock(s, k) {
      RepeatsBlockRepeat(s, k);
    }
  }

  /** i % k for an index i inside the block starting at a multiple of k. */
  lemma ModInBlock(start: nat, k: nat, t: nat)
    requires 0 < k && start % k == 0 && t < k
    ensures (start + t) % k == t
  {
    var q := start / k;
    assert start == q * k;
    DivUnique(start + t, k, q, t);
  }

  /** The next block starts at a multiple of k too. */
  lemma NextBlock(start: nat, k: nat)
    requires 0 < k && start % k == 0
    ensures (start + k) % k == 0
  {
    var q := start / k;
    assert start + k == (q + 1) * k;
    DivUnique(start + k, k, q + 1, 0);
  }

  /**
   * A chunk of s that does not equal the first block (a different chunk, or a
   * short last one) rules out that block length.
   */
  lemma ChunkMismatch(s: string, k: nat, start: nat, end: nat)
    requires 0 < k <= start < |s| && start % k == 0
    requires end == if start + k <= |s| then start + k else |s|
    requires s[..k] != s[start..end]
    ensures !RepeatsBlock(s, k)
  {
    if end - start < k {
      ModInBlock(start, k, |s| - start);
    } else if RepeatsBlock(s, k) {
      forall t | 0 <= t < k ensures s[..k][t] == s[start..end][t] {
        ModInBlock(start, k, t);
        assert InBlock(s, k, start + t);
      }
    }
  }

  /**
   * `Range::number_contains_repeated_subsequence`: for each block length below
   * the number of digits, compare the leading block with each following chunk
   * of that length; the first length whose chunks all match says yes.
   */
  method ContainsRepeatedSubsequence(num: nat) returns (found: bool)
    ensures found <==> RepeatedDigits(ToDecimal(num))
  {
    var s := ToDecimal(num);
    RepeatedDigitsIff(s);
    label outer:
    for subSequence := 1 to |s|
      invariant forall k :: 1 <= k < subSequence ==> !RepeatsBlock(s, k)
    {
      var candidate := s[..subSequence];
      var start := subSequence;
      forall i | 0 <= i < start ensures InBlock(s, subSequence, i) {
        DivModShift(0, subSequence, i);
      }
      while start < |s|
        invariant subSequence <= start <= |s| && start % subSequence == 0
        invariant forall i :: 0 <= i < start ==> InBlock(s, subSequence, i)
      {
        var end := if start + subSequence <= |s| then start + subSequence else |s|;
        if candidate != s[start..end] {
          ChunkMismatch(s, subSequence, start, end);
          continue outer;
        }
        forall i | start <= i < end ensures InBlock(s, subSequence, i) {
          ModInBlock(start, subSequence, i - start);
          assert s[i] == s[start..end][i - start];
        }
        NextBlock(start, subSequence);
        start := end;
      }
      assert RepeatsBlock(s, subSequence);
      return true;
    }
    return false;
  }

  /** A reflected ID is also a repeated one: the block of half its length, twice. */
  lemma ReflectedIsRepeated(n: nat)
    requires n >= 1 && IsReflected(n)
    ensures RepeatedDigits(ToDecimal(n))
  {
    ReflectedIff(n);
    MirroredIsRepeated(ToDecimal(n));
  }

  lemma MirroredIsRepeated(s: string)
    requires s != [] && Mirrored(s)
    ensures RepeatedDigits(s)
  {
    var h := |s| / 2;
    assert s == Repeat(s[..h], 2) by {
      assert Repeat(s[..h], 1) == s[..h] by { assert Repeat(s[..h], 0) == []; }
      assert s == s[..h] + s[h..];
    }
  }

  // ---------------------------------------------------------------------------
  // Extraction

  /** No value twice, smallest first. */
  predicate Ascending(xs: seq<nat>) {
    forall i, j :: 0 <= i < j < |xs| ==> xs[i] < xs[j]
  }

  /**
   * `Range::extract_invalid_reflections` on lo..=hi: the IDs of the range
   * filtered by `number_is_reflected`. A range holding 0 makes `ilog10` panic.
   */
  function Reflections(lo: nat, hi: nat): seq<nat>
    requires lo >= 1 || lo > hi
    decreases hi + 1 - lo
  {
    if lo > hi then []
    else (if IsReflected(lo) then [lo] else []) + Reflections(lo + 1, hi)
  }

  /** The filter keeps exactly the reflected IDs of the range, smallest first. */
  lemma {:induction false} ReflectionsExact(lo: nat, hi: nat)
    requires lo >= 1 || lo > hi
    ensures forall x :: x in Reflections(lo, hi) <==> lo <= x <= hi && IsReflected(x)
    ensures Ascending(Reflections(lo, hi))
    ensures forall i :: 0 <= i < |Reflections(lo, hi)| ==> lo <= Reflections(lo, hi)[i]
    decreases hi + 1 - lo
  {
    if lo <= hi {
      ReflectionsExact(lo + 1, hi);
    }
  }

  function ExtractInvalidReflections(r: Range): (xs: seq<nat>)
    requires r.left >= 1 || r.left > r.right
  {
    Reflections(r.left, r.right)
  }

  /**
   * `Range::extract_invalid_repititions`: every ID of the range tested in
   * ascending order; the repeated ones are collected.
   */
  method ExtractInvalidRepetitions(r: Range) returns (xs: seq<nat>)
    ensures forall x :: x in xs <==> r.left <= x <= r.right && RepeatedDigits(ToDecimal(x))
    ensures Ascending(xs)
  {
    xs := [];
    var x := r.left;
    while x <= r.right
      invariant r.left <= x <= r.right + 1 || (x == r.left && r.left > r.right)
      invariant forall y :: y in xs <==> r.left <= y < x && RepeatedDigits(ToDecimal(y))
      invariant Ascending(xs)
      invariant forall i :: 0 <= i < |xs| ==> xs[i] < x
      decreases r.right + 1 - x
    {
      var invalid := ContainsRepeatedSubsequence(x);
      if invalid {
        xs := xs + [x];
      }
      x := x + 1;
    }
  }
}
