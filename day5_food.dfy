/**
 * Day 5: the food database. The input lists inclusive ID ranges, a blank
 * line, then food IDs. A food is fresh when some range includes it (first
 * part); the second part merges the sorted ranges into disjoint ones and adds
 * up their sizes, which is the number of distinct IDs the ranges cover.
 * Source: src/bin/day-5/main.rs.
 */
module FoodDatabase {
  import opened Wrappers
  import opened Text

  /** An inclusive range of IDs; `left > right` parses but includes nothing. */
  datatype Range = Range(left: nat, right: nat)

  function Min(a: nat, b: nat): nat { if a <= b then a else b }
  function Max(a: nat, b: nat): nat { if a <= b then b else a }

  // ---------------------------------------------------------------------------
  // Ranges

  predicate WellFormed(r: Range) { r.left <= r.right }

  predicate AllWellFormed(rs: seq<Range>) {
    forall i :: 0 <= i < |rs| ==> WellFormed(rs[i])
  }

  /** `Range::includes`. */
  predicate Includes(r: Range, el: nat) {
    r.left <= el && r.right >= el
  }

  /** Every ID the range includes, as a set. */
  function Span(r: Range): (s: set<nat>)
    ensures forall x :: x in s <==> Includes(r, x)
    decreases r.right
  {
    if r.left > r.right then {}
    else if r.left == r.right then {r.left}
    else Span(Range(r.left, r.right - 1)) + {r.right}
  }

  /**
   * `Range::size`: the subtraction underflows (a panic) unless the range is
   * well formed.
   */
  function Size(r: Range): (n: nat)
    requires WellFormed(r)
    ensures n == |Span(r)|
  {
    SpanSize(r);
    (r.right - r.left) + 1
  }

  lemma {:induction false} SpanSize(r: Range)
    requires WellFormed(r)
    ensures |Span(r)| == r.right - r.left + 1
    decreases r.right - r.left
  {
    if r.left < r.right {
      var shorter := Range(r.left, r.right - 1);
      SpanSize(shorter);
      assert Span(r) == Span(shorter) + {r.right};
    } else {
      assert Span(r) == {r.left};
    }
  }

  /** `Range::contains`: the bounds of `other` lie within those of `r`. */
  predicate Contains(r: Range, other: Range) {
    r.left <= other.left && r.right >= other.right
  }

  /** For a well-formed `other`, containment is inclusion of the covered IDs. */
  lemma ContainsIff(r: Range, other: Range)
    requires WellFormed(other)
    ensures Contains(r, other) <==> Span(other) <= Span(r)
  {
    if Span(other) <= Span(r) {
      assert Includes(other, other.left) && Includes(other, other.right);
    }
  }

  /** `Range::overlaps`. */
  predicate Overlaps(a: Range, b: Range) {
    Contains(a, b) || Contains(b, a) || Max(a.left, b.left) <= Min(a.right, b.right)
  }

  /**
   * On well-formed ranges the containment tests are subsumed: two ranges
   * overlap exactly when the larger left end is at most the smaller right
   * end, which is exactly when they share an ID.
   */
  lemma OverlapsIff(a: Range, b: Range)
    requires WellFormed(a) && WellFormed(b)
    ensures Overlaps(a, b) <==> Max(a.left, b.left) <= Min(a.right, b.right)
    ensures Overlaps(a, b) <==> exists x :: Includes(a, x) && Includes(b, x)
  {
    if Overlaps(a, b) {
      var x := Max(a.left, b.left);
      assert Includes(a, x) && Includes(b, x);
    }
  }

  /**
   * `Range::combine`: the hull of two overlapping ranges. It covers exactly
   * the IDs of the two, so merging never adds an ID.
   */
  function Combine(a: Range, b: Range): (r: Option<Range>)
    ensures r.Some? <==> Overlaps(a, b)
    ensures r.Some? ==> forall x :: Includes(r.value, x) <==> Includes(a, x) || Includes(b, x)
    ensures r.Some? && WellFormed(a) && WellFormed(b) ==> WellFormed(r.value)
  {
    if Overlaps(a, b) then Some(Range(Min(a.left, b.left), Max(a.right, b.right))) else None
  }

  /** Combining is symmetric. */
  lemma CombineCommutes(a: Range, b: Range)
    ensures Combine(a, b) == Combine(b, a)
  {
  }

  // ---------------------------------------------------------------------------
  // Lists of ranges

  /** `ranges.iter().any(|range| range.includes(el))`. */
  predicate AnyIncludes(rs: seq<Range>, el: nat) {
    rs != [] && (Includes(rs[0], el) || AnyIncludes(rs[1..], el))
  }

  lemma {:induction false} AnyIncludesIff(rs: seq<Range>, el: nat)
    ensures AnyIncludes(rs, el) <==> exists i :: 0 <= i < |rs| && Includes(rs[i], el)
  {
    if rs != [] {
      AnyIncludesIff(rs[1..], el);
      if exists i :: 0 <= i < |rs| && Includes(rs[i], el) {
        var i :| 0 <= i < |rs| && Includes(rs[i], el);
        if i > 0 { assert Includes(rs[1..][i - 1], el); }
      }
    }
  }

  lemma {:induction false} AnyIncludesAppend(a: seq<Range>, b: seq<Range>, el: nat)
    ensures AnyIncludes(a + b, el) <==> AnyIncludes(a, el) || AnyIncludes(b, el)
  {
    if a != [] {
      assert (a + b)[1..] == a[1..] + b;
      AnyIncludesAppend(a[1..], b, el);
    } else {
      assert a + b == b;
    }
  }

  /** The IDs some range includes. */
  function CoveredSet(rs: seq<Range>): (s: set<nat>)
    ensures forall x :: x in s <==> AnyIncludes(rs, x)
  {
    if rs == [] then {} else Span(rs[0]) + CoveredSet(rs[1..])
  }

  /** The order `ranges.sort()` establishes: by left end only. */
  predicate SortedByLeft(rs: seq<Range>) {
    forall p, q :: 0 <= p < q < |rs| ==> rs[p].left <= rs[q].left
  }

  /** Each range ends before the next one starts (adjacent ranges allowed). */
  predicate Separated(rs: seq<Range>) {
    forall p, q :: 0 <= p < q < |rs| ==> rs[p].right < rs[q].left
  }

  /** Separated well-formed ranges are strictly increasing in both ends. */
  lemma SeparatedIsSorted(rs: seq<Range>)
    requires AllWellFormed(rs) && Separated(rs)
    ensures forall p, q :: 0 <= p < q < |rs| ==> rs[p].left < rs[q].left && rs[p].right < rs[q].right
  {
    forall p, q | 0 <= p < q < |rs|
      ensures rs[p].left < rs[q].left && rs[p].right < rs[q].right
    {
      assert WellFormed(rs[p]) && WellFormed(rs[q]);
    }
  }

  /** `self.ranges.iter().map(Range::size).sum()`. */
  function SumSizes(rs: seq<Range>): nat
    requires AllWellFormed(rs)
  {
    if rs == [] then 0 else Size(rs[0]) + SumSizes(rs[1..])
  }

  /** On separated ranges the sizes add up to the number of covered IDs. */
  lemma {:induction false} SumSizesCounts(rs: seq<Range>)
    requires AllWellFormed(rs)
    ensures Separated(rs) ==> SumSizes(rs) == |CoveredSet(rs)|
  {
    if rs != [] && Separated(rs) {
      var rest := rs[1..];
      assert Separated(rest) by {
        forall p, q | 0 <= p < q < |rest| ensures rest[p].right < rest[q].left {
          assert rest[p] == rs[p + 1] && rest[q] == rs[q + 1];
        }
      }
      SumSizesCounts(rest);
      assert Span(rs[0]) !! CoveredSet(rest) by {
        forall x | x in CoveredSet(rest) ensures x !in Span(rs[0]) {
          AnyIncludesIff(rest, x);
          var i :| 0 <= i < |rest| && Includes(rest[i], x);
          assert rs[i + 1] == rest[i];
        }
      }
    }
  }

  /** Lists covering the same IDs have the same covered set. */
  lemma SameCoverage(a: seq<Range>, b: seq<Range>)
    requires forall x :: AnyIncludes(a, x) <==> AnyIncludes(b, x)
    ensures CoveredSet(a) == CoveredSet(b)
  {
  }

  // ---------------------------------------------------------------------------
  // Sorting and merging

  /**
   * `ranges.sort()` with the ordering `Ord for Range`, which compares left
   * ends only: an insertion sort in place.
   */
  method SortByLeft(a: array<Range>)
    modifies a
    ensures SortedByLeft(a[..])
    ensures multiset(a[..]) == multiset(old(a[..]))
  {
    var i := 0;
    while i < a.Length
      invariant 0 <= i <= a.Length
      invariant SortedByLeft(a[..i])
      invariant multiset(a[..]) == multiset(old(a[..]))
    {
      SinkLast(a, i);
      i := i + 1;
    }
    assert a[..i] == a[..];
  }

  /**
   * While `a[i]` sinks, it stands at `j`: the other elements of `a[..i + 1]`
   * are in order, and everything after `j` has a strictly larger left end.
   */
  predicate Sinking(s: seq<Range>, i: nat, j: nat)
    requires j <= i < |s|
  {
    && (forall p, q :: 0 <= p < q <= i && p != j && q != j ==> s[p].left <= s[q].left)
    && (forall q :: j < q <= i ==> s[j].left < s[q].left)
    && (forall p, q :: 0 <= p < j < q <= i ==> s[p].left <= s[q].left)
  }

  function Swap(s: seq<Range>, x: nat, y: nat): (t: seq<Range>)
    requires x < |s| && y < |s|
    ensures |t| == |s| && multiset(t) == multiset(s)
  {
    s[x := s[y]][y := s[x]]
  }

  lemma SinkStart(s: seq<Range>, i: nat)
    requires i < |s| && SortedByLeft(s[..i])
    ensures Sinking(s, i, i)
  {
    forall p, q | 0 <= p < q <= i && p != i && q != i ensures s[p].left <= s[q].left {
      assert s[p] == s[..i][p] && s[q] == s[..i][q];
    }
  }

  lemma SinkStep(s: seq<Range>, i: nat, j: nat)
    requires 0 < j <= i < |s| && Sinking(s, i, j) && s[j - 1].left > s[j].left
    ensures Sinking(Swap(s, j - 1, j), i, j - 1)
  {
  }

  lemma SinkDone(s: seq<Range>, i: nat, j: nat)
    requires j <= i < |s| && Sinking(s, i, j) && (j == 0 || s[j - 1].left <= s[j].left)
    ensures SortedByLeft(s[..i + 1])
  {
  }

  /**
   * One step of the insertion sort: move `a[i]` down past every strictly
   * larger left end, so equal left ends keep their order.
   */
  method SinkLast(a: array<Range>, i: nat)
    requires i < a.Length && SortedByLeft(a[..i])
    modifies a
    ensures SortedByLeft(a[..i + 1])
    ensures multiset(a[..]) == multiset(old(a[..]))
  {
    SinkStart(a[..], i);
    var j := i;
    while j > 0 && a[j - 1].left > a[j].left
      invariant 0 <= j <= i
      invariant multiset(a[..]) == multiset(old(a[..]))
      invariant Sinking(a[..], i, j)
    {
      SinkStep(a[..], i, j);
      ghost var swapped := Swap(a[..], j - 1, j);
      a[j - 1], a[j] := a[j], a[j - 1];
      assert a[..] == swapped;
      j := j - 1;
    }
    SinkDone(a[..], i, j);
  }

  /**
   * The merge loop of `compact_ranges`: walk the ranges keeping a current
   * one, combine the next into it when they overlap, otherwise emit the
   * current and start over from the next. Whatever the order, the result
   * covers the same IDs with no more ranges; on ranges sorted by left end it
   * is separated, so no two of its ranges overlap.
   */
  method Compact(rs: seq<Range>) returns (next: seq<Range>)
    ensures |next| <= |rs|
    ensures forall x :: AnyIncludes(next, x) <==> AnyIncludes(rs, x)
    ensures AllWellFormed(rs) ==> AllWellFormed(next)
    ensures AllWellFormed(rs) && SortedByLeft(rs) ==> Separated(next)
  {
    ghost var ordered := AllWellFormed(rs) && SortedByLeft(rs);
    next := [];
    var current: Option<Range> := None;
    var i := 0;
    while i < |rs|
      invariant 0 <= i <= |rs|
      invariant |next| + (if current.Some? then 1 else 0) <= i
      invariant current.None? ==> i == 0
      invariant forall x :: (AnyIncludes(next, x) || (current.Some? && Includes(current.value, x)))
                            <==> AnyIncludes(rs[..i], x)
      invariant AllWellFormed(rs) ==> AllWellFormed(next) && (current.Some? ==> WellFormed(current.value))
      invariant ordered ==> Separated(next)
      invariant ordered && current.Some? ==> forall p :: 0 <= p < |next| ==> next[p].right < current.value.left
      invariant ordered && current.Some? ==> forall k :: i <= k < |rs| ==> current.value.left <= rs[k].left
    {
      var r := rs[i];
      assert rs[..i + 1] == rs[..i] + [r];
      forall x ensures AnyIncludes(rs[..i + 1], x) <==> AnyIncludes(rs[..i], x) || Includes(r, x) {
        AnyIncludesAppend(rs[..i], [r], x);
      }
      match current {
        case None =>
          current := Some(r);
        case Some(c) =>
          match Combine(c, r) {
            case Some(combined) =>
              current := Some(combined);
            case None =>
              if ordered {
                assert WellFormed(c) && WellFormed(r);
                OverlapsIff(c, r);
              }
              forall x ensures AnyIncludes(next + [c], x) <==> AnyIncludes(next, x) || Includes(c, x) {
                AnyIncludesAppend(next, [c], x);
              }
              next := next + [c];
              current := Some(r);
          }
      }
      i := i + 1;
    }
    assert rs[..i] == rs;
    if current.Some? {
      forall x ensures AnyIncludes(next + [current.value], x) <==> AnyIncludes(next, x) || Includes(current.value, x) {
        AnyIncludesAppend(next, [current.value], x);
      }
      next := next + [current.value];
    }
  }

  // ---------------------------------------------------------------------------
  // Fresh foods

  /** The foods, in order and with repeats, that some range includes. */
  function FreshFoods(rs: seq<Range>, foods: seq<nat>): (kept: seq<nat>)
    ensures |kept| <= |foods|
    ensures forall f :: f in kept <==> f in foods && AnyIncludes(rs, f)
  {
    if foods == [] then []
    else
      var last := foods[|foods| - 1];
      var earlier := foods[..|foods| - 1];
      assert foods == earlier + [last];
      FreshFoods(rs, earlier) + (if AnyIncludes(rs, last) then [last] else [])
  }

  /** The positions of `foods` holding a fresh food. */
  function FreshPositions(rs: seq<Range>, foods: seq<nat>): set<nat> {
    set i: nat | i < |foods| && AnyIncludes(rs, foods[i])
  }

  lemma FreshPositionsStep(rs: seq<Range>, foods: seq<nat>)
    requires foods != []
    ensures var n := |foods| - 1;
      FreshPositions(rs, foods)
      == FreshPositions(rs, foods[..n]) + (if AnyIncludes(rs, foods[n]) then {n} else {})
  {
    var n := |foods| - 1;
    forall i | 0 <= i < n ensures foods[..n][i] == foods[i] { }
  }

  /** The number of fresh foods is the number of positions holding one. */
  lemma {:induction false} FreshFoodsCount(rs: seq<Range>, foods: seq<nat>)
    ensures |FreshFoods(rs, foods)| == |FreshPositions(rs, foods)|
  {
    if foods != [] {
      var n := |foods| - 1;
      FreshFoodsCount(rs, foods[..n]);
      FreshPositionsStep(rs, foods);
      assert n !in FreshPositions(rs, foods[..n]);
    }
  }

  /** Only the covered IDs matter: ranges covering the same IDs agree. */
  lemma {:induction false} FreshFoodsCoverage(a: seq<Range>, b: seq<Range>, foods: seq<nat>)
    requires forall x :: AnyIncludes(a, x) <==> AnyIncludes(b, x)
    ensures FreshFoods(a, foods) == FreshFoods(b, foods)
  {
    if foods != [] {
      FreshFoodsCoverage(a, b, foods[..|foods| - 1]);
    }
  }

  // ---------------------------------------------------------------------------
  // Parsing

  /** `Range::try_from`: split at the first '-' and parse both sides. */
  function ParseRange(value: string): (r: Result<Range, string>)
    ensures r == Err("failed to parse range") <==> '-' !in value
  {
    SplitOnceAtFirst(value, '-');
    match SplitOnce(value, "-")
    case None => Err("failed to parse range")
    case Some((left, right)) =>
      match ParseNat(left)
      case None => Err("failed to parse left value in range " + left)
      case Some(l) =>
        match ParseNat(right)
        case None => Err("failed to parse right value in range " + right)
        case Some(r) => Ok(Range(l, r))
  }

  /**
   * The cut is at the first '-': the range parses exactly when the text on
   * either side of it does, and each failure names the side that failed.
   */
  lemma ParseRangeAtFirstDash(value: string)
    ensures var i := FirstIndexOf(value, '-');
      ParseRange(value).Ok? <==> i < |value| && ParseNat(value[..i]).Some? && ParseNat(value[i + 1..]).Some?
    ensures var i := FirstIndexOf(value, '-');
      i < |value| && ParseNat(value[..i]).Some? && ParseNat(value[i + 1..]).Some? ==>
        ParseRange(value) == Ok(Range(ParseNat(value[..i]).value, ParseNat(value[i + 1..]).value))
    ensures var i := FirstIndexOf(value, '-');
      i < |value| && ParseNat(value[..i]).None? ==>
        ParseRange(value) == Err("failed to parse left value in range " + value[..i])
    ensures var i := FirstIndexOf(value, '-');
      i < |value| && ParseNat(value[..i]).Some? && ParseNat(value[i + 1..]).None? ==>
        ParseRange(value) == Err("failed to parse right value in range " + value[i + 1..])
  {
    SplitOnceAtFirst(value, '-');
  }

  /** The text of a range as the input writes it. */
  function RenderRange(r: Range): string {
    ToDecimal(r.left) + "-" + ToDecimal(r.right)
  }

  /** A written range parses back to itself. */
  lemma ParseRenderRange(r: Range)
    ensures ParseRange(RenderRange(r)) == Ok(r)
  {
    var a, b := ToDecimal(r.left), ToDecimal(r.right);
    var value := RenderRange(r);
    assert OccursAt(value, "-", |a|) by { assert value[|a|..|a| + 1] == "-"; }
    forall j | 0 <= j < |a| ensures !OccursAt(value, "-", j) {
      assert value[j..j + 1][0] == value[j] == a[j] && IsDigit(a[j]);
    }
    assert Find(value, "-", 0) == Some(|a|);
    assert value[..|a|] == a && value[|a| + 1..] == b;
    ParseToDecimal(r.left);
    ParseToDecimal(r.right);
  }

  /** `x.parse::<usize>()` on a food line, with the source's error message. */
  function ParseFood(line: string): (r: Result<nat, string>)
    ensures r.Ok? <==> ParseNat(line).Some?
    ensures r.Ok? ==> r.value == ParseNat(line).value
    ensures r.Err? ==> r.error == "failed to parse a food into a number"
  {
    match ParseNat(line)
    case None => Err("failed to parse a food into a number")
    case Some(n) => Ok(n)
  }

  /**
   * The parsing half of `FoodDb::try_from`: split at the first blank line,
   * then every line before it is a range and every line after it a food.
   * The ranges are returned as written; sorting them is `SortByLeft`.
   */
  function ParseFoodDb(value: string): (r: Result<(seq<Range>, seq<nat>), string>)
    ensures r.Ok? ==> exists raw :: (SplitOnce(value, "\n\n") == Some(raw)
      && CollectResults(Lines(raw.0), ParseRange) == Ok(r.value.0)
      && CollectResults(Lines(raw.1), ParseFood) == Ok(r.value.1))
    ensures SplitOnce(value, "\n\n").None? ==> r == Err("Failed to split food db")
    ensures r.Ok? <==>
      && SplitOnce(value, "\n\n").Some?
      && CollectResults(Lines(SplitOnce(value, "\n\n").value.0), ParseRange).Ok?
      && CollectResults(Lines(SplitOnce(value, "\n\n").value.1), ParseFood).Ok?
    ensures SplitOnce(value, "\n\n").Some? ==>
      var ranges := CollectResults(Lines(SplitOnce(value, "\n\n").value.0), ParseRange);
      ranges.Err? ==> r == Err(ranges.error)
    ensures SplitOnce(value, "\n\n").Some? ==>
      var ranges := CollectResults(Lines(SplitOnce(value, "\n\n").value.0), ParseRange);
      var foods := CollectResults(Lines(SplitOnce(value, "\n\n").value.1), ParseFood);
      ranges.Ok? && foods.Err? ==> r == Err(foods.error)
  {
    match SplitOnce(value, "\n\n")
    case None => Err("Failed to split food db")
    case Some((rawRanges, rawFoods)) =>
      match CollectResults(Lines(rawRanges), ParseRange)
      case Err(e) => Err(e)
      case Ok(ranges) =>
        match CollectResults(Lines(rawFoods), ParseFood)
        case Err(e) => Err(e)
        case Ok(foods) => Ok((ranges, foods))
  }

  /**
   * A food line that is not a number, after range lines that all parse, makes
   * the whole text fail with the food message, whichever line it is.
   */
  lemma BadFoodRejected(value: string, i: nat)
    requires SplitOnce(value, "\n\n").Some?
    requires CollectResults(Lines(SplitOnce(value, "\n\n").value.0), ParseRange).Ok?
    requires i < |Lines(SplitOnce(value, "\n\n").value.1)|
    requires ParseNat(Lines(SplitOnce(value, "\n\n").value.1)[i]).None?
    ensures ParseFoodDb(value) == Err("failed to parse a food into a number")
  {
    var foodLines := Lines(SplitOnce(value, "\n\n").value.1);
    var foods := CollectResults(foodLines, ParseFood);
    assert !ParseFood(foodLines[i]).Ok?;
    assert foods.Err?;
    var k :| 0 <= k < |foodLines| && ParseFood(foodLines[k]) == Err(foods.error);
  }

  // ---------------------------------------------------------------------------
  // Writing a database back as text

  /** A line with at least one character and no line-break characters. */
  predicate PlainLine(line: string) {
    line != [] && forall k :: 0 <= k < |line| ==> line[k] != '\n' && line[k] != '\r'
  }

  /** Every '\n' of the text has a character other than '\n' on both sides. */
  predicate NoBlankLine(t: string) {
    forall j :: 0 <= j < |t| && t[j] == '\n' ==> 0 < j && j + 1 < |t| && t[j - 1] != '\n' && t[j + 1] != '\n'
  }

  lemma {:induction false} JoinPlainLines(ls: seq<string>)
    requires forall i :: 0 <= i < |ls| ==> PlainLine(ls[i])
    ensures NoBlankLine(JoinLines(ls))
  {
    if |ls| > 1 {
      var head, rest := ls[0], JoinLines(ls[1..]);
      JoinPlainLines(ls[1..]);
      assert PlainLine(ls[1]);
      assert rest[0] == ls[1][0] by {
        if |ls[1..]| > 1 {
          assert rest == ls[1..][0] + ['\n'] + JoinLines(ls[1..][1..]);
        }
      }
      var t := head + ['\n'] + rest;
      assert JoinLines(ls) == t;
      forall j | 0 <= j < |t| && t[j] == '\n'
        ensures 0 < j && j + 1 < |t| && t[j - 1] != '\n' && t[j + 1] != '\n'
      {
        if j > |head| {
          assert rest[j - |head| - 1] == '\n';
        }
      }
    }
  }

  function RangeLines(rs: seq<Range>): (lines: seq<string>)
    ensures |lines| == |rs| && forall i :: 0 <= i < |rs| ==> lines[i] == RenderRange(rs[i])
  {
    if rs == [] then [] else [RenderRange(rs[0])] + RangeLines(rs[1..])
  }

  function FoodLines(foods: seq<nat>): (lines: seq<string>)
    ensures |lines| == |foods| && forall i :: 0 <= i < |foods| ==> lines[i] == ToDecimal(foods[i])
  {
    if foods == [] then [] else [ToDecimal(foods[0])] + FoodLines(foods[1..])
  }

  /** The text of a database: one range per line, a blank line, one food per line. */
  function RenderFoodDb(rs: seq<Range>, foods: seq<nat>): string {
    JoinLines(RangeLines(rs)) + "\n\n" + JoinLines(FoodLines(foods))
  }

  lemma DecimalIsPlain(n: nat)
    ensures PlainLine(ToDecimal(n))
  {
    var t := ToDecimal(n);
    forall k | 0 <= k < |t| ensures t[k] != '\n' && t[k] != '\r' {
      assert IsDigit(t[k]);
    }
  }

  lemma RangeIsPlain(r: Range)
    ensures PlainLine(RenderRange(r))
  {
    var a, b := ToDecimal(r.left), ToDecimal(r.right);
    var t := RenderRange(r);
    forall k | 0 <= k < |t| ensures t[k] != '\n' && t[k] != '\r' {
      if k < |a| { assert t[k] == a[k] && IsDigit(a[k]); }
      else if k > |a| { assert t[k] == b[k - |a| - 1] && IsDigit(b[k - |a| - 1]); }
    }
  }

  /** Plain lines come back from `lines()` unchanged. */
  lemma PlainLinesRoundTrip(ls: seq<string>)
    requires forall i :: 0 <= i < |ls| ==> PlainLine(ls[i])
    ensures Lines(JoinLines(ls)) == ls
  {
    forall i | 0 <= i < |ls| ensures '\n' !in ls[i] {
      assert PlainLine(ls[i]);
    }
    forall i | 0 <= i < |ls| - 1 ensures ls[i] == [] || ls[i][|ls[i]| - 1] != '\r' {
      assert PlainLine(ls[i]);
    }
    LinesJoinLines(ls);
  }

  /** The first blank line of a text is the one after its non-blank head. */
  lemma SplitAtBlankLine(a: string, b: string)
    requires NoBlankLine(a)
    ensures SplitOnce(a + "\n\n" + b, "\n\n") == Some((a, b))
  {
    var value := a + "\n\n" + b;
    assert OccursAt(value, "\n\n", |a|) by { assert value[|a|..|a| + 2] == "\n\n"; }
    forall j | 0 <= j < |a| ensures !OccursAt(value, "\n\n", j) {
      assert value[j..j + 2][0] == value[j] == a[j];
      if a[j] == '\n' {
        assert value[j..j + 2][1] == value[j + 1] == a[j + 1];
      }
    }
    assert Find(value, "\n\n", 0) == Some(|a|);
    assert value[..|a|] == a && value[|a| + 2..] == b;
  }

  lemma ParseRangeLines(rs: seq<Range>)
    ensures Lines(JoinLines(RangeLines(rs))) == RangeLines(rs)
    ensures CollectResults(RangeLines(rs), ParseRange) == Ok(rs)
    ensures NoBlankLine(JoinLines(RangeLines(rs)))
  {
    var lines := RangeLines(rs);
    forall i | 0 <= i < |rs| ensures PlainLine(lines[i]) {
      RangeIsPlain(rs[i]);
    }
    PlainLinesRoundTrip(lines);
    JoinPlainLines(lines);
    forall i | 0 <= i < |rs| ensures ParseRange(lines[i]) == Ok(rs[i]) {
      ParseRenderRange(rs[i]);
    }
    var r := CollectResults(lines, ParseRange);
    assert r.Ok?;
    assert r.value == rs;
  }

  lemma ParseFoodLines(foods: seq<nat>)
    ensures Lines(JoinLines(FoodLines(foods))) == FoodLines(foods)
    ensures CollectResults(FoodLines(foods), ParseFood) == Ok(foods)
  {
    var lines := FoodLines(foods);
    forall i | 0 <= i < |foods| ensures PlainLine(lines[i]) {
      DecimalIsPlain(foods[i]);
    }
    PlainLinesRoundTrip(lines);
    forall i | 0 <= i < |foods| ensures ParseFood(lines[i]) == Ok(foods[i]) {
      ParseToDecimal(foods[i]);
    }
    var r := CollectResults(lines, ParseFood);
    assert r.Ok?;
    assert r.value == foods;
  }

  /** A written database parses back to the same ranges, in input order, and foods. */
  lemma ParseRenderFoodDb(rs: seq<Range>, foods: seq<nat>)
    ensures ParseFoodDb(RenderFoodDb(rs, foods)) == Ok((rs, foods))
  {
    ParseRangeLines(rs);
    ParseFoodLines(foods);
    SplitAtBlankLine(JoinLines(RangeLines(rs)), JoinLines(FoodLines(foods)));
  }

  /** Reordering a list of ranges changes neither well-formedness nor coverage. */
  lemma PermutedRanges(a: seq<Range>, b: seq<Range>)
    requires multiset(a) == multiset(b)
    ensures AllWellFormed(a) ==> AllWellFormed(b)
    ensures forall x :: AnyIncludes(a, x) <==> AnyIncludes(b, x)
  {
    forall i | 0 <= i < |b| ensures b[i] in a {
      assert b[i] in multiset(b);
    }
    forall i | 0 <= i < |a| ensures a[i] in b {
      assert a[i] in multiset(a);
    }
    forall x ensures AnyIncludes(a, x) <==> AnyIncludes(b, x) {
      AnyIncludesIff(a, x);
      AnyIncludesIff(b, x);
      if AnyIncludes(a, x) {
        var i :| 0 <= i < |a| && Includes(a[i], x);
        var k :| 0 <= k < |b| && b[k] == a[i];
        assert Includes(b[k], x);
      }
      if AnyIncludes(b, x) {
        var i :| 0 <= i < |b| && Includes(b[i], x);
        var k :| 0 <= k < |a| && a[k] == b[i];
        assert Includes(a[k], x);
      }
    }
  }

  // ---------------------------------------------------------------------------
  // The database

  /** `FoodDb`: the ranges (sorted by `try_from`) and the food IDs. */
  class FoodDb {
    var ranges: seq<Range>
    var foods: seq<nat>

    constructor (ranges: seq<Range>, foods: seq<nat>)
      ensures this.ranges == ranges && this.foods == foods
    {
      this.ranges := ranges;
      this.foods := foods;
    }

    /**
     * `FoodDb::try_from`: parse, then sort the ranges by left end. The
     * errors are those of `ParseFoodDb`; on success the ranges are the parsed
     * ones reordered, and sorted.
     */
    static method TryFrom(value: string) returns (r: Result<FoodDb, string>)
      ensures ParseFoodDb(value).Err? ==> r == Err(ParseFoodDb(value).error)
      ensures ParseFoodDb(value).Ok? ==> r.Ok? && fresh(r.value)
      ensures r.Ok? ==> (SortedByLeft(r.value.ranges)
        && multiset(r.value.ranges) == multiset(ParseFoodDb(value).value.0)
        && r.value.foods == ParseFoodDb(value).value.1)
    {
      match ParseFoodDb(value)
      case Err(e) =>
        r := Err(e);
      case Ok((parsed, foods)) =>
        var a := new Range[|parsed|];
        forall i | 0 <= i < |parsed| {
          a[i] := parsed[i];
        }
        assert a[..] == parsed;
        SortByLeft(a);
        var db := new FoodDb(a[..], foods);
        r := Ok(db);
    }

    /** `count_fresh_foods`: how many listed foods, with repeats, some range includes. */
    function CountFreshFoods(): (n: nat)
      reads this
      ensures n == |FreshPositions(ranges, foods)|
      ensures n <= |foods|
    {
      FreshFoodsCount(ranges, foods);
      |FreshFoods(ranges, foods)|
    }

    /**
     * `compact_ranges`: replace the ranges by their merge. The covered IDs
     * and the foods stay the same; on sorted well-formed ranges the new ones
     * are separated and their sizes add up to the number of covered IDs.
     */
    method CompactRanges()
      modifies this
      ensures foods == old(foods)
      ensures |ranges| <= |old(ranges)|
      ensures forall x :: AnyIncludes(ranges, x) <==> AnyIncludes(old(ranges), x)
      ensures AllWellFormed(old(ranges)) ==> AllWellFormed(ranges)
      ensures AllWellFormed(old(ranges)) && SortedByLeft(old(ranges)) ==>
        (Separated(ranges) && SumSizes(ranges) == |CoveredSet(old(ranges))|)
    {
      ghost var before := ranges;
      ranges := Compact(ranges);
      if AllWellFormed(before) && SortedByLeft(before) {
        SumSizesCounts(ranges);
        SameCoverage(ranges, before);
      }
    }

    /**
     * `count_possible_fresh_ingredients`: the sum of the range sizes. Once
     * the ranges are separated it is the number of distinct covered IDs.
     */
    function CountPossibleFreshIngredients(): (n: nat)
      reads this
      requires AllWellFormed(ranges)
      ensures Separated(ranges) ==> n == |CoveredSet(ranges)|
    {
      SumSizesCounts(ranges);
      SumSizes(ranges)
    }
  }
}
