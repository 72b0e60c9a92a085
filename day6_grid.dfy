/**
 * Day 6, second part: the worksheet read as a grid of characters, the way
 * cephalopods write. Every column of digits is one number, read top to
 * bottom; a column that is blank from top to bottom separates two problems;
 * the operator of a problem sits in the bottom row under one of its
 * columns; and the numbers of a problem are taken right to left.
 * Source: src/bin/day-6/main.rs.
 */
module CephalopodGrid {
  import opened Wrappers
  import opened Text
  import opened Worksheet

  /** `Grid`: the lines of the worksheet, every one padded to the same width. */
  datatype Grid = Grid(rows: seq<seq<char>>)

  // ---------------------------------------------------------------------------
  // Building the grid

  function Spaces(n: nat): (s: string)
    ensures |s| == n
    ensures forall i :: 0 <= i < n ==> s[i] == ' '
  {
    if n == 0 then [] else Spaces(n - 1) + " "
  }

  /** `lines.iter().map(|l| l.len()).max().unwrap_or(0)`. */
  function MaxWidth(lines: seq<string>): (w: nat)
    ensures forall i :: 0 <= i < |lines| ==> |lines[i]| <= w
    ensures lines == [] ==> w == 0
    ensures lines != [] ==> exists i :: 0 <= i < |lines| && |lines[i]| == w
  {
    if lines == [] then 0
    else
      var rest := MaxWidth(lines[1..]);
      assert forall i :: 1 <= i < |lines| ==> lines[i] == lines[1..][i - 1];
      if |lines[0]| >= rest then |lines[0]| else rest
  }

  /**
   * A line padded with spaces on the right up to `width`: it keeps the line
   * as its prefix, and a line already that wide is left alone.
   */
  function Padded(line: string, width: nat): (r: string)
    ensures |r| == if |line| >= width then |line| else width
    ensures r[..|line|] == line
    ensures forall i :: |line| <= i < |r| ==> r[i] == ' '
  {
    if |line| >= width then line else line + Spaces(width - |line|)
  }

  predicate Rectangular(g: Grid) {
    forall r :: 0 <= r < |g.rows| ==> |g.rows[r]| == |g.rows[0]|
  }

  /** The padding loop of `Grid::from`: push spaces until the line is `width` wide. */
  method PadLine(line: string, width: nat) returns (chars: string)
    ensures chars == Padded(line, width)
  {
    chars := line;
    while |chars| < width
      invariant |line| <= |chars| && chars == line + Spaces(|chars| - |line|)
      invariant |chars| <= width || chars == line
      decreases width - |chars|
    {
      chars := chars + [' '];
    }
    if |line| >= width {
      assert chars == line;
    }
  }

  /**
   * `Grid::from`: one row per line of the text, each padded with spaces to
   * the width of the widest line, so that all rows have that width.
   */
  method GridFrom(value: string) returns (g: Grid)
    ensures |g.rows| == |Lines(value)|
    ensures forall i :: 0 <= i < |g.rows| ==> g.rows[i] == Padded(Lines(value)[i], MaxWidth(Lines(value)))
    ensures Rectangular(g)
    ensures g.rows != [] ==> |g.rows[0]| == MaxWidth(Lines(value))
  {
    var lines := Lines(value);
    var maxWidth := MaxWidth(lines);
    var inner: seq<seq<char>> := [];
    for i := 0 to |lines|
      invariant |inner| == i
      invariant forall k :: 0 <= k < i ==> inner[k] == Padded(lines[k], maxWidth)
    {
      var chars := PadLine(lines[i], maxWidth);
      inner := inner + [chars];
    }
    PaddedRectangular(lines, inner);
    g := Grid(inner);
  }

  /** Lines padded to the widest line's width all have that width. */
  lemma PaddedRectangular(lines: seq<string>, rows: seq<seq<char>>)
    requires |rows| == |lines|
    requires forall i :: 0 <= i < |rows| ==> rows[i] == Padded(lines[i], MaxWidth(lines))
    ensures forall i :: 0 <= i < |rows| ==> |rows[i]| == MaxWidth(lines)
    ensures Rectangular(Grid(rows))
  {
    forall i | 0 <= i < |rows|
      ensures |rows[i]| == MaxWidth(lines)
    {
      assert |lines[i]| <= MaxWidth(lines);
    }
  }

  // ---------------------------------------------------------------------------
  // Columns of the grid

  /** The number of columns: the width of the first row. */
  function Width(g: Grid): nat {
    if g.rows == [] then 0 else |g.rows[0]|
  }

  /** Every row reaches at least as far as the first, so every column can be read. */
  predicate Indexable(g: Grid) {
    forall r :: 0 <= r < |g.rows| ==> |g.rows[r]| >= Width(g)
  }

  /** Every data row (all rows but the operator row) has a space in column `c`. */
  predicate IsSeparator(g: Grid, c: nat)
    requires Indexable(g) && c < Width(g)
  {
    forall r :: 0 <= r < |g.rows| - 1 ==> g.rows[r][c] == ' '
  }

  /** The operator-row character of column `c`. */
  function OperatorChar(g: Grid, c: nat): char
    requires Indexable(g) && c < Width(g)
  {
    g.rows[|g.rows| - 1][c]
  }

  /** A column that separates two problems: blank in every row, the operator row included. */
  predicate Blank(g: Grid, c: nat)
    requires Indexable(g) && c < Width(g)
  {
    IsSeparator(g, c) && OperatorChar(g, c) == ' '
  }

  /** The operator written under column `c`, if any. */
  function OperatorAt(g: Grid, c: nat): (op: Option<Operator>)
    requires Indexable(g) && c < Width(g)
    ensures op.Some? <==> OperatorChar(g, c) in {'*', '+'}
    ensures op.Some? ==> Symbol(op.value) == [OperatorChar(g, c)]
  {
    var ch := OperatorChar(g, c);
    if ch == '*' then Some(Mult) else if ch == '+' then Some(Plus) else None
  }

  /** The digits of column `c` in the data rows above row `n`, top to bottom. */
  function DigitsAbove(g: Grid, c: nat, n: nat): (ds: string)
    requires Indexable(g) && c < Width(g) && n < |g.rows|
    ensures AllDigits(ds) && |ds| <= n
  {
    if n == 0 then []
    else
      var ch := g.rows[n - 1][c];
      DigitsAbove(g, c, n - 1) + (if IsDigit(ch) then [ch] else [])
  }

  /** The number written down column `c`: its digits read as one number, 0 when there are none. */
  function ColumnNumber(g: Grid, c: nat): nat
    requires Indexable(g) && c < Width(g)
  {
    match ParseNat(DigitsAbove(g, c, |g.rows| - 1))
    case None => 0
    case Some(n) => n
  }

  /** A column without digits reads as 0, any other as the value of its digits. */
  lemma ColumnNumberValue(g: Grid, c: nat)
    requires Indexable(g) && c < Width(g)
    ensures DigitsAbove(g, c, |g.rows| - 1) == [] ==> ColumnNumber(g, c) == 0
    ensures DigitsAbove(g, c, |g.rows| - 1) != [] ==> ColumnNumber(g, c) == ValueOf(DigitsAbove(g, c, |g.rows| - 1))
  {
  }

  predicate InGrid(g: Grid, columns: seq<nat>) {
    forall k :: 0 <= k < |columns| ==> columns[k] < Width(g)
  }

  /**
   * The numbers of a run of columns: taken right to left, and only those
   * that are not zero.
   */
  function Numbers(g: Grid, columns: seq<nat>): (ns: seq<nat>)
    requires Indexable(g) && InGrid(g, columns)
    ensures |ns| <= |columns|
    ensures forall k :: 0 <= k < |ns| ==> ns[k] > 0
  {
    if columns == [] then []
    else
      Numbers(g, columns[1..]) + NonZero(ColumnNumber(g, columns[0]))
  }

  /** `filter(|&n| n > 0)` on one number. */
  function NonZero(n: nat): (r: seq<nat>)
    ensures |r| <= 1 && (r != [] ==> r[0] == n && n > 0)
  {
    if n > 0 then [n] else []
  }

  /** Reading right to left: the numbers of two runs joined come out in the opposite order. */
  lemma {:induction false} NumbersAppend(g: Grid, a: seq<nat>, b: seq<nat>)
    requires Indexable(g) && InGrid(g, a) && InGrid(g, b)
    ensures Numbers(g, a + b) == Numbers(g, b) + Numbers(g, a)
  {
    if a == [] {
      assert a + b == b;
    } else {
      assert (a + b)[1..] == a[1..] + b;
      NumbersAppend(g, a[1..], b);
    }
  }

  /** The columns `s`, `s + 1`, ..., `e - 1`. */
  function Iota(s: nat, e: nat): (cs: seq<nat>)
    requires s <= e
    ensures |cs| == e - s
    ensures forall k :: 0 <= k < |cs| ==> cs[k] == s + k
    decreases e - s
  {
    if s == e then [] else Iota(s, e - 1) + [e - 1]
  }

  // ---------------------------------------------------------------------------
  // Problems

  /** One problem of the worksheet: an operator and its numbers. */
  datatype Problem = Problem(operator: Operator, numbers: seq<nat>)

  /** A problem has at least one number, and none of its numbers is zero. */
  predicate WellFormedProblem(p: Problem) {
    p.numbers != [] && forall k :: 0 <= k < |p.numbers| ==> p.numbers[k] > 0
  }

  /**
   * The problem a finished run of columns makes: none without an operator,
   * none when every number of the run is zero.
   */
  function RunProblem(g: Grid, operator: Option<Operator>, columns: seq<nat>): (ps: seq<Problem>)
    requires Indexable(g) && InGrid(g, columns)
    ensures |ps| <= 1
    ensures ps != [] ==> WellFormedProblem(ps[0]) && Some(ps[0].operator) == operator
  {
    match operator
    case None => []
    case Some(op) =>
      var numbers := Numbers(g, columns);
      if numbers == [] then [] else [Problem(op, numbers)]
  }

  /** The last operator written under the columns `s` to `e - 1`. */
  function LastOperator(g: Grid, s: nat, e: nat): Option<Operator>
    requires Indexable(g) && s <= e <= Width(g)
    decreases e - s
  {
    if s == e then None
    else
      match OperatorAt(g, e - 1)
      case Some(op) => Some(op)
      case None => LastOperator(g, s, e - 1)
  }

  /** One more column: its operator, if it has one, replaces the run's operator. */
  lemma LastOperatorStep(g: Grid, s: nat, c: nat)
    requires Indexable(g) && s <= c < Width(g)
    ensures OperatorChar(g, c) == '*' ==> LastOperator(g, s, c + 1) == Some(Mult)
    ensures OperatorChar(g, c) == '+' ==> LastOperator(g, s, c + 1) == Some(Plus)
    ensures OperatorChar(g, c) !in {'*', '+'} ==> LastOperator(g, s, c + 1) == LastOperator(g, s, c)
  {
  }

  /** The end of the run of non-blank columns that starts at `c`. */
  function RunEnd(g: Grid, c: nat): (e: nat)
    requires Indexable(g) && c <= Width(g)
    ensures c <= e <= Width(g)
    ensures forall k :: c <= k < e ==> !Blank(g, k)
    ensures e < Width(g) ==> Blank(g, e)
    decreases Width(g) - c
  {
    if c == Width(g) || Blank(g, c) then c else RunEnd(g, c + 1)
  }

  /**
   * The problems of the columns from `c` on: blank columns are skipped and
   * every maximal run of other columns makes at most one problem.
   */
  function ProblemsFrom(g: Grid, c: nat): seq<Problem>
    requires Indexable(g) && c <= Width(g)
    decreases Width(g) - c
  {
    if c == Width(g) then []
    else if Blank(g, c) then ProblemsFrom(g, c + 1)
    else
      var e := RunEnd(g, c);
      RunProblem(g, LastOperator(g, c, e), Iota(c, e)) + ProblemsFrom(g, e)
  }

  /** All the problems of the worksheet, left to right. */
  function CephalopodProblems(g: Grid): seq<Problem>
    requires Indexable(g)
  {
    if g.rows == [] || Width(g) == 0 then [] else ProblemsFrom(g, 0)
  }

  /**
   * What is still to come when the scan stands at column `c` with the
   * columns `s` to `c - 1` of an unfinished run behind it.
   */
  function Pending(g: Grid, s: nat, c: nat): seq<Problem>
    requires Indexable(g) && s <= c <= Width(g)
  {
    if s == c then ProblemsFrom(g, c)
    else
      var e := RunEnd(g, c);
      RunProblem(g, LastOperator(g, s, e), Iota(s, e)) + ProblemsFrom(g, e)
  }

  /** A column that is not blank extends the open run. */
  lemma PendingExtend(g: Grid, s: nat, c: nat)
    requires Indexable(g) && s <= c < Width(g) && !Blank(g, c)
    ensures Pending(g, s, c) == Pending(g, s, c + 1)
  {
    assert RunEnd(g, c) == RunEnd(g, c + 1);
  }

  /** A blank column closes the open run, which makes its problem, if any. */
  lemma PendingClose(g: Grid, s: nat, c: nat)
    requires Indexable(g) && s <= c < Width(g) && Blank(g, c)
    ensures Pending(g, s, c) == RunProblem(g, LastOperator(g, s, c), Iota(s, c)) + Pending(g, c + 1, c + 1)
  {
    assert ProblemsFrom(g, c) == ProblemsFrom(g, c + 1);
    if s == c {
      assert RunProblem(g, LastOperator(g, s, c), Iota(s, c)) == [];
    }
  }

  /** At the right edge only the open run is left. */
  lemma PendingEnd(g: Grid, s: nat)
    requires Indexable(g) && s <= Width(g)
    ensures Pending(g, s, Width(g)) == RunProblem(g, LastOperator(g, s, Width(g)), Iota(s, Width(g)))
  {
  }

  /**
   * `Grid::parse_cephalopod_problems`: one scan from left to right over the
   * columns, collecting the columns of the current run and its operator and
   * closing the run at each blank column and at the right edge.
   */
  method ParseCephalopodProblems(g: Grid) returns (problems: seq<Problem>)
    requires Indexable(g)
    ensures problems == CephalopodProblems(g)
  {
    var rows := |g.rows|;
    var cols := if rows > 0 then |g.rows[0]| else 0;
    if rows == 0 || cols == 0 {
      return [];
    }
    var operatorRow := rows - 1;
    problems := [];
    var currentColumns: seq<nat> := [];
    var currentOperator: Option<Operator> := None;
    ghost var start := 0;
    for col := 0 to cols
      invariant start <= col
      invariant currentColumns == Iota(start, col)
      invariant currentOperator == LastOperator(g, start, col)
      invariant ProblemsFrom(g, 0) == problems + Pending(g, start, col)
    {
      var isSeparator := IsSeparator(g, col);
      var opChar := g.rows[operatorRow][col];
      assert opChar == OperatorChar(g, col);
      if isSeparator && opChar == ' ' {
        assert ProblemsFrom(g, 0)
          == problems + RunProblem(g, currentOperator, currentColumns) + Pending(g, col + 1, col + 1) by {
          PendingClose(g, start, col);
        }
        if currentColumns != [] {
          problems := problems + RunProblem(g, currentOperator, currentColumns);
          currentOperator := None;
          currentColumns := [];
        } else {
          assert RunProblem(g, currentOperator, currentColumns) == [];
        }
        start := col + 1;
      } else {
        assert ProblemsFrom(g, 0) == problems + Pending(g, start, col + 1) by {
          PendingExtend(g, start, col);
        }
        LastOperatorStep(g, start, col);
        currentColumns := currentColumns + [col];
        if opChar == '*' {
          currentOperator := Some(Mult);
        } else if opChar == '+' {
          currentOperator := Some(Plus);
        }
      }
    }
    PendingEnd(g, start);
    if currentColumns != [] {
      problems := problems + RunProblem(g, currentOperator, currentColumns);
    }
  }

  lemma {:induction false} ProblemsFromWellFormed(g: Grid, c: nat)
    requires Indexable(g) && c <= Width(g)
    ensures forall p :: p in ProblemsFrom(g, c) ==> WellFormedProblem(p)
    decreases Width(g) - c
  {
    if c < Width(g) {
      if Blank(g, c) {
        ProblemsFromWellFormed(g, c + 1);
      } else {
        var e := RunEnd(g, c);
        var run := RunProblem(g, LastOperator(g, c, e), Iota(c, e));
        ProblemsFromWellFormed(g, e);
        assert ProblemsFrom(g, c) == run + ProblemsFrom(g, e);
        forall p | p in ProblemsFrom(g, c)
          ensures WellFormedProblem(p)
        {
          if p in run {
            assert p == run[0];
          }
        }
      }
    }
  }

  /** Every problem has at least one number, and none of its numbers is zero. */
  lemma ProblemsWellFormed(g: Grid)
    requires Indexable(g)
    ensures forall p :: p in CephalopodProblems(g) ==> WellFormedProblem(p)
  {
    if g.rows != [] && Width(g) > 0 {
      ProblemsFromWellFormed(g, 0);
    }
  }

  // ---------------------------------------------------------------------------
  // The total

  /** The sum of the values of the problems. */
  function ProblemsTotal(problems: seq<Problem>): nat {
    if problems == [] then 0 else Apply(problems[0].operator, problems[0].numbers) + ProblemsTotal(problems[1..])
  }

  lemma {:induction false} ProblemsTotalAppend(a: seq<Problem>, b: seq<Problem>)
    ensures ProblemsTotal(a + b) == ProblemsTotal(a) + ProblemsTotal(b)
  {
    if a == [] {
      assert a + b == b;
    } else {
      assert (a + b)[1..] == a[1..] + b;
      ProblemsTotalAppend(a[1..], b);
    }
  }

  /** A sum or product of positive numbers, at least one of them, is positive. */
  lemma {:induction false} ApplyPositive(op: Operator, xs: seq<nat>)
    requires xs != [] && forall k :: 0 <= k < |xs| ==> xs[k] > 0
    ensures Apply(op, xs) >= 1
  {
    if xs[1..] == [] {
      assert Sum(xs) == xs[0] + Sum(xs[1..]);
      assert Product(xs) == xs[0] * Product(xs[1..]);
    } else {
      ApplyPositive(op, xs[1..]);
      var rest := Apply(op, xs[1..]);
      assert op == Mult ==> Product(xs) == xs[0] * rest;
      assert xs[0] >= 1 && rest >= 1;
    }
  }

  /** Every problem is worth at least one, so the total is at least the number of problems. */
  lemma {:induction false} ProblemsTotalBound(problems: seq<Problem>)
    requires forall p :: p in problems ==> WellFormedProblem(p)
    ensures ProblemsTotal(problems) >= |problems|
  {
    if problems != [] {
      assert problems[0] in problems;
      ApplyPositive(problems[0].operator, problems[0].numbers);
      assert forall p :: p in problems[1..] ==> p in problems;
      ProblemsTotalBound(problems[1..]);
    }
  }

  /**
   * `Grid::cephalopod_total`: the values of all the problems added up; the
   * total counts at least one for every problem.
   */
  method CephalopodTotal(g: Grid) returns (total: nat)
    requires Indexable(g)
    ensures total == ProblemsTotal(CephalopodProblems(g))
    ensures total >= |CephalopodProblems(g)|
  {
    var problems := ParseCephalopodProblems(g);
    ProblemsWellFormed(g);
    ProblemsTotalBound(problems);
    total := ProblemsTotal(problems);
  }
}
