/**
 * Day 6, first part: the worksheet read as a matrix of cells. Each column of
 * the worksheet is a problem whose bottom cell is the operator; rotating the
 * matrix clockwise turns each column into a row that starts with the
 * operator, and the math book applies every row and adds up the results.
 * Source: src/bin/day-6/main.rs.
 */
module Worksheet {
  import opened Wrappers
  import opened Text

  /** `Operator`: how the numbers of a problem are combined. */
  datatype Operator = Plus | Mult

  /** How an operator is written in the worksheet. */
  function Symbol(op: Operator): string {
    match op
    case Mult => "*"
    case Plus => "+"
  }

  /** `Operator::try_from`: the trimmed cell must be exactly "*" or "+". */
  function ParseOperator(value: string): (r: Result<Operator, ()>)
    ensures r.Ok? ==> Symbol(r.value) == Trim(value)
    ensures r.Err? ==> Trim(value) != "*" && Trim(value) != "+"
  {
    var t := Trim(value);
    if t == "*" then Ok(Mult) else if t == "+" then Ok(Plus) else Err(())
  }

  /** An operator cell padded with white space on either side parses to its operator. */
  lemma ParsePaddedOperator(op: Operator, before: string, after: string)
    requires AllWhitespace(before) && AllWhitespace(after)
    ensures ParseOperator(before + Symbol(op) + after) == Ok(op)
  {
    TrimPadded(before, Symbol(op), after);
  }

  // ---------------------------------------------------------------------------
  // Sums and products

  /** `iter().sum()`. */
  function Sum(xs: seq<nat>): nat {
    if xs == [] then 0 else xs[0] + Sum(xs[1..])
  }

  /** `iter().product()`: the empty product is 1. */
  function Product(xs: seq<nat>): nat {
    if xs == [] then 1 else xs[0] * Product(xs[1..])
  }

  /** The value of a problem. */
  function Apply(op: Operator, xs: seq<nat>): nat {
    match op
    case Mult => Product(xs)
    case Plus => Sum(xs)
  }

  lemma {:induction false} SumAppend(a: seq<nat>, b: seq<nat>)
    ensures Sum(a + b) == Sum(a) + Sum(b)
  {
    if a != [] {
      assert (a + b)[1..] == a[1..] + b;
      SumAppend(a[1..], b);
    } else {
      assert a + b == b;
    }
  }

  lemma {:induction false} ProductAppend(a: seq<nat>, b: seq<nat>)
    ensures Product(a + b) == Product(a) * Product(b)
  {
    if a != [] {
      assert (a + b)[1..] == a[1..] + b;
      ProductAppend(a[1..], b);
    } else {
      assert a + b == b;
    }
  }

  /**
   * Applying an operator to two runs of numbers joined is combining the two
   * values with that operator: the order of the numbers does not matter.
   */
  lemma ApplyAppend(op: Operator, a: seq<nat>, b: seq<nat>)
    ensures op == Plus ==> Apply(op, a + b) == Apply(op, a) + Apply(op, b)
    ensures op == Mult ==> Apply(op, a + b) == Apply(op, a) * Apply(op, b)
  {
    SumAppend(a, b);
    ProductAppend(a, b);
  }

  // ---------------------------------------------------------------------------
  // Operations and the math book

  /** `Operation`: an operator and the cells of its numbers, as text. */
  datatype Operation = Operation(operator: Operator, elements: seq<string>)

  /** `Operation::try_from`: the first cell is the operator, the rest the numbers. */
  function ParseOperation(row: seq<string>): (r: Result<Operation, ()>)
    ensures r.Err? <==> row == [] || ParseOperator(row[0]).Err?
    ensures r.Ok? ==> Symbol(r.value.operator) == Trim(row[0]) && [row[0]] + r.value.elements == row
  {
    if row == [] then Err(())
    else
      match ParseOperator(row[0])
      case Err(_) => Err(())
      case Ok(op) => Ok(Operation(op, row[1..]))
  }

  /** A row written as an operator followed by cells parses back to them. */
  lemma ParseOperationRoundTrip(op: Operator, elements: seq<string>)
    ensures ParseOperation([Symbol(op)] + elements) == Ok(Operation(op, elements))
  {
    var row := [Symbol(op)] + elements;
    assert row[0] == Symbol(op) && row[1..] == elements;
    assert ParseOperator(Symbol(op)) == Ok(op) by {
      ParsePaddedOperator(op, "", "");
      assert "" + Symbol(op) + "" == Symbol(op);
    }
  }

  /** One cell of an operation read as a number: `x.trim().parse::<usize>()`. */
  function ParseCell(cell: string): Result<nat, ()> {
    match ParseNat(Trim(cell))
    case None => Err(())
    case Some(n) => Ok(n)
  }

  /**
   * `Operation::apply`: every cell is read as a number and the operator
   * combines them. A cell that is not a number makes `expect` panic,
   * modelled as `None`.
   */
  function ApplyOperation(operation: Operation): Option<nat> {
    match CollectResults(operation.elements, ParseCell)
    case Err(_) => None
    case Ok(xs) => Some(Apply(operation.operator, xs))
  }

  /**
   * An operation has a value exactly when every cell is a number, and the
   * value is the operator applied to those numbers in order.
   */
  lemma ApplyOperationValue(operation: Operation)
    ensures ApplyOperation(operation).Some?
      <==> forall i :: 0 <= i < |operation.elements| ==> ParseCell(operation.elements[i]).Ok?
    ensures ApplyOperation(operation).Some? ==> exists xs: seq<nat> :: (|xs| == |operation.elements|
      && (forall i :: 0 <= i < |xs| ==> ParseCell(operation.elements[i]) == Ok(xs[i]))
      && ApplyOperation(operation) == Some(Apply(operation.operator, xs)))
  {
  }

  /** `MathBook`: one operation per row. */
  datatype MathBook = MathBook(operations: seq<Operation>)

  /** `MathBook::try_from`: every row must be an operation. */
  function ParseMathBook(rows: seq<seq<string>>): (r: Result<MathBook, ()>)
    ensures r.Ok? <==> forall i :: 0 <= i < |rows| ==> ParseOperation(rows[i]).Ok?
    ensures r.Ok? ==> (|r.value.operations| == |rows|
      && forall i :: 0 <= i < |rows| ==> r.value.operations[i] == ParseOperation(rows[i]).value)
  {
    match CollectResults(rows, ParseOperation)
    case Err(e) => Err(e)
    case Ok(operations) => Ok(MathBook(operations))
  }

  /**
   * `iter().map(f).sum()` where `f` may panic: the sum of `f` over `xs`, or
   * `None` as soon as one application has no value.
   */
  function SumOver<T>(xs: seq<T>, f: T -> Option<nat>): Option<nat> {
    if xs == [] then Some(0)
    else
      var first := f(xs[0]);
      var rest := SumOver(xs[1..], f);
      if first.Some? && rest.Some? then Some(first.value + rest.value) else None
  }

  /** The sum has a value exactly when every application has one. */
  lemma {:induction false} SumOverDefined<T>(xs: seq<T>, f: T -> Option<nat>)
    ensures SumOver(xs, f).Some? <==> forall i :: 0 <= i < |xs| ==> f(xs[i]).Some?
  {
    if xs != [] {
      SumOverDefined(xs[1..], f);
      assert forall i :: 1 <= i < |xs| ==> xs[i] == xs[1..][i - 1];
    }
  }

  /** The sum over two parts is the sum of the two parts' sums. */
  lemma {:induction false} SumOverAppend<T>(a: seq<T>, b: seq<T>, f: T -> Option<nat>)
    requires SumOver(a, f).Some? && SumOver(b, f).Some?
    ensures SumOver(a + b, f) == Some(SumOver(a, f).value + SumOver(b, f).value)
  {
    if a == [] {
      assert a + b == b;
    } else {
      assert (a + b)[0] == a[0];
      assert (a + b)[1..] == a[1..] + b;
      SumOverAppend(a[1..], b, f);
    }
  }

  /** `MathBook::total`: the sum of every operation's value; `None` on a panic. */
  function Total(operations: seq<Operation>): Option<nat> {
    SumOver(operations, ApplyOperation)
  }

  /** The total is defined exactly when no operation panics. */
  lemma TotalDefined(operations: seq<Operation>)
    ensures Total(operations).Some? <==> forall i :: 0 <= i < |operations| ==> ApplyOperation(operations[i]).Some?
  {
    SumOverDefined(operations, ApplyOperation);
  }

  // ---------------------------------------------------------------------------
  // The matrix

  function Reverse<T>(s: seq<T>): (r: seq<T>)
    ensures |r| == |s| && forall i :: 0 <= i < |s| ==> r[i] == s[|s| - 1 - i]
  {
    if s == [] then [] else Reverse(s[1..]) + [s[0]]
  }

  /**
   * What `transpose` needs to not panic: a first row, and every row at
   * least as long as it (cells past that length are dropped).
   */
  predicate Transposable(m: seq<seq<string>>) {
    m != [] && forall y :: 0 <= y < |m| ==> |m[y]| >= |m[0]|
  }

  predicate Rectangular(m: seq<seq<string>>) {
    m != [] && forall y :: 0 <= y < |m| ==> |m[y]| == |m[0]|
  }

  /** The transpose: one row per column of `m`, listing that column top to bottom. */
  function Transposed(m: seq<seq<string>>): (t: seq<seq<string>>)
    requires Transposable(m)
    ensures |t| == |m[0]|
    ensures forall x :: 0 <= x < |t| ==> |t[x]| == |m|
    ensures forall x, y :: 0 <= x < |t| && 0 <= y < |m| ==> t[x][y] == m[y][x]
  {
    seq(|m[0]|, x requires 0 <= x < |m[0]| => seq(|m|, y requires 0 <= y < |m| => m[y][x]))
  }

  /** The matrix turned a quarter clockwise: row x is column x read bottom to top. */
  function RotatedClockwise(m: seq<seq<string>>): (r: seq<seq<string>>)
    requires Transposable(m)
    ensures |r| == |m[0]|
    ensures forall x :: 0 <= x < |r| ==> |r[x]| == |m|
    ensures forall x, j :: 0 <= x < |r| && 0 <= j < |m| ==> r[x][j] == m[|m| - 1 - j][x]
  {
    var t := Transposed(m);
    seq(|t|, x requires 0 <= x < |t| => Reverse(t[x]))
  }

  /** Reversing every row of the transpose gives the clockwise rotation. */
  lemma RotatedClockwiseRows(m: seq<seq<string>>, t: seq<seq<string>>, rows: seq<seq<string>>)
    requires Transposable(m) && t == Transposed(m)
    requires |rows| == |t| && forall k :: 0 <= k < |rows| ==> rows[k] == Reverse(t[k])
    ensures rows == RotatedClockwise(m)
  {
  }

  /** The matrix turned a quarter counter-clockwise: row i is the column i from the right. */
  function RotatedCounterClockwise(m: seq<seq<string>>): (r: seq<seq<string>>)
    requires Transposable(m)
    ensures |r| == |m[0]|
    ensures forall i :: 0 <= i < |r| ==> |r[i]| == |m|
    ensures forall i, y :: 0 <= i < |r| && 0 <= y < |m| ==> r[i][y] == m[y][|m[0]| - 1 - i]
  {
    Reverse(Transposed(m))
  }

  /** Turning clockwise and then counter-clockwise gives back a rectangular matrix. */
  lemma RotateRoundTrip(m: seq<seq<string>>)
    requires Rectangular(m) && |m[0]| > 0
    ensures Transposable(RotatedClockwise(m))
    ensures RotatedCounterClockwise(RotatedClockwise(m)) == m
  {
    var r := RotatedClockwise(m);
    var back := RotatedCounterClockwise(r);
    assert |back| == |m|;
    forall y | 0 <= y < |m| ensures back[y] == m[y] {
      assert |back[y]| == |m[y]|;
      forall x | 0 <= x < |m[y]| ensures back[y][x] == m[y][x] {
        assert back[y][x] == r[x][|m| - 1 - y];
      }
    }
  }

  /** `Matrix`: the rows of cells, transposed and rotated in place. */
  class Matrix {
    var rows: seq<seq<string>>

    /** `Matrix::new`. */
    constructor (inner: seq<seq<string>>)
      ensures rows == inner
    {
      rows := inner;
    }

    /** `transpose`: fills a fresh table cell by cell, then replaces the rows. */
    method Transpose()
      modifies this
      requires Transposable(rows)
      ensures rows == Transposed(old(rows))
    {
      var m := rows;
      var nRows := |m|;
      var nCols := |m[0]|;
      var transposed := seq(nCols, _ => seq(nRows, _ => " "));
      for y := 0 to nRows
        invariant |transposed| == nCols
        invariant forall x :: 0 <= x < nCols ==> |transposed[x]| == nRows
        invariant forall x, y' :: 0 <= x < nCols && 0 <= y' < y ==> transposed[x][y'] == m[y'][x]
      {
        for x := 0 to nCols
          invariant |transposed| == nCols
          invariant forall x' :: 0 <= x' < nCols ==> |transposed[x']| == nRows
          invariant forall x', y' :: 0 <= x' < nCols && 0 <= y' < y ==> transposed[x'][y'] == m[y'][x']
          invariant forall x' :: 0 <= x' < x ==> transposed[x'][y] == m[y][x']
        {
          transposed := transposed[x := transposed[x][y := m[y][x]]];
        }
      }
      forall x | 0 <= x < nCols ensures transposed[x] == Transposed(m)[x] { }
      rows := transposed;
    }

    /** `rotate_clockwise`: transpose, then reverse every row in place. */
    method RotateClockwise()
      modifies this
      requires Transposable(rows)
      ensures rows == RotatedClockwise(old(rows))
    {
      Transpose();
      ghost var t := rows;
      for i := 0 to |rows|
        invariant |rows| == |t|
        invariant forall k :: 0 <= k < i ==> rows[k] == Reverse(t[k])
        invariant forall k :: i <= k < |rows| ==> rows[k] == t[k]
      {
        rows := rows[i := Reverse(rows[i])];
      }
      RotatedClockwiseRows(old(rows), t, rows);
    }

    /** `rotate_counter_clockwise`: transpose, then reverse the order of the rows. */
    method RotateCounterClockwise()
      modifies this
      requires Transposable(rows)
      ensures rows == RotatedCounterClockwise(old(rows))
    {
      Transpose();
      rows := Reverse(rows);
    }
  }

  /**
   * The first part: rotate the worksheet clockwise, read each row as an
   * operation and add up their values.
   */
  method SolveRows(matrix: Matrix) returns (r: Option<nat>)
    modifies matrix
    requires Transposable(matrix.rows)
    ensures matrix.rows == RotatedClockwise(old(matrix.rows))
    ensures r.Some? <==> (ParseMathBook(matrix.rows).Ok? && Total(ParseMathBook(matrix.rows).value.operations).Some?)
    ensures r.Some? ==> r == Total(ParseMathBook(matrix.rows).value.operations)
  {
    matrix.RotateClockwise();
    match ParseMathBook(matrix.rows)
    case Err(_) => r := None;
    case Ok(book) => r := Total(book.operations);
  }
}
