/**
 * Day 4: rolls of paper on a floor map. A roll is accessible when fewer than
 * four of its eight neighbours hold paper; `exaust_all_accessible_rolls`
 * removes every accessible roll at once, round after round, until none is
 * accessible, and counts what it removed.
 * Source: src/bin/day-4/main.rs.
 */
module PaperRolls {
  import opened Text

  /** A (column, row) coordinate. */
  type Cell = (nat, nat)

  /** `DIRECTIONS`: the eight offsets to the neighbours, clockwise from the top-left. */
  const Directions: seq<(int, int)> := [(-1, -1), (0, -1), (1, -1), (1, 0), (1, 1), (0, 1), (-1, 1), (-1, 0)]

  predicate InGrid(width: nat, height: nat, x: int, y: int) {
    0 <= x < width && 0 <= y < height
  }

  /**
   * Every neighbour of (x, y) inside the grid has an entry in the map; for a
   * missing one the source's `expect` panics.
   */
  predicate NeighboursKnown(elements: map<Cell, bool>, width: nat, height: nat, x: int, y: int) {
    OffsetsKnown(elements, width, height, x, y, Directions)
  }

  /** Every cell at an offset among `ds` from (x, y) that lies in the grid has an entry in the map. */
  predicate OffsetsKnown(elements: map<Cell, bool>, width: nat, height: nat, x: int, y: int, ds: seq<(int, int)>) {
    forall i :: 0 <= i < |ds| ==> Known(elements, width, height, x + ds[i].0, y + ds[i].1)
  }

  predicate Known(elements: map<Cell, bool>, width: nat, height: nat, a: int, b: int) {
    InGrid(width, height, a, b) ==> (a, b) in elements
  }

  /** The cell (a, b) is inside the grid and holds paper. */
  predicate HoldsPaper(elements: map<Cell, bool>, width: nat, height: nat, a: int, b: int) {
    InGrid(width, height, a, b) && (a, b) in elements && elements[(a, b)]
  }

  /** The offsets among `ds` whose cell, seen from (x, y), holds paper. */
  function Hits(elements: map<Cell, bool>, width: nat, height: nat, x: int, y: int, ds: seq<(int, int)>): (n: nat)
    requires OffsetsKnown(elements, width, height, x, y, ds)
    ensures n <= |ds|
  {
    if ds == [] then 0
    else
      var (nx, ny) := (x + ds[0].0, y + ds[0].1);
      assert Known(elements, width, height, nx, ny);
      var here := if !InGrid(width, height, nx, ny) then 0 else if elements[(nx, ny)] then 1 else 0;
      TailKnown(elements, width, height, x, y, ds);
      here + Hits(elements, width, height, x, y, ds[1..])
  }

  /** `Map::count_neighbors`: how many of the eight neighbours of (x, y) hold paper. */
  function CountNeighbors(elements: map<Cell, bool>, width: nat, height: nat, x: int, y: int): nat
    requires NeighboursKnown(elements, width, height, x, y)
  {
    Hits(elements, width, height, x, y, Directions)
  }

  /** The eight offsets of a cell's neighbours, as a set. */
  function Offsets(): set<(int, int)> {
    set dx: int, dy: int | -1 <= dx <= 1 && -1 <= dy <= 1 && (dx, dy) != (0, 0) :: (dx, dy)
  }

  /** The offsets among `ds` whose cell, seen from (x, y), holds paper. */
  function HitSet(elements: map<Cell, bool>, width: nat, height: nat, x: int, y: int, ds: seq<(int, int)>): set<(int, int)> {
    set d | d in ds && HoldsPaper(elements, width, height, x + d.0, y + d.1)
  }

  lemma TailKnown(elements: map<Cell, bool>, width: nat, height: nat, x: int, y: int, ds: seq<(int, int)>)
    requires ds != [] && OffsetsKnown(elements, width, height, x, y, ds)
    ensures OffsetsKnown(elements, width, height, x, y, ds[1..])
  {
    forall i | 0 <= i < |ds[1..]|
      ensures Known(elements, width, height, x + ds[1..][i].0, y + ds[1..][i].1)
    {
      assert ds[1..][i] == ds[i + 1];
    }
  }

  /** The hits of a list are those of its tail, plus its head if that hits. */
  lemma HitSetCons(elements: map<Cell, bool>, width: nat, height: nat, x: int, y: int, ds: seq<(int, int)>)
    requires ds != []
    ensures HitSet(elements, width, height, x, y, ds)
      == HitSet(elements, width, height, x, y, ds[1..])
        + (if HoldsPaper(elements, width, height, x + ds[0].0, y + ds[0].1) then {ds[0]} else {})
  {
    var rest := ds[1..];
    forall d
      ensures d in ds <==> d == ds[0] || d in rest
    {
      if d in ds {
        var i :| 0 <= i < |ds| && ds[i] == d;
        if i > 0 {
          assert rest[i - 1] == d;
        }
      }
    }
  }

  lemma HitsCons(elements: map<Cell, bool>, width: nat, height: nat, x: int, y: int, ds: seq<(int, int)>)
    requires ds != [] && OffsetsKnown(elements, width, height, x, y, ds)
    ensures OffsetsKnown(elements, width, height, x, y, ds[1..])
    ensures Hits(elements, width, height, x, y, ds)
      == (if HoldsPaper(elements, width, height, x + ds[0].0, y + ds[0].1) then 1 else 0)
        + Hits(elements, width, height, x, y, ds[1..])
  {
    TailKnown(elements, width, height, x, y, ds);
    assert Known(elements, width, height, x + ds[0].0, y + ds[0].1);
  }

  /** Counting over a list of distinct offsets counts the set of those that hit. */
  lemma {:induction false} HitsCounts(elements: map<Cell, bool>, width: nat, height: nat, x: int, y: int, ds: seq<(int, int)>)
    requires OffsetsKnown(elements, width, height, x, y, ds)
    requires forall i, j :: 0 <= i < j < |ds| ==> ds[i] != ds[j]
    ensures Hits(elements, width, height, x, y, ds) == |HitSet(elements, width, height, x, y, ds)|
  {
    if ds != [] {
      var rest := ds[1..];
      TailKnown(elements, width, height, x, y, ds);
      assert forall i, j :: 0 <= i < j < |rest| ==> rest[i] != rest[j] by {
        forall i, j | 0 <= i < j < |rest|
          ensures rest[i] != rest[j]
        {
          assert rest[i] == ds[i + 1] && rest[j] == ds[j + 1];
        }
      }
      HitsCounts(elements, width, height, x, y, rest);
      HitsCons(elements, width, height, x, y, ds);
      HitSetCons(elements, width, height, x, y, ds);
      var later := HitSet(elements, width, height, x, y, rest);
      assert ds[0] !in later by {
        forall i | 0 <= i < |rest|
          ensures rest[i] != ds[0]
        {
          assert rest[i] == ds[i + 1];
        }
      }
      if HoldsPaper(elements, width, height, x + ds[0].0, y + ds[0].1) {
        assert |later + {ds[0]}| == |later| + 1;
      }
    }
  }

  /** `DIRECTIONS` lists each of the eight offsets once. */
  lemma DirectionsAreOffsets()
    ensures forall i, j :: 0 <= i < j < |Directions| ==> Directions[i] != Directions[j]
    ensures forall d :: d in Directions <==> d in Offsets()
  {
    forall d | d in Offsets()
      ensures d in Directions
    {
      var (dx, dy) := d;
      assert dx == -1 || dx == 0 || dx == 1;
      assert dy == -1 || dy == 0 || dy == 1;
    }
    forall d | d in Directions
      ensures d in Offsets()
    {
      var (dx, dy) := d;
      assert -1 <= dx <= 1 && -1 <= dy <= 1 && (dx, dy) != (0, 0);
    }
  }

  /**
   * `count_neighbors` counts the neighbour offsets of (x, y) whose cell lies in
   * the grid and holds paper, so it is at most 8.
   */
  lemma CountNeighborsIsNeighbours(elements: map<Cell, bool>, width: nat, height: nat, x: int, y: int)
    requires NeighboursKnown(elements, width, height, x, y)
    ensures CountNeighbors(elements, width, height, x, y)
      == |set d | d in Offsets() && HoldsPaper(elements, width, height, x + d.0, y + d.1)|
    ensures CountNeighbors(elements, width, height, x, y) <= 8
  {
    DirectionsAreOffsets();
    HitsCounts(elements, width, height, x, y, Directions);
    var listed := HitSet(elements, width, height, x, y, Directions);
    var offsets := set d | d in Offsets() && HoldsPaper(elements, width, height, x + d.0, y + d.1);
    assert listed == offsets;
  }

  /** `Map::is_roll_accessible`: fewer than four neighbours hold paper. */
  predicate IsRollAccessible(elements: map<Cell, bool>, width: nat, height: nat, p: Cell)
    requires NeighboursKnown(elements, width, height, p.0, p.1)
  {
    CountNeighbors(elements, width, height, p.0, p.1) < 4
  }

  /** Every roll's in-grid neighbours have entries, so no query of the map panics. */
  predicate AllKnown(elements: map<Cell, bool>, paper: set<Cell>, width: nat, height: nat) {
    forall p :: p in paper ==> NeighboursKnown(elements, width, height, p.0, p.1)
  }

  /** The rolls that are accessible: the `filter` of `count_accessible_rolls`. */
  function AccessibleRolls(elements: map<Cell, bool>, paper: set<Cell>, width: nat, height: nat): (r: set<Cell>)
    requires AllKnown(elements, paper, width, height)
    ensures r <= paper
    ensures forall p :: p in r <==> p in paper && IsRollAccessible(elements, width, height, p)
  {
    set p | p in paper && IsRollAccessible(elements, width, height, p)
  }

  lemma {:induction false} SubsetSize<T>(a: set<T>, b: set<T>)
    requires a <= b
    ensures |a| <= |b|
    ensures |b - a| == |b| - |a|
    decreases |a|
  {
    if a != {} {
      var x :| x in a;
      SubsetSize(a - {x}, b - {x});
      assert b - {x} - (a - {x}) == b - a;
    }
  }

  /** `Map::count_accessible_rolls`: at most the number of rolls, and 0 exactly when no roll is accessible. */
  function CountAccessibleRolls(elements: map<Cell, bool>, paper: set<Cell>, width: nat, height: nat): (n: nat)
    requires AllKnown(elements, paper, width, height)
    ensures n <= |paper|
    ensures n == 0 <==> forall p :: p in paper ==> !IsRollAccessible(elements, width, height, p)
  {
    var accessible := AccessibleRolls(elements, paper, width, height);
    SubsetSize(accessible, paper);
    assert accessible == {} <==> forall p :: p in paper ==> !IsRollAccessible(elements, width, height, p);
    |accessible|
  }

  // ---------------------------------------------------------------------------
  // Erosion

  /** The positions whose element is `Some(())`, that is, that hold paper. */
  function PaperOf(elements: map<Cell, bool>): set<Cell> {
    set p | p in elements && elements[p]
  }

  /** Writing `None` at every candidate, as the `for` loop of one round does. */
  function Erode(elements: map<Cell, bool>, candidates: set<Cell>): map<Cell, bool> {
    map p | p in elements.Keys + candidates :: if p in candidates then false else elements[p]
  }

  lemma ErodeOneMore(elements: map<Cell, bool>, done: set<Cell>, c: Cell)
    ensures Erode(elements, done + {c}) == Erode(elements, done)[c := false]
  {
  }

  /**
   * A round removes exactly the candidate rolls: on a map whose rolls are
   * `paper`, a round over candidates among them keeps every cell, empties the
   * candidates, leaves every other cell as it was, and leaves `paper - candidates`.
   */
  lemma ErodeRound(elements: map<Cell, bool>, paper: set<Cell>, candidates: set<Cell>)
    requires paper == PaperOf(elements) && candidates <= paper
    ensures Erode(elements, candidates).Keys == elements.Keys
    ensures forall p :: p in candidates ==> !Erode(elements, candidates)[p]
    ensures forall p :: p in elements && p !in candidates ==> Erode(elements, candidates)[p] == elements[p]
    ensures PaperOf(Erode(elements, candidates)) == paper - candidates
  {
  }

  /** What erosion comes to: the rolls removed, and the final map and rolls. */
  datatype Outcome = Outcome(removed: nat, elements: map<Cell, bool>, paper: set<Cell>)

  /** The rounds of `exaust_all_accessible_rolls` from a map and its rolls. */
  function Exhaust(elements: map<Cell, bool>, paper: set<Cell>, width: nat, height: nat): Outcome
    requires AllKnown(elements, paper, width, height)
    decreases |paper|
  {
    var candidates := AccessibleRolls(elements, paper, width, height);
    if |candidates| == 0 then Outcome(0, elements, paper)
    else
      SubsetSize(candidates, paper);
      var rest := Exhaust(Erode(elements, candidates), paper - candidates, width, height);
      Outcome(|candidates| + rest.removed, rest.elements, rest.paper)
  }

  /**
   * Erosion keeps the map's cells, only removes rolls, and accounts for every
   * one: the rolls removed and the rolls left add up to the rolls at the start,
   * so no more rolls are removed than there were.
   */
  lemma {:induction false} ExhaustAccounting(elements: map<Cell, bool>, paper: set<Cell>, width: nat, height: nat)
    requires AllKnown(elements, paper, width, height)
    ensures var o := Exhaust(elements, paper, width, height);
      && o.paper <= paper && o.removed + |o.paper| == |paper|
      && o.removed <= |paper|
    decreases |paper|
  {
    var candidates := AccessibleRolls(elements, paper, width, height);
    if |candidates| != 0 {
      SubsetSize(candidates, paper);
      var next := Erode(elements, candidates);
      ExhaustAccounting(next, paper - candidates, width, height);
      var o := Exhaust(next, paper - candidates, width, height);
      assert Exhaust(elements, paper, width, height) == Outcome(|candidates| + o.removed, o.elements, o.paper);
    }
  }

  /** When erosion stops, no roll is accessible. */
  lemma {:induction false} ExhaustStops(elements: map<Cell, bool>, paper: set<Cell>, width: nat, height: nat)
    requires AllKnown(elements, paper, width, height)
    ensures var o := Exhaust(elements, paper, width, height);
      AllKnown(o.elements, o.paper, width, height) && AccessibleRolls(o.elements, o.paper, width, height) == {}
    decreases |paper|
  {
    var candidates := AccessibleRolls(elements, paper, width, height);
    if |candidates| != 0 {
      SubsetSize(candidates, paper);
      ExhaustStops(Erode(elements, candidates), paper - candidates, width, height);
    }
  }

  /** Erosion keeps the rolls in step with the map: they are the cells holding paper. */
  lemma {:induction false} ExhaustKeepsPaper(elements: map<Cell, bool>, paper: set<Cell>, width: nat, height: nat)
    requires AllKnown(elements, paper, width, height) && paper == PaperOf(elements)
    ensures var o := Exhaust(elements, paper, width, height);
      o.paper == PaperOf(o.elements) && o.elements.Keys == elements.Keys
    decreases |paper|
  {
    var candidates := AccessibleRolls(elements, paper, width, height);
    if |candidates| != 0 {
      SubsetSize(candidates, paper);
      ErodeRound(elements, paper, candidates);
      ExhaustKeepsPaper(Erode(elements, candidates), paper - candidates, width, height);
    }
  }

  /** With some roll accessible, the first round removes at least one. */
  lemma FirstRoundRemoves(elements: map<Cell, bool>, paper: set<Cell>, width: nat, height: nat, p: Cell)
    requires AllKnown(elements, paper, width, height)
    requires p in paper && IsRollAccessible(elements, width, height, p)
    ensures Exhaust(elements, paper, width, height).removed >= 1
    ensures p !in Exhaust(elements, paper, width, height).paper
  {
    var candidates := AccessibleRolls(elements, paper, width, height);
    assert p in candidates;
    SubsetSize(candidates, paper);
    ExhaustAccounting(Erode(elements, candidates), paper - candidates, width, height);
  }

  // ---------------------------------------------------------------------------
  // Parsing

  /** Row y of the text has a character at column x. */
  predicate InText(lines: seq<string>, p: Cell) {
    p.1 < |lines| && p.0 < |lines[p.1]|
  }

  /** `p` is among the cells a row-by-row scan has visited once it reaches column x of row y. */
  predicate Visited(p: Cell, y: nat, x: nat) {
    p.1 < y || (p.1 == y && p.0 < x)
  }

  /**
   * The loops of `Map::from`: every character becomes an entry at its
   * (column, row), holding paper exactly for '@', and the '@' cells are the
   * paper positions.
   */
  method Scan(lines: seq<string>) returns (elements: map<Cell, bool>, paper: set<Cell>)
    ensures forall p: Cell :: p in elements <==> InText(lines, p)
    ensures forall p: Cell :: p in elements ==> InText(lines, p) && elements[p] == (lines[p.1][p.0] == '@')
    ensures paper == PaperOf(elements)
  {
    elements := map[];
    paper := {};
    for y := 0 to |lines|
      invariant forall p: Cell :: p in elements <==> InText(lines, p) && p.1 < y
      invariant forall p: Cell :: p in elements ==> InText(lines, p) && elements[p] == (lines[p.1][p.0] == '@')
      invariant paper == PaperOf(elements)
    {
      var line := lines[y];
      for x := 0 to |line|
        invariant forall p: Cell :: p in elements <==> InText(lines, p) && Visited(p, y, x)
        invariant forall p: Cell :: p in elements ==> InText(lines, p) && elements[p] == (lines[p.1][p.0] == '@')
        invariant paper == PaperOf(elements)
      {
        var element := false;
        if line[x] == '@' {
          paper := paper + {(x, y)};
          element := true;
        }
        elements := elements[(x, y) := element];
      }
    }
  }

  /** When every line is as long as the first, every roll's in-grid neighbours have entries. */
  lemma RectangularKnown(lines: seq<string>, elements: map<Cell, bool>, paper: set<Cell>)
    requires lines != [] && forall y :: 0 <= y < |lines| ==> |lines[y]| == |lines[0]|
    requires forall p: Cell :: p in elements <==> InText(lines, p)
    ensures AllKnown(elements, paper, |lines[0]|, |lines|)
  {
    forall p | p in paper
      ensures NeighboursKnown(elements, |lines[0]|, |lines|, p.0, p.1)
    {
      forall i | 0 <= i < |Directions| && InGrid(|lines[0]|, |lines|, p.0 + Directions[i].0, p.1 + Directions[i].1)
        ensures (p.0 + Directions[i].0, p.1 + Directions[i].1) in elements
      {
        var q: Cell := (p.0 + Directions[i].0, p.1 + Directions[i].1);
        assert InText(lines, q);
      }
    }
  }

  /** `struct Map`: the floor, its rolls, and its size. */
  class Map {
    var elements: map<Cell, bool>
    var paperPositions: set<Cell>
    const width: nat
    const height: nat

    /** The rolls are exactly the cells holding paper. */
    ghost predicate Valid()
      reads this
    {
      paperPositions == PaperOf(elements)
    }

    /**
     * `Map::from`. The width is the first line's length, so the source
     * panics on an input with no line.
     */
    constructor (value: string)
      requires Lines(value) != []
      ensures Valid()
      ensures width == |Lines(value)[0]| && height == |Lines(value)|
      ensures forall p: Cell :: p in elements <==> InText(Lines(value), p)
      ensures forall p: Cell :: p in elements ==> InText(Lines(value), p) && elements[p] == (Lines(value)[p.1][p.0] == '@')
    {
      var lines := Lines(value);
      var hashMap, paper := Scan(lines);
      elements := hashMap;
      paperPositions := paper;
      width := |lines[0]|;
      height := |lines|;
    }

    /** The `for` loop of one round: `None` at every candidate. */
    method ClearCandidates(candidates: set<Cell>)
      modifies this
      ensures elements == Erode(old(elements), candidates)
      ensures paperPositions == old(paperPositions)
    {
      var rest := candidates;
      while rest != {}
        invariant rest <= candidates
        invariant elements == Erode(old(elements), candidates - rest)
        invariant paperPositions == old(paperPositions)
        decreases |rest|
      {
        var c :| c in rest;
        var done := candidates - rest;
        ErodeOneMore(old(elements), done, c);
        elements := elements[c := false];
        rest := rest - {c};
        assert candidates - rest == done + {c};
      }
      assert candidates - rest == candidates;
    }

    /**
     * `Map::exaust_all_accessible_rolls`: removes the accessible rolls round by
     * round and returns how many it removed.
     */
    method ExhaustAllAccessibleRolls() returns (removed: nat)
      modifies this
      requires Valid() && AllKnown(elements, paperPositions, width, height)
      ensures Valid()
      ensures removed == Exhaust(old(elements), old(paperPositions), width, height).removed
      ensures elements == Exhaust(old(elements), old(paperPositions), width, height).elements
      ensures paperPositions == Exhaust(old(elements), old(paperPositions), width, height).paper
      decreases |paperPositions|
    {
      var candidates := AccessibleRolls(elements, paperPositions, width, height);
      var candidatesLen := |candidates|;
      if candidatesLen == 0 {
        return 0;
      }
      var nextPaperPositions := set p | p in paperPositions && p !in candidates;
      ClearCandidates(candidates);
      ErodeRound(old(elements), old(paperPositions), candidates);
      SubsetSize(candidates, old(paperPositions));
      assert nextPaperPositions == old(paperPositions) - candidates;
      paperPositions := nextPaperPositions;
      var more := ExhaustAllAccessibleRolls();
      removed := candidatesLen + more;
    }
  }
}
