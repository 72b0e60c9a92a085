/**
 * Day 7: a tachyon manifold. The puzzle text is a grid of tiles: 'S' is where the
 * beam enters, '^' is a splitter and every other character is empty space. A beam
 * falls one row at a time; a beam that falls onto a splitter stops there and two
 * new beams start immediately left and right of the splitter.
 *
 * This module holds the tiles, `calculate_next_pos`, and the effect of
 * `set_tile`, `maybe_set_tile_at` and `propagate_beam` on the grid's mutable
 * state, as pure functions on a `Beams` value. The class in `BeamGrid` performs
 * the same steps in place and is proved to match these functions.
 * Source: src/bin/day-7/main.rs.
 */
module Beams {
  import opened Wrappers

  datatype Tile = Manifold | Splitter | Beam | Empty

  /** A coordinate (x, y): column x, row y, row 0 at the top. */
  type Pos = (nat, nat)

  /** The tile a character of the puzzle text stands for. */
  function TileOf(c: char): (t: Tile)
    ensures t != Beam
  {
    if c == 'S' then Manifold else if c == '^' then Splitter else Empty
  }

  /**
   * `Grid::calculate_next_pos`: the coordinate one step `d` away from `c`, if it
   * lies inside the `width` x `height` rectangle.
   */
  function NextPos(width: nat, height: nat, c: Pos, d: (int, int)): (r: Option<Pos>)
    ensures r.Some? <==> 0 <= c.0 + d.0 < width && 0 <= c.1 + d.1 < height
    ensures r.Some? ==> r.value == (c.0 + d.0, c.1 + d.1)
  {
    var nextX := c.0 + d.0;
    var nextY := c.1 + d.1;
    if nextX < 0 || nextY < 0 || nextX >= width || nextY >= height then None
    else Some((nextX, nextY))
  }

  /** A step inside the rectangle can be undone by the opposite step. */
  lemma NextPosBack(width: nat, height: nat, c: Pos, d: (int, int))
    requires c.0 < width && c.1 < height
    requires NextPos(width, height, c, d).Some?
    ensures NextPos(width, height, NextPos(width, height, c, d).value, (-d.0, -d.1)) == Some(c)
  {
  }

  /** The cell below `p`, if there is one. */
  function Below(width: nat, height: nat, p: Pos): Option<Pos> {
    NextPos(width, height, p, (0, 1))
  }

  function OptionSet(o: Option<Pos>): set<Pos> {
    if o.Some? then {o.value} else {}
  }

  /** The cells immediately left and right of `p` that lie inside the rectangle. */
  function Laterals(width: nat, height: nat, p: Pos): (ls: set<Pos>)
    ensures forall l :: l in ls ==> l.1 == p.1 && l.0 < width && l.1 < height
    ensures p.1 < height ==> (p.0 >= 1 && p.0 - 1 < width <==> (p.0 - 1, p.1) in ls)
    ensures p.1 < height ==> (p.0 + 1 < width <==> (p.0 + 1, p.1) in ls)
  {
    OptionSet(NextPos(width, height, p, (-1, 0))) + OptionSet(NextPos(width, height, p, (1, 0)))
  }

  /** Every cell of the rectangle holds a tile (the source panics on a missing one). */
  ghost predicate Total(elements: map<Pos, Tile>, width: nat, height: nat) {
    forall p: Pos :: p.0 < width && p.1 < height ==> p in elements
  }

  /** No cell holds a `Beam` tile: true of every freshly parsed grid. */
  ghost predicate NoBeams(elements: map<Pos, Tile>) {
    forall p :: p in elements ==> elements[p] != Beam
  }

  ghost function SplittersOf(elements: map<Pos, Tile>): set<Pos> {
    set p | p in elements && elements[p] == Splitter
  }

  // ---------------------------------------------------------------------------
  // The mutable part of a grid, and the steps that change it.

  datatype Beams = Beams(elements: map<Pos, Tile>, activeBeams: set<Pos>, activeSplitters: set<Pos>)

  /** `Grid::set_tile`. */
  function WithTile(s: Beams, p: Pos, t: Tile): Beams {
    Beams(s.elements[p := t], if t == Beam then s.activeBeams + {p} else s.activeBeams, s.activeSplitters)
  }

  /** `Grid::maybe_set_tile_at`: `set_tile` one step `d` away, if that is inside. */
  function WithTileAt(width: nat, height: nat, s: Beams, c: Pos, d: (int, int), t: Tile): Beams {
    match NextPos(width, height, c, d)
    case None => s
    case Some(q) => WithTile(s, q, t)
  }

  /** The cell below `coord`, when inside, has a tile (otherwise the source panics). */
  predicate BelowKnown(width: nat, height: nat, elements: map<Pos, Tile>, coord: Pos) {
    Below(width, height, coord).Some? ==> Below(width, height, coord).value in elements
  }

  /** `Grid::propagate_beam`: the beam at `coord` falls one row, then leaves the active set. */
  function Propagate(width: nat, height: nat, s: Beams, coord: Pos): (t: Beams)
    requires BelowKnown(width, height, s.elements, coord)
    ensures s.elements.Keys <= t.elements.Keys
  {
    var fallen :=
      match Below(width, height, coord)
      case None => s
      case Some(b) =>
        match s.elements[b]
        case Empty => WithTile(s, b, Beam)
        case Splitter =>
          var hit := s.(activeSplitters := s.activeSplitters + {b});
          WithTileAt(width, height, WithTileAt(width, height, hit, b, (-1, 0), Beam), b, (1, 0), Beam)
        case _ => s;
    fallen.(activeBeams := fallen.activeBeams - {coord})
  }

  /**
   * What one propagation does, case by case: off the grid, onto a beam or onto a
   * manifold tile nothing but the removal of `coord` happens; onto empty space a
   * beam is written below; onto a splitter the splitter is recorded and beams are
   * written at exactly its in-bounds left and right neighbours.
   */
  lemma PropagateCases(width: nat, height: nat, s: Beams, coord: Pos)
    requires BelowKnown(width, height, s.elements, coord)
    ensures var t := Propagate(width, height, s, coord);
      match Below(width, height, coord)
      case None => t == s.(activeBeams := s.activeBeams - {coord})
      case Some(b) =>
        match s.elements[b]
        case Empty =>
          t == Beams(s.elements[b := Beam], s.activeBeams + {b} - {coord}, s.activeSplitters)
        case Splitter =>
          && t.activeSplitters == s.activeSplitters + {b}
          && t.activeBeams == s.activeBeams + Laterals(width, height, b) - {coord}
          && (forall q :: q in t.elements <==> q in s.elements || q in Laterals(width, height, b))
          && (forall q :: q in t.elements ==>
                t.elements[q] == if q in Laterals(width, height, b) then Beam else s.elements[q])
        case _ => t == s.(activeBeams := s.activeBeams - {coord})
  {
    match Below(width, height, coord)
    case None =>
    case Some(b) =>
      if s.elements[b] == Splitter {
        var t := Propagate(width, height, s, coord);
        var ls := Laterals(width, height, b);
        forall q | q in t.elements
          ensures t.elements[q] == if q in ls then Beam else s.elements[q]
        {
        }
      }
  }

  /**
   * `propagate_beam` removes its own coordinate from the active beams, and every
   * beam it adds lies inside the rectangle on the row directly below.
   */
  lemma PropagateMovesDown(width: nat, height: nat, s: Beams, coord: Pos)
    requires BelowKnown(width, height, s.elements, coord)
    ensures coord !in Propagate(width, height, s, coord).activeBeams
    ensures forall q :: q in Propagate(width, height, s, coord).activeBeams - s.activeBeams ==>
      q.1 == coord.1 + 1 && q.0 < width && q.1 < height
    ensures s.activeSplitters <= Propagate(width, height, s, coord).activeSplitters
  {
    PropagateCases(width, height, s, coord);
  }

  /**
   * The grid invariant against the tiles parsed at construction: every active beam
   * sits on a `Beam` tile, no parsed cell disappears, every cell holds either its
   * parsed tile or a `Beam` (the only tile ever written), and every activated
   * splitter is a parsed splitter.
   */
  ghost predicate Consistent(original: map<Pos, Tile>, s: Beams) {
    && (forall p :: p in s.activeBeams ==> p in s.elements && s.elements[p] == Beam)
    && original.Keys <= s.elements.Keys
    && (forall p :: p in s.elements ==>
          s.elements[p] == Beam || (p in original && s.elements[p] == original[p]))
    && s.activeSplitters <= SplittersOf(original)
  }

  /** `propagate_beam` keeps the grid invariant. */
  lemma PropagateConsistent(original: map<Pos, Tile>, width: nat, height: nat, s: Beams, coord: Pos)
    requires Consistent(original, s)
    requires BelowKnown(width, height, s.elements, coord)
    ensures Consistent(original, Propagate(width, height, s, coord))
  {
    PropagateCases(width, height, s, coord);
    match Below(width, height, coord)
    case None =>
    case Some(b) =>
      if s.elements[b] == Splitter {
        assert b in original && original[b] == Splitter;
      }
  }

  /**
   * One pass of the `activate` loop body: `propagate_beam` on every coordinate of
   * the snapshot `wave`, first to last; None where one of them panics because
   * the cell below it is missing.
   */
  function RunWave(width: nat, height: nat, s: Beams, wave: seq<Pos>): Option<Beams>
    decreases |wave|
  {
    if wave == [] then Some(s)
    else if !BelowKnown(width, height, s.elements, wave[0]) then None
    else RunWave(width, height, Propagate(width, height, s, wave[0]), wave[1..])
  }

  /** With every cell of the rectangle there, a pass never panics. */
  lemma {:induction false} TotalRunWave(width: nat, height: nat, s: Beams, wave: seq<Pos>)
    requires Total(s.elements, width, height)
    ensures RunWave(width, height, s, wave).Some?
    decreases |wave|
  {
    if wave != [] {
      TotalRunWave(width, height, Propagate(width, height, s, wave[0]), wave[1..]);
    }
  }

  /**
   * A pass over beams all on row `row` keeps the grid invariant and only adds
   * splitters; afterwards every active beam is either one that was active and
   * not listed, or a beam inside the rectangle on row `row + 1`.
   */
  lemma {:induction false} RunWaveKeeps(original: map<Pos, Tile>, width: nat, height: nat,
                                        s: Beams, wave: seq<Pos>, row: nat)
    requires Consistent(original, s) && RunWave(width, height, s, wave).Some?
    requires forall i :: 0 <= i < |wave| ==> wave[i].1 == row
    ensures Consistent(original, RunWave(width, height, s, wave).value)
    ensures s.activeSplitters <= RunWave(width, height, s, wave).value.activeSplitters
    ensures forall q :: q in RunWave(width, height, s, wave).value.activeBeams ==>
      (q in s.activeBeams && q !in wave) || (q.1 == row + 1 && q.0 < width && q.1 < height)
    decreases |wave|
  {
    if wave != [] {
      var p := wave[0];
      var next := Propagate(width, height, s, p);
      PropagateConsistent(original, width, height, s, p);
      PropagateMovesDown(width, height, s, p);
      RunWaveKeeps(original, width, height, next, wave[1..], row);
      assert wave == [p] + wave[1..];
    }
  }
}
