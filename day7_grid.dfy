/**
 * Day 7's `Grid`: parsing the puzzle text, and `activate`, which lets the beam
 * from the manifold fall wave by wave until no beam is active, recording every
 * splitter a beam falls onto.
 * Source: src/bin/day-7/main.rs.
 */
module BeamGrid {
  import opened Wrappers
  import opened Text
  import opened Beams
  import opened BeamWaves
  import opened BeamPaths

  /** Row y of the text has a character at column x. */
  predicate InText(lines: seq<string>, p: Pos) {
    p.1 < |lines| && p.0 < |lines[p.1]|
  }

  /** `p` comes before `q` when the text is read row by row, left to right. */
  predicate RowMajorBefore(p: Pos, q: Pos) {
    p.1 < q.1 || (p.1 == q.1 && p.0 < q.0)
  }

  /** `p` is among the cells a row-by-row scan has visited once it reaches column x of row y. */
  predicate Visited(p: Pos, y: nat, x: nat) {
    p.1 < y || (p.1 == y && p.0 < x)
  }

  /**
   * The loops of `Grid::from`: every character becomes a tile at its (column, row),
   * and the manifold is the last 'S' in reading order, if there is one.
   */
  method Scan(lines: seq<string>) returns (elements: map<Pos, Tile>, manifold: Option<Pos>)
    ensures forall p: Pos :: p in elements <==> InText(lines, p)
    ensures forall p: Pos :: p in elements ==> InText(lines, p) && elements[p] == TileOf(lines[p.1][p.0])
    ensures manifold.None? <==> forall p: Pos :: InText(lines, p) ==> lines[p.1][p.0] != 'S'
    ensures manifold.Some? ==> InText(lines, manifold.value) && lines[manifold.value.1][manifold.value.0] == 'S'
    ensures manifold.Some? ==> forall p: Pos :: InText(lines, p) && lines[p.1][p.0] == 'S' ==>
      p == manifold.value || RowMajorBefore(p, manifold.value)
  {
    elements := map[];
    manifold := None;
    var y := 0;
    while y < |lines|
      invariant y <= |lines|
      invariant forall p: Pos :: p in elements <==> InText(lines, p) && p.1 < y
      invariant forall p: Pos :: p in elements ==> InText(lines, p) && elements[p] == TileOf(lines[p.1][p.0])
      invariant manifold.None? <==> forall p: Pos :: InText(lines, p) && p.1 < y ==> lines[p.1][p.0] != 'S'
      invariant manifold.Some? ==>
        InText(lines, manifold.value) && manifold.value.1 < y && lines[manifold.value.1][manifold.value.0] == 'S'
      invariant manifold.Some? ==> forall p: Pos :: InText(lines, p) && p.1 < y && lines[p.1][p.0] == 'S' ==>
        p == manifold.value || RowMajorBefore(p, manifold.value)
    {
      var row := lines[y];
      var x := 0;
      while x < |row|
        invariant x <= |row|
        invariant forall p: Pos :: p in elements <==> InText(lines, p) && Visited(p, y, x)
        invariant forall p: Pos :: p in elements ==> InText(lines, p) && elements[p] == TileOf(lines[p.1][p.0])
        invariant manifold.None? <==> forall p: Pos :: InText(lines, p) && Visited(p, y, x) ==> lines[p.1][p.0] != 'S'
        invariant manifold.Some? ==>
          InText(lines, manifold.value) && Visited(manifold.value, y, x) && lines[manifold.value.1][manifold.value.0] == 'S'
        invariant manifold.Some? ==> forall p: Pos :: InText(lines, p) && Visited(p, y, x) && lines[p.1][p.0] == 'S' ==>
          p == manifold.value || RowMajorBefore(p, manifold.value)
      {
        if row[x] == 'S' {
          manifold := Some((x, y));
        }
        elements := elements[(x, y) := TileOf(row[x])];
        x := x + 1;
      }
      y := y + 1;
    }
  }

  /** An arbitrary listing of a set, like collecting a `HashSet` into a `Vec`. */
  method Listing(s: set<Pos>) returns (xs: seq<Pos>)
    ensures forall q :: q in xs <==> q in s
    ensures forall i, j :: 0 <= i < j < |xs| ==> xs[i] != xs[j]
  {
    xs := [];
    var rest := s;
    while rest != {}
      invariant rest <= s
      invariant forall q :: q in xs <==> q in s - rest
      invariant forall i, j :: 0 <= i < j < |xs| ==> xs[i] != xs[j]
      decreases |rest|
    {
      var q :| q in rest;
      assert q !in xs;
      xs := xs + [q];
      rest := rest - {q};
    }
  }

  class Grid {
    var activeSplitters: set<Pos>
    var elements: map<Pos, Tile>
    var manifold: Pos
    var activeBeams: set<Pos>
    var height: nat
    var width: nat
    /** The tiles as parsed, before any beam was written. */
    ghost var original: map<Pos, Tile>

    function State(): Beams
      reads this
    {
      Beams(elements, activeBeams, activeSplitters)
    }

    /** What no method after construction changes: the manifold, the size and the parsed tiles. */
    ghost function Shape(): (Pos, nat, nat, map<Pos, Tile>)
      reads this
    {
      (manifold, width, height, original)
    }

    ghost predicate Valid()
      reads this
    {
      && Consistent(original, State())
      && NoBeams(original)
      && manifold in original && original[manifold] == Manifold
      && manifold.1 < height
    }

    /**
     * Nothing has happened yet, and no splitter has a splitter or an 'S' tile
     * immediately left or right of it.
     */
    ghost predicate Pristine()
      reads this
    {
      && elements == original && activeBeams == {} && activeSplitters == {}
      && Isolated(original, width, height)
    }

    /**
     * `Grid::from`. The text must hold an 'S' (the source's `expect`); the width
     * is the length of the first line and the height the number of lines.
     */
    constructor (value: string)
      requires exists p: Pos :: InText(Lines(value), p) && Lines(value)[p.1][p.0] == 'S'
      ensures Valid() && elements == original
      ensures activeBeams == {} && activeSplitters == {}
      ensures height == |Lines(value)| && width == |Lines(value)[0]|
      ensures forall p: Pos :: p in elements <==> InText(Lines(value), p)
      ensures forall p: Pos :: p in elements ==> InText(Lines(value), p) && elements[p] == TileOf(Lines(value)[p.1][p.0])
      ensures InText(Lines(value), manifold) && Lines(value)[manifold.1][manifold.0] == 'S'
      ensures forall p: Pos :: InText(Lines(value), p) && Lines(value)[p.1][p.0] == 'S' ==>
        p == manifold || RowMajorBefore(p, manifold)
    {
      var lines := Lines(value);
      var parsed, found := Scan(lines);
      activeSplitters := {};
      elements := parsed;
      manifold := found.value;
      activeBeams := {};
      width := |lines[0]|;
      height := |lines|;
      original := parsed;
    }

    /** `Grid::set_tile`: write `tile` at `p`; a beam tile also becomes active. */
    method SetTile(p: Pos, tile: Tile)
      modifies this
      ensures State() == WithTile(old(State()), p, tile)
      ensures Shape() == old(Shape())
    {
      if tile == Beam {
        activeBeams := activeBeams + {p};
      }
      elements := elements[p := tile];
    }

    /** `Grid::maybe_set_tile_at`. */
    method MaybeSetTileAt(coord: Pos, direction: (int, int), tile: Tile)
      modifies this
      ensures State() == WithTileAt(width, height, old(State()), coord, direction, tile)
      ensures Shape() == old(Shape())
    {
      var next := NextPos(width, height, coord, direction);
      if next.Some? {
        SetTile(next.value, tile);
      }
    }

    /** `Grid::propagate_beam`. */
    method PropagateBeam(coord: Pos)
      requires BelowKnown(width, height, elements, coord)
      modifies this
      ensures Shape() == old(Shape())
      ensures State() == Propagate(width, height, old(State()), coord)
    {
      var below := NextPos(width, height, coord, (0, 1));
      if below.Some? {
        var b := below.value;
        var tile := elements[b];
        match tile {
          case Empty =>
            SetTile(b, Beam);
          case Splitter =>
            activeSplitters := activeSplitters + {b};
            MaybeSetTileAt(b, (-1, 0), Beam);
            MaybeSetTileAt(b, (1, 0), Beam);
          case _ =>
        }
      }
      activeBeams := activeBeams - {coord};
    }

    /**
     * `propagate_beam` on every coordinate of the snapshot `wave`, first to last.
     * `ok` is false where the source's `expect` panics: the cell below the next
     * beam is inside the rectangle but missing from the text; the pass stops there.
     */
    method PropagateAll(wave: seq<Pos>) returns (ok: bool)
      modifies this
      ensures Shape() == old(Shape())
      ensures ok <==> RunWave(width, height, old(State()), wave).Some?
      ensures ok ==> State() == RunWave(width, height, old(State()), wave).value
    {
      ghost var s := State();
      var i := 0;
      while i < |wave|
        invariant i <= |wave|
        invariant RunWave(width, height, State(), wave[i..]) == RunWave(width, height, s, wave)
        invariant Shape() == old(Shape())
      {
        assert wave[i..] == [wave[i]] + wave[i + 1..];
        if !BelowKnown(width, height, elements, wave[i]) {
          return false;
        }
        PropagateBeam(wave[i]);
        i := i + 1;
      }
      return true;
    }

    /**
     * One pass of the `activate` loop: the active beams are listed in some order
     * and propagated in that order. On a rectangular grid the pass does not
     * panic; when it does not, the beams fall one row, and on an untouched-layout
     * grid the state stays settled.
     */
    method PropagateWave(ghost row: nat, ghost pristine: bool) returns (ok: bool)
      requires Valid() && Falling(original, width, height, manifold, State(), row, pristine)
      requires activeBeams != {}
      modifies this
      ensures Total(original, width, height) ==> ok
      ensures ok ==> Valid() && Falling(original, width, height, manifold, State(), row + 1, pristine)
      ensures ok ==> old(activeSplitters) <= activeSplitters
      ensures Shape() == old(Shape())
    {
      ghost var s := State();
      var wave := Listing(activeBeams);
      WaveFalls(original, width, height, manifold, s, row, pristine, wave);
      ok := PropagateAll(wave);
    }

    /**
     * The first line of `activate`: the beam leaves the manifold. `ok` is false
     * where the `expect` panics because the cell below the manifold is missing.
     */
    method PropagateManifold(ghost pristine: bool) returns (ok: bool)
      requires Valid() && activeBeams == {}
      requires pristine ==> Pristine() && Total(original, width, height)
      modifies this
      ensures Total(original, width, height) ==> ok
      ensures ok ==> Valid() && Falling(original, width, height, manifold, State(), manifold.1 + 1, pristine)
      ensures ok ==> old(activeSplitters) <= activeSplitters
      ensures Shape() == old(Shape())
    {
      if !BelowKnown(width, height, elements, manifold) {
        return false;
      }
      ManifoldFalling(original, width, height, manifold, State(), pristine);
      PropagateBeam(manifold);
      return true;
    }

    /**
     * The `while` loop of `activate`: wave after wave until no beam is active,
     * or until a wave panics. Each wave moves the falling beams one row down, so
     * the loop ends by the bottom row at the latest; `lastRow` is the row it
     * ends on.
     */
    method Descend(ghost row: nat, ghost pristine: bool) returns (ok: bool, ghost lastRow: nat)
      requires Valid() && Falling(original, width, height, manifold, State(), row, pristine)
      modifies this
      ensures Total(original, width, height) ==> ok
      ensures ok ==> Valid() && activeBeams == {}
      ensures ok ==> Falling(original, width, height, manifold, State(), lastRow, pristine)
      ensures ok ==> old(activeSplitters) <= activeSplitters
      ensures Shape() == old(Shape())
    {
      ok := true;
      lastRow := row;
      while activeBeams != {}
        invariant Valid() && Falling(original, width, height, manifold, State(), lastRow, pristine)
        invariant old(activeSplitters) <= activeSplitters
        invariant Shape() == old(Shape())
        decreases height - lastRow
      {
        ok := PropagateWave(lastRow, pristine);
        if !ok {
          return;
        }
        lastRow := lastRow + 1;
      }
    }

    /**
     * `Grid::activate`: propagate the manifold, then propagate every active beam,
     * wave by wave, in whatever order the set is listed, until none is left.
     * `ok` is false where the source panics: a beam falls towards a cell inside
     * the rectangle that a short line of the text does not have. That never
     * happens on a rectangular grid, and a ragged grid runs to the end when no
     * beam reaches a missing cell. When it runs to the end, splitters are only
     * ever added, and only parsed splitters are added. On a rectangular grid
     * where no splitter has a splitter or the manifold beside it, the result
     * does not depend on the listing order: it is the set `ReachedSplitters` of
     * the wave reference, and every cell still holds its parsed tile or a beam
     * over parsed empty space.
     */
    method Activate() returns (ok: bool)
      requires Valid() && activeBeams == {}
      modifies this
      ensures Shape() == old(Shape())
      ensures Total(original, width, height) ==> ok
      ensures ok ==> Valid() && activeBeams == {}
      ensures ok ==> old(activeSplitters) <= activeSplitters <= SplittersOf(original)
      ensures old(Pristine()) && Total(original, width, height) ==>
        activeSplitters == ReachedSplitters(original, width, height, manifold)
      ensures old(Pristine()) && Total(original, width, height) ==> OnlyEmptyLit(original, elements)
    {
      ghost var pristine := Pristine() && Total(original, width, height);
      ok := PropagateManifold(pristine);
      if !ok {
        return;
      }
      ghost var row;
      ok, row := Descend(manifold.1 + 1, pristine);
      if ok && pristine {
        SettledDone(original, width, height, manifold, State(), row);
      }
    }

    /**
     * `Grid::many_world_rec`: the timelines from `current`, taken from `visited`
     * when it is there, otherwise added up over the steps out of `current` and
     * recorded. None where the source's `expect` panics: `current`, or a cell a
     * timeline from it reaches, is missing from the text. The table the source
     * updates in place is passed in and out.
     */
    method ManyWorldRec(current: Pos, visited: map<Pos, nat>) returns (pathCount: Option<nat>, visited': map<Pos, nat>)
      requires MemoSound(elements, width, height, visited)
      ensures pathCount == PathCount(elements, width, height, current)
      ensures MemoSound(elements, width, height, visited') && visited.Keys <= visited'.Keys
      ensures pathCount.Some? ==> current in visited'
      decreases RowsLeft(height, current), SplitterRank(elements, current)
    {
      if current in visited {
        return Some(visited[current]), visited;
      }
      if current !in elements {
        return None, visited;
      }
      var nextPositions := NextSteps(elements, width, height, current);
      var count := 0;
      visited' := visited;
      var i := 0;
      while i < |nextPositions|
        invariant i <= |nextPositions|
        invariant MemoSound(elements, width, height, visited') && visited.Keys <= visited'.Keys
        invariant Branches(elements, width, height, current, nextPositions[..i]) == Some(count)
      {
        assert nextPositions[..i + 1][..i] == nextPositions[..i];
        match nextPositions[i] {
          case Some(next) =>
            assert next.1 == current.1 + 1 || (elements[current] == Splitter && next in Laterals(width, height, current));
            var childPaths;
            childPaths, visited' := ManyWorldRec(next, visited');
            if childPaths.None? {
              BranchesPanic(elements, width, height, current, nextPositions, i + 1);
              BranchesOfSteps(elements, width, height, current);
              return None, visited';
            }
            count := count + childPaths.value;
          case None =>
            count := count + 1;
        }
        i := i + 1;
      }
      assert nextPositions[..i] == nextPositions;
      BranchesOfSteps(elements, width, height, current);
      pathCount := Some(count);
      visited' := visited'[current := count];
    }

    /**
     * `Grid::many_worlds`: the timelines from the manifold, with a fresh table;
     * None where the source panics on a missing cell, which a rectangular grid
     * does not have. The source's recursion only ends when no splitter has a
     * splitter beside it.
     */
    method ManyWorlds() returns (count: Option<nat>)
      requires NoAdjacentSplitters(elements, width, height)
      ensures count == PathCount(elements, width, height, manifold)
      ensures Total(elements, width, height) && manifold in elements ==> count.Some?
    {
      var visited := map[];
      count, visited := ManyWorldRec(manifold, visited);
      if Total(elements, width, height) && manifold in elements {
        PathCountTotal(elements, width, height, manifold);
      }
    }
  }
}
