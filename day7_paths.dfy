/**
 * Day 7, second part: `Grid::many_worlds` counts the timelines a single tachyon
 * particle can follow from the manifold. On a splitter the particle goes both
 * left and right, anywhere else it falls one row; a step off the grid ends one
 * timeline. `PathCount` is that count as a plain recursive definition, None
 * where the source panics because a timeline reaches a cell a short line of
 * the text does not have; the memoised search of the source is a method of
 * `BeamGrid.Grid`.
 * Source: src/bin/day-7/main.rs.
 */
module BeamPaths {
  import opened Wrappers
  import opened Beams
  import opened BeamWaves

  /**
   * No splitter has a splitter immediately left or right of it inside the grid.
   * Without this the source's recursion would bounce between two splitters for
   * ever; with it every step either falls a row or leaves a splitter sideways.
   */
  ghost predicate NoAdjacentSplitters(elements: map<Pos, Tile>, width: nat, height: nat) {
    forall b, l :: b in elements && elements[b] == Splitter && l in Laterals(width, height, b) && l in elements
      ==> elements[l] != Splitter
  }

  /** The rows left below `p`, the first half of the termination measure. */
  function RowsLeft(height: nat, p: Pos): nat {
    if p.1 < height then height - p.1 else 0
  }

  /** 1 on a splitter, 0 elsewhere: a sideways step leaves a splitter for a non-splitter. */
  function SplitterRank(elements: map<Pos, Tile>, p: Pos): nat {
    if p in elements && elements[p] == Splitter then 1 else 0
  }

  /** The steps a particle on `p` takes: left and right on a splitter, down elsewhere. */
  function NextSteps(elements: map<Pos, Tile>, width: nat, height: nat, p: Pos): (steps: seq<Option<Pos>>)
    requires p in elements
    ensures elements[p] == Splitter ==> |steps| == 2
    ensures elements[p] != Splitter ==> |steps| == 1
  {
    if elements[p] == Splitter then [NextPos(width, height, p, (-1, 0)), NextPos(width, height, p, (1, 0))]
    else [NextPos(width, height, p, (0, 1))]
  }

  /** Timelines added up; a panic in either part is a panic of the whole. */
  function AddPaths(a: Option<nat>, b: Option<nat>): (r: Option<nat>)
    ensures r.Some? <==> a.Some? && b.Some?
    ensures r.Some? ==> r.value == a.value + b.value
  {
    if a.Some? && b.Some? then Some(a.value + b.value) else None
  }

  /**
   * The timelines starting on `p`, or None where the source's `expect` panics:
   * some timeline from `p` reaches a cell the text does not have (a short line).
   */
  function PathCount(elements: map<Pos, Tile>, width: nat, height: nat, p: Pos): (n: Option<nat>)
    requires NoAdjacentSplitters(elements, width, height)
    ensures n.Some? ==> p in elements && n.value >= 1
    decreases RowsLeft(height, p), SplitterRank(elements, p), 1
  {
    if p !in elements then None
    else if elements[p] == Splitter then
      AddPaths(Branch(elements, width, height, p, NextPos(width, height, p, (-1, 0))),
               Branch(elements, width, height, p, NextPos(width, height, p, (1, 0))))
    else
      Branch(elements, width, height, p, NextPos(width, height, p, (0, 1)))
  }

  /**
   * The timelines of one step out of `from`: one if the step leaves the grid,
   * otherwise those starting where it lands.
   */
  function Branch(elements: map<Pos, Tile>, width: nat, height: nat, from: Pos, step: Option<Pos>): (n: Option<nat>)
    requires NoAdjacentSplitters(elements, width, height)
    requires from in elements && step in NextSteps(elements, width, height, from)
    ensures n.Some? ==> n.value >= 1
    ensures step.None? ==> n == Some(1)
    decreases RowsLeft(height, from), SplitterRank(elements, from), 0
  {
    match step
    case None => Some(1)
    case Some(q) =>
      assert q.1 == from.1 + 1 || (q.1 == from.1 && elements[from] == Splitter && q in Laterals(width, height, from));
      PathCount(elements, width, height, q)
  }

  /** The timelines of a list of steps out of `from`, added up. */
  function Branches(elements: map<Pos, Tile>, width: nat, height: nat, from: Pos, steps: seq<Option<Pos>>): Option<nat>
    requires NoAdjacentSplitters(elements, width, height)
    requires from in elements
    requires forall i :: 0 <= i < |steps| ==> steps[i] in NextSteps(elements, width, height, from)
  {
    if steps == [] then Some(0)
    else
      AddPaths(Branches(elements, width, height, from, steps[..|steps| - 1]),
               Branch(elements, width, height, from, steps[|steps| - 1]))
  }

  /** Adding up the branches of every step out of `p` gives the timelines from `p`. */
  lemma BranchesOfSteps(elements: map<Pos, Tile>, width: nat, height: nat, p: Pos)
    requires NoAdjacentSplitters(elements, width, height)
    requires p in elements
    ensures Branches(elements, width, height, p, NextSteps(elements, width, height, p))
      == PathCount(elements, width, height, p)
  {
    var steps := NextSteps(elements, width, height, p);
    if elements[p] == Splitter {
      var none: seq<Option<Pos>> := [];
      assert steps[..1][..0] == none;
      assert Branches(elements, width, height, p, steps[..1]) == Branch(elements, width, height, p, steps[0]);
      assert Branches(elements, width, height, p, steps)
        == AddPaths(Branch(elements, width, height, p, steps[0]), Branch(elements, width, height, p, steps[1]));
    } else {
      var none: seq<Option<Pos>> := [];
      assert steps[..0] == none;
    }
  }

  /** Once the branches of a prefix of the steps panic, so do those of all the steps. */
  lemma {:induction false} BranchesPanic(elements: map<Pos, Tile>, width: nat, height: nat, from: Pos,
                                         steps: seq<Option<Pos>>, k: nat)
    requires NoAdjacentSplitters(elements, width, height)
    requires from in elements
    requires forall i :: 0 <= i < |steps| ==> steps[i] in NextSteps(elements, width, height, from)
    requires k <= |steps| && Branches(elements, width, height, from, steps[..k]).None?
    ensures Branches(elements, width, height, from, steps).None?
    decreases |steps| - k
  {
    if k < |steps| {
      var next := steps[..k + 1];
      assert next[..|next| - 1] == steps[..k];
      BranchesPanic(elements, width, height, from, steps, k + 1);
    } else {
      assert steps[..k] == steps;
    }
  }

  /**
   * A table of already counted positions is sound when every entry holds the
   * number of timelines from its position.
   */
  ghost predicate MemoSound(elements: map<Pos, Tile>, width: nat, height: nat, visited: map<Pos, nat>) {
    && NoAdjacentSplitters(elements, width, height)
    && forall q :: q in visited ==> PathCount(elements, width, height, q) == Some(visited[q])
  }

  /**
   * When every cell of the rectangle is there, no timeline reaches a missing
   * cell, so the count from any cell of the text exists.
   */
  lemma {:induction false} PathCountTotal(elements: map<Pos, Tile>, width: nat, height: nat, p: Pos)
    requires Total(elements, width, height) && NoAdjacentSplitters(elements, width, height)
    requires p in elements
    ensures PathCount(elements, width, height, p).Some?
    decreases RowsLeft(height, p), SplitterRank(elements, p)
  {
    if elements[p] == Splitter {
      var left := NextPos(width, height, p, (-1, 0));
      var right := NextPos(width, height, p, (1, 0));
      if left.Some? {
        assert left.value in Laterals(width, height, p);
        PathCountTotal(elements, width, height, left.value);
      }
      if right.Some? {
        assert right.value in Laterals(width, height, p);
        PathCountTotal(elements, width, height, right.value);
      }
    } else {
      var down := NextPos(width, height, p, (0, 1));
      if down.Some? {
        PathCountTotal(elements, width, height, down.value);
      }
    }
  }

  // ---------------------------------------------------------------------------
  // Properties of the count

  function Pow2(k: nat): (p: nat)
    ensures p >= 1
  {
    if k == 0 then 1 else 2 * Pow2(k - 1)
  }

  /**
   * Each row at most doubles the timelines: from a cell on row y there are at
   * most 2^(height - y) of them, and at most half that from a non-splitter.
   */
  lemma {:induction false} PathCountBound(elements: map<Pos, Tile>, width: nat, height: nat, p: Pos)
    requires NoAdjacentSplitters(elements, width, height)
    requires p.1 < height && PathCount(elements, width, height, p).Some?
    ensures elements[p] != Splitter ==> PathCount(elements, width, height, p).value <= Pow2(height - p.1 - 1)
    ensures PathCount(elements, width, height, p).value <= Pow2(height - p.1)
    decreases RowsLeft(height, p), SplitterRank(elements, p)
  {
    if elements[p] == Splitter {
      var left := NextPos(width, height, p, (-1, 0));
      var right := NextPos(width, height, p, (1, 0));
      if left.Some? {
        assert left.value in Laterals(width, height, p);
        PathCountBound(elements, width, height, left.value);
      }
      if right.Some? {
        assert right.value in Laterals(width, height, p);
        PathCountBound(elements, width, height, right.value);
      }
    } else {
      var down := NextPos(width, height, p, (0, 1));
      if down.Some? {
        PathCountBound(elements, width, height, down.value);
      }
    }
  }

  /**
   * A non-splitter cell whose column below it is all there and free of
   * splitters has one timeline.
   */
  lemma {:induction false} ClearColumn(elements: map<Pos, Tile>, width: nat, height: nat, p: Pos)
    requires NoAdjacentSplitters(elements, width, height)
    requires p in elements && elements[p] != Splitter
    requires forall y :: p.1 < y < height ==> (p.0, y) in elements && elements[(p.0, y)] != Splitter
    ensures PathCount(elements, width, height, p) == Some(1)
    decreases RowsLeft(height, p)
  {
    var down := NextPos(width, height, p, (0, 1));
    if down.Some? {
      var q := down.value;
      ClearColumn(elements, width, height, q);
    }
  }

  /**
   * A splitter on the last row: each side is either off the grid or a cell
   * with nothing below it, so each side is one timeline and the splitter gives
   * two, provided the cells beside it are there.
   */
  lemma BottomSplitter(elements: map<Pos, Tile>, width: nat, height: nat, p: Pos)
    requires NoAdjacentSplitters(elements, width, height)
    requires p in elements && elements[p] == Splitter && p.1 + 1 == height
    requires forall l :: l in Laterals(width, height, p) ==> l in elements
    ensures PathCount(elements, width, height, p) == Some(2)
  {
    var left := NextPos(width, height, p, (-1, 0));
    var right := NextPos(width, height, p, (1, 0));
    if left.Some? {
      assert left.value in Laterals(width, height, p);
      ClearColumn(elements, width, height, left.value);
    }
    if right.Some? {
      assert right.value in Laterals(width, height, p);
      ClearColumn(elements, width, height, right.value);
    }
  }

  /** Two grids with the same cells and the same splitters. */
  ghost predicate SameSplitters(e1: map<Pos, Tile>, e2: map<Pos, Tile>) {
    && e1.Keys == e2.Keys
    && forall q :: q in e1 ==> (e1[q] == Splitter <==> e2[q] == Splitter)
  }

  /**
   * Only splitters steer a particle: beam marks, the manifold and empty space
   * all let it fall, so grids with the same cells and the same splitters have
   * the same timelines, and panic alike.
   */
  lemma {:induction false} SplittersDecide(e1: map<Pos, Tile>, e2: map<Pos, Tile>, width: nat, height: nat, p: Pos)
    requires NoAdjacentSplitters(e1, width, height) && NoAdjacentSplitters(e2, width, height)
    requires SameSplitters(e1, e2)
    ensures PathCount(e1, width, height, p) == PathCount(e2, width, height, p)
    decreases RowsLeft(height, p), SplitterRank(e1, p)
  {
    if p in e1 {
      if e1[p] == Splitter {
        var left := NextPos(width, height, p, (-1, 0));
        var right := NextPos(width, height, p, (1, 0));
        if left.Some? {
          assert left.value in Laterals(width, height, p);
          SplittersDecide(e1, e2, width, height, left.value);
        }
        if right.Some? {
          assert right.value in Laterals(width, height, p);
          SplittersDecide(e1, e2, width, height, right.value);
        }
      } else {
        var down := NextPos(width, height, p, (0, 1));
        if down.Some? {
          SplittersDecide(e1, e2, width, height, down.value);
        }
      }
    }
  }

  /**
   * On a grid where every splitter has only empty space beside it, the beam
   * marks `activate` leaves behind do not change the count: the activated grid
   * has the timelines of the parsed one.
   */
  lemma ActivatedPaths(original: map<Pos, Tile>, elements: map<Pos, Tile>, width: nat, height: nat, p: Pos)
    requires Isolated(original, width, height)
    requires original.Keys <= elements.Keys && OnlyEmptyLit(original, elements)
    ensures NoAdjacentSplitters(original, width, height)
    ensures NoAdjacentSplitters(elements, width, height)
    ensures PathCount(elements, width, height, p) == PathCount(original, width, height, p)
  {
    assert SameSplitters(elements, original);
    SplittersDecide(elements, original, width, height, p);
  }
}
