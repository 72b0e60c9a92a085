/**
 * Day 7 on a ragged grid: the text "S.\n." has a second line shorter than the
 * first, so the cell (1, 1) is missing. No beam and no timeline reaches it, so
 * neither part panics.
 */
module BeamTests {
  import opened Wrappers
  import opened Beams
  import opened BeamPaths

  /** The parsed cells of "S.\n.": width 2 (the first line), height 2. */
  function RaggedCells(): map<Pos, Tile> {
    map[(0, 0) := Manifold, (1, 0) := Empty, (0, 1) := Empty]
  }

  /** The grid is not rectangular: the cell (1, 1) is missing. */
  lemma RaggedNotTotal()
    ensures !Total(RaggedCells(), 2, 2)
  {
    assert (1, 1) !in RaggedCells();
  }

  /**
   * `activate` on "S.\n.": the manifold lights (0, 1), and that beam then falls
   * off the bottom; no step looks at (1, 1).
   */
  lemma RaggedActivates()
    ensures BelowKnown(2, 2, RaggedCells(), (0, 0))
    ensures var lit := Propagate(2, 2, Beams(RaggedCells(), {}, {}), (0, 0));
      && lit.activeBeams == {(0, 1)}
      && RunWave(2, 2, lit, [(0, 1)]) == Some(Beams(RaggedCells()[(0, 1) := Beam], {}, {}))
  {
    var e := RaggedCells();
    assert Below(2, 2, (0, 0)) == Some((0, 1));
    assert Below(2, 2, (0, 1)) == None;
    var lit := Propagate(2, 2, Beams(e, {}, {}), (0, 0));
    assert lit == Beams(e[(0, 1) := Beam], {(0, 1)}, {});
    assert BelowKnown(2, 2, lit.elements, (0, 1));
    var fallen := Propagate(2, 2, lit, (0, 1));
    assert fallen == Beams(e[(0, 1) := Beam], {}, {});
    assert [(0, 1)][1..] == [];
    assert RunWave(2, 2, lit, [(0, 1)]) == RunWave(2, 2, fallen, []);
  }

  /** `many_worlds` on "S.\n.": one timeline, straight down and off the grid. */
  lemma RaggedManyWorlds()
    ensures NoAdjacentSplitters(RaggedCells(), 2, 2)
    ensures PathCount(RaggedCells(), 2, 2, (0, 0)) == Some(1)
  {
    var e := RaggedCells();
    assert PathCount(e, 2, 2, (0, 1)) == Some(1);
  }

  /** A timeline that reaches a missing cell is where `many_worlds` panics. */
  lemma MissingCellPanics()
    ensures NoAdjacentSplitters(map[(0, 0) := Manifold, (1, 0) := Empty], 2, 2)
    ensures PathCount(map[(0, 0) := Manifold, (1, 0) := Empty], 2, 2, (0, 0)) == None
  {
    var e: map<Pos, Tile> := map[(0, 0) := Manifold, (1, 0) := Empty];
    assert (0, 1) !in e;
  }
}
