/**
 * A wave-by-wave reference for `Grid::activate` on grids where no splitter has a
 * splitter or an 'S' tile immediately left or right of it. On such grids the
 * order in which the beams of one wave are propagated does not matter: the next
 * wave and the splitters hit are functions of the current wave alone, and the
 * splitters `activate` records are exactly those `ReachedSplitters` collects.
 * Source: src/bin/day-7/main.rs.
 */
module BeamWaves {
  import opened Wrappers
  import opened Beams

  /** No splitter has a non-empty tile immediately left or right of it. */
  ghost predicate Isolated(original: map<Pos, Tile>, width: nat, height: nat) {
    forall b, l :: b in original && original[b] == Splitter && l in Laterals(width, height, b) && l in original
      ==> original[l] == Empty
  }

  /** The beams one beam at `p` starts on the row below, judged on the parsed tiles. */
  function BeamsFrom(original: map<Pos, Tile>, width: nat, height: nat, p: Pos): set<Pos> {
    match Below(width, height, p)
    case None => {}
    case Some(b) =>
      if b in original && original[b] == Empty then {b}
      else if b in original && original[b] == Splitter then Laterals(width, height, b)
      else {}
  }

  /** The splitter a beam at `p` falls onto, if any. */
  function HitsFrom(original: map<Pos, Tile>, width: nat, height: nat, p: Pos): set<Pos> {
    match Below(width, height, p)
    case None => {}
    case Some(b) => if b in original && original[b] == Splitter then {b} else {}
  }

  /** The next wave of beams started by the wave `wave`. */
  ghost function WaveBeams(original: map<Pos, Tile>, width: nat, height: nat, wave: set<Pos>): set<Pos> {
    set p, q | p in wave && q in BeamsFrom(original, width, height, p) :: q
  }

  /** The splitters the wave `wave` falls onto. */
  ghost function WaveHits(original: map<Pos, Tile>, width: nat, height: nat, wave: set<Pos>): set<Pos> {
    set p, q | p in wave && q in HitsFrom(original, width, height, p) :: q
  }

  /**
   * The splitters recorded in the end, when `acc` is recorded so far and the wave
   * `wave` is falling from row `row`: each wave adds the splitters it falls onto
   * and is replaced by the beams it starts.
   */
  ghost function Reached(original: map<Pos, Tile>, width: nat, height: nat, acc: set<Pos>, wave: set<Pos>,
                         row: nat): set<Pos>
    decreases height - row
  {
    if row >= height then acc
    else Reached(original, width, height, acc + WaveHits(original, width, height, wave),
                 WaveBeams(original, width, height, wave), row + 1)
  }

  /** The splitters a beam entering at `manifold` activates. */
  ghost function ReachedSplitters(original: map<Pos, Tile>, width: nat, height: nat, manifold: Pos): set<Pos> {
    Reached(original, width, height, {}, {manifold}, manifold.1)
  }

  lemma WaveAdd(original: map<Pos, Tile>, width: nat, height: nat, done: set<Pos>, p: Pos)
    ensures WaveBeams(original, width, height, done + {p})
      == WaveBeams(original, width, height, done) + BeamsFrom(original, width, height, p)
    ensures WaveHits(original, width, height, done + {p})
      == WaveHits(original, width, height, done) + HitsFrom(original, width, height, p)
  {
    var n := WaveBeams(original, width, height, done + {p});
    forall q | q in BeamsFrom(original, width, height, p) ensures q in n {
      assert p in done + {p};
    }
    var h := WaveHits(original, width, height, done + {p});
    forall q | q in HitsFrom(original, width, height, p) ensures q in h {
      assert p in done + {p};
    }
  }

  lemma WaveEmpty(original: map<Pos, Tile>, width: nat, height: nat)
    ensures WaveBeams(original, width, height, {}) == {}
    ensures WaveHits(original, width, height, {}) == {}
  {
  }

  /** Once no beam is left, no further splitter is reached. */
  lemma {:induction false} ReachedNothing(original: map<Pos, Tile>, width: nat, height: nat, acc: set<Pos>,
                                          row: nat)
    ensures Reached(original, width, height, acc, {}, row) == acc
    decreases height - row
  {
    if row < height {
      WaveEmpty(original, width, height);
      ReachedNothing(original, width, height, acc, row + 1);
    }
  }

  /**
   * The beams of a wave from row `row` lie on the next row, inside the rectangle,
   * on cells that were parsed as empty space.
   */
  lemma WaveBeamsEmptyCells(original: map<Pos, Tile>, width: nat, height: nat, wave: set<Pos>, row: nat)
    requires Total(original, width, height) && Isolated(original, width, height)
    requires forall p :: p in wave ==> p.1 == row
    ensures forall q :: q in WaveBeams(original, width, height, wave) ==>
      q.1 == row + 1 && q.0 < width && q.1 < height && q in original && original[q] == Empty
  {
    forall q | q in WaveBeams(original, width, height, wave)
      ensures q.1 == row + 1 && q.0 < width && q.1 < height && q in original && original[q] == Empty
    {
      var p :| p in wave && q in BeamsFrom(original, width, height, p);
    }
  }

  /** Every cell holds its parsed tile, or a beam written over parsed empty space. */
  ghost predicate OnlyEmptyLit(original: map<Pos, Tile>, elements: map<Pos, Tile>) {
    forall q :: q in elements ==>
      (q in original && (elements[q] == original[q] || (elements[q] == Beam && original[q] == Empty)))
  }

  /**
   * The state part-way through the wave `start` on row `row`, once the beams in
   * `done` are propagated: the beams of `start` not yet done are still active,
   * together with the beams `done` started; the splitters `done` fell onto are
   * added to `acc`; the rows below hold their parsed tiles except for those beams.
   */
  ghost predicate WaveState(original: map<Pos, Tile>, width: nat, height: nat, s: Beams, row: nat,
                            start: set<Pos>, done: set<Pos>, acc: set<Pos>)
  {
    && s.elements.Keys == original.Keys
    && s.activeBeams == (start - done) + WaveBeams(original, width, height, done)
    && s.activeSplitters == acc + WaveHits(original, width, height, done)
    && OnlyEmptyLit(original, s.elements)
    && (forall q :: q in s.elements && q.1 > row ==>
          s.elements[q] == if q in WaveBeams(original, width, height, done) then Beam else original[q])
  }

  /** What `WaveStep` may rely on before propagating the beam at `p`. */
  ghost predicate StepReady(original: map<Pos, Tile>, width: nat, height: nat, s: Beams, row: nat,
                            start: set<Pos>, done: set<Pos>, acc: set<Pos>, p: Pos)
  {
    && Total(original, width, height) && Isolated(original, width, height) && NoBeams(original)
    && WaveState(original, width, height, s, row, start, done, acc)
    && (forall q :: q in start ==> q.1 == row)
    && (forall q :: q in done ==> q.1 == row)
    && p.1 == row && p !in done
  }

  /**
   * Propagating one more beam of the wave, in whatever order, keeps the wave state:
   * its effect depends only on the parsed tile below it.
   */
  lemma WaveStep(original: map<Pos, Tile>, width: nat, height: nat, s: Beams, row: nat,
                 start: set<Pos>, done: set<Pos>, acc: set<Pos>, p: Pos)
    requires StepReady(original, width, height, s, row, start, done, acc, p)
    ensures BelowKnown(width, height, s.elements, p)
    ensures WaveState(original, width, height, Propagate(width, height, s, p), row, start, done + {p}, acc)
  {
    WaveAdd(original, width, height, done, p);
    WaveBeamsEmptyCells(original, width, height, done, row);
    match Below(width, height, p)
    case None =>
      PropagateCases(width, height, s, p);
    case Some(b) =>
      assert b in original;
      if original[b] == Splitter {
        WaveStepSplitter(original, width, height, s, row, start, done, acc, p, b);
      } else if original[b] == Empty {
        WaveStepEmpty(original, width, height, s, row, start, done, acc, p, b);
      } else {
        assert b !in WaveBeams(original, width, height, done);
        PropagateCases(width, height, s, p);
      }
  }

  lemma WaveStepSplitter(original: map<Pos, Tile>, width: nat, height: nat, s: Beams, row: nat,
                         start: set<Pos>, done: set<Pos>, acc: set<Pos>, p: Pos, b: Pos)
    requires StepReady(original, width, height, s, row, start, done, acc, p)
    requires Below(width, height, p) == Some(b) && b in original && original[b] == Splitter
    ensures WaveState(original, width, height, Propagate(width, height, s, p), row, start, done + {p}, acc)
  {
    var t := Propagate(width, height, s, p);
    var ls := Laterals(width, height, b);
    WaveAdd(original, width, height, done, p);
    WaveBeamsEmptyCells(original, width, height, done, row);
    assert s.elements[b] == Splitter;
    PropagateCases(width, height, s, p);
    assert BeamsFrom(original, width, height, p) == ls;
    forall l | l in ls ensures l in original && original[l] == Empty {
    }
    assert t.activeBeams == (start - (done + {p})) + WaveBeams(original, width, height, done + {p});
  }

  lemma WaveStepEmpty(original: map<Pos, Tile>, width: nat, height: nat, s: Beams, row: nat,
                      start: set<Pos>, done: set<Pos>, acc: set<Pos>, p: Pos, b: Pos)
    requires StepReady(original, width, height, s, row, start, done, acc, p)
    requires Below(width, height, p) == Some(b) && b in original && original[b] == Empty
    ensures WaveState(original, width, height, Propagate(width, height, s, p), row, start, done + {p}, acc)
  {
    WaveAdd(original, width, height, done, p);
    WaveBeamsEmptyCells(original, width, height, done, row);
    assert BeamsFrom(original, width, height, p) == {b};
    PropagateCases(width, height, s, p);
    if s.elements[b] == Beam {
      assert b in WaveBeams(original, width, height, done);
      assert WaveBeams(original, width, height, done + {p}) == WaveBeams(original, width, height, done);
    } else {
      WaveStepFresh(original, width, height, s, row, start, done, acc, p, b);
    }
  }

  lemma WaveStepFresh(original: map<Pos, Tile>, width: nat, height: nat, s: Beams, row: nat,
                      start: set<Pos>, done: set<Pos>, acc: set<Pos>, p: Pos, b: Pos)
    requires StepReady(original, width, height, s, row, start, done, acc, p)
    requires Below(width, height, p) == Some(b) && b in original && original[b] == Empty
    requires s.elements[b] == Empty
    ensures WaveState(original, width, height, Propagate(width, height, s, p), row, start, done + {p}, acc)
  {
    var t := Propagate(width, height, s, p);
    WaveAdd(original, width, height, done, p);
    WaveBeamsEmptyCells(original, width, height, done, row);
    assert BeamsFrom(original, width, height, p) == {b};
    PropagateCases(width, height, s, p);
    assert t.elements == s.elements[b := Beam];
    assert t.activeBeams == (start - (done + {p})) + WaveBeams(original, width, height, done + {p});
  }

  /**
   * Between waves, at row `row`: the splitters still to be reached are those the
   * active beams reach, and the rows from `row` down hold their parsed tiles
   * except for the active beams.
   */
  ghost predicate Settled(original: map<Pos, Tile>, width: nat, height: nat, manifold: Pos, s: Beams, row: nat) {
    && s.elements.Keys == original.Keys
    && ReachedSplitters(original, width, height, manifold)
         == Reached(original, width, height, s.activeSplitters, s.activeBeams, row)
    && OnlyEmptyLit(original, s.elements)
    && (forall q :: q in s.elements && q.1 >= row ==>
          s.elements[q] == if q in s.activeBeams then Beam else original[q])
  }

  /** A settled state with every active beam on row `row` is the start of a wave. */
  lemma WaveBegins(original: map<Pos, Tile>, width: nat, height: nat, manifold: Pos, s: Beams, row: nat)
    requires Settled(original, width, height, manifold, s, row)
    requires forall q :: q in s.activeBeams ==> q.1 == row
    ensures WaveState(original, width, height, s, row, s.activeBeams, {}, s.activeSplitters)
    ensures ReachedSplitters(original, width, height, manifold)
      == Reached(original, width, height, s.activeSplitters, s.activeBeams, row)
  {
    WaveEmpty(original, width, height);
  }

  /** A finished wave leaves a settled state on the next row. */
  lemma WaveEnds(original: map<Pos, Tile>, width: nat, height: nat, manifold: Pos, s: Beams, row: nat,
                 start: set<Pos>, done: set<Pos>, acc: set<Pos>)
    requires row < height
    requires start <= done
    requires WaveState(original, width, height, s, row, start, done, acc)
    requires ReachedSplitters(original, width, height, manifold) == Reached(original, width, height, acc, done, row)
    ensures Settled(original, width, height, manifold, s, row + 1)
  {
    assert s.activeBeams == WaveBeams(original, width, height, done);
  }

  /** The first propagation, from the manifold of an untouched grid, settles the next row. */
  lemma ManifoldFalls(original: map<Pos, Tile>, width: nat, height: nat, manifold: Pos)
    requires Total(original, width, height) && Isolated(original, width, height) && NoBeams(original)
    requires manifold in original && original[manifold] == Manifold && manifold.1 < height
    ensures BelowKnown(width, height, original, manifold)
    ensures Settled(original, width, height, manifold,
                    Propagate(width, height, Beams(original, {}, {}), manifold), manifold.1 + 1)
  {
    var s := Beams(original, {}, {});
    var next := Propagate(width, height, s, manifold);
    assert StepReady(original, width, height, s, manifold.1, {}, {}, {}, manifold) by {
      WaveEmpty(original, width, height);
      assert WaveState(original, width, height, s, manifold.1, {}, {}, {});
    }
    assert BelowKnown(width, height, original, manifold)
      && WaveState(original, width, height, next, manifold.1, {}, {manifold}, {}) by {
      WaveStep(original, width, height, s, manifold.1, {}, {}, {}, manifold);
      assert {} + {manifold} == {manifold};
    }
    WaveEnds(original, width, height, manifold, next, manifold.1, {}, {manifold}, {});
  }

  /**
   * The first line of `activate` on any grid state with no active beam and a
   * cell below the manifold: the beam below the manifold is the only one
   * falling, and on an untouched rectangular grid the state is settled one row
   * down.
   */
  lemma ManifoldFalling(original: map<Pos, Tile>, width: nat, height: nat, manifold: Pos, s: Beams,
                        pristine: bool)
    requires NoBeams(original) && Consistent(original, s)
    requires manifold in original && original[manifold] == Manifold && manifold.1 < height
    requires s.activeBeams == {} && BelowKnown(width, height, s.elements, manifold)
    requires pristine ==>
      s == Beams(original, {}, {}) && Total(original, width, height) && Isolated(original, width, height)
    ensures Consistent(original, Propagate(width, height, s, manifold))
    ensures Falling(original, width, height, manifold, Propagate(width, height, s, manifold), manifold.1 + 1, pristine)
    ensures s.activeSplitters <= Propagate(width, height, s, manifold).activeSplitters
  {
    PropagateConsistent(original, width, height, s, manifold);
    PropagateMovesDown(width, height, s, manifold);
    if pristine {
      ManifoldFalls(original, width, height, manifold);
    }
  }

  /** Once no beam is active, the splitters recorded are exactly those the reference reaches. */
  lemma SettledDone(original: map<Pos, Tile>, width: nat, height: nat, manifold: Pos, s: Beams, row: nat)
    requires Settled(original, width, height, manifold, s, row) && s.activeBeams == {}
    ensures s.activeSplitters == ReachedSplitters(original, width, height, manifold)
    ensures OnlyEmptyLit(original, s.elements)
  {
    ReachedNothing(original, width, height, s.activeSplitters, row);
  }

  /** Propagating the rest of a wave, in the listed order, completes the wave state. */
  lemma {:induction false} RunWaveState(original: map<Pos, Tile>, width: nat, height: nat, s: Beams, row: nat,
                                        start: set<Pos>, done: set<Pos>, acc: set<Pos>, rest: seq<Pos>)
    requires Total(original, width, height) && Isolated(original, width, height) && NoBeams(original)
    requires WaveState(original, width, height, s, row, start, done, acc)
    requires forall q :: q in start ==> q.1 == row
    requires done <= start
    requires forall q :: q in start ==> q in done || q in rest
    requires forall i :: 0 <= i < |rest| ==> rest[i] in start && rest[i] !in done
    requires forall i, j :: 0 <= i < j < |rest| ==> rest[i] != rest[j]
    ensures RunWave(width, height, s, rest).Some?
    ensures WaveState(original, width, height, RunWave(width, height, s, rest).value, row, start, start, acc)
    decreases |rest|
  {
    if rest == [] {
      assert done == start;
    } else {
      var p := rest[0];
      WaveStep(original, width, height, s, row, start, done, acc, p);
      forall i | 0 <= i < |rest[1..]| ensures rest[1..][i] !in done + {p} {
        assert rest[1..][i] == rest[i + 1];
      }
      forall q | q in start ensures q in done + {p} || q in rest[1..] {
        if q !in done && q != p {
          var k :| 0 <= k < |rest| && rest[k] == q;
          assert rest[1..][k - 1] == q;
        }
      }
      RunWaveState(original, width, height, Propagate(width, height, s, p), row, start, done + {p}, acc, rest[1..]);
    }
  }

  /**
   * On an untouched-layout grid, one pass over a listing of the active beams
   * takes a settled state on row `row` to a settled state on row `row + 1`,
   * whatever the order of the listing.
   */
  lemma RunWaveSettles(original: map<Pos, Tile>, width: nat, height: nat, manifold: Pos, s: Beams, row: nat,
                       wave: seq<Pos>)
    requires Total(original, width, height) && Isolated(original, width, height) && NoBeams(original)
    requires Settled(original, width, height, manifold, s, row) && row < height
    requires forall q :: q in s.activeBeams ==> q.1 == row
    requires forall q :: q in wave <==> q in s.activeBeams
    requires forall i, j :: 0 <= i < j < |wave| ==> wave[i] != wave[j]
    ensures RunWave(width, height, s, wave).Some?
    ensures Settled(original, width, height, manifold, RunWave(width, height, s, wave).value, row + 1)
  {
    WaveBegins(original, width, height, manifold, s, row);
    RunWaveState(original, width, height, s, row, s.activeBeams, {}, s.activeSplitters, wave);
    WaveEnds(original, width, height, manifold, RunWave(width, height, s, wave).value, row,
             s.activeBeams, s.activeBeams, s.activeSplitters);
  }

  /**
   * Between two waves of `activate`: every active beam lies inside the grid on
   * row `row`, and on an untouched-layout rectangular grid the state is settled
   * at that row.
   */
  ghost predicate Falling(original: map<Pos, Tile>, width: nat, height: nat, manifold: Pos, s: Beams,
                          row: nat, pristine: bool)
  {
    && row <= height
    && (forall p :: p in s.activeBeams ==> p.1 == row && p.0 < width && p.1 < height)
    && (pristine ==>
          && Total(original, width, height) && Isolated(original, width, height)
          && Settled(original, width, height, manifold, s, row))
  }

  /**
   * One wave of `activate`, in whatever order its snapshot lists the active
   * beams: on a rectangular grid it does not panic; when it does not panic it
   * keeps the grid invariant, only adds splitters, and moves the falling beams
   * one row down.
   */
  lemma WaveFalls(original: map<Pos, Tile>, width: nat, height: nat, manifold: Pos, s: Beams,
                  row: nat, pristine: bool, wave: seq<Pos>)
    requires NoBeams(original)
    requires Consistent(original, s) && Falling(original, width, height, manifold, s, row, pristine)
    requires s.activeBeams != {}
    requires forall q :: q in wave <==> q in s.activeBeams
    requires forall i, j :: 0 <= i < j < |wave| ==> wave[i] != wave[j]
    ensures Total(original, width, height) ==> RunWave(width, height, s, wave).Some?
    ensures RunWave(width, height, s, wave).Some? ==>
      && Consistent(original, RunWave(width, height, s, wave).value)
      && s.activeSplitters <= RunWave(width, height, s, wave).value.activeSplitters
      && Falling(original, width, height, manifold, RunWave(width, height, s, wave).value, row + 1, pristine)
  {
    assert row < height by {
      var p :| p in s.activeBeams;
    }
    forall i | 0 <= i < |wave| ensures wave[i].1 == row {
      assert wave[i] in s.activeBeams;
    }
    if Total(original, width, height) {
      assert Total(s.elements, width, height);
      TotalRunWave(width, height, s, wave);
    }
    if RunWave(width, height, s, wave).Some? {
      RunWaveKeeps(original, width, height, s, wave, row);
      if pristine {
        RunWaveSettles(original, width, height, manifold, s, row, wave);
      }
    }
  }
}
