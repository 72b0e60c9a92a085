/**
 * The regression tests of src/bin/day-1/main.rs, as lemmas and methods whose
 * results are proved.
 */
module DialTests {
  import opened Wrappers
  import opened Text
  import opened Dial

  lemma SampleRendered()
    ensures RenderAll([Left(68), Left(30), Right(48), Left(5), Right(60), Left(55), Left(1), Left(99), Right(14), Left(82)])
      == ["L68", "L30", "R48", "L5", "R60", "L55", "L1", "L99", "R14", "L82"]
  {
    var ds := [Left(68), Left(30), Right(48), Left(5), Right(60), Left(55), Left(1), Left(99), Right(14), Left(82)];
    var lines := ["L68", "L30", "R48", "L5", "R60", "L55", "L1", "L99", "R14", "L82"];
    SampleRenderedHead();
    SampleRenderedTail();
    assert forall i | 0 <= i < 10 :: Render(ds[i]) == lines[i];
  }

  /** The first five instructions of the sample, written out. */
  lemma SampleRenderedHead()
    ensures Render(Left(68)) == "L68" && Render(Left(30)) == "L30" && Render(Right(48)) == "R48"
    ensures Render(Left(5)) == "L5" && Render(Right(60)) == "R60"
  {
    assert Render(Left(68)) == "L68" && Render(Left(30)) == "L30";
    assert Render(Right(48)) == "R48";
  }

  /** The last five instructions of the sample, written out. */
  lemma SampleRenderedTail()
    ensures Render(Left(55)) == "L55" && Render(Left(1)) == "L1" && Render(Left(99)) == "L99"
    ensures Render(Right(14)) == "R14" && Render(Left(82)) == "L82"
  {
    assert Render(Left(55)) == "L55" && Render(Left(1)) == "L1";
    assert Render(Left(99)) == "L99";
  }

  /** The sample's text parses into its ten instructions. */
  lemma SampleParsed()
    ensures ParseDirections(["L68", "L30", "R48", "L5", "R60", "L55", "L1", "L99", "R14", "L82"])
      == Ok([Left(68), Left(30), Right(48), Left(5), Right(60), Left(55), Left(1), Left(99), Right(14), Left(82)])
  {
    SampleRendered();
    ParseRendered([Left(68), Left(30), Right(48), Left(5), Right(60), Left(55), Left(1), Left(99), Right(14), Left(82)]);
  }

  /** A bad first line decides the error; the empty line after it is never split. */
  lemma BadLineBeforeEmptyLine()
    ensures ParseDirections(["X", ""]) == Err(UnexpectedInput)
  {
    var lines := ["X", ""];
    assert ParseLine(lines[0]) == Err(UnexpectedInput);
  }

  /** An empty line after lines that parse reaches the `split_at(1)` panic. */
  lemma EmptyLineAfterGoodLine()
    ensures ParseDirections(["L1", ""]) == Err(EmptyLine)
  {
    var lines := ["L1", ""];
    assert ParseLine(lines[0]).Ok? by {
      assert lines[0][1..] == "1";
      assert ParseNat("1") == Some(1) by { ParseToDecimal(1); assert ToDecimal(1) == "1"; }
    }
  }

  /** The ten-instruction sample from 50: three stops on 0, six zero events in all. */
  method SampleRotations() returns (zeroCount: nat, total: nat)
    ensures zeroCount == 3 && total == 6
  {
    // The instructions as `SampleParsed` shows the sample text parses; after
    // each turn the counters (dial, stops, passes) are noted.
    var safe := new Safe(50);
    SampleFirstHalf(safe);
    SampleSecondHalf(safe);
    zeroCount, total := safe.zeroCount, safe.zeroCrosses + safe.zeroCount;
  }

  /** The first five instructions of the sample, from dial 50 with no stops and no passes. */
  method SampleFirstHalf(safe: Safe)
    requires safe.Counts() == Counters(50, 0, 0)
    modifies safe
    ensures safe.Counts() == Counters(55, 1, 2)
  {
    safe.Rotate(Left(68));
    assert safe.Counts() == Counters(82, 0, 1);
    safe.Rotate(Left(30));
    assert safe.Counts() == Counters(52, 0, 1);
    safe.Rotate(Right(48));
    assert safe.Counts() == Counters(0, 1, 1);
    safe.Rotate(Left(5));
    assert safe.Counts() == Counters(95, 1, 1);
    safe.Rotate(Right(60));
    assert safe.Counts() == Counters(55, 1, 2);
  }

  /** The last five instructions of the sample, from dial 55 with one stop and two passes. */
  method SampleSecondHalf(safe: Safe)
    requires safe.Counts() == Counters(55, 1, 2)
    modifies safe
    ensures safe.Counts() == Counters(32, 3, 3)
  {
    safe.Rotate(Left(55));
    assert safe.Counts() == Counters(0, 2, 2);
    safe.Rotate(Left(1));
    assert safe.Counts() == Counters(99, 2, 2);
    safe.Rotate(Left(99));
    assert safe.Counts() == Counters(0, 3, 2);
    safe.Rotate(Right(14));
    assert safe.Counts() == Counters(14, 3, 2);
    safe.Rotate(Left(82));
    assert safe.Counts() == Counters(32, 3, 3);
  }

  /** R1000 from 50 passes 0 ten times. */
  method MultiWrap() returns (crosses: nat)
    ensures crosses == 10
  {
    var safe := new Safe(50);
    safe.Rotate(Right(1000));
    crosses := safe.zeroCrosses;
  }

  /** L22 from 22 stops on 0 without passing it. */
  method LeftToZero() returns (total: nat)
    ensures total == 1
  {
    var safe := new Safe(22);
    safe.Rotate(Left(22));
    total := safe.zeroCrosses + safe.zeroCount;
  }

  /** R199 from 1 passes 0 once and stops on it. */
  method RightToZero() returns (total: nat)
    ensures total == 2
  {
    var safe := new Safe(1);
    safe.Rotate(Right(199));
    total := safe.zeroCrosses + safe.zeroCount;
  }
}
