/**
 * The regression tests of src/bin/day-2/main.rs, on single ranges and IDs of
 * the sample, as lemmas and methods whose results are proved.
 */
module ProductIdsTests {
  import opened Wrappers
  import opened Text
  import opened ProductIds

  /** The first two ranges of the sample parse. */
  lemma SampleStartParsed()
    ensures ParseInput("11-22,95-115") == Ok([Range(11, 22), Range(95, 115)])
  {
    var rs := [Range(11, 22), Range(95, 115)];
    assert ToDecimal(11) == "11" && ToDecimal(22) == "22";
    assert ToDecimal(95) == "95" && ToDecimal(115) == "115";
    assert RenderRange(rs[0]) == "11-22" && RenderRange(rs[1]) == "95-115";
    assert RenderEach(rs) == ["11-22", "95-115"];
    assert RenderRanges(rs) == "11-22,95-115";
    ParseRenderRanges(rs);
  }

  /** The upper half of 11-22 holds one reflected ID, 22. */
  lemma UpperElevenToTwentyTwo()
    ensures Reflections(17, 22) == [22]
  {
    assert Reflections(23, 22) == [];
    assert IsReflected(22);
    assert Reflections(22, 22) == [22];
    assert !IsReflected(21);
    assert Reflections(21, 22) == [22];
    assert !IsReflected(20);
    assert Reflections(20, 22) == [22];
    assert !IsReflected(19);
    assert Reflections(19, 22) == [22];
    assert !IsReflected(18);
    assert Reflections(18, 22) == [22];
    assert !IsReflected(17);
    assert Reflections(17, 22) == [22];
  }

  /** The sample range 11-22 holds the reflected IDs 11 and 22. */
  lemma ElevenToTwentyTwo()
    ensures ExtractInvalidReflections(Range(11, 22)) == [11, 22]
  {
    UpperElevenToTwentyTwo();
    assert !IsReflected(16);
    assert Reflections(16, 22) == [22];
    assert !IsReflected(15);
    assert Reflections(15, 22) == [22];
    assert !IsReflected(14);
    assert Reflections(14, 22) == [22];
    assert !IsReflected(13);
    assert Reflections(13, 22) == [22];
    assert !IsReflected(12);
    assert Reflections(12, 22) == [22];
    assert IsReflected(11);
    assert Reflections(11, 22) == [11, 22];
  }

  lemma UpperNinetyFiveToHundredFifteen()
    ensures Reflections(102, 115) == []
  {
    assert Reflections(116, 115) == [];
    assert !IsReflected(115);
    assert Reflections(115, 115) == [];
    assert !IsReflected(114);
    assert Reflections(114, 115) == [];
    assert !IsReflected(113);
    assert Reflections(113, 115) == [];
    assert !IsReflected(112);
    assert Reflections(112, 115) == [];
    assert !IsReflected(111);
    assert Reflections(111, 115) == [];
    assert !IsReflected(110);
    assert Reflections(110, 115) == [];
    assert !IsReflected(109);
    assert Reflections(109, 115) == [];
    assert !IsReflected(108);
    assert Reflections(108, 115) == [];
    assert !IsReflected(107);
    assert Reflections(107, 115) == [];
    assert !IsReflected(106);
    assert Reflections(106, 115) == [];
    assert !IsReflected(105);
    assert Reflections(105, 115) == [];
    assert !IsReflected(104);
    assert Reflections(104, 115) == [];
    assert !IsReflected(103);
    assert Reflections(103, 115) == [];
    assert !IsReflected(102);
    assert Reflections(102, 115) == [];
  }

  /** The sample range 95-115 holds one reflected ID, 99. */
  lemma NinetyFiveToHundredFifteen()
    ensures ExtractInvalidReflections(Range(95, 115)) == [99]
  {
    UpperNinetyFiveToHundredFifteen();
    assert !IsReflected(101);
    assert Reflections(101, 115) == [];
    assert !IsReflected(100);
    assert Reflections(100, 115) == [];
    assert IsReflected(99);
    assert Reflections(99, 115) == [99];
    assert !IsReflected(98);
    assert Reflections(98, 115) == [99];
    assert !IsReflected(97);
    assert Reflections(97, 115) == [99];
    assert !IsReflected(96);
    assert Reflections(96, 115) == [99];
    assert !IsReflected(95);
    assert Reflections(95, 115) == [99];
  }

  /** The reflected ID of the sample range 1188511880-1188511890, and its neighbour. */
  lemma LongReflection()
    ensures IsReflected(1188511885)
    ensures !IsReflected(1188511886)
  {
    assert Ilog10(1188511885) == 9 && Ilog10(1188511886) == 9;
    assert Pow10(5) == 100000;
    assert 1188511885 / 100000 == 11885;
    assert 1188511886 / 100000 == 11885;
  }

  lemma LongDecimal()
    ensures ToDecimal(82482482) == "82482482"
    ensures ToDecimal(824824824) == "824824824"
  {
    assert ToDecimal(8) == "8";
    assert ToDecimal(82) == "82";
    assert ToDecimal(824) == "824";
    assert ToDecimal(8248) == "8248";
    assert ToDecimal(82482) == "82482";
    assert ToDecimal(824824) == "824824";
    assert ToDecimal(8248248) == "8248248";
    assert ToDecimal(82482482) == "82482482";
  }

  lemma NeighbourDecimal()
    ensures ToDecimal(824824825) == "824824825"
  {
    LongDecimal();
    assert 824824825 / 10 == 82482482 && 824824825 % 10 == 5;
    assert DigitChar(5) == '5';
  }

  /** Only blocks of 1 and 3 digits divide the 9 digits of 824824825, and neither repeats. */
  lemma NeighbourNotRepeated()
    ensures !RepeatedDigits("824824825")
  {
    var s := "824824825";
    RepeatedDigitsIff(s);
    forall k | 1 <= k < |s| ensures !RepeatsBlock(s, k) {
      if k == 1 {
        assert !InBlock(s, 1, 1);
      } else if k == 3 {
        assert !InBlock(s, 3, 8);
      } else {
        assert |s| % k != 0;
      }
    }
  }

  /** 824824824 is 824 three times, so it is a repeated ID; its neighbour 824824825 is not. */
  method SampleRepetitions() returns (long: bool, short: bool)
    ensures long && !short
  {
    long := ContainsRepeatedSubsequence(824824824);
    LongDecimal();
    assert ToDecimal(824824824) == Repeat("824", 3);
    short := ContainsRepeatedSubsequence(824824825);
    NeighbourDecimal();
    NeighbourNotRepeated();
  }
}
