/**
 * The regression tests of src/bin/day-5/main.rs on the sample database:
 * three fresh foods, and fourteen IDs covered by the ranges.
 */
module FoodDatabaseTests {
  import opened Wrappers
  import opened Text
  import opened FoodDatabase

  lemma JoinLinesStep(ls: seq<string>)
    requires |ls| >= 2
    ensures JoinLines(ls) == ls[0] + "\n" + JoinLines(ls[1..])
  {
  }

  lemma JoinFourLines(ls: seq<string>)
    requires |ls| == 4
    ensures JoinLines(ls) == ls[0] + "\n" + ls[1] + "\n" + ls[2] + "\n" + ls[3]
  {
    JoinLinesStep(ls);
    JoinLinesStep(ls[1..]);
    JoinLinesStep(ls[2..]);
    assert ls[1..][1..] == ls[2..];
    assert ls[2..][1..] == [ls[3]];
  }

  lemma JoinSixLines(ls: seq<string>)
    requires |ls| == 6
    ensures JoinLines(ls) == ls[0] + "\n" + ls[1] + "\n" + ls[2] + "\n" + ls[3] + "\n" + ls[4] + "\n" + ls[5]
  {
    JoinLinesStep(ls);
    JoinLinesStep(ls[1..]);
    assert ls[1..][1..] == ls[2..];
    JoinFourLines(ls[2..]);
  }

  lemma SampleRangeText(rs: seq<Range>)
    requires rs == [Range(3, 5), Range(10, 14), Range(16, 20), Range(12, 18)]
    ensures JoinLines(RangeLines(rs)) == "3-5\n10-14\n16-20\n12-18"
  {
    var ls := RangeLines(rs);
    assert ls[0] == "3-5";
    assert ls[1] == "10-14" by { TwoDigits(10); TwoDigits(14); }
    assert ls[2] == "16-20" by { TwoDigits(16); TwoDigits(20); }
    assert ls[3] == "12-18" by { TwoDigits(12); TwoDigits(18); }
    JoinFourLines(ls);
  }

  lemma TwoDigits(n: nat)
    requires 10 <= n < 100
    ensures ToDecimal(n) == [DigitChar(n / 10), DigitChar(n % 10)]
  {
  }

  lemma SampleFoodText(foods: seq<nat>)
    requires foods == [1, 5, 8, 11, 17, 32]
    ensures JoinLines(FoodLines(foods)) == "1\n5\n8\n11\n17\n32"
  {
    var ls := FoodLines(foods);
    assert ls[0] == "1" && ls[1] == "5" && ls[2] == "8";
    assert ls[3] == "11" by { assert ToDecimal(11) == "11"; }
    assert ls[4] == "17" by { assert ToDecimal(17) == "17"; }
    assert ls[5] == "32" by { assert ToDecimal(32) == "32"; }
    JoinSixLines(ls);
  }

  /** The sample text parses into its four ranges and six foods, in input order. */
  lemma SampleParsed(rs: seq<Range>, foods: seq<nat>, text: string)
    requires rs == [Range(3, 5), Range(10, 14), Range(16, 20), Range(12, 18)]
    requires foods == [1, 5, 8, 11, 17, 32]
    requires text == "3-5\n10-14\n16-20\n12-18\n\n1\n5\n8\n11\n17\n32"
    ensures ParseFoodDb(text) == Ok((rs, foods))
  {
    SampleRangeText(rs);
    SampleFoodText(foods);
    assert text == RenderFoodDb(rs, foods);
    ParseRenderFoodDb(rs, foods);
  }

  lemma AnyIncludesStep(rs: seq<Range>, x: nat)
    requires rs != []
    ensures AnyIncludes(rs, x) <==> Includes(rs[0], x) || AnyIncludes(rs[1..], x)
  {
  }

  lemma AnyOfTwo(rs: seq<Range>, x: nat)
    requires |rs| == 2
    ensures AnyIncludes(rs, x) <==> Includes(rs[0], x) || Includes(rs[1], x)
  {
    AnyIncludesStep(rs, x);
    AnyIncludesStep(rs[1..], x);
    assert rs[1..][1..] == [];
  }

  lemma AnyOfFour(rs: seq<Range>, x: nat)
    requires |rs| == 4
    ensures AnyIncludes(rs, x) <==> Includes(rs[0], x) || Includes(rs[1], x) || Includes(rs[2], x) || Includes(rs[3], x)
  {
    AnyIncludesStep(rs, x);
    AnyIncludesStep(rs[1..], x);
    assert rs[1..][1..] == rs[2..];
    AnyOfTwo(rs[2..], x);
  }

  lemma SampleFreshness(rs: seq<Range>)
    requires rs == [Range(3, 5), Range(10, 14), Range(16, 20), Range(12, 18)]
    ensures !AnyIncludes(rs, 1) && AnyIncludes(rs, 5) && !AnyIncludes(rs, 8)
    ensures AnyIncludes(rs, 11) && AnyIncludes(rs, 17) && !AnyIncludes(rs, 32)
  {
    AnyOfFour(rs, 1);
    AnyOfFour(rs, 5);
    AnyOfFour(rs, 8);
    AnyOfFour(rs, 11);
    AnyOfFour(rs, 17);
    AnyOfFour(rs, 32);
  }

  /** Of the sample foods, 5, 11 and 17 are fresh. */
  lemma SampleFresh(rs: seq<Range>, foods: seq<nat>)
    requires rs == [Range(3, 5), Range(10, 14), Range(16, 20), Range(12, 18)]
    requires foods == [1, 5, 8, 11, 17, 32]
    ensures FreshFoods(rs, foods) == [5, 11, 17]
  {
    SampleFreshness(rs);
    assert FreshFoods(rs, [1]) == [] by { assert FreshFoods(rs, []) == []; }
    assert FreshFoods(rs, [1, 5]) == [5] by { assert [1, 5][..1] == [1]; }
    assert FreshFoods(rs, [1, 5, 8]) == [5] by { assert [1, 5, 8][..2] == [1, 5]; }
    assert FreshFoods(rs, [1, 5, 8, 11]) == [5, 11] by { assert [1, 5, 8, 11][..3] == [1, 5, 8]; }
    assert FreshFoods(rs, [1, 5, 8, 11, 17]) == [5, 11, 17] by {
      assert [1, 5, 8, 11, 17][..4] == [1, 5, 8, 11];
    }
    assert foods[..5] == [1, 5, 8, 11, 17];
  }

  /** The sample ranges cover exactly 3-5 and 10-20. */
  lemma SampleCoverage(rs: seq<Range>, merged: seq<Range>)
    requires rs == [Range(3, 5), Range(10, 14), Range(16, 20), Range(12, 18)]
    requires merged == [Range(3, 5), Range(10, 20)]
    ensures forall x :: AnyIncludes(rs, x) <==> AnyIncludes(merged, x)
  {
    forall x ensures AnyIncludes(rs, x) <==> AnyIncludes(merged, x) {
      AnyOfFour(rs, x);
      AnyOfTwo(merged, x);
    }
  }

  lemma MergedCount(merged: seq<Range>)
    requires merged == [Range(3, 5), Range(10, 20)]
    ensures |CoveredSet(merged)| == 14
  {
    assert AllWellFormed(merged) && Separated(merged);
    SumSizesCounts(merged);
    assert SumSizes(merged) == 3 + 11;
  }

  /** The covered IDs of the sample: fourteen of them. */
  lemma SampleCoveredCount(rs: seq<Range>, merged: seq<Range>)
    requires rs == [Range(3, 5), Range(10, 14), Range(16, 20), Range(12, 18)]
    requires merged == [Range(3, 5), Range(10, 20)]
    ensures |CoveredSet(rs)| == 14
  {
    assert CoveredSet(rs) == CoveredSet(merged) by {
      SampleCoverage(rs, merged);
      SameCoverage(rs, merged);
    }
    MergedCount(merged);
  }

  /** Whatever order sorting leaves the sample ranges in, both answers follow. */
  lemma SampleAnswers(sorted: seq<Range>, rs: seq<Range>, foods: seq<nat>, merged: seq<Range>)
    requires rs == [Range(3, 5), Range(10, 14), Range(16, 20), Range(12, 18)]
    requires foods == [1, 5, 8, 11, 17, 32]
    requires merged == [Range(3, 5), Range(10, 20)]
    requires multiset(sorted) == multiset(rs)
    ensures AllWellFormed(sorted)
    ensures |FreshFoods(sorted, foods)| == 3
    ensures |CoveredSet(sorted)| == 14
  {
    assert AllWellFormed(rs);
    PermutedRanges(rs, sorted);
    FreshFoodsCoverage(sorted, rs, foods);
    SampleFresh(rs, foods);
    SameCoverage(sorted, rs);
    SampleCoveredCount(rs, merged);
  }

  /** Both answers of the sample: 3 fresh foods and 14 possible fresh IDs. */
  method SampleProblems(text: string, rs: seq<Range>, foods: seq<nat>, merged: seq<Range>)
    returns (freshFoods: nat, possible: nat)
    requires text == "3-5\n10-14\n16-20\n12-18\n\n1\n5\n8\n11\n17\n32"
    requires rs == [Range(3, 5), Range(10, 14), Range(16, 20), Range(12, 18)]
    requires foods == [1, 5, 8, 11, 17, 32]
    requires merged == [Range(3, 5), Range(10, 20)]
    ensures freshFoods == 3 && possible == 14
  {
    SampleParsed(rs, foods, text);
    var r := FoodDb.TryFrom(text);
    var db := r.value;
    SampleAnswers(db.ranges, rs, foods, merged);
    freshFoods := db.CountFreshFoods();
    db.CompactRanges();
    possible := db.CountPossibleFreshIngredients();
  }
}
