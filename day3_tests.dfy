/**
 * The regression tests of src/bin/day-3/main.rs for two batteries per bank,
 * on each bank of the sample, as lemmas whose conclusions are proved.
 */
module BatteryBanksTests {
  import opened Wrappers
  import opened Text
  import opened BatteryBanks

  /** The last battery to choose is the first highest one left. */
  lemma LastChoice(r: seq<Digit>, idx: nat)
    requires AllNonzero(r) && FirstHighestDigit(r, 1, idx)
    ensures TurnOnInner(r, 1) == Some(r[idx])
  {
    GreedyStep(r, 1, idx);
    assert TurnOnInner(r[idx + 1..], 0) == Some(0);
  }

  /** A greedy choice in front of the choices after it. */
  lemma Choice(b: seq<Digit>, k: nat, idx: nat, after: nat)
    requires AllNonzero(b) && k <= |b| && FirstHighestDigit(b, k, idx)
    requires TurnOnInner(b[idx + 1..], k - 1) == Some(after)
    ensures TurnOnInner(b, k) == Some(b[idx] * Pow10(k - 1) + after)
  {
    GreedyStep(b, k, idx);
  }

  /** 987654321111111: the 9 and then the 8. */
  lemma FirstSampleBank(b: seq<Digit>)
    requires b == [9, 8, 7, 6, 5, 4, 3, 2, 1, 1, 1, 1, 1, 1, 1]
    ensures TurnOnInner(b, 2) == Some(98)
  {
    assert AllNonzero(b) && FirstHighestDigit(b, 2, 0);
    assert AllNonzero(b[1..]) && FirstHighestDigit(b[1..], 1, 0);
    LastChoice(b[1..], 0);
    Choice(b, 2, 0, 8);
    assert Pow10(1) == 10;
  }

  /** 811111111111119: the leading 8 and the trailing 9. */
  lemma SecondSampleBank(b: seq<Digit>)
    requires b == [8, 1, 1, 1, 1, 1, 1, 1, 1, 1, 1, 1, 1, 1, 9]
    ensures TurnOnInner(b, 2) == Some(89)
  {
    assert AllNonzero(b) && FirstHighestDigit(b, 2, 0);
    assert AllNonzero(b[1..]) && FirstHighestDigit(b[1..], 1, 13);
    LastChoice(b[1..], 13);
    Choice(b, 2, 0, 9);
    assert Pow10(1) == 10;
  }

  /** 234234234234278: the last two batteries. */
  lemma ThirdSampleBank(b: seq<Digit>)
    requires b == [2, 3, 4, 2, 3, 4, 2, 3, 4, 2, 3, 4, 2, 7, 8]
    ensures TurnOnInner(b, 2) == Some(78)
  {
    assert AllNonzero(b) && FirstHighestDigit(b, 2, 13);
    assert AllNonzero(b[14..]) && FirstHighestDigit(b[14..], 1, 0);
    LastChoice(b[14..], 0);
    Choice(b, 2, 13, 8);
    assert Pow10(1) == 10;
  }

  /** 818181911112111: the 9 and the 2 after it. */
  lemma FourthSampleBank(b: seq<Digit>)
    requires b == [8, 1, 8, 1, 8, 1, 9, 1, 1, 1, 1, 2, 1, 1, 1]
    ensures TurnOnInner(b, 2) == Some(92)
  {
    assert AllNonzero(b) && FirstHighestDigit(b, 2, 6);
    assert AllNonzero(b[7..]) && FirstHighestDigit(b[7..], 1, 4);
    LastChoice(b[7..], 4);
    Choice(b, 2, 6, 2);
    assert Pow10(1) == 10;
  }

  /** A line with a letter is not a bank, and the message quotes the whole line. */
  lemma LetterInBank()
    ensures ParseBank("9a") == Err(BankError("failed to parse battery bank 9a"))
  {
    assert !IsDigit("9a"[1]) && !AllDigits("9a");
    assert "failed to parse battery bank " + "9a" == "failed to parse battery bank 9a";
  }
}
