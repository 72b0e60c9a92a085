/**
 * Day 3: battery banks. Each line of the input is a bank of batteries, one
 * decimal digit each; turning on k of them, in bank order, gives the number
 * their digits spell. `turn_on_inner` chooses greedily: the first battery of
 * highest weight, where a battery weighs its digit times ten to the power of
 * the batteries after it, capped at k - 1; then it recurses on the rest.
 * `Best` is the largest number any k batteries in bank order can spell, by
 * exhaustive search, and the greedy choice is proved to reach it.
 * Source: src/bin/day-3/main.rs.
 */
module BatteryBanks {
  import opened Wrappers
  import opened Text

  type Digit = d: nat | d < 10

  /** A bank of batteries, one digit each (`struct Bank(Vec<u32>)`). */
  datatype Bank = Bank(batteries: seq<Digit>)

  /** The source's `String` error, `format!("failed to parse battery bank {value}")`. */
  datatype BankError = BankError(message: string)

  /** The error for a line that is not a bank; its message quotes the whole line. */
  function NotABank(line: string): BankError {
    BankError("failed to parse battery bank " + line)
  }

  function Min(a: nat, b: nat): nat {
    if a <= b then a else b
  }

  // ---------------------------------------------------------------------------
  // Parsing

  /** `char::to_digit(10)`, failing with the whole line in the message. */
  function Battery(line: string, c: char): Result<Digit, BankError> {
    if IsDigit(c) then Ok(DigitValue(c)) else Err(NotABank(line))
  }

  /** `Bank::try_from`: every character must be a decimal digit. */
  function ParseBank(line: string): (r: Result<Bank, BankError>)
    ensures r.Ok? <==> AllDigits(line)
    ensures r.Ok? ==> (|r.value.batteries| == |line|
      && forall i :: 0 <= i < |line| ==> r.value.batteries[i] == DigitValue(line[i]))
    ensures r.Err? ==> r.error == NotABank(line)
  {
    match CollectResults(line, c => Battery(line, c))
    case Ok(digits) => Ok(Bank(digits))
    case Err(e) => Err(e)
  }

  /** `parse_into_banks`: one bank per line, or the first line that fails. */
  function ParseBanks(input: string): (r: Result<seq<Bank>, BankError>)
    ensures r.Ok? <==> forall i :: 0 <= i < |Lines(input)| ==> AllDigits(Lines(input)[i])
    ensures r.Ok? ==> (|r.value| == |Lines(input)|
      && forall i :: 0 <= i < |r.value| ==> ParseBank(Lines(input)[i]) == Ok(r.value[i]))
  {
    var lines := Lines(input);
    var r := CollectResults(lines, ParseBank);
    assert r.Ok? <==> forall i :: 0 <= i < |lines| ==> AllDigits(lines[i]) by {
      assert forall i :: 0 <= i < |lines| ==> (ParseBank(lines[i]).Ok? <==> AllDigits(lines[i]));
    }
    assert r.Ok? ==> forall i :: 0 <= i < |r.value| ==> ParseBank(lines[i]) == Ok(r.value[i]) by {
      if r.Ok? {
        forall i | 0 <= i < |r.value|
          ensures ParseBank(lines[i]) == Ok(r.value[i])
        {
          assert r.value[i] == ParseBank(lines[i]).value && ParseBank(lines[i]).Ok?;
        }
      }
    }
    r
  }

  // ---------------------------------------------------------------------------
  // The greedy choice

  /**
   * The weight `turn_on_inner` gives the battery at `idx` when k remain to be
   * chosen: the smaller of digit * 10^min(followers, k + 1) and digit * 10^(k - 1).
   */
  function Weight(bank: seq<Digit>, k: nat, idx: nat): nat
    requires 1 <= k && idx < |bank|
  {
    var exp := |bank| - idx - 1;
    var maxExp := Min(exp, k + 1);
    var realBase := Pow10(maxExp);
    Min(bank[idx] * realBase, bank[idx] * Pow10(k - 1))
  }

  /** One digit in front of e zeros is below 10^(e + 1). */
  lemma DigitShift(d: Digit, e: nat)
    ensures d * Pow10(e) < Pow10(e + 1)
  {
    MulMonotone(Pow10(e), d, 9);
  }

  lemma MulStep(a: nat, b: nat, p: nat)
    requires a < b
    ensures a * p + p <= b * p
  {
    MulMonotone(p, a + 1, b);
  }

  lemma MulMonotone(d: nat, a: nat, b: nat)
    requires a <= b
    ensures d * a <= d * b
  {
  }

  /** The weight is the digit times ten to the power min(followers, k - 1). */
  lemma WeightIs(bank: seq<Digit>, k: nat, idx: nat)
    requires 1 <= k && idx < |bank|
    ensures Weight(bank, k, idx) == bank[idx] * Pow10(Min(|bank| - idx - 1, k - 1))
  {
    var exp := |bank| - idx - 1;
    if exp >= k - 1 {
      Pow10Monotone(k - 1, Min(exp, k + 1));
      MulMonotone(bank[idx], Pow10(k - 1), Pow10(Min(exp, k + 1)));
    } else {
      Pow10Monotone(exp, k - 1);
      MulMonotone(bank[idx], Pow10(exp), Pow10(k - 1));
    }
  }

  /**
   * Among the first `upTo` batteries, the one at `idx` weighs `weight`, none
   * weighs more and every earlier one weighs less.
   */
  predicate FirstHighest(bank: seq<Digit>, k: nat, upTo: nat, weight: nat, idx: nat)
    requires 1 <= k && upTo <= |bank|
  {
    && idx < upTo && weight == Weight(bank, k, idx)
    && (forall i :: 0 <= i < upTo ==> Weight(bank, k, i) <= weight)
    && (forall i :: 0 <= i < idx ==> Weight(bank, k, i) < weight)
  }

  /** No battery weighs more than 9 * 10^(k - 1). */
  lemma WeightBound(bank: seq<Digit>, k: nat, idx: nat)
    requires 1 <= k && idx < |bank|
    ensures Weight(bank, k, idx) <= 9 * Pow10(k - 1)
  {
    WeightIs(bank, k, idx);
    var e := Min(|bank| - idx - 1, k - 1);
    Pow10Monotone(e, k - 1);
    MulMonotone(bank[idx], Pow10(e), Pow10(k - 1));
    MulMonotone(Pow10(k - 1), bank[idx], 9);
  }

  /**
   * The `fold` of `turn_on_inner` from position `idx` on, with `acc` the
   * (weight, index) kept so far: a later battery replaces it only when it
   * weighs strictly more.
   */
  function FoldHighest(bank: seq<Digit>, k: nat, idx: nat, acc: Option<(nat, nat)>): (r: Option<(nat, nat)>)
    requires 1 <= k && idx <= |bank|
    requires acc.None? <==> idx == 0
    requires acc.Some? ==> FirstHighest(bank, k, idx, acc.value.0, acc.value.1)
    ensures r.None? <==> bank == []
    ensures r.Some? ==> FirstHighest(bank, k, |bank|, r.value.0, r.value.1)
    decreases |bank| - idx
  {
    if idx == |bank| then acc
    else
      var quantity := Weight(bank, k, idx);
      var next :=
        match acc
        case None => Some((quantity, idx))
        case Some((lastHighest, _)) => if lastHighest >= quantity then acc else Some((quantity, idx));
      FoldHighest(bank, k, idx + 1, next)
  }

  /** The battery the fold settles on: the first one of highest weight. */
  function Highest(bank: seq<Digit>, k: nat): (r: Option<(nat, nat)>)
    requires 1 <= k
    ensures r.None? <==> bank == []
    ensures r.Some? ==> FirstHighest(bank, k, |bank|, r.value.0, r.value.1)
  {
    FoldHighest(bank, k, 0, None)
  }

  /**
   * `Bank::turn_on_inner`: the sum of the weights of the greedily chosen
   * batteries. None where the source panics: k > 0 batteries are still to be
   * chosen from an empty bank (the `expect("impossible")`).
   */
  function TurnOnInner(bank: seq<Digit>, k: nat): Option<nat>
    decreases k
  {
    if k == 0 then Some(0)
    else
      match Highest(bank, k)
      case None => None
      case Some((next, nextIdx)) =>
        match TurnOnInner(bank[nextIdx + 1..], k - 1)
        case None => None
        case Some(rest) => Some(next + rest)
  }

  /** `Bank::turn_on`. */
  function TurnOn(bank: Bank, k: nat): Option<nat> {
    TurnOnInner(bank.batteries, k)
  }

  /** Choosing nothing gives 0. */
  lemma TurnOnNothing(bank: seq<Digit>)
    ensures TurnOnInner(bank, 0) == Some(0)
  {
  }

  /** Each chosen weight is at most 9 * 10^(k - 1), so the result has at most k digits. */
  lemma {:induction false} TurnOnBound(bank: seq<Digit>, k: nat)
    requires TurnOnInner(bank, k).Some?
    ensures TurnOnInner(bank, k).value < Pow10(k)
    decreases k
  {
    if k > 0 {
      var (next, nextIdx) := Highest(bank, k).value;
      var rest := TurnOnInner(bank[nextIdx + 1..], k - 1).value;
      assert TurnOnInner(bank, k) == Some(next + rest);
      TurnOnBound(bank[nextIdx + 1..], k - 1);
      WeightBound(bank, k, nextIdx);
    }
  }

  /** A bank with fewer than k batteries runs empty before k are chosen: the source panics. */
  lemma {:induction false} TooShortPanics(bank: seq<Digit>, k: nat)
    requires |bank| < k
    ensures TurnOnInner(bank, k).None?
    decreases k
  {
    if bank != [] {
      var (next, nextIdx) := Highest(bank, k).value;
      TooShortPanics(bank[nextIdx + 1..], k - 1);
    }
  }

  // ---------------------------------------------------------------------------
  // The best choice

  /** The largest number k batteries of `bank`, taken in bank order, can spell. */
  function Best(bank: seq<Digit>, k: nat): nat
    requires k <= |bank|
    decreases k, 1, 0
  {
    if k == 0 then 0 else BestFrom(bank, k, 0)
  }

  /** The best number whose first battery is at a position from i to |bank| - k. */
  function BestFrom(bank: seq<Digit>, k: nat, i: nat): nat
    requires 1 <= k <= |bank| && i <= |bank| - k
    decreases k, 0, |bank| - i
  {
    var here := Candidate(bank, k, i);
    if i == |bank| - k then here
    else
      var later := BestFrom(bank, k, i + 1);
      if here >= later then here else later
  }

  /** The best number whose first battery is the one at position j. */
  function Candidate(bank: seq<Digit>, k: nat, j: nat): nat
    requires 1 <= k <= |bank| && j <= |bank| - k
    decreases k, 0, 0
  {
    bank[j] * Pow10(k - 1) + Best(bank[j + 1..], k - 1)
  }

  /** `BestFrom` is the largest of its candidates. */
  lemma {:induction false} BestFromIsMax(bank: seq<Digit>, k: nat, i: nat)
    requires 1 <= k <= |bank| && i <= |bank| - k
    ensures forall j :: i <= j <= |bank| - k ==> Candidate(bank, k, j) <= BestFrom(bank, k, i)
    ensures exists j :: i <= j <= |bank| - k && BestFrom(bank, k, i) == Candidate(bank, k, j)
    decreases |bank| - i
  {
    if i < |bank| - k {
      BestFromIsMax(bank, k, i + 1);
      var j :| i + 1 <= j <= |bank| - k && BestFrom(bank, k, i + 1) == Candidate(bank, k, j);
      if Candidate(bank, k, i) < BestFrom(bank, k, i + 1) {
        assert BestFrom(bank, k, i) == Candidate(bank, k, j);
      } else {
        assert BestFrom(bank, k, i) == Candidate(bank, k, i);
      }
    } else {
      assert BestFrom(bank, k, i) == Candidate(bank, k, i);
    }
  }

  /** The best k-battery number has at most k digits. */
  lemma {:induction false} BestBound(bank: seq<Digit>, k: nat)
    requires k <= |bank|
    ensures Best(bank, k) < Pow10(k)
    decreases k
  {
    if k > 0 {
      BestFromIsMax(bank, k, 0);
      var j :| 0 <= j <= |bank| - k && Best(bank, k) == Candidate(bank, k, j);
      BestBound(bank[j + 1..], k - 1);
      MulMonotone(Pow10(k - 1), bank[j], 9);
    }
  }

  /** Dropping batteries from the front never makes the best number larger. */
  lemma BestSuffix(bank: seq<Digit>, t: nat, k: nat)
    requires t <= |bank| - k && k <= |bank|
    ensures Best(bank[t..], k) <= Best(bank, k)
  {
    if k > 0 {
      var suffix := bank[t..];
      BestFromIsMax(suffix, k, 0);
      BestFromIsMax(bank, k, 0);
      var j :| 0 <= j <= |suffix| - k && Best(suffix, k) == Candidate(suffix, k, j);
      assert suffix[j + 1..] == bank[t + j + 1..];
      assert Candidate(suffix, k, j) == Candidate(bank, k, t + j);
    }
  }

  /**
   * The battery at `idx` has at least k - 1 after it and the highest digit of
   * all such positions, and every earlier one has a lower digit.
   */
  predicate FirstHighestDigit(bank: seq<Digit>, k: nat, idx: nat) {
    && 1 <= k && idx + k <= |bank|
    && (forall j :: 0 <= j <= |bank| - k ==> bank[j] <= bank[idx])
    && (forall j :: 0 <= j < idx ==> bank[j] < bank[idx])
  }

  predicate AllNonzero(bank: seq<Digit>) {
    forall i :: 0 <= i < |bank| ==> bank[i] != 0
  }

  lemma MulCancel(a: nat, b: nat, p: nat)
    requires p >= 1 && a * p <= b * p
    ensures a <= b
  {
    if a > b {
      MulMonotone(p, b + 1, a);
    }
  }

  /**
   * With no zero battery, a battery with fewer than k - 1 after it weighs less
   * than the first one.
   */
  lemma LateLighter(bank: seq<Digit>, k: nat, idx: nat)
    requires AllNonzero(bank) && 1 <= k <= |bank| && |bank| - k < idx < |bank|
    ensures Weight(bank, k, idx) < Weight(bank, k, 0)
  {
    var e := |bank| - idx - 1;
    assert Weight(bank, k, idx) < Pow10(k - 1) by {
      WeightIs(bank, k, idx);
      assert Min(e, k - 1) == e;
      DigitShift(bank[idx], e);
      Pow10Monotone(e + 1, k - 1);
    }
    assert Pow10(k - 1) <= Weight(bank, k, 0) by {
      WeightIs(bank, k, 0);
      assert Min(|bank| - 1, k - 1) == k - 1;
      MulMonotone(Pow10(k - 1), 1, bank[0]);
    }
  }

  /** Between two batteries with at least k - 1 after them, the weights order as the digits. */
  lemma EligibleWeights(bank: seq<Digit>, k: nat, i: nat, j: nat)
    requires 1 <= k <= |bank| && i <= |bank| - k && j <= |bank| - k
    ensures Weight(bank, k, i) <= Weight(bank, k, j) <==> bank[i] <= bank[j]
  {
    var p := Pow10(k - 1);
    WeightIs(bank, k, i);
    WeightIs(bank, k, j);
    assert Min(|bank| - i - 1, k - 1) == k - 1 && Min(|bank| - j - 1, k - 1) == k - 1;
    if bank[i] <= bank[j] {
      MulMonotone(p, bank[i], bank[j]);
    } else {
      MulStep(bank[j], bank[i], p);
    }
  }

  /**
   * With no zero battery, the fold settles on a battery with at least k - 1
   * after it: the first one of highest digit among those positions.
   */
  lemma HighestEligible(bank: seq<Digit>, k: nat)
    requires AllNonzero(bank) && 1 <= k <= |bank|
    ensures Highest(bank, k).Some?
    ensures var (q, idx) := Highest(bank, k).value;
      FirstHighestDigit(bank, k, idx) && q == bank[idx] * Pow10(k - 1)
  {
    var (q, idx) := Highest(bank, k).value;
    var m := |bank| - k;
    if idx > m {
      LateLighter(bank, k, idx);
      assert false;
    }
    forall j | 0 <= j <= m
      ensures bank[j] <= bank[idx]
      ensures j < idx ==> bank[j] < bank[idx]
    {
      EligibleWeights(bank, k, j, idx);
      EligibleWeights(bank, k, idx, j);
      if j < idx {
        assert Weight(bank, k, j) < Weight(bank, k, idx);
      }
    }
    assert q == bank[idx] * Pow10(k - 1) by {
      WeightIs(bank, k, idx);
      assert Min(|bank| - idx - 1, k - 1) == k - 1;
    }
  }

  /** A candidate starting with a lower digit is below one starting with a higher digit. */
  lemma LowerDigitLoses(bank: seq<Digit>, k: nat, j: nat, idx: nat)
    requires 1 <= k <= |bank| && j <= |bank| - k && idx <= |bank| - k
    requires bank[j] < bank[idx]
    ensures Candidate(bank, k, j) < Candidate(bank, k, idx)
  {
    var p := Pow10(k - 1);
    var below := Best(bank[j + 1..], k - 1);
    assert Candidate(bank, k, j) == bank[j] * p + below;
    assert bank[idx] * p <= Candidate(bank, k, idx);
    BestBound(bank[j + 1..], k - 1);
    MulStep(bank[j], bank[idx], p);
  }

  /**
   * Conversely, with no zero battery, the first highest digit among the
   * positions that leave k - 1 batteries after them is the one the fold picks.
   */
  lemma GreedyPicks(bank: seq<Digit>, k: nat, idx: nat)
    requires AllNonzero(bank) && 1 <= k <= |bank| && FirstHighestDigit(bank, k, idx)
    ensures Highest(bank, k) == Some((bank[idx] * Pow10(k - 1), idx))
  {
    HighestEligible(bank, k);
  }

  /**
   * One greedy step on a bank with no zero battery: the first highest eligible
   * digit, in front of the greedy result for the batteries after it.
   */
  lemma GreedyStep(bank: seq<Digit>, k: nat, idx: nat)
    requires AllNonzero(bank) && 1 <= k <= |bank| && FirstHighestDigit(bank, k, idx)
    ensures TurnOnInner(bank, k).Some? && TurnOnInner(bank[idx + 1..], k - 1).Some?
    ensures TurnOnInner(bank, k).value
      == bank[idx] * Pow10(k - 1) + TurnOnInner(bank[idx + 1..], k - 1).value
  {
    GreedyPicks(bank, k, idx);
    NonzeroSucceeds(bank[idx + 1..], k - 1);
  }

  /**
   * The best number starts with the first highest digit among the positions
   * that leave k - 1 batteries after them.
   */
  lemma FirstHighestIsBest(bank: seq<Digit>, k: nat, idx: nat)
    requires 1 <= k <= |bank| && FirstHighestDigit(bank, k, idx)
    ensures Best(bank, k) == Candidate(bank, k, idx)
  {
    BestFromIsMax(bank, k, 0);
    var j :| 0 <= j <= |bank| - k && Best(bank, k) == Candidate(bank, k, j);
    if bank[j] < bank[idx] {
      LowerDigitLoses(bank, k, j, idx);
    } else {
      var rest := bank[idx + 1..];
      assert rest[j - idx..] == bank[j + 1..];
      BestSuffix(rest, j - idx, k - 1);
    }
  }

  /**
   * With no zero battery and at least k batteries, the greedy choice gives the
   * best number k batteries can spell.
   */
  lemma {:induction false} GreedyIsBest(bank: seq<Digit>, k: nat)
    requires AllNonzero(bank) && k <= |bank|
    ensures TurnOnInner(bank, k) == Some(Best(bank, k))
    decreases k
  {
    if k > 0 {
      HighestEligible(bank, k);
      var (q, idx) := Highest(bank, k).value;
      var rest := bank[idx + 1..];
      GreedyIsBest(rest, k - 1);
      assert TurnOnInner(bank, k) == Some(q + Best(rest, k - 1));
      FirstHighestIsBest(bank, k, idx);
    }
  }

  /** With no zero battery, the source panics exactly when the bank is shorter than k. */
  lemma NonzeroSucceeds(bank: seq<Digit>, k: nat)
    requires AllNonzero(bank)
    ensures TurnOnInner(bank, k).Some? <==> k <= |bank|
  {
    if k <= |bank| {
      GreedyIsBest(bank, k);
    } else {
      TooShortPanics(bank, k);
    }
  }
}
