/**
 * Day 3, continued: the batteries a bank turns on, as explicit positions.
 * A choice of k batteries in bank order is a strictly increasing sequence of
 * k positions; `BatteryBanks.Best` is shown to be the
 * largest number such a choice can spell, and to be spelled by one of them.
 */
module BatteryChoices {
  import opened Text
  import opened BatteryBanks

  /** Strictly increasing positions inside the bank: batteries taken in bank order. */
  predicate Selection(bank: seq<Digit>, idx: seq<nat>) {
    && (forall a :: 0 <= a < |idx| ==> idx[a] < |bank|)
    && (forall a, b :: 0 <= a < b < |idx| ==> idx[a] < idx[b])
  }

  /** The number the batteries at the chosen positions spell, first position first. */
  function Spelled(bank: seq<Digit>, idx: seq<nat>): nat
    requires forall a :: 0 <= a < |idx| ==> idx[a] < |bank|
  {
    if idx == [] then 0 else bank[idx[0]] * Pow10(|idx| - 1) + Spelled(bank, idx[1..])
  }

  /** Every position is at t or later. */
  predicate After(idx: seq<nat>, t: nat) {
    forall a :: 0 <= a < |idx| ==> t <= idx[a]
  }

  /** The a-th of k increasing positions is at least a after the first. */
  lemma {:induction false} SelectionGrows(bank: seq<Digit>, idx: seq<nat>, a: nat)
    requires Selection(bank, idx) && a < |idx|
    ensures idx[a] >= idx[0] + a
    decreases a
  {
    if a > 0 {
      SelectionGrows(bank, idx, a - 1);
    }
  }

  /** No choice of batteries from position t on spells more than `Best` of that suffix. */
  lemma {:induction false} SelectionAtMostBestFrom(bank: seq<Digit>, idx: seq<nat>, t: nat)
    requires Selection(bank, idx) && After(idx, t) && t <= |bank|
    ensures |idx| <= |bank| - t
    ensures Spelled(bank, idx) <= Best(bank[t..], |idx|)
    decreases |idx|
  {
    if idx != [] {
      var k, j, tail := |idx|, idx[0], idx[1..];
      SelectionGrows(bank, idx, k - 1);
      assert After(tail, j + 1) by {
        forall a | 0 <= a < |tail| ensures j + 1 <= tail[a] {
          assert tail[a] == idx[a + 1];
        }
      }
      SelectionAtMostBestFrom(bank, tail, j + 1);
      var suffix := bank[t..];
      assert suffix[j - t + 1..] == bank[j + 1..];
      BestFromIsMax(suffix, k, 0);
      assert Candidate(suffix, k, j - t) == bank[j] * Pow10(k - 1) + Best(bank[j + 1..], k - 1);
      assert Spelled(bank, idx) == bank[j] * Pow10(k - 1) + Spelled(bank, tail);
    }
  }

  /** No choice of k batteries in bank order spells more than `Best`. */
  lemma SelectionAtMostBest(bank: seq<Digit>, idx: seq<nat>)
    requires Selection(bank, idx)
    ensures |idx| <= |bank|
    ensures Spelled(bank, idx) <= Best(bank, |idx|)
  {
    SelectionAtMostBestFrom(bank, idx, 0);
    assert bank[0..] == bank;
  }

  /** Putting position j in front of later positions keeps a choice in bank order. */
  lemma SelectionCons(bank: seq<Digit>, t: nat, j: nat, sub: seq<nat>)
    requires t <= j < |bank| && Selection(bank, sub) && After(sub, j + 1)
    ensures Selection(bank, [j] + sub) && After([j] + sub, t)
    ensures Spelled(bank, [j] + sub) == bank[j] * Pow10(|sub|) + Spelled(bank, sub)
  {
    var idx := [j] + sub;
    assert idx[1..] == sub;
    forall a, b | 0 <= a < b < |idx| ensures idx[a] < idx[b] {
      assert idx[b] == sub[b - 1];
      if a > 0 {
        assert idx[a] == sub[a - 1];
      }
    }
  }

  /** The best candidate of the suffix from t, seen from the whole bank. */
  lemma BestFirstPosition(bank: seq<Digit>, t: nat, k: nat) returns (j: nat)
    requires 1 <= k && t + k <= |bank|
    ensures t <= j <= |bank| - k
    ensures Best(bank[t..], k) == bank[j] * Pow10(k - 1) + Best(bank[j + 1..], k - 1)
  {
    var suffix := bank[t..];
    BestFromIsMax(suffix, k, 0);
    var i :| 0 <= i <= |suffix| - k && Best(suffix, k) == Candidate(suffix, k, i);
    j := t + i;
    assert suffix[i + 1..] == bank[j + 1..];
  }

  /** Some choice of k batteries from position t on spells exactly `Best` of that suffix. */
  lemma {:induction false} BestIsSelectedFrom(bank: seq<Digit>, t: nat, k: nat)
    requires t + k <= |bank|
    ensures exists idx :: Selection(bank, idx) && After(idx, t) && |idx| == k && Spelled(bank, idx) == Best(bank[t..], k)
    decreases k
  {
    if k == 0 {
      var idx: seq<nat> := [];
      assert Selection(bank, idx) && After(idx, t) && Spelled(bank, idx) == Best(bank[t..], 0);
    } else {
      var j := BestFirstPosition(bank, t, k);
      BestIsSelectedFrom(bank, j + 1, k - 1);
      var sub :| Selection(bank, sub) && After(sub, j + 1) && |sub| == k - 1
        && Spelled(bank, sub) == Best(bank[j + 1..], k - 1);
      SelectionCons(bank, t, j, sub);
      var idx := [j] + sub;
      assert Selection(bank, idx) && After(idx, t) && |idx| == k && Spelled(bank, idx) == Best(bank[t..], k);
    }
  }

  /** Some choice of k batteries in bank order spells exactly `Best`. */
  lemma BestIsSelected(bank: seq<Digit>, k: nat)
    requires k <= |bank|
    ensures exists idx :: Selection(bank, idx) && |idx| == k && Spelled(bank, idx) == Best(bank, k)
  {
    BestIsSelectedFrom(bank, 0, k);
    assert bank[0..] == bank;
  }
}
