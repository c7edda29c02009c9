/** Indices spread evenly over an extent. */
module Strata {
  import opened Wrappers
  import opened Sets

  datatype StrataError = InsufficientCommonExtent | InvalidStratifiedIndices | WindowExceedsSignalLength

  function At(index: nat, extent: nat, count: nat): nat
    requires count >= 2 && extent >= 1
  {
    index * (extent - 1) / (count - 1)
  }

  /** Evenly spread: each place rounded down, from end to end, every gap the same up to rounding. */
  ghost predicate Even(indices: seq<nat>, extent: nat, count: nat)
    requires count >= 2 && extent >= 1
  {
    && |indices| == count
    && indices[0] == 0 && indices[count - 1] == extent - 1
    && (forall i :: 0 <= i < count ==> RoundedDown(indices[i], i * (extent - 1), count - 1))
    && forall i :: 0 < i < count ==> FloorOrCeiling(indices[i] as int - indices[i - 1] as int, extent - 1, count - 1)
  }

  ghost predicate RoundedDown(q: nat, a: nat, d: nat) {
    q * d <= a < (q + 1) * d
  }

  /** `gap` is the quotient, rounded down or up. */
  ghost predicate FloorOrCeiling(gap: int, a: nat, d: nat)
    requires d > 0
  {
    gap == a / d || (a % d != 0 && gap == a / d + 1)
  }

  ghost predicate Increasing(indices: seq<nat>) {
    forall i, j :: 0 <= i < j < |indices| ==> indices[i] < indices[j]
  }

  lemma DivBounds(a: nat, d: nat)
    requires d > 0
    ensures a / d * d <= a < a / d * d + d
  {
  }

  lemma MultipleGrows(m: int, d: nat)
    ensures m >= 1 ==> m * d >= d
    ensures m <= -1 ==> m * d <= -(d as int)
  {
    if m >= 1 {
      assert m * d == (m - 1) * d + d;
    } else if m <= -1 {
      assert m * d == (m + 1) * d - d;
    }
  }

  lemma Quotient(x: nat, d: nat, q: nat, r: nat)
    requires d > 0 && r < d && x == q * d + r
    ensures x / d == q
  {
    var m := x / d - q;
    assert m * d == r - x % d by {
      assert m * d == x / d * d - q * d;
      assert x == x / d * d + x % d;
    }
    MultipleGrows(m, d);
  }

  lemma Divide(a: nat, d: nat) returns (q: nat, r: nat)
    requires d > 0
    ensures q == a / d && r == a % d && a == q * d + r && r < d
  {
    q, r := a / d, a % d;
    DivBounds(a, d);
  }

  lemma SumOfMultiples(p: nat, q: nat, d: nat)
    ensures (p + q) * d == p * d + q * d
  {
  }

  /** Adding `b` before dividing adds its quotient, and one more when the remainders overflow. */
  lemma Gap(a: nat, b: nat, d: nat)
    requires d > 0
    ensures FloorOrCeiling((a + b) / d - a / d, b, d)
  {
    var qa, ra := Divide(a, d);
    var qb, rb := Divide(b, d);
    SumOfMultiples(qa, qb, d);
    GapCases(a + b, d, qa, ra, qb, rb);
  }

  lemma GapCases(x: nat, d: nat, qa: nat, ra: nat, qb: nat, rb: nat)
    requires d > 0 && ra < d && rb < d && x == (qa + qb) * d + (ra + rb)
    ensures x / d - qa == qb || (rb != 0 && x / d - qa == qb + 1)
  {
    if ra + rb < d {
      Quotient(x, d, qa + qb, ra + rb);
    } else {
      OneMore(qa + qb, d);
      Quotient(x, d, qa + qb + 1, ra + rb - d);
    }
  }

  lemma OneMore(q: nat, d: nat)
    ensures (q + 1) * d == q * d + d
  {
  }

  lemma NextAt(index: nat, extent: nat, count: nat)
    requires count >= 2 && extent >= 1
    ensures FloorOrCeiling(At(index + 1, extent, count) - At(index, extent, count), extent - 1, count - 1)
  {
    hide FloorOrCeiling;
    OneMore(index, extent - 1);
    Gap(index * (extent - 1), extent - 1, count - 1);
  }

  lemma Ends(extent: nat, count: nat)
    requires count >= 2 && extent >= 1
    ensures At(0, extent, count) == 0 && At(count - 1, extent, count) == extent - 1
  {
    Quotient((count - 1) * (extent - 1), count - 1, extent - 1, 0);
  }

  lemma {:induction false} GapsAddUp(indices: seq<nat>, i: nat, j: nat)
    requires forall k :: 0 < k < |indices| ==> indices[k - 1] < indices[k]
    requires i < j < |indices|
    ensures indices[i] < indices[j]
    decreases j - i
  {
    if i + 1 < j {
      GapsAddUp(indices, i, j - 1);
      assert indices[j - 1] < indices[j];
    } else {
      assert indices[j - 1] < indices[j];
    }
  }

  lemma EvenIsIncreasing(indices: seq<nat>, extent: nat, count: nat)
    requires count >= 2 && extent >= count && Even(indices, extent, count)
    ensures Increasing(indices)
  {
    AtLeastOne(extent - 1, count - 1);
    forall k | 0 < k < |indices| ensures indices[k - 1] < indices[k] {
      assert FloorOrCeiling(indices[k] as int - indices[k - 1] as int, extent - 1, count - 1);
    }
    forall i, j | 0 <= i < j < |indices| ensures indices[i] < indices[j] {
      GapsAddUp(indices, i, j);
    }
  }

  lemma AtLeastOne(a: nat, d: nat)
    requires 0 < d <= a
    ensures a / d >= 1
  {
    DivBounds(a, d);
  }

  lemma AtIsRoundedDown(index: nat, extent: nat, count: nat)
    requires count >= 2 && extent >= 1
    ensures RoundedDown(At(index, extent, count), index * (extent - 1), count - 1)
  {
    var q, r := Divide(index * (extent - 1), count - 1);
    OneMore(q, count - 1);
  }

  method Spread(extent: nat, count: nat) returns (indices: seq<nat>)
    requires count >= 2 && extent >= 1
    ensures Even(indices, extent, count)
  {
    hide At, FloorOrCeiling, RoundedDown;
    indices := [];
    for i := 0 to count
      invariant |indices| == i
      invariant forall k :: 0 <= k < i ==> indices[k] == At(k, extent, count)
    {
      indices := indices + [At(i, extent, count)];
    }
    Ends(extent, count);
    forall i | 0 <= i < count ensures RoundedDown(indices[i], i * (extent - 1), count - 1) {
      AtIsRoundedDown(i, extent, count);
    }
    forall i | 0 < i < count ensures FloorOrCeiling(indices[i] as int - indices[i - 1] as int, extent - 1, count - 1) {
      NextAt(i - 1, extent, count);
    }
  }

  /** The closing guard never fires. */
  method StratifiedIndices(extent: int, count: int) returns (r: Result<seq<nat>, StrataError>)
    ensures r.Success? <==> count >= 2 && extent >= count
    ensures r.Success? ==> Even(r.value, extent, count) && Increasing(r.value)
    ensures r.Failure? ==> r.error == InsufficientCommonExtent
  {
    if count < 2 || extent < count {
      return Failure(InsufficientCommonExtent);
    }
    var indices := Spread(extent, count);
    EvenIsIncreasing(indices, extent, count);
    MembersCount(indices);
    if |Members(indices)| != count || indices[0] != 0 || indices[|indices| - 1] != extent - 1 {
      return Failure(InvalidStratifiedIndices);
    }
    r := Success(indices);
  }

  /** Windows start inside the signal, evenly spread over all the places where they fit. */
  method WindowStarts(signalLength: nat, windowLength: nat, windowsPerRow: nat) returns (r: Result<seq<nat>, StrataError>)
    requires windowLength >= 1 && windowsPerRow >= 1
    ensures r.Success? <==> windowLength <= signalLength
    ensures r.Failure? ==> r.error == WindowExceedsSignalLength
    ensures r.Success? ==>
              var available := signalLength - windowLength + 1;
              var count := if windowsPerRow < available then windowsPerRow else available;
              && |r.value| == count && Increasing(r.value)
              && (count >= 2 ==> Even(r.value, available, count))
              && (forall i :: 0 <= i < count ==> r.value[i] + windowLength <= signalLength)
              && r.value[0] == 0
  {
    if windowLength > signalLength {
      return Failure(WindowExceedsSignalLength);
    }
    var available := signalLength - windowLength + 1;
    var count := if windowsPerRow < available then windowsPerRow else available;
    if count == 1 {
      return Success([0]);
    }
    var starts := Spread(available, count);
    EvenIsIncreasing(starts, available, count);
    forall i | 0 <= i < count ensures starts[i] + windowLength <= signalLength {
      assert starts[i] <= starts[count - 1];
    }
    r := Success(starts);
  }
}
