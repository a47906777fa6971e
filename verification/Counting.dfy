/** Sums over per-client message counts. The benchmark never stores these sums' summands
    together: it keeps one shared counter and decrements it. */
module Counting {
  function Monus(a: nat, b: nat): nat {
    if a <= b then 0 else a - b
  }

  /** How many messages are missing until every client has `target` of them. */
  function Missing(counts: seq<nat>, target: nat): nat {
    if counts == [] then 0
    else Missing(counts[..|counts| - 1], target) + Monus(target, counts[|counts| - 1])
  }

  function Sum(counts: seq<nat>): nat {
    if counts == [] then 0
    else Sum(counts[..|counts| - 1]) + counts[|counts| - 1]
  }

  predicate AllReached(counts: seq<nat>, target: nat) {
    forall i :: 0 <= i < |counts| ==> counts[i] >= target
  }

  /** One more message of client i lowers the number missing by one while i is short of the target. */
  lemma {:induction false} MissingBump(counts: seq<nat>, target: nat, i: nat)
    requires i < |counts|
    ensures Missing(counts, target)
         == Missing(counts[i := counts[i] + 1], target) + (if counts[i] < target then 1 else 0)
  {
    var n := |counts| - 1;
    var after := counts[i := counts[i] + 1];
    if i < n {
      MissingBump(counts[..n], target, i);
      assert after[..n] == counts[..n][i := counts[i] + 1];
    } else {
      assert after[..n] == counts[..n];
    }
  }

  /** The shared counter is zero exactly when every client has reached the target. */
  lemma {:induction false} MissingZero(counts: seq<nat>, target: nat)
    ensures Missing(counts, target) == 0 <==> AllReached(counts, target)
  {
    if counts != [] {
      var n := |counts| - 1;
      MissingZero(counts[..n], target);
      assert AllReached(counts, target) ==> AllReached(counts[..n], target);
      assert AllReached(counts[..n], target) && counts[n] >= target ==> AllReached(counts, target) by {
        forall i | 0 <= i < |counts| && AllReached(counts[..n], target) && counts[n] >= target
          ensures counts[i] >= target
        {
          assert i < n ==> counts[..n][i] == counts[i];
        }
      }
    }
  }

  lemma {:induction false} MissingUniform(counts: seq<nat>, target: nat, k: nat)
    requires forall i :: 0 <= i < |counts| ==> counts[i] == k
    ensures Missing(counts, target) == |counts| * Monus(target, k)
  {
    if counts != [] {
      MissingUniform(counts[..|counts| - 1], target, k);
      assert (|counts| - 1) * Monus(target, k) + Monus(target, k) == |counts| * Monus(target, k);
    }
  }

  lemma {:induction false} SumUniform(counts: seq<nat>, k: nat)
    requires forall i :: 0 <= i < |counts| ==> counts[i] == k
    ensures Sum(counts) == |counts| * k
  {
    if counts != [] {
      SumUniform(counts[..|counts| - 1], k);
      assert (|counts| - 1) * k + k == |counts| * k;
    }
  }

  lemma {:induction false} SumBump(counts: seq<nat>, i: nat, d: nat)
    requires i < |counts|
    ensures Sum(counts[i := counts[i] + d]) == Sum(counts) + d
  {
    var n := |counts| - 1;
    var after := counts[i := counts[i] + d];
    if i < n {
      SumBump(counts[..n], i, d);
      assert after[..n] == counts[..n][i := counts[i] + d];
    } else {
      assert after[..n] == counts[..n];
    }
  }

  lemma {:induction false} SumBound(counts: seq<nat>, i: nat)
    requires i < |counts|
    ensures counts[i] <= Sum(counts)
  {
    var n := |counts| - 1;
    if i < n {
      SumBound(counts[..n], i);
    }
  }

  /** While no client has more than the target, the number missing is what the sum leaves. */
  lemma {:induction false} MissingSum(counts: seq<nat>, target: nat)
    requires forall i :: 0 <= i < |counts| ==> counts[i] <= target
    ensures Missing(counts, target) + Sum(counts) == |counts| * target
  {
    if counts != [] {
      MissingSum(counts[..|counts| - 1], target);
      assert (|counts| - 1) * target + target == |counts| * target;
    }
  }

  /** A higher target leaves at least as much missing, and more if something is missing now. */
  lemma {:induction false} MissingGap(counts: seq<nat>, low: nat, gap: nat)
    ensures Missing(counts, low + gap) >= Missing(counts, low)
    ensures Missing(counts, low) > 0 && gap > 0 ==> Missing(counts, low + gap) > Missing(counts, low)
  {
    if counts != [] {
      MissingGap(counts[..|counts| - 1], low, gap);
    }
  }

  /** If one message is missing in all, the client short of its target is short by one. */
  lemma LastMissing(counts: seq<nat>, target: nat, i: nat)
    requires i < |counts| && counts[i] < target
    ensures Missing(counts, target) > 0
    ensures Missing(counts, target) == 1 ==> counts[i] + 1 == target
  {
    var after := counts[i := counts[i] + 1];
    MissingBump(counts, target, i);
    MissingZero(after, target);
    assert after[i] == counts[i] + 1;
  }

  // ----- numbers in a mixed radix -----

  lemma MulMonotone(d: nat, x: nat, y: nat)
    requires x <= y
    ensures d * x <= d * y
  {
  }

  lemma RowGap(radix: nat, p: nat, q: nat)
    requires p < q
    ensures radix * p + radix <= radix * q
  {
    MulMonotone(radix, p + 1, q);
    assert radix * (p + 1) == radix * p + radix;
  }

  /** Two mixed-radix numbers are equal only digit by digit. */
  lemma SameDigits(radix: nat, x: nat, p: nat, y: nat, q: nat)
    requires x < radix && y < radix
    requires x + radix * p == y + radix * q
    ensures x == y && p == q
  {
    if p < q {
      RowGap(radix, p, q);
    } else if q < p {
      RowGap(radix, q, p);
    }
  }
}
