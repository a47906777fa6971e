/** Round-robin assignment of clients to the target brokers. */
module Targets {
  import opened Counting

  /** The target of the i-th client, when the first one gets the target at `start`. */
  function Turn(start: nat, i: nat, targets: nat): (t: nat)
    requires targets > 0
    ensures t < targets
  {
    (start + i) % targets
  }

  lemma Remainder(q: nat, r: nat, m: nat)
    requires r < m
    ensures (m * q + r) % m == r && (m * q + r) / m == q
  {
    var x := m * q + r;
    assert x % m + m * (x / m) == r + m * q;
    SameDigits(m, x % m, x / m, r, q);
  }

  /** Counting on by one, with a wrap at the number of targets, is taking turns. */
  lemma NextTurn(start: nat, i: nat, m: nat)
    requires m > 0
    ensures Turn(start, i + 1, m) == if Turn(start, i, m) + 1 == m then 0 else Turn(start, i, m) + 1
    ensures (start + i + 1) / m == (start + i) / m + (if Turn(start, i, m) + 1 == m then 1 else 0)
  {
    var q, r := (start + i) / m, (start + i) % m;
    assert start + i + 1 == m * q + (r + 1);
    if r + 1 == m {
      assert m * (q + 1) == m * q + m;
      Remainder(q + 1, 0, m);
    } else {
      Remainder(q, r + 1, m);
    }
  }

  /** How many of the clients have target t. */
  function Load(picks: seq<nat>, t: nat): nat {
    if picks == [] then 0
    else Load(picks[..|picks| - 1], t) + (if picks[|picks| - 1] == t then 1 else 0)
  }

  /** The loads of any two targets differ by at most one. */
  predicate Balanced(picks: seq<nat>, targets: nat) {
    && (forall k :: 0 <= k < |picks| ==> picks[k] < targets)
    && forall s, t :: 0 <= s < targets && 0 <= t < targets ==> Load(picks, s) <= Load(picks, t) + 1
  }

  /** A target is picked once in every lap, the first lap beginning at `start`. */
  lemma {:induction false} LoadOfTurns(picks: seq<nat>, start: nat, targets: nat, t: nat)
    requires start < targets && t < targets
    requires forall k :: 0 <= k < |picks| ==> picks[k] == Turn(start, k, targets)
    ensures Load(picks, t) == (start + |picks|) / targets
                              + (if t < Turn(start, |picks|, targets) then 1 else 0)
                              - (if t < start then 1 else 0)
  {
    if picks == [] {
      Remainder(0, start, targets);
    } else {
      var n := |picks| - 1;
      LoadOfTurns(picks[..n], start, targets, t);
      NextTurn(start, n, targets);
    }
  }

  lemma TurnsBalance(picks: seq<nat>, start: nat, targets: nat)
    requires start < targets
    requires forall k :: 0 <= k < |picks| ==> picks[k] == Turn(start, k, targets)
    ensures Balanced(picks, targets)
  {
    forall s, t | 0 <= s < targets && 0 <= t < targets
      ensures Load(picks, s) <= Load(picks, t) + 1
    {
      LoadOfTurns(picks, start, targets, s);
      LoadOfTurns(picks, start, targets, t);
    }
  }
}
