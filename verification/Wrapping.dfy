/** What becomes of a run whose publishes per client, added up in 64 bits, wrapped round. `main`
    accepts such options; they are not acceptable to the rest of the model. */
module Wrapping {
  import opened Settings
  import opened Decimal
  import opened Counting
  import opened Protocol
  import opened Coupling

  /** Two counts of publishes that `main` accepts one by one, but whose sum does not fit. */
  predicate Wraps(c: Config) {
    && 0 < c.wanted < U64 && c.idle < U64
    && c.wanted + c.idle >= U64
  }

  /** A client's record when the warm-up begins: it has a slot for each of its publishes. */
  predicate BeginsWarmup(c: Config, s: ClientState) {
    && s.sendTimes == |s.sent| == c.ComputedTimes()
    && s.sendIdleCount == c.idle
    && s.timArmed
  }

  /** The records of one client from one expiry of its timer to the next, all in the warm-up. */
  predicate IdleSends(c: Config, records: seq<ClientState>, nows: seq<int>) {
    && |records| == |nows| + 1
    && forall k :: 0 <= k < |nows| ==> SentRecord(c, Idle, nows[k], records[k], records[k + 1])
  }

  /** With more idle publishes than slots the timer is still armed when the slots are used up. */
  lemma {:induction false} SlotsRunOut(c: Config, records: seq<ClientState>, nows: seq<int>)
    requires IdleSends(c, records, nows)
    requires records[0].timArmed && |nows| == records[0].sendTimes < records[0].sendIdleCount
    ensures records[|nows|].timArmed && records[|nows|].sendTimes == 0
    decreases |nows|
  {
    if nows != [] {
      assert SentRecord(c, Idle, nows[0], records[0], records[1]);
      assert IdleSends(c, records[1..], nows[1..]) by {
        forall k | 0 <= k < |nows[1..]|
          ensures SentRecord(c, Idle, nows[1..][k], records[1..][k], records[1..][k + 1])
        {
          assert SentRecord(c, Idle, nows[k + 1], records[k + 1], records[k + 2]);
        }
      }
      SlotsRunOut(c, records[1..], nows[1..]);
    }
  }

  /** A sending client then expires once more with no slot left: the program asks its vector of
      send times for the element before the first. */
  lemma WrappedSendersFail(c: Config, records: seq<ClientState>, nows: seq<int>)
    requires Wraps(c) && IdleSends(c, records, nows) && BeginsWarmup(c, records[0])
    requires |nows| == c.ComputedTimes()
    ensures records[|nows|].timArmed && records[|nows|].sendTimes == 0
    ensures forall now, t :: !SentRecord(c, Idle, now, records[|nows|], t)
  {
    TimesCoverWarmup(c);
    SlotsRunOut(c, records, nows);
  }

  /** The shared counters from one reception to the next. */
  predicate Receptions(c: Config, shared: seq<Shared>) {
    && shared != []
    && forall k :: 0 <= k < |shared| - 1 ==> ReceivedShared(c, shared[k], shared[k + 1])
  }

  lemma {:induction false} WarmupOutlasts(c: Config, shared: seq<Shared>)
    requires Receptions(c, shared) && |shared| == shared[0].restTimes + 1
    requires shared[0].restTimes < shared[0].restIdle
    ensures var last := shared[|shared| - 1];
            last.restTimes == 0 && last.restIdle > 0 && last.stage == shared[0].stage
    decreases |shared|
  {
    if |shared| > 1 {
      assert ReceivedShared(c, shared[0], shared[1]);
      assert Receptions(c, shared[1..]) by {
        forall k | 0 <= k < |shared[1..]| - 1
          ensures ReceivedShared(c, shared[1..][k], shared[1..][k + 1])
        {
          assert ReceivedShared(c, shared[k + 1], shared[k + 2]);
        }
      }
      WarmupOutlasts(c, shared[1..]);
    }
  }

  /** A receiving process counts every publish there is as warm-up, and never finishes. */
  lemma WrappedReceiversStarve(c: Config, shared: seq<Shared>)
    requires Wraps(c) && c.clients > 0 && c.clients * c.idle < U64
    requires Receptions(c, shared) && |shared| == shared[0].restTimes + 1
    requires shared[0].stage == Looping
    requires shared[0].restTimes == c.ComputedRestTimes() && shared[0].restIdle == c.ComputedRestIdle()
    ensures var last := shared[|shared| - 1];
            last.restTimes == 0 && last.restIdle > 0 && last.stage == Looping
  {
    TimesCoverWarmup(c);
    FewerTimes(c.clients, c.ComputedTimes(), c.idle);
    WarmupOutlasts(c, shared);
  }

  lemma FewerTimes(n: nat, times: nat, idle: nat)
    requires n > 0 && times < idle && n * idle < U64
    ensures times * n % U64 == times * n < idle * n == idle * n % U64
  {
    MulMonotone(n, times + 1, idle);
    assert n * (times + 1) == times * n + n;
  }
}
