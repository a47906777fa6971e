/** What one client of a process has measured and sent, told by the events of the run alone. */
module Accounts {
  import opened Settings
  import opened Decimal
  import opened Protocol
  import opened Runs
  import opened Readings
  import opened RecvReport

  /** In single mode its samples are round trips, in receive mode durations against the stamps, in
      some order; in send mode its publishes carry the wall-clock readings of their own sendings. */
  ghost predicate AccountsFor(c: Setup, es: seq<Event>, i: nat, samples: seq<nat>, sent: seq<Message>) {
    match c.mode
    case Single => exists rtt: seq<nat> :: SameSamples(samples, rtt) && RoundTripsAre(c, es, i, rtt)
    case Recv => SameSamples(samples, Durations(es, i, c.clients * c.idle))
    case Send => c.Index(i) < 1_0000_0000 && c.Times() < 1_0000_0000 ==> PublishesAre(c, es, i, sent)
  }

  predicate SameSamples(samples: seq<nat>, rtt: seq<nat>) {
    multiset(samples) == multiset(rtt)
  }

  predicate RoundTripsAre(c: Setup, es: seq<Event>, i: nat, rtt: seq<nat>) {
    RoundTrips(c.idle, SendReadings(es, i), ReceiveReadings(es, i), rtt)
  }

  predicate PublishesAre(c: Setup, es: seq<Event>, i: nat, sent: seq<Message>) {
    var times := SendTimes(es, i);
    |sent| == |times| && forall k :: 0 <= k < |times| ==> SpelledOut(c, i, k, times[k], sent[k])
  }

  /** The log of any run accounts for its client, and so does whatever holds the same samples and, in
      send mode, the same publishes. */
  lemma LogAccounts(c: Setup, es: seq<Event>, i: nat, samples: seq<nat>, sent: seq<Message>)
    requires Feasible(c, Init(c), es) && i < c.clients
    requires multiset(samples) == multiset(Outcome(c, es).logs[i].rtt)
    requires c.mode == Send ==> sent == Outcome(c, es).logs[i].pubs
    ensures AccountsFor(c, es, i, samples, sent)
  {
    hide RoundTrips, SendReadings, ReceiveReadings, Durations, SpelledOut, Feasible, Outcome;
    match c.mode
    case Single =>
      RoundTripsOfEvents(c, es, i);
      assert SameSamples(samples, Outcome(c, es).logs[i].rtt) && RoundTripsAre(c, es, i, Outcome(c, es).logs[i].rtt);
    case Recv =>
      SamplesAreDurations(c, es, i);
    case Send =>
      if c.Index(i) < 1_0000_0000 && c.Times() < 1_0000_0000 {
        PublishesOfEvents(c, es, i);
      }
  }
}
