/** What a run's logs and publishes are, read off its events alone: the clock readings of a client's
    handlers, and the wall-clock readings of its sendings. */
module Readings {
  import opened Wrappers
  import opened Settings
  import opened Decimal
  import opened Counting
  import opened Payload
  import opened Protocol
  import opened Runs

  /** The readings of the handlers that sent client i's publishes. */
  function SendReadings(es: seq<Event>, i: nat): seq<int> {
    if es == [] then []
    else (if es[0].IntervalOver? && es[0].i == i then [es[0].now] else []) + SendReadings(es[1..], i)
  }

  /** The wall-clock readings of the same handlers. */
  function SendTimes(es: seq<Event>, i: nat): seq<nat> {
    if es == [] then []
    else (if es[0].IntervalOver? && es[0].i == i then [es[0].wall] else []) + SendTimes(es[1..], i)
  }

  /** The readings of the handlers that received client i's publishes. */
  function ReceiveReadings(es: seq<Event>, i: nat): seq<int> {
    if es == [] then []
    else (if es[0].Received? && es[0].i == i then [es[0].now] else []) + ReceiveReadings(es[1..], i)
  }

  lemma {:induction false} AsManyReadings(es: seq<Event>, i: nat)
    ensures |SendTimes(es, i)| == |SendReadings(es, i)|
  {
    if es != [] {
      AsManyReadings(es[1..], i);
    }
  }

  /** Messages that are client i's publishes from its k-th one on, made at the given times. */
  predicate MadeAt(c: Setup, i: nat, k: nat, ms: seq<Message>, times: seq<nat>) {
    |ms| == |times| && forall j :: 0 <= j < |ms| ==> ms[j] == SentPublish(c, i, k + j, times[j])
  }

  lemma MadeFirst(c: Setup, i: nat, k: nat, wall: nat, ms: seq<Message>, times: seq<nat>)
    requires MadeAt(c, i, k + 1, ms, times)
    ensures MadeAt(c, i, k, [SentPublish(c, i, k, wall)] + ms, [wall] + times)
  {
    var ms', times' := [SentPublish(c, i, k, wall)] + ms, [wall] + times;
    forall j | 0 <= j < |ms'|
      ensures ms'[j] == SentPublish(c, i, k + j, times'[j])
    {
      if j > 0 {
        assert ms'[j] == ms[j - 1] && times'[j] == times[j - 1];
        assert SentPublish(c, i, k + 1 + (j - 1), times[j - 1]) == SentPublish(c, i, k + j, times[j - 1]);
      }
    }
  }

  lemma AdvanceAddsNothing(c: Config, v: View)
    ensures Advance(c, v).logs == v.logs
  {
  }

  /** What one step adds to client i's log. */
  lemma StepReadings(c: Setup, v: View, e: Event, i: nat)
    requires c.mode != Recv && Enabled(c, v, e) && i < |v.logs| && |v.logs[i].pubs| == |v.logs[i].sentAt|
    ensures |Next(c, v, e).logs| == |v.logs|
    ensures var l, m := v.logs[i], Next(c, v, e).logs[i];
            && m.sentAt == l.sentAt + (if e.IntervalOver? && e.i == i then [e.now] else [])
            && m.recvAt == l.recvAt + (if e.Received? && e.i == i then [e.now] else [])
            && m.pubs == l.pubs + if e.IntervalOver? && e.i == i then [SentPublish(c, i, |l.pubs|, e.wall)] else []
  {
    hide Advance, Warm, SentPublish, AsSize, Micros, Deadline;
    if e.IntervalOver? {
      AdvanceAddsNothing(c, NoteSent(c, v, e.i, e.now, e.wall));
    } else if e.Received? {
      var sample := if Warm(c, v) then [AsSize(Measured(c, v.logs[e.i], e.p, e.now).value)] else [];
      AdvanceAddsNothing(c, NoteReceived(v, e.i, e.now, sample));
    }
  }

  lemma Regroup<T>(x: seq<T>, y: seq<T>, z: seq<T>)
    ensures (x + y) + z == x + (y + z)
  {
  }

  lemma {:induction false} TimesFromHere(c: Setup, v: View, es: seq<Event>, i: nat)
    requires c.mode != Recv && Inv(c, v) && Feasible(c, v, es) && i < c.clients
    ensures |v.logs| == |After(c, v, es).logs| == c.clients
    ensures After(c, v, es).logs[i].sentAt == v.logs[i].sentAt + SendReadings(es, i)
    ensures After(c, v, es).logs[i].recvAt == v.logs[i].recvAt + ReceiveReadings(es, i)
    decreases |es|
  {
    hide Inv, Next, Enabled;
    NothingMade(c, v, i);
    if es != [] {
      var e := es[0];
      NextKeeps(c, v, e);
      StepReadings(c, v, e, i);
      TimesFromHere(c, Next(c, v, e), es[1..], i);
      Regroup(v.logs[i].sentAt, if e.IntervalOver? && e.i == i then [e.now] else [], SendReadings(es[1..], i));
      Regroup(v.logs[i].recvAt, if e.Received? && e.i == i then [e.now] else [], ReceiveReadings(es[1..], i));
    }
  }

  lemma {:induction false} PublishesFromHere(c: Setup, v: View, es: seq<Event>, i: nat)
    returns (made: seq<Message>)
    requires c.mode != Recv && Inv(c, v) && Feasible(c, v, es) && i < c.clients
    ensures |v.logs| == |After(c, v, es).logs| == c.clients
    ensures After(c, v, es).logs[i].pubs == v.logs[i].pubs + made
    ensures MadeAt(c, i, |v.logs[i].pubs|, made, SendTimes(es, i))
    decreases |es|
  {
    hide Inv, Next, Enabled, SentPublish, MadeAt;
    NothingMade(c, v, i);
    if es == [] {
      made := [];
    } else {
      var e, n := es[0], |v.logs[i].pubs|;
      NextKeeps(c, v, e);
      StepReadings(c, v, e, i);
      var rest := PublishesFromHere(c, Next(c, v, e), es[1..], i);
      if e.IntervalOver? && e.i == i {
        made := [SentPublish(c, i, n, e.wall)] + rest;
        MadeFirst(c, i, n, e.wall, rest, SendTimes(es[1..], i));
        Regroup(v.logs[i].pubs, [SentPublish(c, i, n, e.wall)], rest);
      } else {
        made := rest;
        assert SendTimes(es, i) == SendTimes(es[1..], i);
      }
    }
  }

  lemma NothingMade(c: Setup, v: View, i: nat)
    requires Inv(c, v) && i < c.clients
    ensures |v.logs| == c.clients && MadeAt(c, i, |v.logs[i].pubs|, [], [])
    ensures c.mode != Recv ==> |v.logs[i].pubs| == |v.logs[i].sentAt|
  {
    assert LogOk(c, v, i);
  }

  /** The times in a client's log are the readings of its own handlers, in order. */
  lemma LogsAreReadings(c: Setup, es: seq<Event>, i: nat)
    requires c.mode != Recv && Feasible(c, Init(c), es) && i < c.clients
    ensures Outcome(c, es).logs[i].sentAt == SendReadings(es, i)
    ensures Outcome(c, es).logs[i].recvAt == ReceiveReadings(es, i)
    ensures MadeAt(c, i, 0, Outcome(c, es).logs[i].pubs, SendTimes(es, i))
  {
    InitInv(c);
    TimesFromHere(c, Init(c), es, i);
    var made := PublishesFromHere(c, Init(c), es, i);
    assert Outcome(c, es).logs[i].pubs == made;
  }

  /** Samples that are the whole microseconds between the sending and the receiving of each message
      after the idle ones. */
  predicate RoundTrips(idle: nat, sent: seq<int>, received: seq<int>, rtt: seq<nat>) {
    && |received| <= |sent|
    && |rtt| == (if |received| <= idle then 0 else |received| - idle)
    && forall j :: 0 <= j < |rtt| ==>
         && sent[idle + j] <= received[idle + j]
         && rtt[j] == (received[idle + j] - sent[idle + j]) / 1000 % 0x1_0000_0000_0000_0000
  }

  lemma LogRoundTrips(c: Setup, v: View, i: nat)
    requires c.mode == Single && Inv(c, v) && i < c.clients
    ensures |v.logs| == c.clients
    ensures RoundTrips(c.idle, v.logs[i].sentAt, v.logs[i].recvAt, v.logs[i].rtt)
  {
    hide AsSize, Micros;
    assert LogOk(c, v, i);
    forall j | 0 <= j < |v.logs[i].rtt|
      ensures v.logs[i].sentAt[c.idle + j] <= v.logs[i].recvAt[c.idle + j]
      ensures v.logs[i].rtt[j]
           == (v.logs[i].recvAt[c.idle + j] - v.logs[i].sentAt[c.idle + j]) / 1000 % 0x1_0000_0000_0000_0000
    {
      SamplesAreRoundTrips(c, v, i, j);
    }
  }

  /** In single mode sample j of a client is the time between the handlers that sent and received
      its measured message j, read off the events alone. */
  lemma RoundTripsOfEvents(c: Setup, es: seq<Event>, i: nat)
    requires c.mode == Single && Feasible(c, Init(c), es) && i < c.clients
    ensures RoundTrips(c.idle, SendReadings(es, i), ReceiveReadings(es, i), Outcome(c, es).logs[i].rtt)
  {
    hide RoundTrips, SendReadings, ReceiveReadings, Outcome, Feasible, Inv;
    LogsAreReadings(c, es, i);
    OutcomeKeeps(c, es);
    LogRoundTrips(c, Outcome(c, es), i);
  }

  /** Client i's k-th publish spelled out: its topic ends in its index; its payload begins with the
      index, the count of publishes left before it and, in send mode, the wall-clock reading of the
      handler that sent it; and goes on as the template. */
  predicate SpelledOut(c: Setup, i: nat, k: nat, wall: nat, m: Message) {
    var index, end := (c.startIndex + i) % 0x1_0000_0000_0000_0000, if c.mode == Send then 48 else 16;
    && c.topicPrefix <= m.topic
    && |m.topic| == |c.topicPrefix| + 8 && Parse(m.topic[|c.topicPrefix|..], U64) == Some(index)
    && end <= |m.payload| == c.payloadSize
    && Parse(m.payload[..8], U64) == Some(index)
    && k < c.wanted + c.idle && Parse(m.payload[8..16], U64) == Some(c.wanted + c.idle - k)
    && (c.mode == Send ==> Parse(m.payload[16..48], U64) == Some(wall) && DecodeStamp(m.payload) == Some(wall))
    && m.payload[end..] == Template(c.payloadSize)[end..]
  }

  lemma PublishSpelledOut(c: Setup, i: nat, k: nat, wall: nat)
    requires c.mode != Recv && i < c.clients && k < c.Times() && wall < I64_LIMIT
    requires c.Index(i) < 1_0000_0000 && c.Times() < 1_0000_0000
    ensures SpelledOut(c, i, k, wall, SentPublish(c, i, k, wall))
  {
    Room(c, i, c.Times() - k, wall);
    FieldsParse(c.mode, c.payloadSize, c.Index(i), c.Times() - k, wall);
    FieldWidth(c.Index(i));
    ParsePad(FIELD, c.Index(i), U64);
    assert Topic(c, i)[|c.topicPrefix|..] == IndexStr(c.Index(i));
  }

  lemma {:induction false} TimesAreReadings(c: Setup, v: View, es: seq<Event>, i: nat)
    requires Feasible(c, v, es)
    ensures forall k :: 0 <= k < |SendTimes(es, i)| ==> SendTimes(es, i)[k] < I64_LIMIT
    decreases |es|
  {
    if es != [] {
      TimesAreReadings(c, Next(c, v, es[0]), es[1..], i);
    }
  }

  /** With fields of eight digits, client i's k-th publish in any run carries its own index and
      count and, in send mode, the wall-clock reading of its own sending; and nothing else is
      published. */
  lemma PublishesOfEvents(c: Setup, es: seq<Event>, i: nat)
    requires c.mode != Recv && Feasible(c, Init(c), es) && i < c.clients
    requires c.Index(i) < 1_0000_0000 && c.Times() < 1_0000_0000
    ensures var pubs, times := Outcome(c, es).logs[i].pubs, SendTimes(es, i);
            |pubs| == |times| && forall k :: 0 <= k < |pubs| ==> SpelledOut(c, i, k, times[k], pubs[k])
  {
    LogsAreReadings(c, es, i);
    Reachable(c, es);
    TimesAreReadings(c, Init(c), es, i);
    var w := Outcome(c, es);
    assert LogOk(c, w, i);
    forall k | 0 <= k < |w.logs[i].pubs|
      ensures SpelledOut(c, i, k, SendTimes(es, i)[k], w.logs[i].pubs[k])
    {
      PublishSpelledOut(c, i, k, SendTimes(es, i)[k]);
    }
  }
}
