/** Receiving only: which samples end up in the report. The warm-up counter is shared, so it takes
    the first N * idle publishes of all clients together, whoever receives them. */
module RecvReport {
  import opened Wrappers
  import opened Settings
  import opened Decimal
  import opened Counting
  import opened Payload
  import opened Protocol
  import opened Runs

  function SampleCounts(logs: seq<ClientLog>): seq<nat> {
    seq(|logs|, i requires 0 <= i < |logs| => |logs[i].rtt|)
  }

  lemma {:induction false} SkippedAndSampled(logs: seq<ClientLog>)
    requires forall i :: 0 <= i < |logs| ==> |logs[i].rtt| <= |logs[i].recvAt|
    ensures Sum(SkipCounts(logs)) + Sum(SampleCounts(logs)) == Sum(RecvCounts(logs))
  {
    if logs != [] {
      var n := |logs| - 1;
      SkippedAndSampled(logs[..n]);
      assert SkipCounts(logs)[..n] == SkipCounts(logs[..n]);
      assert SampleCounts(logs)[..n] == SampleCounts(logs[..n]);
      assert RecvCounts(logs)[..n] == RecvCounts(logs[..n]);
    }
  }

  /** The shares of the receptions: N * idle for the warm-up, N * wanted for the samples. */
  lemma Shares(n: nat, wanted: nat, idle: nat)
    requires n > 0
    ensures n * (wanted + idle) == n * wanted + n * idle
    ensures n * idle == (n - 1) * idle + idle
  {
  }

  lemma FinishedReceiver(c: Setup, v: View, i: nat)
    requires c.mode == Recv && Inv(c, v) && v.stage == Finished && i < c.clients
    ensures |v.logs[i].rtt| <= |v.logs[i].recvAt| == c.Times() == RecvCounts(v.logs)[i]
  {
    assert LogOk(c, v, i) && DoneCounts(c, v.logs)[i] >= c.Times();
  }

  lemma SkippedInAll(c: Setup, v: View)
    requires c.mode == Recv && Inv(c, v) && v.stage == Finished
    ensures Sum(RecvCounts(v.logs)) == c.clients * c.Times()
    ensures Sum(SkipCounts(v.logs)) == c.clients * c.idle
  {
    forall i | 0 <= i < c.clients
      ensures RecvCounts(v.logs)[i] == c.Times()
    {
      FinishedReceiver(c, v, i);
    }
    SumUniform(RecvCounts(v.logs), c.Times());
    Shares(c.clients, c.wanted, c.idle);
  }

  /** A finished receiving run has N * wanted samples in all, and no client misses more than the
      idle publishes of all the others. */
  lemma SamplesInAll(c: Setup, es: seq<Event>)
    requires c.mode == Recv && Feasible(c, Init(c), es) && Outcome(c, es).stage == Finished
    ensures var logs := Outcome(c, es).logs;
            && Sum(SampleCounts(logs)) == c.clients * c.wanted
            && forall i :: 0 <= i < c.clients ==> |logs[i].rtt| + (c.clients - 1) * c.idle >= c.wanted
  {
    var v := Outcome(c, es);
    Reachable(c, es);
    SkippedInAll(c, v);
    Shares(c.clients, c.wanted, c.idle);
    forall i | 0 <= i < c.clients
      ensures |v.logs[i].rtt| <= |v.logs[i].recvAt|
      ensures |v.logs[i].rtt| + (c.clients - 1) * c.idle >= c.wanted
    {
      FinishedReceiver(c, v, i);
      SumBound(SkipCounts(v.logs), i);
      assert SkipCounts(v.logs)[i] == c.Times() - |v.logs[i].rtt|;
    }
    SkippedAndSampled(v.logs);
  }

  // ----- where receiving runs end -----

  predicate Undecodable(e: Event) {
    e.Received? && DecodeStamp(e.p.payload) == None
  }

  predicate EndsUndecodable(es: seq<Event>) {
    es != [] && Undecodable(es[|es| - 1])
  }

  /** A step that stops the process is a refused subscription or an undecodable publish. */
  lemma StoppingStep(c: Setup, v: View, e: Event)
    requires c.mode == Recv && Enabled(c, v, e) && v.stage != Stopped && Next(c, v, e).stage == Stopped
    ensures Good(e) ==> Undecodable(e)
  {
  }

  /** Without refusals only a publish with no time stamp in it stops a receiving run, at once. */
  lemma {:induction false} StoppedByPublish(c: Setup, v: View, es: seq<Event>)
    requires c.mode == Recv && Inv(c, v) && v.stage != Stopped
    requires Feasible(c, v, es) && AllGood(es) && After(c, v, es).stage == Stopped
    ensures EndsUndecodable(es)
    decreases |es|
  {
    hide Inv, Next, Enabled, Good, Undecodable;
    var w := Next(c, v, es[0]);
    NextKeeps(c, v, es[0]);
    if w.stage == Stopped {
      RunLength(c, w, es[1..]);
      StoppingStep(c, v, es[0]);
    } else {
      StoppedByPublish(c, w, es[1..]);
    }
  }

  /** Warm-up publishes still to come. */
  function Skips(c: Config, v: View): nat {
    Monus(c.clients * c.idle, Sum(RecvCounts(v.logs)))
  }

  lemma QuietStep(c: Setup, v: View, e: Event)
    requires c.mode == Recv && Enabled(c, v, e) && !e.Received?
    ensures Next(c, v, e).logs == v.logs
  {
  }

  lemma ReceivedStep(c: Setup, v: View, e: Event, i: nat)
    requires c.mode == Recv && Enabled(c, v, e) && e.Received? && i < |v.logs| == c.clients
    ensures var w := Next(c, v, e);
            var stamp := DecodeStamp(e.p.payload);
            if Skips(c, v) == 0 && stamp == None then w.stage == Stopped && w.logs == v.logs
            else
              && Skips(c, w) == Monus(Skips(c, v), 1)
              && |w.logs| == c.clients
              && w.logs[i].rtt
                 == v.logs[i].rtt
                    + if Skips(c, v) == 0 && e.i == i then [Sample(stamp.value, e.now)] else []
  {
    var w := Next(c, v, e);
    if DecodeStamp(e.p.payload).Some? {
      SampleIsMeasured(DecodeStamp(e.p.payload).value, e.now);
    }
    if Skips(c, v) > 0 || DecodeStamp(e.p.payload) != None {
      CountsAfter(c, v, w, e.i);
      SumBump(RecvCounts(v.logs), e.i, 1);
    }
  }

  lemma OneMore(c: Setup, v: View, e: Event)
    requires c.mode == Recv && Enabled(c, v, e) && e.Received?
    ensures Sum(RecvCounts(Next(c, v, e).logs)) <= Sum(RecvCounts(v.logs)) + 1
  {
    hide AsSize, Micros, DecodeStamp, AllReached, Warm, DoneCounts;
    CountsAfter(c, v, Next(c, v, e), e.i);
    SumBump(RecvCounts(v.logs), e.i, 1);
  }

  lemma OnlyPublishesFinish(c: Setup, v: View, e: Event)
    requires c.mode == Recv && Enabled(c, v, e) && v.stage != Finished && Next(c, v, e).stage == Finished
    ensures e.Received?
  {
  }

  /** The publish that finishes a run comes after the warm-up, so it was decoded. */
  lemma FinishingStep(c: Setup, v: View, e: Event)
    requires c.mode == Recv && Inv(c, v) && Enabled(c, v, e)
    requires v.stage != Finished && Next(c, v, e).stage == Finished
    ensures e.Received? && Skips(c, v) == 0 && !Undecodable(e)
  {
    hide Next, Enabled, LogOk, ProgressOk, PhasesOk, AnswersOk;
    OnlyPublishesFinish(c, v, e);
    NextKeeps(c, v, e);
    SkippedInAll(c, Next(c, v, e));
    OneMore(c, v, e);
    LastIsWarm(c);
    ReceivedStep(c, v, e, 0);
  }

  lemma LastIsWarm(c: Setup)
    ensures c.clients * c.Times() - 1 >= c.clients * c.idle
  {
    Shares(c.clients, c.wanted, c.idle);
    assert c.clients * c.wanted >= 1;
  }

  lemma {:induction false} FinishedByPublish(c: Setup, v: View, es: seq<Event>)
    requires c.mode == Recv && Inv(c, v) && v.stage != Finished
    requires Feasible(c, v, es) && After(c, v, es).stage == Finished
    ensures !EndsUndecodable(es)
    decreases |es|
  {
    hide Next, Enabled, Undecodable;
    var w := Next(c, v, es[0]);
    NextKeeps(c, v, es[0]);
    if w.stage == Finished {
      RunLength(c, w, es[1..]);
      FinishingStep(c, v, es[0]);
    } else {
      FinishedByPublish(c, w, es[1..]);
    }
  }

  /** Every publish received after the first `skip` carries a time stamp. */
  predicate Stamps(es: seq<Event>, skip: nat) {
    if es == [] then true
    else if !es[0].Received? then Stamps(es[1..], skip)
    else if skip > 0 then Stamps(es[1..], skip - 1)
    else !Undecodable(es[0]) && Stamps(es[1..], 0)
  }

  /** An unrefused receiving run is stopped exactly by a publish without a stamp after the warm-up. */
  lemma {:induction false} StoppedFromHere(c: Setup, v: View, es: seq<Event>)
    requires c.mode == Recv && Inv(c, v) && v.stage != Stopped && Feasible(c, v, es) && AllGood(es)
    ensures After(c, v, es).stage == Stopped <==> !Stamps(es, Skips(c, v))
    decreases |es|
  {
    hide Next, Enabled, Good, Undecodable, Skips, LogOk, ProgressOk, PhasesOk, AnswersOk, SkipsOk;
    if es != [] {
      var e, w := es[0], Next(c, v, es[0]);
      NextKeeps(c, v, e);
      if w.stage == Stopped {
        RunLength(c, w, es[1..]);
        StoppingStep(c, v, e);
        OnlyWarmStops(c, v, e);
      } else {
        StoppedFromHere(c, w, es[1..]);
        GoingOn(c, v, e);
      }
    }
  }

  lemma OnlyWarmStops(c: Setup, v: View, e: Event)
    requires c.mode == Recv && Enabled(c, v, e) && Undecodable(e) && v.stage != Stopped
    requires Next(c, v, e).stage == Stopped
    ensures e.Received? && Skips(c, v) == 0
  {
  }

  lemma GoingOn(c: Setup, v: View, e: Event)
    requires c.mode == Recv && Enabled(c, v, e) && Next(c, v, e).stage != Stopped && |v.logs| == c.clients
    ensures !e.Received? ==> Skips(c, Next(c, v, e)) == Skips(c, v)
    ensures e.Received? ==> Skips(c, Next(c, v, e)) == Monus(Skips(c, v), 1)
    ensures e.Received? && Skips(c, v) == 0 ==> !Undecodable(e)
  {
    if e.Received? {
      ReceivedStep(c, v, e, 0);
    } else {
      QuietStep(c, v, e);
    }
  }

  /** A complete receiving run finishes exactly when nobody was refused and every publish received
      after the first N * idle carried a time stamp; which shows in its last one. Then it took one
      step per publish. */
  lemma RecvModeTermination(c: Setup, es: seq<Event>)
    requires c.mode == Recv && Complete(c, es)
    ensures Outcome(c, es).stage == Finished <==> AllGood(es) && Stamps(es, c.clients * c.idle)
    ensures Outcome(c, es).stage == Finished <==> AllGood(es) && !EndsUndecodable(es)
    ensures Outcome(c, es).stage == Finished ==>
              && |es| == 2 * c.clients + 1 + c.clients * c.Times()
              && forall i :: 0 <= i < c.clients ==> |Outcome(c, es).logs[i].recvAt| == c.Times()
  {
    var w := Outcome(c, es);
    Reachable(c, es);
    RefusalsStay(c, Init(c), es);
    Progress(c, w);
    InitInv(c);
    InitLeft(c);
    RunLength(c, Init(c), es);
    StartSkips(c);
    if AllGood(es) {
      StoppedFromHere(c, Init(c), es);
    }
    if w.stage == Finished {
      FinishedByPublish(c, Init(c), es);
      forall i | 0 <= i < c.clients
        ensures |w.logs[i].recvAt| == c.Times()
      {
        FinishedReceiver(c, w, i);
      }
    } else if AllGood(es) {
      StoppedByPublish(c, Init(c), es);
    }
  }

  lemma StartSkips(c: Setup)
    ensures Skips(c, Init(c)) == c.clients * c.idle
  {
    SumUniform(RecvCounts(Init(c).logs), 0);
  }

  // ----- what the samples are -----

  /** The microseconds from a stamp to a reading, in 64 bits. A stamp ahead of the reading counts
      back from 2^64. */
  function Sample(stamp: nat, now: int): nat {
    if now >= stamp then (now - stamp) / 1000 % 0x1_0000_0000_0000_0000
    else -((stamp - now) / 1000) % 0x1_0000_0000_0000_0000
  }

  lemma SampleIsMeasured(stamp: nat, now: int)
    ensures AsSize(Micros(stamp, now)) == Sample(stamp, now)
  {
  }

  /** Client i's samples read off the events alone: the publishes it received, without the first
      `skip` received by anyone, each measured against its own time stamp. */
  function Durations(es: seq<Event>, i: nat, skip: nat): seq<nat> {
    if es == [] then []
    else if !es[0].Received? then Durations(es[1..], i, skip)
    else if skip > 0 then Durations(es[1..], i, skip - 1)
    else
      match DecodeStamp(es[0].p.payload)
      case None => Durations(es[1..], i, 0)
      case Some(stamp) =>
        (if es[0].i == i then [Sample(stamp, es[0].now)] else []) + Durations(es[1..], i, 0)
  }

  lemma {:induction false} SamplesFromHere(c: Setup, v: View, es: seq<Event>, i: nat)
    requires c.mode == Recv && Inv(c, v) && Feasible(c, v, es) && i < c.clients
    ensures |After(c, v, es).logs| == c.clients
    ensures After(c, v, es).logs[i].rtt == v.logs[i].rtt + Durations(es, i, Skips(c, v))
    decreases |es|
  {
    hide Next, Enabled, Sample, DecodeStamp, Skips, LogOk, ProgressOk, PhasesOk, AnswersOk, SkipsOk;
    AfterKeeps(c, v, es);
    if es != [] {
      var e, w := es[0], Next(c, v, es[0]);
      NextKeeps(c, v, e);
      SamplesFromHere(c, w, es[1..], i);
      if !e.Received? {
        QuietStep(c, v, e);
        SameSkips(c, v, w);
      } else {
        ReceivedStep(c, v, e, i);
        if w.stage == Stopped {
          RunLength(c, w, es[1..]);
        }
      }
    }
  }

  lemma SameSkips(c: Config, v: View, w: View)
    requires w.logs == v.logs
    ensures Skips(c, w) == Skips(c, v)
  {
  }

  /** In every receiving run client i's samples are the durations of its own publishes, each
      against its own stamp, in the order received, without the first N * idle of all clients. */
  lemma SamplesAreDurations(c: Setup, es: seq<Event>, i: nat)
    requires c.mode == Recv && Feasible(c, Init(c), es) && i < c.clients
    ensures Outcome(c, es).logs[i].rtt == Durations(es, i, c.clients * c.idle)
  {
    InitInv(c);
    StartSkips(c);
    SamplesFromHere(c, Init(c), es, i);
  }

  /** A sample is the duration since the stamp unless the stamp is a microsecond or more ahead of
      the reading: then a small negative duration is taken for a number near 2^64. */
  lemma TrueDuration(stamp: nat, now: int)
    requires stamp < I64_LIMIT && 0 <= now < I64_LIMIT
    ensures stamp <= now ==> Sample(stamp, now) == (now - stamp) / 1000
    ensures now < stamp < now + 1000 ==> Sample(stamp, now) == 0
    ensures stamp >= now + 1000 ==> Sample(stamp, now) == U64 - (stamp - now) / 1000 > I64_LIMIT
    ensures AsSize(Micros(stamp, now)) == Micros(stamp, now) <==> stamp < now + 1000
  {
    SampleIsMeasured(stamp, now);
    if stamp < now + 1000 {
      assert 0 <= Micros(stamp, now) < U64;
    } else {
      var d := (stamp - now) / 1000;
      assert 1 <= d < U64 && Micros(stamp, now) == -d;
    }
  }

  // ----- a run that leaves the first client without samples -----

  /** Index and count keep their eight digits. */
  predicate EightDigits(c: Config) {
    c.startIndex + c.clients <= 1_0000_0000 && c.Times() < 1_0000_0000
  }

  /** The k-th publish that reaches client i from a sending process with the same options and the
      least payload size. */
  function Published(c: Config, i: nat, k: nat, wall: nat): Message
    requires k < c.Times()
  {
    Message(Topic(c, i), SendVariable(Send, c.Index(i), c.Times() - k, wall))
  }

  lemma PublishedIsSent(c: Config, i: nat, k: nat, wall: nat)
    requires EightDigits(c) && i < c.clients && k < c.Times() && wall < I64_LIMIT
    ensures SendPayload(Send, Template(2 * FIELD + TS_SIZE), c.Index(i), c.Times() - k, wall)
         == Some(Published(c, i, k, wall).payload)
    ensures DecodeStamp(Published(c, i, k, wall).payload) == Some(wall)
  {
    FieldWidth(c.Index(i));
    FieldWidth(c.Times() - k);
    Width32(wall);
    ParsePad(TS_SIZE, wall, I64_LIMIT);
    var t, v := Template(2 * FIELD + TS_SIZE), Published(c, i, k, wall).payload;
    assert |v| == |t| && t[|v|..] == [] && v + [] == v;
    assert Published(c, i, k, wall).payload[2 * FIELD..2 * FIELD + TS_SIZE] == Pad(TS_SIZE, wall);
  }

  /** A reception of what the sending process published next for that client, stamped no later
      than the receiver's reading. */
  ghost predicate FromSender(c: Setup, v: View, e: Event) {
    e.Received? ==>
      && e.i < |v.logs| && |v.logs[e.i].recvAt| < c.Times()
      && exists wall: nat :: wall < I64_LIMIT && wall <= e.now
                             && e.p == Published(c, e.i, |v.logs[e.i].recvAt|, wall)
  }

  /** A run in which every client receives, in order, the publishes of a sending process. */
  ghost predicate Genuine(c: Setup, v: View, es: seq<Event>)
    requires Feasible(c, v, es)
    decreases |es|
  {
    es == [] || (FromSender(c, v, es[0]) && Genuine(c, Next(c, v, es[0]), es[1..]))
  }

  lemma PrependGenuine(c: Setup, v: View, e: Event, es: seq<Event>)
    requires Enabled(c, v, e) && FromSender(c, v, e)
    requires Feasible(c, Next(c, v, e), es) && Genuine(c, Next(c, v, e), es)
    ensures Feasible(c, v, [e] + es) && Genuine(c, v, [e] + es)
  {
    assert ([e] + es)[1..] == es;
  }

  /** Client i's k-th publish in the run below. Beyond eight digits a sender's own publishes can
      no longer be decoded, and one with narrow fields stands in. */
  function Stamped(c: Config, i: nat, k: nat): Message
    requires k < c.Times()
  {
    if EightDigits(c) then Published(c, i, k, 0) else Message(Topic(c, i), SendVariable(Send, 0, 0, 0))
  }

  lemma StampedDecodes(c: Config, i: nat, k: nat)
    requires i < c.clients && k < c.Times()
    ensures DecodeStamp(Stamped(c, i, k).payload) == Some(0)
  {
    if EightDigits(c) {
      PublishedIsSent(c, i, k, 0);
    } else {
      FieldWidth(0);
      Width32(0);
      ParsePad(TS_SIZE, 0, I64_LIMIT);
      assert Stamped(c, i, k).payload[2 * FIELD..2 * FIELD + TS_SIZE] == Pad(TS_SIZE, 0);
    }
  }

  /** Nobody was refused, and client `who` came first: either all received so far were its own, or
      it has received them all. Only the first N * idle of them gave no sample. */
  ghost predicate Starving(c: Setup, v: View, who: nat) {
    && c.mode == Recv && who < c.clients
    && Inv(c, v) && Unrefused(v) && v.stage != Stopped
    && |v.logs[who].rtt| == Monus(|v.logs[who].recvAt|, c.clients * c.idle)
    && (|v.logs[who].recvAt| < c.Times() ==> Sum(RecvCounts(v.logs)) == |v.logs[who].recvAt|)
  }

  /** Client i's next publish. */
  function NextPublish(c: Setup, v: View, i: nat): Event
    requires i < |v.logs| && |v.logs[i].recvAt| < c.Times()
  {
    Received(i, Stamped(c, i, |v.logs[i].recvAt|), 0)
  }

  /** A decodable publish is counted for its receiver, and sampled unless it is warm-up. */
  lemma StampedCounts(c: Setup, v: View, i: nat)
    requires c.mode == Recv && i < |v.logs| == c.clients && |v.logs[i].recvAt| < c.Times()
    requires v.stage == Looping
    ensures Enabled(c, v, NextPublish(c, v, i))
    ensures var w := Next(c, v, NextPublish(c, v, i));
            && w.stage != Stopped && |w.logs| == c.clients
            && RecvCounts(w.logs) == RecvCounts(v.logs)[i := |v.logs[i].recvAt| + 1]
            && |w.logs[i].rtt| == |v.logs[i].rtt| + (if Warm(c, v) then 1 else 0)
            && forall j :: 0 <= j < c.clients && j != i ==> w.logs[j] == v.logs[j]
  {
    StampedDecodes(c, i, |v.logs[i].recvAt|);
    hide Stamped, DecodeStamp, Warm, AsSize;
  }

  lemma StarvingReceives(c: Setup, v: View, who: nat, i: nat)
    requires Starving(c, v, who) && v.stage == Looping && i < c.clients && |v.logs[i].recvAt| < c.Times()
    requires i == who || |v.logs[who].recvAt| == c.Times()
    ensures Enabled(c, v, NextPublish(c, v, i)) && Starving(c, Next(c, v, NextPublish(c, v, i)), who)
  {
    hide Next, Enabled, Good, LogOk, ProgressOk, PhasesOk, AnswersOk, SkipsOk, Stamped;
    var e := NextPublish(c, v, i);
    StampedCounts(c, v, i);
    NextKeeps(c, v, e);
    PublishRefusesNothing(c, v, e);
    if i == who {
      SumBump(RecvCounts(v.logs), who, 1);
    }
    var w := Next(c, v, e);
    assert |w.logs[who].recvAt| == RecvCounts(w.logs)[who];
  }

  lemma PublishRefusesNothing(c: Setup, v: View, e: Event)
    requires Enabled(c, v, e) && e.Received?
    ensures Unrefused(Next(c, v, e)) <==> Unrefused(v)
  {
    StepRefusal(c, v, e);
  }

  lemma NextIsGenuine(c: Setup, v: View, i: nat)
    requires EightDigits(c) && i < |v.logs| && |v.logs[i].recvAt| < c.Times()
    ensures FromSender(c, v, NextPublish(c, v, i))
  {
    assert NextPublish(c, v, i).p == Published(c, i, |v.logs[i].recvAt|, 0);
  }

  lemma StarvingLoops(c: Setup, v: View, who: nat) returns (e: Event)
    requires Starving(c, v, who) && v.stage == Looping
    ensures Enabled(c, v, e) && Starving(c, Next(c, v, e), who)
    ensures EightDigits(c) ==> FromSender(c, v, e)
  {
    assert LogOk(c, v, who);
    var i := who;
    if |v.logs[who].recvAt| == c.Times() {
      i :| 0 <= i < c.clients && RecvCounts(v.logs)[i] < c.Times();
    }
    hide LogOk, Starving, Enabled, Next, FromSender, NextPublish;
    e := NextPublish(c, v, i);
    StarvingReceives(c, v, who, i);
    if EightDigits(c) {
      NextIsGenuine(c, v, i);
    }
  }

  lemma StarvingGoesOn(c: Setup, v: View, who: nat) returns (e: Event)
    requires Starving(c, v, who) && v.stage != Finished
    ensures Enabled(c, v, e) && Starving(c, Next(c, v, e), who)
    ensures EightDigits(c) ==> FromSender(c, v, e)
  {
    if v.stage == Looping {
      e := StarvingLoops(c, v, who);
    } else {
      Progress(c, v);
      if v.stage == Connecting {
        var i :| 0 <= i < |v.conn| && v.conn[i] == Pending;
        e := Connack(i, true);
      } else if v.stage == SubDelaying {
        e := SubDelayOver;
      } else {
        var i :| 0 <= i < |v.subs| && v.subs[i] == Pending;
        e := Suback(i, Granted);
      }
      NextKeeps(c, v, e);
      StepRefusal(c, v, e);
    }
  }

  lemma {:induction false} StarvingRun(c: Setup, v: View, who: nat) returns (es: seq<Event>)
    requires Starving(c, v, who)
    ensures Feasible(c, v, es)
    ensures EightDigits(c) ==> Genuine(c, v, es)
    ensures After(c, v, es).stage == Finished && Starving(c, After(c, v, es), who)
    decreases Left(c, v)
  {
    hide Starving, FromSender, EightDigits;
    if v.stage == Finished {
      es := [];
    } else {
      var e := StarvingGoesOn(c, v, who);
      StarvingInv(c, v, who);
      StarvingInv(c, Next(c, v, e), who);
      StepLeft(c, v, e);
      var rest := StarvingRun(c, Next(c, v, e), who);
      Prepend(c, v, e, rest);
      es := [e] + rest;
      if EightDigits(c) {
        PrependGenuine(c, v, e, rest);
      }
    }
  }

  lemma StarvingInv(c: Setup, v: View, who: nat)
    requires Starving(c, v, who)
    ensures Inv(c, v) && v.stage != Stopped
  {
  }

  /** The idle publishes of all clients but one. */
  function OthersIdle(c: Setup): nat {
    var others: nat := c.clients - 1;
    others * c.idle
  }

  /** Some run leaves client i with no more samples than it must have; with fields of eight digits,
      a run in which the clients receive nothing but a sending process's own publishes. */
  lemma PoorestRun(c: Setup, i: nat) returns (es: seq<Event>)
    requires c.mode == Recv && i < c.clients
    ensures Feasible(c, Init(c), es) && Outcome(c, es).stage == Finished
    ensures |Outcome(c, es).logs[i].rtt| == Monus(c.wanted, OthersIdle(c))
    ensures EightDigits(c) ==> Genuine(c, Init(c), es)
  {
    InitInv(c);
    SumUniform(RecvCounts(Init(c).logs), 0);
    es := StarvingRun(c, Init(c), i);
    FinishedReceiver(c, Outcome(c, es), i);
    Shares(c.clients, c.wanted, c.idle);
  }

  /** How many samples client i has at least, and in some finished run exactly. */
  ghost predicate FewestSamples(c: Setup, i: nat, n: nat)
    requires i < c.clients
  {
    && (forall es :: Feasible(c, Init(c), es) && Outcome(c, es).stage == Finished ==>
          |Outcome(c, es).logs[i].rtt| >= n)
    && exists es :: Feasible(c, Init(c), es) && Outcome(c, es).stage == Finished
                    && |Outcome(c, es).logs[i].rtt| == n
  }

  lemma SamplesAtLeast(c: Setup, es: seq<Event>, i: nat)
    requires c.mode == Recv && Feasible(c, Init(c), es) && Outcome(c, es).stage == Finished && i < c.clients
    ensures |Outcome(c, es).logs[i].rtt| >= Monus(c.wanted, OthersIdle(c))
  {
    SamplesInAll(c, es);
  }

  /** The fewest samples any one client can have are its own wanted ones without the others' idle
      ones. */
  lemma FewestAre(c: Setup, i: nat)
    requires c.mode == Recv && i < c.clients
    ensures FewestSamples(c, i, Monus(c.wanted, OthersIdle(c)))
  {
    hide Monus, Feasible, Outcome;
    var n := Monus(c.wanted, OthersIdle(c));
    forall es | Feasible(c, Init(c), es) && Outcome(c, es).stage == Finished
      ensures |Outcome(c, es).logs[i].rtt| >= n
    {
      SamplesAtLeast(c, es, i);
    }
    var es := PoorestRun(c, i);
    assert |Outcome(c, es).logs[i].rtt| == n;
  }

  predicate EveryClientSampled(c: Setup, v: View) {
    forall i :: 0 <= i < |v.logs| ==> v.logs[i].rtt != []
  }

  /** Every client is sampled wherever a run from the start finishes. */
  ghost predicate Reports(c: Setup, es: seq<Event>)
    requires Feasible(c, Init(c), es)
  {
    Outcome(c, es).stage == Finished ==> EveryClientSampled(c, Outcome(c, es))
  }

  /** In receive mode every finished run has a sample for every client, and so a report, exactly
      when each client wants more publishes than the others' idle publishes together. Otherwise
      some run ends by reading the back of an empty vector. */
  lemma ReportNeedsEnoughTimes(c: Setup)
    requires c.mode == Recv
    ensures (forall es :: Feasible(c, Init(c), es) ==> Reports(c, es))
       <==> c.wanted > (c.clients - 1) * c.idle
  {
    if c.wanted > (c.clients - 1) * c.idle {
      forall es | Feasible(c, Init(c), es)
        ensures Reports(c, es)
      {
        EnoughTimesReport(c, es);
      }
    } else {
      var es := FailingRun(c);
      assert !Reports(c, es);
    }
  }

  /** The same of the runs in which the clients receive nothing but a sending process's own
      publishes, with fields of eight digits. */
  lemma GenuineReportNeedsEnoughTimes(c: Setup)
    requires c.mode == Recv && EightDigits(c)
    ensures (forall es :: Feasible(c, Init(c), es) && Genuine(c, Init(c), es) ==> Reports(c, es))
       <==> c.wanted > (c.clients - 1) * c.idle
  {
    if c.wanted > (c.clients - 1) * c.idle {
      forall es | Feasible(c, Init(c), es) && Genuine(c, Init(c), es)
        ensures Reports(c, es)
      {
        EnoughTimesReport(c, es);
      }
    } else {
      var es := FailingRun(c);
      assert !Reports(c, es);
    }
  }

  lemma EnoughTimesReport(c: Setup, es: seq<Event>)
    requires c.mode == Recv && c.wanted > (c.clients - 1) * c.idle && Feasible(c, Init(c), es)
    ensures Reports(c, es)
  {
    if Outcome(c, es).stage == Finished {
      SamplesInAll(c, es);
    }
  }

  lemma FailingRun(c: Setup) returns (es: seq<Event>)
    requires c.mode == Recv && c.wanted <= (c.clients - 1) * c.idle
    ensures Feasible(c, Init(c), es) && !Reports(c, es)
    ensures EightDigits(c) ==> Genuine(c, Init(c), es)
  {
    es := PoorestRun(c, 0);
    assert Outcome(c, es).logs[0].rtt == [];
  }
}
