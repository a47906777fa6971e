/** How the program's counters, buffers and armed handlers stand for a view of the run. */
module Coupling {
  import opened Wrappers
  import opened Settings
  import opened Decimal
  import opened Counting
  import opened Payload
  import opened Schedule
  import opened Protocol
  import opened Runs

  /** The mutable part of one client's record. */
  datatype ClientState = ClientState(
    sendTimes: nat,
    recvTimes: nat,
    sendIdleCount: nat,
    sent: seq<int>,
    rttUs: seq<nat>,
    awaitingAck: bool,
    timArmed: bool,
    timExpiry: int,
    recvArmed: bool
  )

  /** The state all clients share. */
  datatype Shared = Shared(
    stage: Stage,
    ph: Phase,
    restConnect: nat,
    restSub: nat,
    restIdle: nat,
    restTimes: nat,
    delayArmed: bool,
    complaints: nat
  )

  function Scores(answers: seq<Answer>): seq<nat> {
    seq(|answers|, i requires 0 <= i < |answers| => if answers[i] == Yes then 1 else 0)
  }

  /** What `rest_idle` stands for. */
  function RestIdle(c: Config, logs: seq<ClientLog>): nat {
    if c.mode == Recv then Monus(c.clients * c.idle, Sum(RecvCounts(logs)))
    else Missing(DoneCounts(c, logs), c.idle)
  }

  /** What `rest_times` stands for. */
  function RestTimes(c: Config, logs: seq<ClientLog>): nat {
    Missing(DoneCounts(c, logs), c.Times())
  }

  predicate AckDue(v: View, i: nat)
    requires i < |v.conn| && i < |v.subs|
  {
    (v.stage == Connecting && v.conn[i] == Pending) || (v.stage == Subscribing && v.subs[i] == Pending)
  }

  predicate Couple(c: Setup, v: View, i: nat, s: ClientState, wire: seq<Message>)
    requires i < |v.logs| && i < |v.conn| && i < |v.subs|
  {
    var l := v.logs[i];
    && s.sendTimes + |l.sentAt| == c.Times()
    && s.recvTimes + |l.recvAt| == c.Times()
    && s.sendIdleCount == Monus(c.idle, |l.sentAt|)
    && SlotsHold(c.Times(), s.sent, l.sentAt)
    && (v.stage != Finished ==> s.rttUs == l.rtt)
    && multiset(s.rttUs) == multiset(l.rtt)
    && s.awaitingAck == AckDue(v, i)
    && s.timArmed == TimerDue(c, v, i)
    && (s.timArmed ==> s.timExpiry == Deadline(c, v, i))
    && s.recvArmed == RecvDue(c, v, i)
    && (c.mode != Recv ==> |l.recvAt| <= |l.sentAt| == |l.pubs| && wire == l.pubs[|l.recvAt|..])
  }

  /** A client whose log and pending handlers are the same before and after stays coupled. */
  lemma CoupleFrame(c: Setup, v: View, w: View, i: nat, s: ClientState, wire: seq<Message>)
    requires i < |v.logs| == |w.logs| && i < |v.conn| == |w.conn| && i < |v.subs| == |w.subs|
    requires Couple(c, v, i, s, wire)
    requires v.stage != Finished && w.logs[i] == v.logs[i]
    requires AckDue(w, i) == AckDue(v, i)
    requires TimerDue(c, w, i) == TimerDue(c, v, i)
    requires TimerDue(c, w, i) ==> Deadline(c, w, i) == Deadline(c, v, i)
    requires RecvDue(c, w, i) == RecvDue(c, v, i)
    ensures Couple(c, w, i, s, wire)
  {
  }

  // ----- the shared counters -----

  lemma AnswerCounted(answers: seq<Answer>, i: nat, a: Answer)
    requires i < |answers| && answers[i] == Pending && a != Pending
    ensures Missing(Scores(answers), 1)
         == Missing(Scores(answers[i := a]), 1) + (if a == Yes then 1 else 0)
    ensures Missing(Scores(answers[i := a]), 1) == 0 <==> AllYes(answers[i := a])
  {
    var after := answers[i := a];
    if a == Yes {
      MissingBump(Scores(answers), 1, i);
      assert Scores(after) == Scores(answers)[i := 1];
    } else {
      assert Scores(after) == Scores(answers);
    }
    MissingZero(Scores(after), 1);
    assert AllReached(Scores(after), 1) <==> AllYes(after) by {
      assert forall k :: 0 <= k < |after| ==> (Scores(after)[k] >= 1 <==> after[k] == Yes);
    }
  }

  lemma RestIdleZero(c: Setup, v: View)
    requires |v.logs| == c.clients
    ensures RestIdle(c, v.logs) == 0 <==> Warm(c, v)
  {
    MissingZero(DoneCounts(c, v.logs), c.idle);
  }

  lemma RestTimesZero(c: Setup, v: View)
    ensures RestTimes(c, v.logs) == 0 <==> AllReached(DoneCounts(c, v.logs), c.Times())
  {
    MissingZero(DoneCounts(c, v.logs), c.Times());
  }

  /** The counters after a sending: untouched in single mode, one less each in send mode. */
  lemma SentCounted(c: Setup, v: View, i: nat, now: int, wall: nat)
    requires i < |v.logs| == c.clients && c.mode != Recv && |v.logs[i].sentAt| < c.Times()
    ensures var logs := NoteSent(c, v, i, now, wall).logs;
            var d := if c.mode == Send then 1 else 0;
            && RestTimes(c, v.logs) == RestTimes(c, logs) + d
            && RestIdle(c, v.logs) == RestIdle(c, logs) + (if |v.logs[i].sentAt| < c.idle then d else 0)
  {
    var w := NoteSent(c, v, i, now, wall);
    CountsAfter(c, v, w, i);
    MissingBump(SentCounts(v.logs), c.Times(), i);
    MissingBump(SentCounts(v.logs), c.idle, i);
    assert RecvCounts(w.logs) == RecvCounts(v.logs);
  }

  /** The counters after a reception: one less each. */
  lemma ReceivedCounted(c: Setup, v: View, i: nat, now: int, sample: seq<nat>)
    requires i < |v.logs| == c.clients && c.mode != Send && |v.logs[i].recvAt| < c.Times()
    requires !Warm(c, v) && c.mode == Single ==> |v.logs[i].recvAt| < c.idle
    ensures var logs := NoteReceived(v, i, now, sample).logs;
            && RestTimes(c, v.logs) == RestTimes(c, logs) + 1
            && RestIdle(c, v.logs) == RestIdle(c, logs) + (if Warm(c, v) then 0 else 1)
  {
    hide Missing, Sum, AllReached;
    var w := NoteReceived(v, i, now, sample);
    CountsAfter(c, v, w, i);
    RestIdleZero(c, v);
    MissingBump(RecvCounts(v.logs), c.Times(), i);
    MissingBump(RecvCounts(v.logs), c.idle, i);
    SumBump(RecvCounts(v.logs), i, 1);
  }

  /** In single mode a sending completes nothing. */
  lemma SendingCompletesNothing(c: Setup, v: View, i: nat, now: int, wall: nat)
    requires c.mode == Single && Inv(c, v) && Enabled(c, v, IntervalOver(i, now, wall))
    ensures Advance(c, NoteSent(c, v, i, now, wall)) == NoteSent(c, v, i, now, wall)
  {
    assert RecvCounts(NoteSent(c, v, i, now, wall).logs) == RecvCounts(v.logs);
  }

  // ----- the other clients -----

  /** Entering the pause or finishing disarms nothing that was armed: whoever is coupled before
      a client's message completes the phase is coupled after. */
  lemma AdvanceFrames(c: Setup, v: View, j: nat, s: ClientState, wire: seq<Message>)
    requires v.stage == Looping && Inv(c, Advance(c, v))
    requires j < c.clients && Couple(c, v, j, s, wire)
    ensures Couple(c, Advance(c, v), j, s, wire)
  {
    var w := Advance(c, v);
    assert LogOk(c, w, j);
    if w.stage == Finished || Current(w) != Current(v) {
      assert DoneCounts(c, w.logs)[j] == if c.mode == Send then |w.logs[j].sentAt| else |w.logs[j].recvAt|;
      assert !TimerDue(c, w, j) && !TimerDue(c, v, j);
    }
    CoupleFrame(c, v, w, j, s, wire);
  }

  /** A sending leaves every other client's pending handlers alone. */
  lemma OthersAfterSending(c: Setup, v: View, i: nat, now: int, wall: nat, w: View,
                           j: nat, s: ClientState, wire: seq<Message>)
    requires j < c.clients == |v.logs| == |v.conn| == |v.subs|
    requires c.clients == |w.logs| == |w.conn| == |w.subs|
    requires j != i && Couple(c, v, j, s, wire)
    requires Inv(c, v) && Enabled(c, v, IntervalOver(i, now, wall))
    requires w == Advance(c, NoteSent(c, v, i, now, wall))
    ensures Couple(c, w, j, s, wire)
  {
    hide SentPublish, LogOk, SkipsOk, AllReached, PhasesOk;
    var sent := NoteSent(c, v, i, now, wall);
    IntervalKeeps(c, v, i, now, wall);
    CoupleFrame(c, v, sent, j, s, wire);
    AdvanceFrames(c, sent, j, s, wire);
  }

  lemma OthersAfterReceiving(c: Setup, v: View, i: nat, now: int, sample: seq<nat>,
                             j: nat, s: ClientState, wire: seq<Message>)
    requires Inv(c, v) && i < c.clients && v.stage == Looping
    requires Inv(c, Advance(c, NoteReceived(v, i, now, sample)))
    requires j < c.clients && j != i && Couple(c, v, j, s, wire)
    ensures Couple(c, Advance(c, NoteReceived(v, i, now, sample)), j, s, wire)
  {
    var w := NoteReceived(v, i, now, sample);
    CoupleFrame(c, v, w, j, s, wire);
    AdvanceFrames(c, w, j, s, wire);
  }

  // ----- the client itself -----

  predicate SlotsHold(times: nat, sent: seq<int>, sentAt: seq<int>) {
    && |sentAt| <= times == |sent|
    && forall k :: 0 <= k < |sentAt| ==> sent[times - 1 - k] == sentAt[k]
  }

  /** Filling the slot of the count left overwrites no slot still needed. */
  lemma SlotFilled(times: nat, sent: seq<int>, sentAt: seq<int>, now: int)
    requires SlotsHold(times, sent, sentAt) && |sentAt| < times
    ensures SlotsHold(times, sent[times - |sentAt| - 1 := now], sentAt + [now])
  {
  }

  lemma TimerGoesOn(c: Setup, v: View, i: nat, now: int, wall: nat)
    requires i < |v.logs| && TimerDue(c, v, i)
    ensures TimerDue(c, NoteSent(c, v, i, now, wall), i)
       <==> |v.logs[i].sentAt| + 1 < (if Current(v) == Idle then c.idle else c.Times())
  {
  }

  /** The client that sent: its slot is filled, its count is down, its timer goes on to the next
      slot while the phase has messages left. */
  lemma SenderCoupled(c: Setup, v: View, i: nat, now: int, wall: nat, s: ClientState, wire: seq<Message>,
                      t: ClientState, wire': seq<Message>)
    requires i < |v.logs| && i < |v.conn| && i < |v.subs|
    requires TimerDue(c, v, i) && Couple(c, v, i, s, wire)
    requires Current(v) == Publish ==> |v.logs[i].sentAt| >= c.idle
    requires t.sendTimes == s.sendTimes - 1 && t.sent == s.sent[s.sendTimes - 1 := now]
    requires t.sendIdleCount == Monus(s.sendIdleCount, 1)
    requires t.recvTimes == s.recvTimes && t.rttUs == s.rttUs
    requires t.awaitingAck == s.awaitingAck && t.recvArmed == s.recvArmed
    requires t.timArmed == if Current(v) == Idle then t.sendIdleCount != 0 else t.sendTimes != 0
    requires t.timArmed ==> t.timExpiry == s.timExpiry + PubInterval(c.pubIntervalMs)
    requires wire' == wire + [SentPublish(c, i, |v.logs[i].sentAt|, wall)]
    ensures Couple(c, NoteSent(c, v, i, now, wall), i, t, wire')
  {
    var l := v.logs[i];
    TimerGoesOn(c, v, i, now, wall);
    if t.timArmed {
      NextSlot(c, v, i, now, wall);
    }
    SlotFilled(c.Times(), s.sent, l.sentAt, now);
  }

  /** Adding the interval to an expiry gives the next slot: timers do not drift. */
  lemma NextSlot(c: Setup, v: View, i: nat, now: int, wall: nat)
    requires i < |v.logs| && TimerDue(c, v, i) && TimerDue(c, NoteSent(c, v, i, now, wall), i)
    requires Current(v) == Publish ==> |v.logs[i].sentAt| >= c.idle
    ensures Deadline(c, NoteSent(c, v, i, now, wall), i) == Deadline(c, v, i) + PubInterval(c.pubIntervalMs)
  {
    hide SentPublish, AllInterval;
    var k, p := |v.logs[i].sentAt|, PubInterval(c.pubIntervalMs);
    assert p * (k + 1) == p * k + p;
    assert k >= c.idle ==> p * (k - c.idle + 1) == p * (k - c.idle) + p;
  }

  lemma ReceiverCoupled(c: Setup, v: View, i: nat, now: int, sample: seq<nat>,
                        s: ClientState, wire: seq<Message>, t: ClientState, wire': seq<Message>)
    requires |v.logs| == c.clients && i < c.clients && i < |v.conn| && i < |v.subs|
    requires v.stage == Looping && RecvDue(c, v, i) && Couple(c, v, i, s, wire)
    requires t == s.(recvTimes := s.recvTimes - 1, rttUs := s.rttUs + sample,
                     recvArmed := s.recvTimes - 1 != 0)
    requires c.mode == Single ==> |v.logs[i].recvAt| < |v.logs[i].sentAt| && wire' == wire[1..]
    ensures Couple(c, NoteReceived(v, i, now, sample), i, t, wire')
  {
    var l := v.logs[i];
  }

  // ----- before the loop -----

  /** Handling one client's answer ends that client's wait and no other's. */
  lemma ConnackCouples(c: Setup, v: View, i: nat, ok: bool, j: nat, s: ClientState, wire: seq<Message>)
    requires Inv(c, v) && Enabled(c, v, Connack(i, ok))
    requires j < c.clients && Couple(c, v, j, s, wire)
    ensures Couple(c, AfterConnack(c, v, i, ok), j,
                   if j == i then s.(awaitingAck := false) else s, wire)
  {
    var w := AfterConnack(c, v, i, ok);
    assert w.conn[j] == if j != i then v.conn[j] else if ok then Yes else No;
  }

  lemma SubackCouples(c: Setup, v: View, i: nat, grant: Grant, j: nat, s: ClientState, wire: seq<Message>)
    requires Inv(c, v) && Enabled(c, v, Suback(i, grant)) && grant != Rejected
    requires j < c.clients && Couple(c, v, j, s, wire)
    ensures var w := AfterSuback(c, v, i, grant);
            Couple(c, w, j,
                   s.(awaitingAck := j != i && s.awaitingAck, recvArmed := w.stage == Looping), wire)
  {
    var w := AfterSuback(c, v, i, grant);
    assert w.subs[j] == if j != i then v.subs[j] else if grant == Granted then Yes else No;
  }

  lemma SubscribingCouples(c: Setup, v: View, j: nat, s: ClientState, wire: seq<Message>)
    requires Inv(c, v) && v.stage == SubDelaying
    requires j < c.clients && Couple(c, v, j, s, wire)
    ensures Couple(c, Next(c, v, SubDelayOver), j, s.(awaitingAck := true), wire)
  {
  }

  lemma SyncCouples(c: Setup, v: View, j: nat, s: ClientState, wire: seq<Message>)
    requires Inv(c, v) && v.stage == Syncing
    requires j < c.clients && Couple(c, v, j, s, wire)
    ensures Couple(c, AfterSync(c, v), j, s, wire)
  {
  }

  /** Entering the loop arms every client's timer at its own offset, and every reception. */
  lemma LoopCouples(c: Setup, v: View, now: int, j: nat, s: ClientState, wire: seq<Message>)
    requires Inv(c, v) && Enabled(c, v, PubDelayOver(now))
    requires j < c.clients && Couple(c, v, j, s, wire)
    ensures !s.timArmed && !s.recvArmed
    ensures Couple(c, AfterPubDelay(c, v, now), j,
                   s.(timArmed := true, recvArmed := c.mode == Single,
                      timExpiry := now + AllInterval(c.pubIntervalMs, c.clients) * j), wire)
  {
    assert PubInterval(c.pubIntervalMs) * 0 == 0;
  }

  /** Starting the measurement arms every client's timer again. */
  lemma MeasuringCouples(c: Setup, v: View, now: int, j: nat, s: ClientState, wire: seq<Message>)
    requires Inv(c, v) && Enabled(c, v, DelayOver(now))
    requires j < c.clients && Couple(c, v, j, s, wire)
    ensures !s.timArmed
    ensures Couple(c, AfterDelay(v, now), j,
                   s.(timArmed := true,
                      timExpiry := now + AllInterval(c.pubIntervalMs, c.clients) * j), wire)
  {
    MeasurementStart(c, v, now);
  }

  // ----- the whole program -----

  predicate Counted(c: Setup, v: View, g: Shared)
    requires |v.logs| == c.clients
  {
    && g.ph == Current(v)
    && g.restConnect == Missing(Scores(v.conn), 1)
    && g.restSub == Missing(Scores(v.subs), 1)
    && g.restIdle == RestIdle(c, v.logs)
    && g.restTimes == RestTimes(c, v.logs)
    && g.delayArmed == DelayDue(v)
    && (c.mode != Recv ==> g.complaints == 0)
  }

  predicate AllCoupled(c: Setup, v: View, states: seq<ClientState>, wire: seq<seq<Message>>)
    requires |v.logs| == |v.conn| == |v.subs| == |states| == |wire|
  {
    forall i :: 0 <= i < |states| ==> Couple(c, v, i, states[i], wire[i])
  }

  /** The program's state agrees with a view of the run. Once the process has stopped nothing
      more is said about its state. */
  predicate Agrees(c: Setup, v: View, g: Shared, states: seq<ClientState>, wire: seq<seq<Message>>) {
    && Inv(c, v)
    && g.stage == v.stage
    && |states| == |wire| == c.clients
    && (v.stage != Stopped ==> Counted(c, v, g) && AllCoupled(c, v, states, wire))
  }

  /** An armed handler's event can happen, and a success finds a positive counter. */
  lemma ConnackArmed(c: Setup, v: View, i: nat, ok: bool,
                     g: Shared, states: seq<ClientState>, wire: seq<seq<Message>>)
    requires Agrees(c, v, g, states, wire) && g.stage == Connecting
    requires i < |states| && states[i].awaitingAck
    ensures Enabled(c, v, Connack(i, ok))
    ensures g.restConnect > 0
  {
    assert Couple(c, v, i, states[i], wire[i]);
    MissingZero(Scores(v.conn), 1);
    assert Scores(v.conn)[i] == 0;
  }

  /** Passing the connect barrier on the counter is passing it on the answers. */
  lemma ConnackConsistent(c: Setup, v: View, i: nat, ok: bool,
                          g: Shared, states: seq<ClientState>, wire: seq<seq<Message>>, h: Shared)
    requires Agrees(c, v, g, states, wire) && Enabled(c, v, Connack(i, ok))
    requires ok ==> g.restConnect > 0
    requires var rest := g.restConnect - (if ok then 1 else 0);
             h == if rest != 0 then g.(restConnect := rest)
                  else if c.mode == Send then g.(restConnect := rest, stage := Syncing)
                  else g.(restConnect := rest, stage := SubDelaying, ph := SubDelay, delayArmed := true)
    ensures Agrees(c, Next(c, v, Connack(i, ok)), h,
                    states[i := states[i].(awaitingAck := false)], wire)
  {
    hide Couple, LogOk, ProgressOk, PhasesOk, SkipsOk, Scores;
    var w := AfterConnack(c, v, i, ok);
    var after := states[i := states[i].(awaitingAck := false)];
    ConnackKeeps(c, v, i, ok);
    AnswerCounted(v.conn, i, if ok then Yes else No);
    forall j | 0 <= j < c.clients
      ensures Couple(c, w, j, after[j], wire[j])
    {
      ConnackCouples(c, v, i, ok, j, states[j], wire[j]);
    }
  }

  lemma AnswersArmed(c: Setup, v: View, i: nat, g: Shared, states: seq<ClientState>, wire: seq<seq<Message>>)
    requires Agrees(c, v, g, states, wire) && g.stage == Subscribing
    requires i < |states| && states[i].awaitingAck
    ensures forall grant :: Enabled(c, v, Suback(i, grant))
    ensures g.restSub > 0
  {
    assert Couple(c, v, i, states[i], wire[i]);
    MissingZero(Scores(v.subs), 1);
    assert Scores(v.subs)[i] == 0;
  }

  lemma SubscribingConsistent(c: Setup, v: View, g: Shared, states: seq<ClientState>, wire: seq<seq<Message>>,
                              after: seq<ClientState>)
    requires Agrees(c, v, g, states, wire) && g.stage == SubDelaying
    requires |after| == |states|
    requires forall j :: 0 <= j < |states| ==> after[j] == states[j].(awaitingAck := true)
    ensures Enabled(c, v, SubDelayOver)
    ensures Agrees(c, Next(c, v, SubDelayOver),
                    g.(stage := Subscribing, ph := Subscribe, delayArmed := false), after, wire)
  {
    SubDelayKeeps(c, v);
    forall j | 0 <= j < c.clients
      ensures Couple(c, Next(c, v, SubDelayOver), j, after[j], wire[j])
    {
      SubscribingCouples(c, v, j, states[j], wire[j]);
    }
  }

  lemma RejectedConsistent(c: Setup, v: View, i: nat, g: Shared, states: seq<ClientState>, wire: seq<seq<Message>>,
                           after: seq<ClientState>)
    requires Agrees(c, v, g, states, wire) && Enabled(c, v, Suback(i, Rejected))
    requires |after| == |states|
    ensures Agrees(c, Next(c, v, Suback(i, Rejected)), g.(stage := Stopped), after, wire)
  {
    SubackKeeps(c, v, i, Rejected);
  }

  /** Passing the subscribe barrier on the counter is passing it on the answers. A receiving
      process then waits for publishes at once. */
  lemma SubackConsistent(c: Setup, v: View, i: nat, grant: Grant,
                         g: Shared, states: seq<ClientState>, wire: seq<seq<Message>>,
                         h: Shared, after: seq<ClientState>)
    requires Agrees(c, v, g, states, wire)
    requires Enabled(c, v, Suback(i, grant)) && grant != Rejected && (grant == Granted ==> g.restSub > 0)
    requires var rest := g.restSub - (if grant == Granted then 1 else 0);
             h == if rest != 0 then g.(restSub := rest)
                  else g.(restSub := rest, stage := if c.mode == Recv then Looping else Syncing)
    requires |after| == |states|
    requires forall j :: 0 <= j < |states| ==>
               after[j] == states[j].(awaitingAck := j != i && states[j].awaitingAck,
                                      recvArmed := h.stage == Looping)
    ensures Agrees(c, Next(c, v, Suback(i, grant)), h, after, wire)
  {
    hide Couple, LogOk, ProgressOk, SkipsOk, DoneCounts;
    var w := AfterSuback(c, v, i, grant);
    SubackKeeps(c, v, i, grant);
    AnswerCounted(v.subs, i, if grant == Granted then Yes else No);
    forall j | 0 <= j < c.clients
      ensures Couple(c, w, j, after[j], wire[j])
    {
      SubackCouples(c, v, i, grant, j, states[j], wire[j]);
    }
  }

  lemma NotYetReceiving(c: Setup, v: View, g: Shared, states: seq<ClientState>, wire: seq<seq<Message>>)
    requires Agrees(c, v, g, states, wire) && g.stage == Subscribing
    ensures forall j :: 0 <= j < |states| ==> !states[j].recvArmed
  {
    forall j | 0 <= j < |states|
      ensures !states[j].recvArmed
    {
      assert Couple(c, v, j, states[j], wire[j]);
    }
  }

  lemma SyncConsistent(c: Setup, v: View, g: Shared, states: seq<ClientState>, wire: seq<seq<Message>>)
    requires Agrees(c, v, g, states, wire) && g.stage == Syncing
    ensures Enabled(c, v, SyncOver)
    ensures Agrees(c, Next(c, v, SyncOver),
                    g.(stage := PubDelaying, delayArmed := true,
                       ph := if c.idle == 0 then PubAfterIdleDelay else PubDelay), states, wire)
  {
    SyncKeeps(c, v);
    forall j | 0 <= j < c.clients
      ensures Couple(c, AfterSync(c, v), j, states[j], wire[j])
    {
      SyncCouples(c, v, j, states[j], wire[j]);
    }
  }

  lemma LoopArmed(c: Setup, v: View, now: int, g: Shared, states: seq<ClientState>, wire: seq<seq<Message>>)
    requires Agrees(c, v, g, states, wire) && g.stage == PubDelaying && now >= v.clock
    ensures Enabled(c, v, PubDelayOver(now))
    ensures c.mode != Recv
    ensures g.ph == PubDelay <==> c.idle != 0
    ensures forall j :: 0 <= j < |states| ==> !states[j].timArmed && !states[j].recvArmed
  {
    forall j | 0 <= j < |states|
      ensures !states[j].timArmed && !states[j].recvArmed
    {
      LoopCouples(c, v, now, j, states[j], wire[j]);
    }
  }

  lemma LoopConsistent(c: Setup, v: View, now: int, g: Shared, states: seq<ClientState>, wire: seq<seq<Message>>,
                       after: seq<ClientState>)
    requires Agrees(c, v, g, states, wire) && Enabled(c, v, PubDelayOver(now))
    requires |after| == |states|
    requires forall j :: 0 <= j < |states| ==>
               after[j] == states[j].(timArmed := true, recvArmed := c.mode == Single,
                                      timExpiry := now + AllInterval(c.pubIntervalMs, c.clients) * j)
    ensures Agrees(c, Next(c, v, PubDelayOver(now)),
                    g.(stage := Looping, delayArmed := false,
                       ph := if c.idle == 0 then Publish else Idle), after, wire)
  {
    hide Couple, LogOk, ProgressOk, PhasesOk, SkipsOk, Scores;
    PubDelayKeeps(c, v, now);
    forall j | 0 <= j < c.clients
      ensures Couple(c, AfterPubDelay(c, v, now), j, after[j], wire[j])
    {
      LoopCouples(c, v, now, j, states[j], wire[j]);
    }
  }

  // ----- the loop: one dispatch for two kinds of timer -----

  /** A handler for an expired timer looks at the phase, not at the timer. It is right to: only
      client timers are armed while publishing, only the delay timer during the pause. */
  lemma PhaseTellsTimer(c: Setup, v: View, g: Shared, states: seq<ClientState>, wire: seq<seq<Message>>)
    requires Agrees(c, v, g, states, wire) && g.stage == Looping
    ensures g.delayArmed <==> g.ph == PubAfterIdleDelay
    ensures (exists i :: 0 <= i < |states| && states[i].timArmed) ==> g.ph == Idle || g.ph == Publish
  {
    if i :| 0 <= i < |states| && states[i].timArmed {
      assert Couple(c, v, i, states[i], wire[i]);
    }
  }

  /** What a client's timer handler finds: a publish left to send, its slot, the counters it is
      about to decrement, and room for the payload. */
  lemma IntervalArmed(c: Setup, v: View, i: nat, now: int, wall: nat,
                      g: Shared, states: seq<ClientState>, wire: seq<seq<Message>>)
    requires Agrees(c, v, g, states, wire) && g.stage == Looping
    requires i < |states| && states[i].timArmed && now >= states[i].timExpiry && now >= v.clock
    requires wall < I64_LIMIT
    ensures Enabled(c, v, IntervalOver(i, now, wall)) && c.mode != Recv
    ensures (g.ph == Idle || g.ph == Publish) && !g.delayArmed && |wire| == |states|
    ensures 0 < states[i].sendTimes <= |states[i].sent|
    ensures g.ph == Idle ==> states[i].sendIdleCount > 0
    ensures c.mode == Send ==> g.restTimes > 0 && (g.ph == Idle <==> g.restIdle > 0)
    ensures c.mode == Send && g.ph == Idle ==> g.restTimes > 1
    ensures SendPayload(c.mode, Template(c.payloadSize), c.Index(i), states[i].sendTimes, wall).Some?
  {
    hide SendPayload, Template, SentPublish, PhasesOk, SkipsOk, SentOk, ReceivedOk;
    assert Couple(c, v, i, states[i], wire[i]);
    assert LogOk(c, v, i);
    Room(c, i, states[i].sendTimes, wall);
    MissingGap(DoneCounts(c, v.logs), c.idle, c.wanted);
    assert c.idle + c.wanted == c.Times();
    RestIdleZero(c, v);
    RestTimesZero(c, v);
  }

  /** What sending does to the client's record: the slot of its number takes the time, the counts
      go down, and the timer moves on while this phase has publishes left. */
  predicate SentRecord(c: Config, ph: Phase, now: int, s: ClientState, t: ClientState) {
    && 0 < s.sendTimes <= |s.sent|
    && t == s.(sendTimes := s.sendTimes - 1, sent := s.sent[s.sendTimes - 1 := now],
               sendIdleCount := t.sendIdleCount, timArmed := t.timArmed, timExpiry := t.timExpiry)
    && t.sendIdleCount == Monus(s.sendIdleCount, if ph == Idle then 1 else 0)
    && t.timArmed == (if ph == Idle then t.sendIdleCount != 0 else t.sendTimes != 0)
    && (t.timArmed ==> t.timExpiry == s.timExpiry + PubInterval(c.pubIntervalMs))
  }

  /** What sending does to the shared state: nothing in single mode; in send mode both counters
      go down, and reaching zero ends the phase or the run. */
  predicate SentShared(c: Setup, g: Shared, h: Shared) {
    && (c.mode == Single ==> h == g)
    && (c.mode == Send ==>
          && g.restTimes > 0
          && h.stage == (if g.restTimes == 1 then Finished else g.stage)
          && h == g.(stage := h.stage, restTimes := g.restTimes - 1, restIdle := Monus(g.restIdle, 1),
                     ph := if g.restIdle == 1 then PubAfterIdleDelay else g.ph,
                     delayArmed := g.restIdle == 1))
  }

  /** What sending puts on the wire: the payload of the count that was left, at the time of sending. */
  predicate SentOnWire(c: Setup, i: nat, count: nat, wall: nat, p: Message,
                       wire: seq<seq<Message>>, wire': seq<seq<Message>>)
    requires i < |wire|
  {
    && p.topic == Topic(c, i)
    && SendPayload(c.mode, Template(c.payloadSize), c.Index(i), count, wall) == Some(p.payload)
    && wire' == wire[i := wire[i] + [p]]
  }

  lemma SenderCouples(c: Setup, v: View, i: nat, now: int, wall: nat, s: ClientState, t: ClientState, p: Message,
                      wire: seq<seq<Message>>, wire': seq<seq<Message>>)
    requires Inv(c, v) && Enabled(c, v, IntervalOver(i, now, wall)) && |wire| == c.clients
    requires Couple(c, v, i, s, wire[i])
    requires SentRecord(c, Current(v), now, s, t) && SentOnWire(c, i, s.sendTimes, wall, p, wire, wire')
    ensures Couple(c, Advance(c, NoteSent(c, v, i, now, wall)), i, t, wire'[i])
  {
    IntervalKeeps(c, v, i, now, wall);
    if Current(v) == Publish {
      PublishStarted(c, v, i);
    }
    assert p == SentPublish(c, i, |v.logs[i].sentAt|, wall);
    SenderCoupled(c, v, i, now, wall, s, wire[i], t, wire'[i]);
    AdvanceFrames(c, NoteSent(c, v, i, now, wall), i, t, wire'[i]);
  }

  lemma SendingCouples(c: Setup, v: View, i: nat, now: int, wall: nat,
                       states: seq<ClientState>, wire: seq<seq<Message>>,
                       t: ClientState, p: Message, wire': seq<seq<Message>>)
    requires Inv(c, v) && Enabled(c, v, IntervalOver(i, now, wall)) && |states| == |wire| == c.clients
    requires AllCoupled(c, v, states, wire)
    requires SentRecord(c, Current(v), now, states[i], t) && SentOnWire(c, i, states[i].sendTimes, wall, p, wire, wire')
    ensures Inv(c, Advance(c, NoteSent(c, v, i, now, wall)))
    ensures AllCoupled(c, Advance(c, NoteSent(c, v, i, now, wall)), states[i := t], wire')
  {
    var w := Advance(c, NoteSent(c, v, i, now, wall));
    IntervalKeeps(c, v, i, now, wall);
    forall j | 0 <= j < c.clients
      ensures Couple(c, w, j, states[i := t][j], wire'[j])
    {
      assert Couple(c, v, j, states[j], wire[j]);
      if j != i {
        OthersAfterSending(c, v, i, now, wall, w, j, states[j], wire[j]);
      } else {
        SenderCouples(c, v, i, now, wall, states[i], t, p, wire, wire');
      }
    }
  }

  lemma SendingConsistent(c: Setup, v: View, i: nat, now: int, wall: nat,
                          g: Shared, states: seq<ClientState>, wire: seq<seq<Message>>,
                          h: Shared, t: ClientState, p: Message, wire': seq<seq<Message>>)
    requires Agrees(c, v, g, states, wire)
    requires Enabled(c, v, IntervalOver(i, now, wall)) && i < |states| == |wire|
    requires SentRecord(c, g.ph, now, states[i], t) && SentShared(c, g, h)
    requires SentOnWire(c, i, states[i].sendTimes, wall, p, wire, wire')
    ensures Agrees(c, Next(c, v, IntervalOver(i, now, wall)), h, states[i := t], wire')
  {
    IntervalKeeps(c, v, i, now, wall);
    SendingCouples(c, v, i, now, wall, states, wire, t, p, wire');
    SendingCounted(c, v, i, now, wall, g, h);
  }

  lemma PublishStarted(c: Setup, v: View, i: nat)
    requires Inv(c, v) && v.stage == Looping && c.mode != Recv && Current(v) == Publish && i < c.clients
    ensures |v.logs[i].sentAt| >= c.idle
  {
    assert LogOk(c, v, i);
    assert DoneCounts(c, v.logs)[i] >= c.idle;
  }

  /** After a sending in send mode the counters tell whether the warm-up, and whether the run, is
      complete. */
  lemma SendingCompletes(c: Setup, v: View, i: nat, now: int, wall: nat)
    requires c.mode == Send && Inv(c, v) && Enabled(c, v, IntervalOver(i, now, wall))
    ensures var w := NoteSent(c, v, i, now, wall);
            && |w.logs| == c.clients
            && RestTimes(c, v.logs) == RestTimes(c, w.logs) + 1
            && RestIdle(c, w.logs) == Monus(RestIdle(c, v.logs), 1)
            && (AllReached(DoneCounts(c, w.logs), c.idle) <==> RestIdle(c, w.logs) == 0)
            && (AllReached(DoneCounts(c, w.logs), c.Times()) <==> RestTimes(c, w.logs) == 0)
    ensures Current(v) == Idle <==> RestIdle(c, v.logs) > 0
    ensures Current(v) == Idle ==> RestTimes(c, v.logs) > 1
    ensures Current(v) != PubAfterIdleDelay
  {
    hide PhasesOk, SkipsOk, SentPublish, Missing, Sum;
    var w := NoteSent(c, v, i, now, wall);
    assert LogOk(c, v, i);
    SentCounted(c, v, i, now, wall);
    RestIdleZero(c, v);
    RestIdleZero(c, w);
    RestTimesZero(c, w);
    if Current(v) == Publish {
      PublishStarted(c, v, i);
    } else {
      MissingGap(DoneCounts(c, v.logs), c.idle, c.wanted);
      assert c.idle + c.wanted == c.Times();
    }
  }

  /** In send mode the counters reach zero exactly when the phase, and when the run, is complete. */
  lemma SendingCounted(c: Setup, v: View, i: nat, now: int, wall: nat, g: Shared, h: Shared)
    requires Inv(c, v) && Counted(c, v, g) && g.stage == v.stage && Enabled(c, v, IntervalOver(i, now, wall))
    requires SentShared(c, g, h)
    ensures var w := Advance(c, NoteSent(c, v, i, now, wall));
            Counted(c, w, h) && h.stage == w.stage
  {
    hide LogOk, PhasesOk, SkipsOk, ProgressOk, AnswersOk, RestIdle, RestTimes, AllReached, DoneCounts, SentPublish;
    if c.mode == Single {
      StillIdle(c, v, i);
      SentCounted(c, v, i, now, wall);
      SendingCompletesNothing(c, v, i, now, wall);
    } else {
      SendingCompletes(c, v, i, now, wall);
    }
  }

  lemma StillIdle(c: Setup, v: View, i: nat)
    requires Inv(c, v) && c.mode != Recv && i < c.clients && TimerDue(c, v, i)
    ensures |v.logs| == c.clients && |v.logs[i].sentAt| < c.Times()
  {
  }

  // ----- receptions -----

  /** The duration a handler computes from its own counters and buffers. */
  function Duration(c: Config, s: ClientState, p: Message, now: int): Option<int>
    requires c.mode != Recv ==> 0 < s.recvTimes <= |s.sent|
  {
    if c.mode != Recv then Some(Micros(s.sent[s.recvTimes - 1], now))
    else match DecodeStamp(p.payload)
      case None => None
      case Some(ts) => Some(Micros(ts, now))
  }

  /** The slot read for the next message is the one written when that very message was sent. */
  lemma SlotOfNextReception(c: Setup, v: View, i: nat, s: ClientState, wire: seq<Message>)
    requires c.mode == Single && |v.logs| == c.clients && i < c.clients && i < |v.conn| && i < |v.subs|
    requires Couple(c, v, i, s, wire) && |v.logs[i].recvAt| < |v.logs[i].sentAt|
    ensures 0 < s.recvTimes <= |s.sent|
    ensures s.sent[s.recvTimes - 1] == v.logs[i].sentAt[|v.logs[i].recvAt|]
    ensures |wire| > 0 && wire[0] == v.logs[i].pubs[|v.logs[i].recvAt|]
  {
    var l := v.logs[i];
    assert s.sent[c.Times() - 1 - |l.recvAt|] == l.sentAt[|l.recvAt|];
  }

  lemma ReceptionEnabled(c: Setup, v: View, i: nat, p: Message, now: int,
                         g: Shared, states: seq<ClientState>, wire: seq<seq<Message>>)
    requires Agrees(c, v, g, states, wire) && g.stage == Looping
    requires i < |states| == |wire| && states[i].recvArmed
    requires c.mode == Single ==> wire[i] != [] && p == wire[i][0] && now >= v.clock
    ensures Enabled(c, v, Received(i, p, now)) && c.mode != Send
    ensures states[i].recvTimes > 0 && states[i].recvTimes + |v.logs[i].recvAt| == c.Times()
    ensures g.restTimes > 0 && (g.restTimes == 1 ==> states[i].recvTimes == 1)
    ensures g.restIdle == 0 <==> Warm(c, v)
  {
    var s, l := states[i], v.logs[i];
    assert Couple(c, v, i, s, wire[i]);
    RestIdleZero(c, v);
    LastMissing(RecvCounts(v.logs), c.Times(), i);
  }

  /** What a publish handler finds: counters it is about to decrement, the message its client
      expects and, in single mode, that message's own send time in the slot it will read. */
  lemma ReceptionArmed(c: Setup, v: View, i: nat, p: Message, now: int,
                       g: Shared, states: seq<ClientState>, wire: seq<seq<Message>>)
    requires Agrees(c, v, g, states, wire) && g.stage == Looping
    requires i < |states| == |wire| && states[i].recvArmed
    requires c.mode == Single ==> wire[i] != [] && p == wire[i][0] && now >= v.clock
    ensures Enabled(c, v, Received(i, p, now)) && c.mode != Send
    ensures g.restTimes > 0 && states[i].recvTimes > 0
    ensures g.restTimes == 1 ==> states[i].recvTimes == 1
    ensures c.mode == Single ==> states[i].recvTimes <= |states[i].sent|
    ensures c.mode == Single ==>
              p.topic == Topic(c, i)
              && RecvPayload(Template(c.payloadSize), c.Index(i), states[i].recvTimes) == Some(p.payload)
    ensures g.restIdle == 0 <==> Warm(c, v)
    ensures Duration(c, states[i], p, now) == Measured(c, v.logs[i], p, now)
  {
    hide RecvPayload, SentPublish, Micros, DecodeStamp, LogOk, ProgressOk, PhasesOk, SkipsOk, Counted;
    ReceptionEnabled(c, v, i, p, now, g, states, wire);
    assert Couple(c, v, i, states[i], wire[i]);
    if c.mode == Single {
      SlotOfNextReception(c, v, i, states[i], wire[i]);
      EchoMatches(c, v, i, p, now);
    }
  }

  /** A process that throws while decoding a time stamp is gone. */
  lemma ThrowingConsistent(c: Setup, v: View, i: nat, p: Message, now: int,
                           g: Shared, states: seq<ClientState>, wire: seq<seq<Message>>,
                           h: Shared, after: seq<ClientState>, wire': seq<seq<Message>>)
    requires Agrees(c, v, g, states, wire) && Enabled(c, v, Received(i, p, now))
    requires Warm(c, v) && Measured(c, v.logs[i], p, now) == None
    requires |after| == |wire'| == |states| && h.stage == Stopped
    ensures Agrees(c, Next(c, v, Received(i, p, now)), h, after, wire')
  {
    ReceivedKeeps(c, v, i, p, now);
  }

  /** How many complaints a publish causes when client i, with that many left to receive, measures
      it: one about its payload, one about its topic. */
  function Mismatches(c: Setup, i: nat, recvTimes: nat, p: Message): nat {
    (if c.mode == Single && RecvPayload(Template(c.payloadSize), c.Index(i), recvTimes) != Some(p.payload)
     then 1 else 0)
    + (if p.topic != Topic(c, i) then 1 else 0)
  }

  /** What a reception does to the shared state. */
  predicate ReceivedShared(c: Config, g: Shared, h: Shared) {
    && g.restTimes > 0
    && h.stage == (if g.restIdle == 0 && g.restTimes == 1 then Finished else g.stage)
    && h == g.(stage := h.stage, restTimes := g.restTimes - 1, restIdle := Monus(g.restIdle, 1),
               ph := if c.mode == Single && g.restIdle == 1 then PubAfterIdleDelay else g.ph,
               delayArmed := g.delayArmed || (c.mode == Single && g.restIdle == 1),
               complaints := h.complaints)
    && (c.mode != Recv ==> h.complaints == g.complaints)
  }

  lemma StageAfterReception(c: Setup, g: Shared, h: Shared)
    requires ReceivedShared(c, g, h)
    ensures h.stage == (if g.restIdle == 0 && g.restTimes == 1 then Finished else g.stage)
  {
  }

  /** During the warm-up more messages are missing than the warm-up lacks. */
  lemma WarmupLeavesMore(c: Setup, v: View)
    requires Inv(c, v) && v.stage == Looping && c.mode != Send && RestIdle(c, v.logs) > 0
    ensures RestTimes(c, v.logs) > RestIdle(c, v.logs)
  {
    var counts := RecvCounts(v.logs);
    if c.mode == Recv {
      forall i | 0 <= i < |v.logs|
        ensures counts[i] <= c.Times()
      {
        assert LogOk(c, v, i);
      }
      MissingSum(counts, c.Times());
      Quota(c.clients, c.wanted, c.idle);
    } else {
      MissingGap(counts, c.idle, c.wanted);
      assert c.idle + c.wanted == c.Times();
    }
  }

  lemma Quota(n: nat, wanted: nat, idle: nat)
    requires n > 0 && wanted > 0
    ensures n * (wanted + idle) > n * idle
  {
    assert n * (wanted + idle) == n * wanted + n * idle;
    assert n * wanted > 0;
  }

  lemma ReceivedCouples(c: Setup, v: View, i: nat, p: Message, now: int, sample: seq<nat>,
                        states: seq<ClientState>, wire: seq<seq<Message>>,
                        t: ClientState, wire': seq<seq<Message>>)
    requires Inv(c, v) && Enabled(c, v, Received(i, p, now)) && |states| == |wire| == c.clients
    requires Inv(c, Advance(c, NoteReceived(v, i, now, sample)))
    requires AllCoupled(c, v, states, wire) && states[i].recvTimes > 0
    requires t == states[i].(recvTimes := states[i].recvTimes - 1, rttUs := states[i].rttUs + sample,
                             recvArmed := states[i].recvTimes - 1 != 0)
    requires wire[i] != [] || c.mode != Single
    requires wire' == if c.mode == Single then wire[i := wire[i][1..]] else wire
    ensures AllCoupled(c, Advance(c, NoteReceived(v, i, now, sample)), states[i := t], wire')
  {
    var w := NoteReceived(v, i, now, sample);
    forall j | 0 <= j < c.clients
      ensures Couple(c, Advance(c, w), j, states[i := t][j], wire'[j])
    {
      assert Couple(c, v, j, states[j], wire[j]);
      if j != i {
        OthersAfterReceiving(c, v, i, now, sample, j, states[j], wire[j]);
      } else {
        ReceiverCoupled(c, v, i, now, sample, states[i], wire[i], t, wire'[i]);
        AdvanceFrames(c, w, i, t, wire'[i]);
      }
    }
  }

  lemma ReceivedCounters(c: Setup, v: View, i: nat, p: Message, now: int, sample: seq<nat>)
    requires Inv(c, v) && Enabled(c, v, Received(i, p, now))
    ensures var logs := NoteReceived(v, i, now, sample).logs;
            && RestTimes(c, v.logs) == RestTimes(c, logs) + 1
            && RestIdle(c, logs) == Monus(RestIdle(c, v.logs), 1)
            && (RestIdle(c, v.logs) > 0 ==> RestTimes(c, logs) > 0)
  {
    assert LogOk(c, v, i);
    ColdIsIdle(c, v, i);
    ReceivedCounted(c, v, i, now, sample);
    RestIdleZero(c, v);
    if RestIdle(c, v.logs) > 0 {
      WarmupLeavesMore(c, v);
    }
  }

  /** After a reception the counters tell whether the warm-up, and whether the run, is complete. */
  lemma ReceivedCompletes(c: Setup, v: View, i: nat, p: Message, now: int, sample: seq<nat>)
    requires Inv(c, v) && Enabled(c, v, Received(i, p, now))
    ensures var w := NoteReceived(v, i, now, sample);
            && (c.mode == Single ==> (AllReached(DoneCounts(c, w.logs), c.idle) <==> RestIdle(c, w.logs) == 0))
            && (AllReached(DoneCounts(c, w.logs), c.Times()) <==> RestTimes(c, w.logs) == 0)
    ensures c.mode == Single ==> (Current(v) == Idle <==> RestIdle(c, v.logs) > 0)
    ensures Current(v) != PubAfterIdleDelay && (c.mode == Recv ==> Current(v) != Idle)
  {
    hide LogOk, PhasesOk, SkipsOk, Missing, Sum;
    var w := NoteReceived(v, i, now, sample);
    ColdIsIdle(c, v, i);
    RestIdleZero(c, v);
    RestIdleZero(c, w);
    RestTimesZero(c, w);
  }

  /** The counters reach zero exactly when the warm-up, and when the run, is complete. */
  lemma ReceivedCountedDown(c: Setup, v: View, i: nat, p: Message, now: int, sample: seq<nat>, g: Shared, h: Shared)
    requires Inv(c, v) && Counted(c, v, g) && g.stage == v.stage && Enabled(c, v, Received(i, p, now))
    requires c.mode != Send && ReceivedShared(c, g, h)
    ensures var w := Advance(c, NoteReceived(v, i, now, sample));
            Counted(c, w, h) && h.stage == w.stage
  {
    hide LogOk, PhasesOk, SkipsOk, ProgressOk, AnswersOk, RestIdle, RestTimes, AllReached, DoneCounts, SentPublish;
    ReceivedCounters(c, v, i, p, now, sample);
    ReceivedCompletes(c, v, i, p, now, sample);
  }

  /** In single mode the warm-up counter is positive exactly in the idle phase. */
  lemma ColdIsIdle(c: Setup, v: View, i: nat)
    requires Inv(c, v) && v.stage == Looping && i < c.clients
    ensures c.mode == Single ==> (Current(v) == Idle <==> !Warm(c, v))
    ensures c.mode == Recv ==> Current(v) != Idle && Current(v) != PubAfterIdleDelay
    ensures c.mode == Single && |v.logs[i].recvAt| < |v.logs[i].sentAt| ==> Current(v) != PubAfterIdleDelay
    ensures c.mode == Single && !Warm(c, v) && |v.logs[i].recvAt| < |v.logs[i].sentAt| ==> |v.logs[i].recvAt| < c.idle
  {
    assert DoneCounts(c, v.logs)[i] == if c.mode == Send then |v.logs[i].sentAt| else |v.logs[i].recvAt|;
  }

  lemma ReceptionConsistent(c: Setup, v: View, i: nat, p: Message, now: int,
                            g: Shared, states: seq<ClientState>, wire: seq<seq<Message>>,
                            h: Shared, t: ClientState, wire': seq<seq<Message>>)
    requires Agrees(c, v, g, states, wire) && g.stage == Looping
    requires Enabled(c, v, Received(i, p, now)) && i < |states| == |wire|
    requires Warm(c, v) ==> Measured(c, v.logs[i], p, now).Some?
    requires states[i].recvTimes > 0 && ReceivedShared(c, g, h)
    requires t == states[i].(recvTimes := states[i].recvTimes - 1,
                             rttUs := states[i].rttUs
                                      + (if Warm(c, v) then [AsSize(Measured(c, v.logs[i], p, now).value)] else []),
                             recvArmed := states[i].recvTimes - 1 != 0)
    requires wire[i] != [] || c.mode != Single
    requires wire' == if c.mode == Single then wire[i := wire[i][1..]] else wire
    ensures Agrees(c, Next(c, v, Received(i, p, now)), h, states[i := t], wire')
  {
    var sample := if Warm(c, v) then [AsSize(Measured(c, v.logs[i], p, now).value)] else [];
    ReceivedKeeps(c, v, i, p, now);
    ReceivedCouples(c, v, i, p, now, sample, states, wire, t, wire');
    ReceivedCountedDown(c, v, i, p, now, sample, g, h);
  }

  // ----- the pause -----

  lemma MeasuringArmed(c: Setup, v: View, now: int, g: Shared, states: seq<ClientState>, wire: seq<seq<Message>>)
    requires Agrees(c, v, g, states, wire) && g.stage == Looping && g.delayArmed && now >= v.clock
    ensures Enabled(c, v, DelayOver(now)) && c.mode != Recv
    ensures forall j :: 0 <= j < |states| ==> !states[j].timArmed
  {
    forall j | 0 <= j < |states|
      ensures !states[j].timArmed
    {
      MeasuringCouples(c, v, now, j, states[j], wire[j]);
    }
  }

  lemma MeasuringConsistent(c: Setup, v: View, now: int, g: Shared, states: seq<ClientState>, wire: seq<seq<Message>>,
                            after: seq<ClientState>)
    requires Agrees(c, v, g, states, wire) && Enabled(c, v, DelayOver(now))
    requires |after| == |states|
    requires forall j :: 0 <= j < |states| ==>
               after[j] == states[j].(timArmed := true,
                                      timExpiry := now + AllInterval(c.pubIntervalMs, c.clients) * j)
    ensures Agrees(c, Next(c, v, DelayOver(now)), g.(delayArmed := false, ph := Publish), after, wire)
  {
    DelayKeeps(c, v, now);
    forall j | 0 <= j < c.clients
      ensures Couple(c, AfterDelay(v, now), j, after[j], wire[j])
    {
      MeasuringCouples(c, v, now, j, states[j], wire[j]);
    }
  }

  // ----- starting and running dry -----

  function FreshState(c: Setup): ClientState {
    ClientState(c.Times(), c.Times(), c.idle, seq(c.Times(), _ => 0), [], true, false, 0, false)
  }

  lemma StartConsistent(c: Setup)
    ensures Agrees(c, Init(c),
                    Shared(Connecting, Connect, c.clients, c.clients, c.clients * c.idle, c.clients * c.Times(),
                           false, 0),
                    seq(c.clients, _ => FreshState(c)), seq(c.clients, _ => []))
  {
    hide Missing, Sum, LogOk, Template, PhasesOk, SkipsOk;
    var v := Init(c);
    InitInv(c);
    MissingUniform(Scores(v.conn), 1, 0);
    MissingUniform(Scores(v.subs), 1, 0);
    MissingUniform(DoneCounts(c, v.logs), c.idle, 0);
    MissingUniform(DoneCounts(c, v.logs), c.Times(), 0);
    SumUniform(RecvCounts(v.logs), 0);
  }

  /** Some handler can run: an answer is awaited, a timer is armed, or a message has arrived for
      an armed reception. */
  predicate SomethingReady(c: Setup, g: Shared, states: seq<ClientState>, wire: seq<seq<Message>>)
    requires |states| == |wire|
  {
    || g.stage == Syncing
    || g.delayArmed
    || exists i :: 0 <= i < |states|
                   && (states[i].awaitingAck || states[i].timArmed
                       || (states[i].recvArmed && (c.mode == Single ==> wire[i] != [])))
  }

  /** The program never waits for nothing: while the run is not at rest, some handler is ready. */
  lemma NeverStranded(c: Setup, v: View, g: Shared, states: seq<ClientState>, wire: seq<seq<Message>>)
    requires Agrees(c, v, g, states, wire) && g.stage != Stopped
    ensures |states| == |wire|
    ensures SomethingReady(c, g, states, wire) <==> !AtRest(v)
  {
    if !AtRest(v) {
      Progress(c, v);
      var e :| Enabled(c, v, e);
      ReadyForEvent(c, v, e, g, states, wire);
    } else {
      forall i | 0 <= i < |states|
        ensures !states[i].awaitingAck && !states[i].timArmed && !states[i].recvArmed
      {
        assert Couple(c, v, i, states[i], wire[i]);
      }
    }
  }

  lemma ReadyForEvent(c: Setup, v: View, e: Event, g: Shared, states: seq<ClientState>, wire: seq<seq<Message>>)
    requires Agrees(c, v, g, states, wire) && g.stage != Stopped && Enabled(c, v, e)
    ensures SomethingReady(c, g, states, wire)
  {
    if e.Connack? || e.Suback? || e.IntervalOver? || e.Received? {
      assert Couple(c, v, e.i, states[e.i], wire[e.i]);
    }
  }

  // ----- the samples handed to the report -----

  function Samples(logs: seq<ClientLog>): seq<seq<nat>> {
    seq(|logs|, i requires 0 <= i < |logs| => logs[i].rtt)
  }

  function RttOf(states: seq<ClientState>): seq<seq<nat>> {
    seq(|states|, i requires 0 <= i < |states| => states[i].rttUs)
  }

  lemma SamplesAfterReception(c: Setup, v: View, i: nat, p: Message, now: int,
                              g: Shared, states: seq<ClientState>, wire: seq<seq<Message>>, t: ClientState)
    requires Agrees(c, v, g, states, wire) && g.stage == Looping
    requires Enabled(c, v, Received(i, p, now)) && i < |states|
    requires Warm(c, v) ==> Measured(c, v.logs[i], p, now).Some?
    requires t.rttUs == states[i].rttUs
                        + (if Warm(c, v) then [AsSize(Measured(c, v.logs[i], p, now).value)] else [])
    ensures RttOf(states[i := t]) == Samples(Next(c, v, Received(i, p, now)).logs)
  {
    hide PhasesOk, SkipsOk, ProgressOk, SentOk, PubsOk, ReceivedOk, SlotsHold;
    forall j | 0 <= j < c.clients
      ensures states[j].rttUs == v.logs[j].rtt
    {
      assert Couple(c, v, j, states[j], wire[j]);
    }
  }

  /** What counting a publish does to its client's record: one less to receive, a sample if it is
      measured, and the reception armed again while publishes are left. */
  predicate ReceivedRecord(c: Config, measured: bool, p: Message, now: int, s: ClientState, t: ClientState) {
    && 0 < s.recvTimes && (c.mode != Recv ==> s.recvTimes <= |s.sent|)
    && (measured ==> Duration(c, s, p, now).Some?)
    && t == s.(recvTimes := s.recvTimes - 1,
               rttUs := s.rttUs + (if measured then [AsSize(Duration(c, s, p, now).value)] else []),
               recvArmed := s.recvTimes - 1 != 0)
  }

  predicate TakenOffWire(c: Config, i: nat, wire: seq<seq<Message>>, wire': seq<seq<Message>>) {
    && i < |wire| && (c.mode == Single ==> wire[i] != [])
    && wire' == if c.mode == Single then wire[i := wire[i][1..]] else wire
  }

  /** Counting a publish the way the handler does is the step of its reception. */
  lemma ReceptionHandled(c: Setup, v: View, i: nat, p: Message, now: int,
                         g: Shared, states: seq<ClientState>, wire: seq<seq<Message>>,
                         h: Shared, t: ClientState, wire': seq<seq<Message>>)
    requires Agrees(c, v, g, states, wire) && g.stage == Looping
    requires i < |states| == |wire| && states[i].recvArmed
    requires c.mode == Single ==> wire[i] != [] && p == wire[i][0] && now >= v.clock
    requires ReceivedShared(c, g, h) && ReceivedRecord(c, g.restIdle == 0, p, now, states[i], t)
    requires TakenOffWire(c, i, wire, wire')
    ensures Enabled(c, v, Received(i, p, now))
    ensures Agrees(c, Next(c, v, Received(i, p, now)), h, states[i := t], wire')
    ensures RttOf(states[i := t]) == Samples(Next(c, v, Received(i, p, now)).logs)
  {
    hide Agrees, Duration, Measured, Warm, AsSize, ReceivedShared, RecvPayload, Next, Enabled, Inv;
    ReceptionArmed(c, v, i, p, now, g, states, wire);
    ReceptionConsistent(c, v, i, p, now, g, states, wire, h, t, wire');
    SamplesAfterReception(c, v, i, p, now, g, states, wire, t);
  }

  lemma FinishedShape(c: Setup, v: View, g: Shared, states: seq<ClientState>, wire: seq<seq<Message>>)
    requires Agrees(c, v, g, states, wire)
    ensures |states| == |wire| == |v.logs| == c.clients
  {
  }

  lemma CoupledAt(c: Setup, v: View, g: Shared, states: seq<ClientState>, wire: seq<seq<Message>>, i: nat)
    requires Agrees(c, v, g, states, wire) && g.stage != Stopped && i < |states|
    ensures |states| == |wire| == |v.logs|
    ensures multiset(states[i].rttUs) == multiset(v.logs[i].rtt)
    ensures c.mode == Send ==> wire[i] == v.logs[i].pubs
  {
    assert LogOk(c, v, i) && Couple(c, v, i, states[i], wire[i]);
  }

  /** Sorting the samples at the end disturbs nothing else. */
  lemma SortedConsistent(c: Setup, v: View, g: Shared, states: seq<ClientState>, wire: seq<seq<Message>>,
                         after: seq<ClientState>)
    requires Agrees(c, v, g, states, wire) && g.stage == Finished
    requires |after| == |states|
    requires forall j :: 0 <= j < |states| ==>
               after[j] == states[j].(rttUs := after[j].rttUs)
               && multiset(after[j].rttUs) == multiset(states[j].rttUs)
    ensures Agrees(c, v, g, after, wire)
  {
    forall j | 0 <= j < c.clients
      ensures Couple(c, v, j, after[j], wire[j])
    {
      assert Couple(c, v, j, states[j], wire[j]);
    }
  }

  /** The clock is where the last timed handler read it. */
  lemma ClockMoves(c: Setup, v: View, e: Event)
    requires Enabled(c, v, e)
    ensures Next(c, v, e).clock ==
            match e
            case PubDelayOver(now) => now
            case IntervalOver(_, now, _) => now
            case Received(_, _, now) => now
            case DelayOver(now) => now
            case _ => v.clock
  {
  }

  /** What a ready handler tells about the point the run has reached. */
  lemma ReadyTells(c: Setup, v: View, g: Shared, states: seq<ClientState>, wire: seq<seq<Message>>)
    requires Agrees(c, v, g, states, wire) && g.stage != Stopped
    ensures |states| == |wire|
    ensures forall i :: 0 <= i < |states| ==>
              && (states[i].awaitingAck ==> g.stage == Connecting || g.stage == Subscribing)
              && (states[i].timArmed ==> g.stage == Looping)
              && (states[i].recvArmed ==> g.stage == Looping)
    ensures g.delayArmed <==> (g.stage == SubDelaying || g.stage == PubDelaying
                               || (g.stage == Looping && g.ph == PubAfterIdleDelay))
  {
    forall i | 0 <= i < |states|
      ensures (states[i].awaitingAck ==> g.stage == Connecting || g.stage == Subscribing)
      ensures (states[i].timArmed || states[i].recvArmed) ==> g.stage == Looping
    {
      assert Couple(c, v, i, states[i], wire[i]);
    }
  }

  /** Only a reception finishes a run that is received. */
  lemma SingleKeepsGoing(c: Setup, v: View, e: Event, g: Shared, states: seq<ClientState>, wire: seq<seq<Message>>)
    requires Agrees(c, v, g, states, wire) && g.stage == Looping
    requires Enabled(c, v, e) && (e.IntervalOver? || e.DelayOver?)
    ensures c.mode != Send ==> Next(c, v, e).stage == Looping
  {
    if c.mode == Single && e.IntervalOver? {
      SendingCompletesNothing(c, v, e.i, e.now, e.wall);
    }
  }

  lemma SameStage(c: Setup, v: View, g: Shared, states: seq<ClientState>, wire: seq<seq<Message>>)
    requires Agrees(c, v, g, states, wire)
    ensures g.stage == v.stage && |states| == |wire|
  {
  }

  lemma StepUses(c: Setup, v: View, e: Event, g: Shared, states: seq<ClientState>, wire: seq<seq<Message>>)
    requires Agrees(c, v, g, states, wire) && Enabled(c, v, e)
    ensures |states| == |wire|
    ensures Next(c, v, e).stage != Stopped ==> Left(c, v) == Left(c, Next(c, v, e)) + 1
    ensures Left(c, v) >= 1
  {
    if Next(c, v, e).stage != Stopped {
      StepLeft(c, v, e);
    } else {
      StoppingStepLeft(c, v, e);
    }
  }

  /** What the program's own state looks like when a run has finished. */
  lemma FinishedMeans(c: Setup, v: View, g: Shared, states: seq<ClientState>, wire: seq<seq<Message>>)
    requires Agrees(c, v, g, states, wire) && g.stage == Finished
    ensures Left(c, v) == 0
    ensures |states| == |wire| == c.clients
    ensures g.restTimes == 0
    ensures forall i :: 0 <= i < |states| ==>
              (c.mode != Recv ==> states[i].sendTimes == 0) && (c.mode != Send ==> states[i].recvTimes == 0)
    ensures c.mode == Single ==>
              && g.restIdle == g.complaints == 0
              && forall i :: 0 <= i < |states| ==> wire[i] == [] && |states[i].rttUs| == c.wanted
  {
    RestTimesZero(c, v);
    forall i | 0 <= i < |states|
      ensures c.mode != Recv ==> states[i].sendTimes == 0
      ensures c.mode != Send ==> states[i].recvTimes == 0
    {
      assert LogOk(c, v, i) && Couple(c, v, i, states[i], wire[i]);
      assert DoneCounts(c, v.logs)[i] >= c.Times();
    }
    if c.mode == Single {
      assert Warm(c, v) by {
        assert forall i :: 0 <= i < |v.logs| ==> DoneCounts(c, v.logs)[i] >= c.Times() >= c.idle;
      }
      RestIdleZero(c, v);
      forall i | 0 <= i < |states|
        ensures wire[i] == []
        ensures |states[i].rttUs| == c.wanted
      {
        assert LogOk(c, v, i) && Couple(c, v, i, states[i], wire[i]);
        assert RecvCounts(v.logs)[i] >= c.Times();
        assert |states[i].rttUs| == |multiset(states[i].rttUs)| == |multiset(v.logs[i].rtt)|;
      }
    }
  }
}
