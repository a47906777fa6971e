/** The benchmark program itself: the context with its shared counters, and the handlers that
    count, store phases and re-arm timers. Every handler is proved to take the step its event
    takes in Protocol.dfy. */
module BenchProgram {
  import opened Wrappers
  import opened Settings
  import opened Decimal
  import opened Counting
  import opened Payload
  import opened Schedule
  import opened Protocol
  import opened Runs
  import opened Coupling
  import opened Clients
  import opened Targets
  import opened Accounts
  import opened Report

  datatype PubRecv = Cont | IdleFinish | PubFinish | Threw

  datatype Timer = Interval(i: nat) | Delay

  class Bench {
    const c: Setup
    const cis: seq<Client>
    var stage: Stage
    var ph: Phase
    var restConnect: nat
    var restSub: nat
    var restIdle: nat
    var restTimes: nat
    var delayArmed: bool          // a wait on the delay timer is pending
    var complaints: nat           // lines printed about payloads or topics that do not match
    var report: Option<Summary>
    var wire: seq<seq<Message>>   // the broker: publishes of each client it has not echoed
    var clock: int                // the environment's clock: it has been read up to here
    ghost var view: View          // what the run means so far
    ghost var states: seq<ClientState>   // what the client records contain
    ghost const footprint: set<object>   // the client records and their send time slots

    function SharedState(): Shared
      reads this
    {
      Shared(stage, ph, restConnect, restSub, restIdle, restTimes, delayArmed, complaints)
    }

    ghost predicate Separate() {
      && LinedUp(c, cis)
      && this !in footprint
      && forall i :: 0 <= i < |cis| ==> cis[i] in footprint && cis[i].sent in footprint
    }

    ghost predicate Mirrors()
      reads `states, footprint
    {
      && Separate()
      && |states| == |cis|
      && forall i :: 0 <= i < |cis| ==> states[i] == cis[i].State()
    }

    ghost predicate Sound()
      reads this, footprint
    {
      && Mirrors()
      && Agrees(c, view, SharedState(), states, wire)
      && clock == view.clock
    }

    function Cids(): seq<string> {
      seq(|cis|, i requires 0 <= i < |cis| => cis[i].ClientId())
    }

    /** The report exists unless some client has no sample at all; there the program would read
        the back of an empty vector. */
    ghost predicate Reported()
      reads this
    {
      var samples := Samples(view.logs);
      && |samples| == |cis|
      && (report.Some? <==> forall i :: 0 <= i < |samples| ==> samples[i] != [])
      && (report.Some? ==> IsSummary(report.value, StatsOfAll(samples), Cids()))
    }

    ghost predicate Valid()
      reads this, footprint
    {
      Sound() && (stage == Finished && c.mode != Send ==> Reported())
    }

    constructor (setup: Setup, clients: seq<Client>)
      requires LinedUp(setup, clients)
      requires forall i :: 0 <= i < |clients| ==> clients[i].State() == FreshState(setup)
      ensures c == setup && cis == clients
      ensures footprint == Records(clients)
      ensures Valid() && view == Init(setup)
      ensures restConnect == restSub == setup.clients
      ensures restTimes == setup.clients * (setup.wanted + setup.idle) && restIdle == setup.clients * setup.idle
    {
      hide Agrees, Template, FreshState, Records;
      c, cis := setup, clients;
      stage, ph := Connecting, Connect;
      restConnect, restSub := setup.clients, setup.clients;
      restIdle := setup.ComputedRestIdle();
      restTimes := setup.ComputedRestTimes();
      delayArmed, complaints, report, clock := false, 0, None, 0;
      wire := seq(setup.clients, _ => []);
      view := Init(setup);
      states := seq(setup.clients, _ => FreshState(setup));
      footprint := Records(clients);
      new;
      CountersStartRight(setup);
      StartConsistent(setup);
    }

    /** Keeps the ghost copy of client i's record up to date. */
    ghost method Reflect(i: nat)
      requires Separate() && i < |cis| == |states|
      requires forall j :: 0 <= j < |cis| && j != i ==> states[j] == cis[j].State()
      modifies `states
      ensures states == old(states)[i := cis[i].State()] && Mirrors()
    {
      states := states[i := cis[i].State()];
    }

    lemma Lengths()
      requires Mirrors()
      ensures |states| == |cis| == c.clients && Separate()
    {
    }

    lemma Mirrored(i: nat)
      requires Mirrors() && i < |cis|
      ensures |states| == |cis| == c.clients && Separate()
      ensures states[i] == cis[i].State()
    {
    }

    // ----- barriers -----

    /** Client i's CONNACK has been received. */
    method OnConnack(i: nat, ok: bool)
      requires Valid() && stage == Connecting && i < |cis| && cis[i].awaitingAck
      modifies this, footprint
      ensures Valid() && Enabled(c, old(view), Connack(i, ok))
      ensures view == Next(c, old(view), Connack(i, ok))
    {
      hide Agrees, Next, Enabled, LinedUp, Mirrors, Reported;
      ghost var v, g, s := view, SharedState(), states;
      Mirrored(i);
      ConnackArmed(c, v, i, ok, g, s, wire);
      AnswerTaken(i);
      CountConnack(ok);
      ClockMoves(c, v, Connack(i, ok));
      view := Next(c, v, Connack(i, ok));
      ConnackConsistent(c, v, i, ok, g, s, wire, SharedState());
    }

    /** Counts a successful connection; the last one passes the barrier. */
    method CountConnack(ok: bool)
      requires ok ==> restConnect > 0
      modifies `restConnect, `ph, `delayArmed, `stage
      ensures var g, rest := old(SharedState()), old(restConnect) - (if ok then 1 else 0);
              SharedState() ==
                if rest != 0 then g.(restConnect := rest)
                else if c.mode == Send then g.(restConnect := rest, stage := Syncing)
                else g.(restConnect := rest, stage := SubDelaying, ph := SubDelay, delayArmed := true)
    {
      if ok {
        restConnect := restConnect - 1;
      }
      if restConnect == 0 {
        if c.mode == Single || c.mode == Recv {
          ph := SubDelay;
          delayArmed := true;
          stage := SubDelaying;
        } else {
          stage := Syncing;
        }
      }
    }

    /** Client i no longer waits for an answer. */
    method AnswerTaken(i: nat)
      requires Mirrors() && i < |cis|
      modifies `states, footprint
      ensures Mirrors() && states == old(states)[i := old(states)[i].(awaitingAck := false)]
    {
      cis[i].awaitingAck := false;
      Reflect(i);
    }

    /** The delay before subscribing is over: every client subscribes. */
    method OnSubDelay()
      requires Valid() && stage == SubDelaying
      modifies this, footprint
      ensures Valid() && Enabled(c, old(view), SubDelayOver)
      ensures view == Next(c, old(view), SubDelayOver)
    {
      hide Agrees, Next, Enabled, Mirrors, LinedUp;
      Lengths();
      ghost var v, g, s := view, SharedState(), states;
      delayArmed := false;
      ph := Subscribe;
      SubscribeAll();
      stage := Subscribing;
      SubscribingConsistent(c, v, g, s, wire, states);
      ClockMoves(c, v, SubDelayOver);
      view := Next(c, v, SubDelayOver);
    }

    method SubscribeAll()
      requires Mirrors()
      modifies `states, footprint
      ensures Mirrors() && |states| == |old(states)|
      ensures forall j :: 0 <= j < |states| ==> states[j] == old(states)[j].(awaitingAck := true)
    {
      hide Template;
      var index := 0;
      while index < |cis|
        invariant 0 <= index <= |cis| == |states| == |old(states)| && Mirrors()
        invariant forall j :: 0 <= j < |states| ==>
                    states[j] == if j < index then old(states)[j].(awaitingAck := true) else old(states)[j]
      {
        cis[index].awaitingAck := true;
        Reflect(index);
        index := index + 1;
      }
    }

    /** Client i's SUBACK has been received. A rejection ends the process. */
    method OnSuback(i: nat, grant: Grant)
      requires Valid() && stage == Subscribing && i < |cis| && cis[i].awaitingAck
      modifies this, footprint
      ensures Valid() && Enabled(c, old(view), Suback(i, grant))
      ensures view == Next(c, old(view), Suback(i, grant))
    {
      hide Agrees, Next, Enabled, LinedUp, Mirrors, Reported;
      ghost var v, g, s := view, SharedState(), states;
      Mirrored(i);
      AnswersArmed(c, v, i, g, s, wire);
      NotYetReceiving(c, v, g, s, wire);
      AnswerTaken(i);
      ClockMoves(c, v, Suback(i, grant));
      view := Next(c, v, Suback(i, grant));
      if grant == Rejected {
        stage := Stopped;
        RejectedConsistent(c, v, i, g, s, wire, states);
      } else {
        CountSuback(grant);
        SubackConsistent(c, v, i, grant, g, s, wire, SharedState(), states);
      }
    }

    /** Counts a granted subscription; the last one passes the barrier. */
    method CountSuback(grant: Grant)
      requires Mirrors() && (grant == Granted ==> restSub > 0)
      modifies `restSub, `stage, `states, footprint
      ensures var g, rest := old(SharedState()), old(restSub) - (if grant == Granted then 1 else 0);
              SharedState() ==
                if rest != 0 then g.(restSub := rest)
                else g.(restSub := rest, stage := if c.mode == Recv then Looping else Syncing)
      ensures Mirrors() && |states| == |old(states)|
      ensures forall j :: 0 <= j < |states| ==>
                states[j] == if restSub == 0 && c.mode == Recv then old(states)[j].(recvArmed := true)
                             else old(states)[j]
    {
      hide LinedUp, Mirrors;
      Lengths();
      if grant == Granted {
        restSub := restSub - 1;
      }
      if restSub == 0 {
        if c.mode == Recv {
          stage := Looping;
          ArmReceptions();
        } else {
          stage := Syncing;
        }
      }
    }

    /** Starts the reception of publishes on every client. */
    method ArmReceptions()
      requires Mirrors()
      modifies `states, footprint
      ensures Mirrors() && |states| == |old(states)|
      ensures forall j :: 0 <= j < |states| ==> states[j] == old(states)[j].(recvArmed := true)
    {
      hide Template;
      var index := 0;
      while index < |cis|
        invariant 0 <= index <= |cis| == |states| == |old(states)| && Mirrors()
        invariant forall j :: 0 <= j < |states| ==>
                    states[j] == if j < index then old(states)[j].(recvArmed := true) else old(states)[j]
      {
        cis[index].recvArmed := true;
        Reflect(index);
        index := index + 1;
      }
    }

    // ----- entering the loop -----

    /** All nodes are in step: the delay before publishing starts. */
    method OnSync()
      requires Valid() && stage == Syncing
      modifies this
      ensures Valid() && Enabled(c, old(view), SyncOver)
      ensures view == Next(c, old(view), SyncOver)
    {
      hide Agrees, Next, Enabled, LinedUp;
      ghost var v, g := view, SharedState();
      if c.idle == 0 {
        ph := PubAfterIdleDelay;
      } else {
        ph := PubDelay;
      }
      delayArmed := true;
      stage := PubDelaying;
      SyncConsistent(c, v, g, states, wire);
      ClockMoves(c, v, SyncOver);
      view := Next(c, v, SyncOver);
    }

    /** Starts every client's timer at its own offset, and the receptions if asked to. */
    method ArmTimers(now: int, receive: bool)
      requires Mirrors() && c.clients > 0
      requires forall j :: 0 <= j < |states| ==> !states[j].timArmed && !(receive && states[j].recvArmed)
      modifies `states, footprint
      ensures Mirrors() && |states| == |old(states)|
      ensures forall j :: 0 <= j < |states| ==>
                states[j] == old(states)[j].(timArmed := true,
                                             timExpiry := now + AllInterval(c.pubIntervalMs, c.clients) * j,
                                             recvArmed := old(states)[j].recvArmed || receive)
      ensures TimersInRange(c.pubIntervalMs) ==>
                forall j: nat :: j < |states| ==> OnItsShare(c, j, states[j].timExpiry - now)
    {
      hide Template, AllInterval;
      var stagger := AllInterval(c.pubIntervalMs, c.clients);
      var tp := 0;
      var index := 0;
      while index < |cis|
        invariant 0 <= index <= |cis| == |states| == |old(states)| && Mirrors()
        invariant tp == stagger * index
        invariant forall j :: 0 <= j < |states| ==>
                    states[j] == if j < index
                                 then old(states)[j].(timArmed := true, timExpiry := now + stagger * j,
                                                      recvArmed := old(states)[j].recvArmed || receive)
                                 else old(states)[j]
      {
        var ci := cis[index];
        ci.timExpiry := now + tp;
        ci.timArmed := true;
        if receive {
          ci.recvArmed := true;
        }
        Reflect(index);
        assert stagger * (index + 1) == stagger * index + stagger;
        tp := tp + stagger;
        index := index + 1;
      }
      OffsetsOnShare(c);
    }

    /** The delay before publishing is over. */
    method OnPubDelay(now: int)
      requires Valid() && stage == PubDelaying && now >= clock
      modifies this, footprint
      ensures Valid() && Enabled(c, old(view), PubDelayOver(now))
      ensures view == Next(c, old(view), PubDelayOver(now))
    {
      hide Agrees, Next, Enabled, Mirrors, LinedUp, AllInterval, Reported;
      Lengths();
      ghost var v, g, s := view, SharedState(), states;
      LoopArmed(c, v, now, g, s, wire);
      EnterLoop(now);
      LoopConsistent(c, v, now, g, s, wire, states);
      clock := now;
      ClockMoves(c, v, PubDelayOver(now));
      view := Next(c, v, PubDelayOver(now));
    }

    /** Stores the first phase of the loop, and arms the timers and, in single mode, the receptions. */
    method EnterLoop(now: int)
      requires Mirrors() && c.clients > 0
      requires forall j :: 0 <= j < |states| ==> !states[j].timArmed && !states[j].recvArmed
      modifies `delayArmed, `ph, `stage, `states, footprint
      ensures SharedState() == old(SharedState()).(stage := Looping, delayArmed := false,
                                                   ph := if old(ph) == PubDelay then Idle else Publish)
      ensures Mirrors() && |states| == |old(states)|
      ensures forall j :: 0 <= j < |states| ==>
                states[j] == old(states)[j].(timArmed := true, recvArmed := c.mode == Single,
                                             timExpiry := now + AllInterval(c.pubIntervalMs, c.clients) * j)
    {
      hide Mirrors, LinedUp, AllInterval;
      Lengths();
      delayArmed := false;
      if ph == PubDelay {
        ph := Idle;
      } else {
        ph := Publish;
      }
      stage := Looping;
      ArmTimers(now, c.mode == Single);
    }

    // ----- the publish loop: timers -----

    /** Notes the send time in the slot of the publish's number, sends it, and counts it. */
    method TriggerPub(i: nat, now: int, wall: nat) returns (p: Message)
      requires Mirrors() && i < |cis| == |wire| && 0 < states[i].sendTimes <= |states[i].sent|
      requires SendPayload(c.mode, Template(c.payloadSize), c.Index(i), states[i].sendTimes, wall).Some?
      modifies `states, `wire, footprint
      ensures Mirrors()
      ensures states == old(states)[i := old(states)[i].(
                          sendTimes := old(states)[i].sendTimes - 1,
                          sent := old(states)[i].sent[old(states)[i].sendTimes - 1 := now])]
      ensures SentOnWire(c, i, old(states)[i].sendTimes, wall, p, old(wire), wire)
    {
      hide SendPayload, Template;
      var ci := cis[i];
      p := Message(c.topicPrefix + IndexStr(ci.index), ci.PayloadToSend(c.mode, wall).value);
      ci.sent[ci.sendTimes - 1] := now;
      wire := wire[i := wire[i] + [p]];
      ci.sendTimes := ci.sendTimes - 1;
      Reflect(i);
    }

    /** Moves client i's timer on by the publish interval, counted from its last expiry. */
    method RearmTimer(i: nat)
      requires Mirrors() && i < |cis| && !cis[i].timArmed
      modifies `states, footprint
      ensures Mirrors()
      ensures states == old(states)[i := old(states)[i].(timArmed := true,
                          timExpiry := old(states)[i].timExpiry + 1_000_000 * c.pubIntervalMs)]
    {
      hide Template;
      var ci := cis[i];
      ci.timExpiry := ci.timExpiry + PubInterval(c.pubIntervalMs);
      ci.timArmed := true;
      Reflect(i);
    }

    /** Client i's timer has expired: no wait on it is pending. */
    method TimerFired(i: nat)
      requires Mirrors() && i < |cis|
      modifies `states, footprint
      ensures Mirrors() && states == old(states)[i := old(states)[i].(timArmed := false)]
    {
      cis[i].timArmed := false;
      Reflect(i);
    }

    method CountIdle(i: nat)
      requires Mirrors() && i < |cis| && states[i].sendIdleCount > 0
      modifies `states, footprint
      ensures Mirrors()
      ensures states == old(states)[i := old(states)[i].(sendIdleCount := old(states)[i].sendIdleCount - 1)]
    {
      var ci := cis[i];
      ci.sendIdleCount := ci.sendIdleCount - 1;
      Reflect(i);
    }

    /** Counts an idle publish of a sending process; the last one of all clients starts the pause. */
    method CountIdleSent()
      requires restTimes > 1 && restIdle > 0 && !delayArmed
      modifies `restTimes, `restIdle, `ph, `delayArmed
      ensures c.mode == Send ==> SentShared(c, old(SharedState()), SharedState())
    {
      restTimes := restTimes - 1;
      if restIdle > 0 {
        restIdle := restIdle - 1;
        if restIdle == 0 {
          ph := PubAfterIdleDelay;
          delayArmed := true;
        }
      }
    }

    /** Counts a measured publish of a sending process; the last one of all ends the run. */
    method CountMeasuredSent()
      requires restTimes > 0 && restIdle == 0 && !delayArmed
      modifies `restTimes, `stage
      ensures c.mode == Send ==> SentShared(c, old(SharedState()), SharedState())
    {
      restTimes := restTimes - 1;
      if restTimes == 0 {
        stage := Finished;
      }
    }

    method PublishIdle(i: nat, now: int, wall: nat) returns (p: Message)
      requires Mirrors() && i < |cis| == |wire| && states[i].timArmed && ph == Idle && !delayArmed
      requires 0 < states[i].sendTimes <= |states[i].sent| && states[i].sendIdleCount > 0
      requires SendPayload(c.mode, Template(c.payloadSize), c.Index(i), states[i].sendTimes, wall).Some?
      requires c.mode == Send ==> restTimes > 1 && restIdle > 0
      modifies `states, `wire, `restTimes, `restIdle, `ph, `delayArmed, footprint
      ensures Mirrors() && states == old(states)[i := states[i]]
      ensures SentRecord(c, Idle, now, old(states)[i], states[i])
      ensures SentShared(c, old(SharedState()), SharedState())
      ensures SentOnWire(c, i, old(states)[i].sendTimes, wall, p, old(wire), wire)
    {
      hide SendPayload, SentOnWire, LinedUp, Mirrors;
      Mirrored(i);
      TimerFired(i);
      p := TriggerPub(i, now, wall);
      Mirrored(i);
      assert cis[i].sendIdleCount != 0;
      if c.mode == Send {
        CountIdleSent();
      }
      CountIdle(i);
      Mirrored(i);
      if cis[i].sendIdleCount != 0 {
        RearmTimer(i);
      }
    }

    method PublishMeasured(i: nat, now: int, wall: nat) returns (p: Message)
      requires Mirrors() && i < |cis| == |wire| && states[i].timArmed && ph == Publish && !delayArmed
      requires 0 < states[i].sendTimes <= |states[i].sent|
      requires SendPayload(c.mode, Template(c.payloadSize), c.Index(i), states[i].sendTimes, wall).Some?
      requires c.mode == Send ==> restTimes > 0 && restIdle == 0
      modifies `states, `wire, `restTimes, `stage, footprint
      ensures Mirrors() && states == old(states)[i := states[i]]
      ensures SentRecord(c, Publish, now, old(states)[i], states[i])
      ensures SentShared(c, old(SharedState()), SharedState())
      ensures SentOnWire(c, i, old(states)[i].sendTimes, wall, p, old(wire), wire)
    {
      hide SendPayload, SentOnWire, LinedUp, Mirrors;
      Mirrored(i);
      TimerFired(i);
      p := TriggerPub(i, now, wall);
      Mirrored(i);
      if cis[i].sendTimes != 0 {
        RearmTimer(i);
      }
      if c.mode == Send {
        CountMeasuredSent();
      }
    }

    method StartMeasuring(now: int)
      requires Mirrors() && c.clients > 0 && forall j :: 0 <= j < |states| ==> !states[j].timArmed
      modifies `states, `ph, `delayArmed, footprint
      ensures SharedState() == old(SharedState()).(delayArmed := false, ph := Publish)
      ensures Mirrors() && |states| == |old(states)|
      ensures forall j :: 0 <= j < |states| ==>
                states[j] == old(states)[j].(timArmed := true,
                                             timExpiry := now + AllInterval(c.pubIntervalMs, c.clients) * j)
    {
      delayArmed := false;
      ph := Publish;
      ArmTimers(now, false);
    }

    /** An expired timer. The handler dispatches on the phase alone. */
    method OnTimer(timer: Timer, now: int, wall: nat)
      requires Valid() && stage == Looping && now >= clock && wall < I64_LIMIT
      requires match timer
               case Interval(i) => i < |cis| && cis[i].timArmed && now >= cis[i].timExpiry
               case Delay => delayArmed
      modifies this, footprint
      ensures Valid()
      ensures var e := match timer case Interval(i) => IntervalOver(i, now, wall) case Delay => DelayOver(now);
              Enabled(c, old(view), e) && view == Next(c, old(view), e)
    {
      hide Agrees, Next, Enabled, Reported, LinedUp;
      PhaseTellsTimer(c, view, SharedState(), states, wire);
      match ph
      case Idle =>
        OnInterval(timer.i, now, wall);
      case Publish =>
        OnInterval(timer.i, now, wall);
      case PubAfterIdleDelay =>
        OnDelay(now);
      case _ =>
        assert false;
    }

    method OnInterval(i: nat, now: int, wall: nat)
      requires Valid() && stage == Looping && (ph == Idle || ph == Publish)
      requires i < |cis| && cis[i].timArmed && now >= cis[i].timExpiry && now >= clock
      requires wall < I64_LIMIT
      modifies this, footprint
      ensures Valid() && Enabled(c, old(view), IntervalOver(i, now, wall))
      ensures view == Next(c, old(view), IntervalOver(i, now, wall))
    {
      hide Agrees, Next, Enabled, SentRecord, SentShared, SentOnWire, Reported, LinedUp;
      ghost var v, g, s, w := view, SharedState(), states, wire;
      ghost var e := IntervalOver(i, now, wall);
      IntervalArmed(c, v, i, now, wall, g, s, w);
      ClockMoves(c, v, e);
      SingleKeepsGoing(c, v, e, g, s, w);
      view := Next(c, v, e);
      clock := now;
      var p;
      if ph == Idle {
        p := PublishIdle(i, now, wall);
      } else {
        p := PublishMeasured(i, now, wall);
      }
      SendingConsistent(c, v, i, now, wall, g, s, w, SharedState(), states[i], p, wire);
      SameStage(c, view, SharedState(), states, wire);
    }

    method OnDelay(now: int)
      requires Valid() && stage == Looping && ph == PubAfterIdleDelay && delayArmed && now >= clock
      modifies this, footprint
      ensures Valid() && Enabled(c, old(view), DelayOver(now))
      ensures view == Next(c, old(view), DelayOver(now))
    {
      hide Agrees, Next, Enabled, Mirrors, LinedUp;
      Lengths();
      ghost var v, g, s := view, SharedState(), states;
      MeasuringArmed(c, v, now, g, s, wire);
      StartMeasuring(now);
      MeasuringConsistent(c, v, now, g, s, wire, states);
      clock := now;
      ClockMoves(c, v, DelayOver(now));
      view := Next(c, v, DelayOver(now));
    }

    // ----- the publish loop: receptions -----

    /** Counts down client i's publishes to receive, with a sample if there is one. */
    method CountReception(i: nat, sample: seq<nat>)
      requires Mirrors() && i < |cis| && states[i].recvTimes > 0
      modifies `states, footprint
      ensures Mirrors()
      ensures states == old(states)[i := old(states)[i].(recvTimes := old(states)[i].recvTimes - 1,
                                                         rttUs := old(states)[i].rttUs + sample)]
    {
      var ci := cis[i];
      ci.rttUs := ci.rttUs + sample;
      ci.recvTimes := ci.recvTimes - 1;
      Reflect(i);
    }

    /** Complains about a payload and about a topic that is not the expected one. */
    method CheckPublish(i: nat, p: Message)
      requires Mirrors() && i < |cis|
      modifies `complaints
      ensures complaints == old(complaints) + Mismatches(c, i, states[i].recvTimes, p)
    {
      hide RecvPayload, Template;
      var ci := cis[i];
      if c.mode == Single && ci.ExpectedPayload() != Some(p.payload) {
        complaints := complaints + 1;
      }
      if p.topic != c.topicPrefix + IndexStr(ci.index) {
        complaints := complaints + 1;
      }
    }

    /** Counts a received publish. While the warm-up counter is positive it is only counted;
        afterwards it is measured and compared as well. */
    method RecvPublish(i: nat, p: Message, now: int) returns (ret: PubRecv)
      requires Mirrors() && i < |cis| && restTimes > 0 && states[i].recvTimes > 0
      requires c.mode == Single ==> states[i].recvTimes <= |states[i].sent|
      requires c.mode != Send
      modifies `states, `restIdle, `restTimes, `complaints, footprint
      ensures Mirrors()
      ensures var s := old(states)[i];
              var d := Duration(c, s, p, now);
              var sample := if old(restIdle) == 0 && d.Some? then [AsSize(d.value)] else [];
              if old(restIdle) == 0 && d.None? then
                ret == Threw && states == old(states) && SharedState() == old(SharedState())
              else
                && restTimes == old(restTimes) - 1 && restIdle == Monus(old(restIdle), 1)
                && states == old(states)[i := s.(recvTimes := s.recvTimes - 1, rttUs := s.rttUs + sample)]
                && (ret == IdleFinish <==> old(restIdle) == 1)
                && (ret == PubFinish <==> old(restIdle) == 0 && old(restTimes) == 1)
                && ret != Threw
      ensures complaints == old(complaints) + (if old(restIdle) == 0 && ret != Threw
                                               then Mismatches(c, i, old(states)[i].recvTimes, p) else 0)
    {
      hide RecvPayload, Template, AsSize, Duration, Mirrors, LinedUp, Topic;
      Mirrored(i);
      var ci := cis[i];
      if restIdle == 0 {
        var dur := Measure(ci, p, now);
        if dur == None {
          return Threw;
        }
        CheckPublish(i, p);
        CountReception(i, [AsSize(dur.value)]);
        restTimes := restTimes - 1;
        return if restTimes == 0 then PubFinish else Cont;
      } else {
        CountReception(i, []);
        restTimes := restTimes - 1;
        restIdle := restIdle - 1;
        return if restIdle == 0 then IdleFinish else Cont;
      }
    }

    /** The round trip since the send time in the client's slot, or the time since the stamp. */
    function Measure(ci: Client, p: Message, now: int): (d: Option<int>)
      requires c.mode != Recv ==> 0 < ci.recvTimes <= ci.sent.Length
      reads ci, ci.sent
      ensures d == Duration(c, ci.State(), p, now)
    {
      if c.mode != Recv then Some(Micros(ci.sent[ci.recvTimes - 1], now))
      else match DecodeStamp(p.payload)
        case None => None
        case Some(ts) => Some(Micros(ts, now))
    }

    /** Acts on what counting a publish found, and goes on receiving while publishes are left. */
    method ActOn(i: nat, ret: PubRecv)
      requires Mirrors() && i < |cis| && ret != Threw
      modifies `states, `ph, `delayArmed, `stage, footprint
      ensures var pause := ret == IdleFinish && c.mode == Single;
              SharedState() == old(SharedState()).(
                ph := if pause then PubAfterIdleDelay else old(ph),
                delayArmed := pause || old(delayArmed),
                stage := if ret == PubFinish then Finished else old(stage))
      ensures Mirrors()
      ensures states == old(states)[i := old(states)[i].(
                          recvArmed := ret != PubFinish && old(states)[i].recvTimes != 0)]
    {
      hide Template;
      var ci := cis[i];
      ci.recvArmed := false;
      match ret {
        case Cont =>
        case IdleFinish =>
          if c.mode == Single {
            ph := PubAfterIdleDelay;
            delayArmed := true;
          }
        case PubFinish =>
          stage := Finished;
          Reflect(i);
          return;
      }
      if ci.recvTimes != 0 {
        ci.recvArmed := true;
      }
      Reflect(i);
    }

    /** The reception branch of the handler: takes the publish off the wire, counts it, acts on
        what that found. An exception while decoding ends the process. */
    method HandlePublish(i: nat, p: Message, now: int) returns (ret: PubRecv)
      requires Mirrors() && i < |cis| == |wire| && c.mode != Send
      requires restTimes > 0 && states[i].recvTimes > 0 && (restTimes == 1 ==> states[i].recvTimes == 1)
      requires c.mode == Single ==>
                 && states[i].recvTimes <= |states[i].sent| && wire[i] != []
                 && p.topic == Topic(c, i)
                 && RecvPayload(Template(c.payloadSize), c.Index(i), states[i].recvTimes) == Some(p.payload)
      modifies `states, `wire, `restIdle, `restTimes, `complaints, `ph, `delayArmed, `stage, footprint
      ensures Mirrors()
      ensures ret == Threw <==> old(restIdle) == 0 && Duration(c, old(states)[i], p, now) == None
      ensures ret == Threw ==> stage == Stopped && |wire| == |cis|
      ensures ret != Threw ==>
                && ReceivedShared(c, old(SharedState()), SharedState())
                && TakenOffWire(c, i, old(wire), wire)
                && states == old(states)[i := states[i]]
                && ReceivedRecord(c, old(restIdle) == 0, p, now, old(states)[i], states[i])
      ensures ret != Threw ==> (ret == PubFinish <==> old(restIdle) == 0 && old(restTimes) == 1)
      ensures complaints == old(complaints) + (if old(restIdle) == 0 && ret != Threw
                                               then Mismatches(c, i, old(states)[i].recvTimes, p) else 0)
    {
      hide Duration, RecvPayload, Topic, AsSize, Template, Mirrors;
      Lengths();
      if c.mode == Single {
        wire := wire[i := wire[i][1..]];
      }
      ret := RecvPublish(i, p, now);
      if ret == Threw {
        stage := Stopped;
      } else {
        Lengths();
        ActOn(i, ret);
      }
    }

    /** Client i receives p: in single mode the oldest publish on its way back. */
    method OnReceived(i: nat, p: Message, now: int)
      requires Valid() && stage == Looping && i < |cis| == |wire| && cis[i].recvArmed
      requires c.mode == Single ==> wire[i] != [] && p == wire[i][0] && now >= clock
      modifies this, footprint
      ensures Valid() && Enabled(c, old(view), Received(i, p, now))
      ensures view == Next(c, old(view), Received(i, p, now))
      ensures complaints == old(complaints) + (if old(restIdle) == 0 && stage != Stopped
                                               then Mismatches(c, i, old(cis[i].recvTimes), p) else 0)
    {
      hide Agrees, Next, Enabled, Warm, Measured, Duration, RecvPayload, Reported, ReceivedShared;
      hide Mismatches, ReceivedRecord, TakenOffWire, Samples, RttOf, LinedUp, Mirrors;
      Mirrored(i);
      ghost var v, g, s, w := view, SharedState(), states, wire;
      ReceptionArmed(c, v, i, p, now, g, s, w);
      clock := now;
      ClockMoves(c, v, Received(i, p, now));
      view := Next(c, v, Received(i, p, now));
      var ret := HandlePublish(i, p, now);
      Lengths();
      if ret == Threw {
        ThrowingConsistent(c, v, i, p, now, g, s, w, SharedState(), states, wire);
      } else {
        ReceptionHandled(c, v, i, p, now, g, s, w, SharedState(), states[i], wire);
        StageAfterReception(c, g, SharedState());
        Conclude(ret);
      }
    }

    /** Reports after the publish that finished the run. */
    method Conclude(ret: PubRecv)
      requires Sound() && c.mode != Send && (ret == PubFinish <==> stage == Finished)
      requires RttOf(states) == Samples(view.logs)
      modifies `states, `report, footprint
      ensures Valid()
    {
      hide Agrees, Mirrors, Samples, RttOf, Reported;
      if ret == PubFinish {
        FinishRun();
      }
    }

    /** The run is over: the results are reported. */
    method FinishRun()
      requires Sound() && stage == Finished && c.mode != Send
      requires RttOf(states) == Samples(view.logs)
      modifies `states, `report, footprint
      ensures Valid()
    {
      hide Agrees, LinedUp, Mirrors, Sort, StatsOf, IsSummary, Ordered;
      Lengths();
      FinishedShape(c, view, SharedState(), states, wire);
      ghost var done := states;
      ReportResults();
      SortedAre(RttOf(done), states);
      assert SharedState() == old(SharedState());
      SortedConsistent(c, view, SharedState(), done, wire, states);
    }

    method SortSamples(i: nat)
      requires Mirrors() && i < |cis|
      modifies `states, footprint
      ensures Mirrors()
      ensures states == old(states)[i := old(states)[i].(rttUs := Sort(old(states)[i].rttUs))]
    {
      hide Template, Sort;
      cis[i].rttUs := Sort(cis[i].rttUs);
      Reflect(i);
    }

    /** Sorts every client's samples in place and finds, for each figure, the leading client. */
    method ReportResults()
      requires Mirrors()
      modifies `states, `report, footprint
      ensures Mirrors() && |states| == |old(states)|
      ensures forall j :: 0 <= j < |states| ==>
                && states[j] == old(states)[j].(rttUs := states[j].rttUs)
                && (states[j].rttUs == old(states)[j].rttUs || states[j].rttUs == Sort(old(states)[j].rttUs))
      ensures var samples := RttOf(old(states));
              && (report.Some? <==> forall k :: 0 <= k < |samples| ==> samples[k] != [])
              && (report.Some? ==>
                    && IsSummary(report.value, StatsOfAll(samples), Cids())
                    && forall j :: 0 <= j < |states| ==> states[j].rttUs == Sort(samples[j]))
    {
      hide IsSummary, Sort, StatsOf, LinedUp, Mirrors;
      Lengths();
      EmptySummary();
      ghost var samples := RttOf(states);
      ghost var stats: seq<Stats> := [];
      var best := Summary(NOBODY, NOBODY, NOBODY, NOBODY);
      var index := 0;
      report := None;
      while index < |cis|
        invariant 0 <= index <= |cis| == |states| == |old(states)| && Mirrors()
        invariant report == None
        invariant forall j :: 0 <= j < |states| ==>
                    states[j] == old(states)[j].(rttUs := if j < index then Sort(samples[j]) else samples[j])
        invariant forall j :: 0 <= j < index ==> samples[j] != []
        invariant |stats| == index
        invariant forall j :: 0 <= j < index ==> stats[j] == StatsOf(Sort(samples[j]))
        invariant IsSummary(best, stats, Cids()[..index])
      {
        var ci := cis[index];
        SortSamples(index);
        Mirrored(index);
        if ci.rttUs == [] {
          assert samples[index] == [];
          return;
        }
        var st := StatsOf(ci.rttUs);
        best := Compete(best, st, ci.ClientId(), stats, Cids()[..index]);
        stats := stats + [st];
        assert Cids()[..index + 1] == Cids()[..index] + [ci.ClientId()];
        index := index + 1;
      }
      assert stats == StatsOfAll(samples);
      assert Cids()[..index] == Cids();
      report := Some(best);
    }

    // ----- runs -----

    /** Some handler can run. */
    predicate Ready()
      reads this, cis
    {
      || stage == Syncing
      || delayArmed
      || exists i :: 0 <= i < |cis| == |wire|
                     && (cis[i].awaitingAck || cis[i].timArmed
                         || (cis[i].recvArmed && (c.mode == Single ==> wire[i] != [])))
    }

    /** The records tell whether a handler is ready as well as their ghost copies do. */
    lemma ReadyMeans()
      requires Mirrors() && |wire| == |cis|
      ensures Ready() <==> SomethingReady(c, SharedState(), states, wire)
    {
      hide LinedUp;
      if i :| 0 <= i < |states| && (states[i].awaitingAck || states[i].timArmed
                                    || (states[i].recvArmed && (c.mode == Single ==> wire[i] != []))) {
        assert states[i] == cis[i].State();
      }
    }

    /** Runs one handler that is ready, whichever the environment chooses, with whatever answer,
        clock reading or, for a receiving process, publish the environment brings. */
    method Step() returns (ghost e: Event)
      requires Valid() && stage != Stopped && Ready()
      modifies this, footprint
      ensures Valid() && Enabled(c, old(view), e) && view == Next(c, old(view), e)
    {
      hide Agrees, Next, Enabled, Reported, LinedUp;
      ReadyTells(c, view, SharedState(), states, wire);
      var wall: nat :| wall < I64_LIMIT;
      if
      case stage == SubDelaying =>
        e := SubDelayOver;
        OnSubDelay();
      case stage == Syncing =>
        e := SyncOver;
        OnSync();
      case stage == PubDelaying =>
        var now :| now >= clock;
        e := PubDelayOver(now);
        OnPubDelay(now);
      case stage == Looping && delayArmed =>
        var now :| now >= clock;
        e := DelayOver(now);
        OnTimer(Delay, now, wall);
      case i: nat :| i < |cis| && cis[i].awaitingAck =>
        if stage == Connecting {
          var ok: bool := *;
          e := Connack(i, ok);
          OnConnack(i, ok);
        } else {
          var grant: Grant := *;
          e := Suback(i, grant);
          OnSuback(i, grant);
        }
      case i: nat :| i < |cis| && cis[i].timArmed =>
        var now :| now >= clock && now >= cis[i].timExpiry;
        e := IntervalOver(i, now, wall);
        OnTimer(Interval(i), now, wall);
      case i: nat :| i < |cis| == |wire| && cis[i].recvArmed && (c.mode == Single ==> wire[i] != []) =>
        var now :| c.mode == Single ==> now >= clock;
        var p: Message := *;
        if c.mode == Single {
          p := wire[i][0];
        }
        e := Received(i, p, now);
        OnReceived(i, p, now);
    }

    lemma ReportExists()
      requires Valid() && stage == Finished && c.mode == Single
      ensures report.Some?
    {
      FinishedMeans(c, view, SharedState(), states, wire);
      forall i | 0 <= i < |view.logs|
        ensures Samples(view.logs)[i] != []
      {
        assert LogOk(c, view, i);
        assert RecvCounts(view.logs)[i] >= c.Times();
      }
    }

    /** The records and the wire show what the events of the run call for. */
    ghost predicate Accounts(es: seq<Event>)
      reads this, cis
    {
      |wire| == |cis| && forall i :: 0 <= i < |cis| ==> AccountsFor(c, es, i, cis[i].rttUs, wire[i])
    }

    lemma ItAccounts(es: seq<Event>)
      requires Valid() && stage != Stopped && Feasible(c, Init(c), es) && view == Outcome(c, es)
      ensures Accounts(es)
    {
      hide LinedUp, AccountsFor, Agrees, Reported, Outcome, Feasible;
      FinishedShape(c, view, SharedState(), states, wire);
      forall i | 0 <= i < |cis|
        ensures AccountsFor(c, es, i, cis[i].rttUs, wire[i])
      {
        CoupledAt(c, view, SharedState(), states, wire, i);
        LogAccounts(c, es, i, cis[i].rttUs, wire[i]);
      }
    }

    /** Runs handlers until none is ready. What happens is one complete run of Runs.dfy, so it
        ends on its own, after as many steps as planned unless a client was refused or the process
        stopped. A finished run leaves no message to send or receive; in single mode it also
        leaves nothing on the wire, no complaint, a report, and one sample per wanted publish. */
    method Run() returns (steps: nat, ghost es: seq<Event>)
      requires Valid() && view == Init(c)
      modifies this, footprint
      ensures Valid() && Complete(c, es) && view == Outcome(c, es) && steps == |es| <= RunTotal(c)
      ensures c.mode != Recv ==> (stage == Finished <==> AllGood(es))
      ensures stage != Stopped ==> Accounts(es)
      ensures stage == Finished ==> steps == RunTotal(c) && restTimes == 0
      ensures stage == Finished ==>
                forall i :: 0 <= i < |cis| ==>
                  (c.mode != Recv ==> cis[i].sendTimes == 0) && (c.mode != Send ==> cis[i].recvTimes == 0)
      ensures stage == Finished && c.mode == Single ==>
                && restIdle == complaints == 0 && report.Some? && |cis| == |wire|
                && forall i :: 0 <= i < |cis| ==> wire[i] == [] && |cis[i].rttUs| == c.wanted
    {
      hide Agrees, Enabled, Next, Left, RunTotal, AtRest, SomethingReady;
      hide Reported, LinedUp, Ready, Feasible, After, Good, Accounts;
      steps, es := 0, [];
      StartOfRun(c);
      SameStage(c, view, SharedState(), states, wire);
      while stage != Stopped && Ready()
        invariant Valid() && |cis| == |wire|
        invariant steps == |es| && Feasible(c, Init(c), es) && view == After(c, Init(c), es)
        invariant stage != Stopped ==> steps + Left(c, view) == RunTotal(c)
        invariant steps <= RunTotal(c)
        decreases if stage == Stopped then 0 else 1, RunTotal(c) - steps
      {
        ghost var v, g, s, w := view, SharedState(), states, wire;
        var e := Step();
        steps := steps + 1;
        StepUses(c, v, e, g, s, w);
        SameStage(c, view, SharedState(), states, wire);
        Append(c, Init(c), es, e);
        es := es + [e];
      }
      AtEnd();
      EndOfRun(c, es);
      if stage != Stopped {
        ItAccounts(es);
      }
      if stage == Finished {
        FinishedMeans(c, view, SharedState(), states, wire);
        if c.mode == Single {
          ReportExists();
        }
      }
    }

    lemma AtEnd()
      requires Valid() && (stage == Stopped || !Ready())
      ensures AtRest(view) && stage == view.stage
    {
      SameStage(c, view, SharedState(), states, wire);
      if stage != Stopped {
        ReadyMeans();
        NeverStranded(c, view, SharedState(), states, wire);
      }
    }
  }

  /** What `main` does with its options: it makes the clients, hands them to the benchmark and runs
      that to its end. */
  method RunBenchmark(setup: Setup, targets: nat, targetIndex: nat)
    returns (b: Bench, steps: nat, ghost es: seq<Event>)
    requires targetIndex < targets
    ensures b.c == setup && b.Valid() && Balanced(TargetsOf(b.cis), targets)
    ensures Complete(setup, es) && b.view == Outcome(setup, es) && steps == |es| <= RunTotal(setup)
    ensures setup.mode != Recv ==> (b.stage == Finished <==> AllGood(es))
    ensures b.stage == Finished && setup.mode == Single ==> b.report.Some? && b.complaints == 0
    ensures b.stage != Stopped ==> b.Accounts(es)
  {
    var clients := MakeClients(setup, targets, targetIndex);
    b := new Bench(setup, clients);
    steps, es := b.Run();
  }

  /** Client j's offset is j equal shares of the publish interval, up to j nanoseconds. */
  predicate OnItsShare(c: Setup, j: nat, offset: int) {
    offset * c.clients <= j * (1_000_000 * c.pubIntervalMs) <= (offset + j) * c.clients
  }

  lemma OffsetsOnShare(c: Setup)
    ensures TimersInRange(c.pubIntervalMs) ==>
              forall j: nat :: OnItsShare(c, j, AllInterval(c.pubIntervalMs, c.clients) * j)
  {
    if TimersInRange(c.pubIntervalMs) {
      forall j: nat
        ensures OnItsShare(c, j, AllInterval(c.pubIntervalMs, c.clients) * j)
      {
        OffsetIsShare(c.pubIntervalMs, c.clients, j);
      }
    }
  }

  lemma SortedAre(samples: seq<seq<nat>>, states: seq<ClientState>)
    requires |samples| == |states|
    requires forall j :: 0 <= j < |states| ==>
               states[j].rttUs == Sort(samples[j]) || states[j].rttUs == samples[j]
    ensures forall j :: 0 <= j < |states| ==> multiset(states[j].rttUs) == multiset(samples[j])
  {
    forall j | 0 <= j < |states|
      ensures multiset(Sort(samples[j])) == multiset(samples[j])
    {
      SortIsPermutation(samples[j]);
    }
  }
}
