/** What the shared counters say about the clients' own counters and about the messages in flight,
    in every state the program can be in. */
module Conservation {
  import opened Wrappers
  import opened Settings
  import opened Counting
  import opened Payload
  import opened Protocol
  import Runs
  import opened Coupling

  function SendTimes(states: seq<ClientState>): seq<nat> {
    seq(|states|, i requires 0 <= i < |states| => states[i].sendTimes)
  }

  function RecvTimes(states: seq<ClientState>): seq<nat> {
    seq(|states|, i requires 0 <= i < |states| => states[i].recvTimes)
  }

  function SendIdleCounts(states: seq<ClientState>): seq<nat> {
    seq(|states|, i requires 0 <= i < |states| => states[i].sendIdleCount)
  }

  /** Idle publishes a client still has to receive: what exceeds the measured ones. */
  function RecvIdleCounts(c: Setup, states: seq<ClientState>): seq<nat> {
    seq(|states|, i requires 0 <= i < |states| => Monus(states[i].recvTimes, c.wanted))
  }

  lemma {:induction false} MissingIsLeft(counts: seq<nat>, target: nat, left: seq<nat>)
    requires |left| == |counts|
    requires forall i :: 0 <= i < |left| ==> left[i] == Monus(target, counts[i])
    ensures Missing(counts, target) == Sum(left)
  {
    if counts != [] {
      MissingIsLeft(counts[..|counts| - 1], target, left[..|counts| - 1]);
    }
  }

  /** One client: its counters, and the messages in flight with the numbers between them. */
  predicate Balances(c: Setup, i: nat, s: ClientState, wire: seq<Message>) {
    && s.sendIdleCount == Monus(s.sendTimes, c.wanted)
    && |s.sent| == c.Times()
    && (c.mode == Single ==>
          && s.sendTimes <= s.recvTimes <= c.Times()
          && |wire| == s.recvTimes - s.sendTimes
          && forall k :: 0 <= k < |wire| ==>
               && wire[k].topic == Topic(c, i)
               && SendPayload(Single, Template(c.payloadSize), c.Index(i), s.recvTimes - k, 0)
                  == Some(wire[k].payload))
  }

  lemma ClientBalances(c: Setup, v: View, i: nat, s: ClientState, wire: seq<Message>)
    requires Inv(c, v) && i < c.clients && Couple(c, v, i, s, wire)
    ensures Balances(c, i, s, wire)
    ensures s.sendTimes == Monus(c.Times(), |v.logs[i].sentAt|)
    ensures s.recvTimes == Monus(c.Times(), |v.logs[i].recvAt|)
    ensures Monus(s.recvTimes, c.wanted) == Monus(c.idle, |v.logs[i].recvAt|)
  {
    hide SendPayload, Template, Topic, PhasesOk, ProgressOk, SkipsOk, ReceivedOk;
    var l := v.logs[i];
    assert LogOk(c, v, i);
    if c.mode == Single {
      forall k | 0 <= k < |wire|
        ensures wire[k].topic == Topic(c, i)
        ensures SendPayload(Single, Template(c.payloadSize), c.Index(i), s.recvTimes - k, 0)
             == Some(wire[k].payload)
      {
        assert wire[k] == l.pubs[|l.recvAt| + k] == SentPublish(c, i, |l.recvAt| + k, 0);
        Runs.Room(c, i, s.recvTimes - k, 0);
      }
    }
  }

  /** Conservation. In single mode the shared counters are the sums of what the clients have still
      to receive, and each client's messages in flight number what it sent and has not received,
      in descending order of their counts. In send mode they are the sums of what is left to send. */
  lemma CountersBalance(c: Setup, v: View, g: Shared, states: seq<ClientState>, wire: seq<seq<Message>>)
    requires Agrees(c, v, g, states, wire) && g.stage != Stopped
    ensures |states| == |wire| == c.clients
    ensures forall i :: 0 <= i < |states| ==> Balances(c, i, states[i], wire[i])
    ensures g.restTimes == Sum(if c.mode == Send then SendTimes(states) else RecvTimes(states))
    ensures c.mode == Single ==> g.restIdle == Sum(RecvIdleCounts(c, states))
    ensures c.mode == Send ==> g.restIdle == Sum(SendIdleCounts(states))
  {
    hide Balances, Couple, LogOk, PhasesOk, ProgressOk, SkipsOk;
    forall i | 0 <= i < |states|
      ensures Balances(c, i, states[i], wire[i])
      ensures states[i].sendTimes == Monus(c.Times(), |v.logs[i].sentAt|)
      ensures states[i].recvTimes == Monus(c.Times(), |v.logs[i].recvAt|)
      ensures Monus(states[i].recvTimes, c.wanted) == Monus(c.idle, |v.logs[i].recvAt|)
      ensures states[i].sendIdleCount == Monus(c.idle, |v.logs[i].sentAt|)
    {
      ClientBalances(c, v, i, states[i], wire[i]);
      IdleLeft(c, v, i, states[i], wire[i]);
    }
    if c.mode == Send {
      MissingIsLeft(SentCounts(v.logs), c.Times(), SendTimes(states));
      MissingIsLeft(SentCounts(v.logs), c.idle, SendIdleCounts(states));
    } else {
      MissingIsLeft(RecvCounts(v.logs), c.Times(), RecvTimes(states));
      MissingIsLeft(RecvCounts(v.logs), c.idle, RecvIdleCounts(c, states));
    }
  }

  lemma IdleLeft(c: Setup, v: View, i: nat, s: ClientState, wire: seq<Message>)
    requires i < |v.logs| && i < |v.conn| && i < |v.subs| && Couple(c, v, i, s, wire)
    ensures s.sendIdleCount == Monus(c.idle, |v.logs[i].sentAt|)
  {
  }
}
