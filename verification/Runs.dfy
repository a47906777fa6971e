/** Whole runs of the benchmark: how long they are, where they end, what they store on the way. */
module Runs {
  import opened Wrappers
  import opened Settings
  import opened Decimal
  import opened Counting
  import opened Payload
  import opened Schedule
  import opened Protocol

  predicate Feasible(c: Setup, v: View, es: seq<Event>)
    decreases |es|
  {
    es == [] || (Enabled(c, v, es[0]) && Feasible(c, Next(c, v, es[0]), es[1..]))
  }

  function After(c: Setup, v: View, es: seq<Event>): View
    requires Feasible(c, v, es)
    decreases |es|
  {
    if es == [] then v else After(c, Next(c, v, es[0]), es[1..])
  }

  lemma {:induction false} AfterKeeps(c: Setup, v: View, es: seq<Event>)
    requires Inv(c, v) && Feasible(c, v, es)
    ensures Inv(c, After(c, v, es))
    decreases |es|
  {
    if es != [] {
      NextKeeps(c, v, es[0]);
      AfterKeeps(c, Next(c, v, es[0]), es[1..]);
    }
  }

  lemma Prepend(c: Setup, v: View, e: Event, es: seq<Event>)
    requires Enabled(c, v, e) && Feasible(c, Next(c, v, e), es)
    ensures Feasible(c, v, [e] + es)
    ensures After(c, v, [e] + es) == After(c, Next(c, v, e), es)
  {
    assert ([e] + es)[1..] == es;
  }

  lemma {:induction false} Append(c: Setup, v: View, es: seq<Event>, e: Event)
    requires Feasible(c, v, es) && Enabled(c, After(c, v, es), e)
    ensures Feasible(c, v, es + [e])
    ensures After(c, v, es + [e]) == Next(c, After(c, v, es), e)
    decreases |es|
  {
    if es == [] {
      assert es + [e] == [e];
    } else {
      Append(c, Next(c, v, es[0]), es[1..], e);
      assert (es + [e])[1..] == es[1..] + [e];
    }
  }

  // ----- how many steps are left -----

  function Answered(answers: seq<Answer>): seq<nat> {
    seq(|answers|, i requires 0 <= i < |answers| => if answers[i] == Pending then 0 else 1)
  }

  function LoopTotal(c: Config): nat {
    (if c.mode == Single then 2 else 1) * (c.clients * c.Times())
    + (if c.mode != Recv && c.idle > 0 then 1 else 0)
  }

  function LoopLeft(c: Config, v: View): nat {
    (if c.mode == Recv then 0 else Missing(SentCounts(v.logs), c.Times()))
    + (if c.mode == Send then 0 else Missing(RecvCounts(v.logs), c.Times()))
    + (if Current(v) == Idle || Current(v) == PubAfterIdleDelay then 1 else 0)
  }

  function AfterSubscribing(c: Config): nat {
    (if c.mode == Recv then 0 else 2) + LoopTotal(c)
  }

  function AfterConnecting(c: Config): nat {
    (if c.mode == Send then 0 else 1 + c.clients) + AfterSubscribing(c)
  }

  /** Handler invocations from here to the end of the run, if nothing is refused. */
  function Left(c: Config, v: View): nat {
    match v.stage
    case Connecting => Missing(Answered(v.conn), 1) + AfterConnecting(c)
    case SubDelaying => 1 + c.clients + AfterSubscribing(c)
    case Subscribing => Missing(Answered(v.subs), 1) + AfterSubscribing(c)
    case Syncing => 2 + LoopTotal(c)
    case PubDelaying => 1 + LoopTotal(c)
    case Looping => LoopLeft(c, v)
    case Finished => 0
    case Stopped => 0
  }

  lemma AnswerLeft(answers: seq<Answer>, i: nat, a: Answer)
    requires i < |answers| && answers[i] == Pending && a != Pending
    ensures Missing(Answered(answers), 1) == Missing(Answered(answers[i := a]), 1) + 1
    ensures AllYes(answers[i := a]) ==> Missing(Answered(answers[i := a]), 1) == 0
  {
    MissingBump(Answered(answers), 1, i);
    assert Answered(answers[i := a]) == Answered(answers)[i := 1];
    MissingZero(Answered(answers[i := a]), 1);
  }

  lemma FreshLoopLeft(c: Setup, v: View)
    requires |v.logs| == c.clients
    requires forall i :: 0 <= i < |v.logs| ==> v.logs[i] == ClientLog([], [], [], [])
    ensures Missing(SentCounts(v.logs), c.Times()) == c.clients * c.Times()
    ensures Missing(RecvCounts(v.logs), c.Times()) == c.clients * c.Times()
  {
    MissingUniform(SentCounts(v.logs), c.Times(), 0);
    MissingUniform(RecvCounts(v.logs), c.Times(), 0);
  }

  /** Advancing changes what is left only by what the logs already say. */
  lemma AdvanceLeft(c: Setup, v: View)
    requires v.stage == Looping && Inv(c, Advance(c, v))
    ensures Left(c, Advance(c, v)) == LoopLeft(c, v)
  {
    var w := Advance(c, v);
    if w.stage == Finished {
      assert forall i :: 0 <= i < |v.logs| ==> LogOk(c, w, i);
      MissingZero(SentCounts(v.logs), c.Times());
      MissingZero(RecvCounts(v.logs), c.Times());
      if c.mode == Single {
        forall i | 0 <= i < |v.logs|
          ensures SentCounts(v.logs)[i] >= c.Times()
        {
          assert LogOk(c, w, i);
          assert RecvCounts(v.logs)[i] >= c.Times();
        }
      }
    }
  }

  lemma SentLeft(c: Setup, v: View, i: nat, now: int, wall: nat)
    requires i < |v.logs| && c.mode != Recv && |v.logs[i].sentAt| < c.Times()
    ensures LoopLeft(c, v) == LoopLeft(c, NoteSent(c, v, i, now, wall)) + 1
  {
    var w := NoteSent(c, v, i, now, wall);
    CountsAfter(c, v, w, i);
    MissingBump(SentCounts(v.logs), c.Times(), i);
    assert RecvCounts(w.logs) == RecvCounts(v.logs);
  }

  lemma ReceivedLeft(c: Setup, v: View, i: nat, now: int, sample: seq<nat>)
    requires i < |v.logs| && c.mode != Send && |v.logs[i].recvAt| < c.Times()
    ensures LoopLeft(c, v) == LoopLeft(c, NoteReceived(v, i, now, sample)) + 1
  {
    var w := NoteReceived(v, i, now, sample);
    CountsAfter(c, v, w, i);
    MissingBump(RecvCounts(v.logs), c.Times(), i);
    assert SentCounts(w.logs) == SentCounts(v.logs);
  }

  lemma IntervalStepLeft(c: Setup, v: View, i: nat, now: int, wall: nat)
    requires Inv(c, v) && Enabled(c, v, IntervalOver(i, now, wall))
    ensures Left(c, v) == Left(c, Advance(c, NoteSent(c, v, i, now, wall))) + 1
  {
    IntervalKeeps(c, v, i, now, wall);
    SentLeft(c, v, i, now, wall);
    AdvanceLeft(c, NoteSent(c, v, i, now, wall));
  }

  lemma ReceivedStepLeft(c: Setup, v: View, i: nat, p: Message, now: int)
    requires Inv(c, v) && Enabled(c, v, Received(i, p, now))
    requires AfterReceived(c, v, i, p, now).stage != Stopped
    ensures Left(c, v) == Left(c, AfterReceived(c, v, i, p, now)) + 1
  {
    ReceivedKeeps(c, v, i, p, now);
    var sample := if Warm(c, v) then [AsSize(Measured(c, v.logs[i], p, now).value)] else [];
    ReceivedLeft(c, v, i, now, sample);
    AdvanceLeft(c, NoteReceived(v, i, now, sample));
  }

  lemma SubDelayStepLeft(c: Setup, v: View)
    requires Inv(c, v) && v.stage == SubDelaying
    ensures Left(c, v) == Left(c, Next(c, v, SubDelayOver)) + 1
  {
    assert v.subs == seq(c.clients, _ => Pending);
    MissingUniform(Answered(v.subs), 1, 0);
  }

  lemma SubackStepLeft(c: Setup, v: View, i: nat, grant: Grant)
    requires Inv(c, v) && Enabled(c, v, Suback(i, grant)) && grant != Rejected
    ensures Left(c, v) == Left(c, AfterSuback(c, v, i, grant)) + 1
  {
    AnswerLeft(v.subs, i, if grant == Granted then Yes else No);
    FreshLoopLeft(c, v);
  }

  lemma DelayStepLeft(c: Setup, v: View, now: int)
    requires Inv(c, v) && Enabled(c, v, DelayOver(now))
    ensures Left(c, v) == Left(c, AfterDelay(v, now)) + 1
  {
    assert AfterDelay(v, now).logs == v.logs;
  }

  /** Every handler invocation uses up exactly one of the steps left. */
  lemma StepLeft(c: Setup, v: View, e: Event)
    requires Inv(c, v) && Enabled(c, v, e)
    requires Next(c, v, e).stage != Stopped
    ensures Left(c, v) == Left(c, Next(c, v, e)) + 1
  {
    match e
    case Connack(i, ok) => AnswerLeft(v.conn, i, if ok then Yes else No);
    case SubDelayOver => SubDelayStepLeft(c, v);
    case Suback(i, grant) => SubackStepLeft(c, v, i, grant);
    case SyncOver =>
    case PubDelayOver(now) => FreshLoopLeft(c, v);
    case IntervalOver(i, now, wall) => IntervalStepLeft(c, v, i, now, wall);
    case Received(i, p, now) => ReceivedStepLeft(c, v, i, p, now);
    case DelayOver(now) => DelayStepLeft(c, v, now);
  }

  /** A run that was not broken off has as many steps as it used up. */
  lemma {:induction false} RunLength(c: Setup, v: View, es: seq<Event>)
    requires Inv(c, v) && Feasible(c, v, es)
    ensures After(c, v, es).stage != Stopped ==> |es| + Left(c, After(c, v, es)) == Left(c, v)
    ensures v.stage == Stopped ==> es == []
    ensures v.stage != Stopped ==> |es| <= Left(c, v)
    decreases |es|
  {
    if es != [] {
      var w := Next(c, v, es[0]);
      NextKeeps(c, v, es[0]);
      RunLength(c, w, es[1..]);
      if w.stage != Stopped {
        StepLeft(c, v, es[0]);
      } else {
        StoppingStepLeft(c, v, es[0]);
      }
    }
  }

  /** The step that stops the program was one of the steps left. */
  lemma StoppingStepLeft(c: Setup, v: View, e: Event)
    requires Inv(c, v) && Enabled(c, v, e) && Next(c, v, e).stage == Stopped
    ensures Left(c, v) >= 1
  {
    if e.Received? {
      MissingZero(RecvCounts(v.logs), c.Times());
      assert RecvCounts(v.logs)[e.i] < c.Times();
    } else if e.Suback? {
      AnswerLeft(v.subs, e.i, No);
    }
  }

  // ----- where runs can come to rest -----

  predicate NonePending(answers: seq<Answer>) {
    forall i :: 0 <= i < |answers| ==> answers[i] != Pending
  }

  predicate AtRest(v: View) {
    match v.stage
    case Finished => true
    case Stopped => true
    case Connecting => NonePending(v.conn)
    case Subscribing => NonePending(v.subs)
    case _ => false
  }

  function Max(a: int, b: int): int {
    if a >= b then a else b
  }

  /** In the loop some client still has something to do, and the handler for it is armed. */
  lemma LoopLive(c: Setup, v: View) returns (e: Event)
    requires Inv(c, v) && v.stage == Looping
    ensures Enabled(c, v, e)
  {
    if Current(v) == PubAfterIdleDelay {
      e := DelayOver(v.clock);
    } else {
      var done := DoneCounts(c, v.logs);
      var target := if Current(v) == Idle then c.idle else c.Times();
      var i :| 0 <= i < |done| && done[i] < target;
      assert LogOk(c, v, i);
      var l := v.logs[i];
      if c.mode == Recv {
        e := Received(i, Message("", ""), v.clock);
      } else if c.mode == Single && |l.recvAt| < |l.sentAt| {
        e := Received(i, l.pubs[|l.recvAt|], v.clock);
      } else {
        e := IntervalOver(i, Max(v.clock, Deadline(c, v, i)), 0);
      }
    }
  }

  /** No run is ever stranded: it rests only finished, stopped, or at a barrier where every
      client was answered and not all of them with success. */
  lemma Progress(c: Setup, v: View)
    requires Inv(c, v)
    ensures (exists e :: Enabled(c, v, e)) <==> !AtRest(v)
    ensures v.stage == Connecting && AtRest(v) ==> No in v.conn
    ensures v.stage == Subscribing && AtRest(v) ==> No in v.subs
  {
    if !AtRest(v) {
      match v.stage
      case Connecting =>
        var i :| 0 <= i < |v.conn| && v.conn[i] == Pending;
        assert Enabled(c, v, Connack(i, true));
      case SubDelaying => assert Enabled(c, v, SubDelayOver);
      case Subscribing =>
        var i :| 0 <= i < |v.subs| && v.subs[i] == Pending;
        assert Enabled(c, v, Suback(i, Granted));
      case Syncing => assert Enabled(c, v, SyncOver);
      case PubDelaying => assert Enabled(c, v, PubDelayOver(v.clock));
      case Looping => var e := LoopLive(c, v);
    }
  }

  // ----- refusals -----

  predicate Good(e: Event) {
    (e.Connack? ==> e.ok) && (e.Suback? ==> e.grant == Granted)
  }

  predicate AllGood(es: seq<Event>) {
    forall k :: 0 <= k < |es| ==> Good(es[k])
  }

  predicate Unrefused(v: View) {
    No !in v.conn && No !in v.subs
  }

  /** A refusal is remembered for ever, and nothing else leaves such a mark. */
  lemma {:induction false} RefusalsStay(c: Setup, v: View, es: seq<Event>)
    requires Feasible(c, v, es)
    ensures Unrefused(After(c, v, es)) <==> Unrefused(v) && AllGood(es)
    decreases |es|
  {
    if es != [] {
      var w := Next(c, v, es[0]);
      RefusalsStay(c, w, es[1..]);
      StepRefusal(c, v, es[0]);
      assert AllGood(es) <==> Good(es[0]) && AllGood(es[1..]) by {
        assert es == [es[0]] + es[1..];
      }
    }
  }

  lemma StepRefusal(c: Setup, v: View, e: Event)
    requires Enabled(c, v, e)
    ensures Unrefused(Next(c, v, e)) <==> Unrefused(v) && Good(e)
  {
    match e
    case Connack(i, ok) =>
      MarkRefusal(v.conn, i, if ok then Yes else No);
    case Suback(i, grant) =>
      MarkRefusal(v.subs, i, if grant == Granted then Yes else No);
    case _ =>
  }

  lemma MarkRefusal(answers: seq<Answer>, i: nat, a: Answer)
    requires i < |answers| && answers[i] == Pending && a != Pending
    ensures No in answers[i := a] <==> No in answers || a == No
  {
    assert answers[i := a][i] == a;
    if No in answers {
      var j :| 0 <= j < |answers| && answers[j] == No;
      assert answers[i := a][j] == No;
    }
  }

  // ----- the main results -----

  ghost predicate Complete(c: Setup, es: seq<Event>) {
    Feasible(c, Init(c), es) && !exists e :: Enabled(c, Outcome(c, es), e)
  }

  /** The view a run from the start leads to. */
  function Outcome(c: Setup, es: seq<Event>): (w: View)
    requires Feasible(c, Init(c), es)
    ensures |w.logs| == c.clients
  {
    Reachable(c, es);
    After(c, Init(c), es)
  }

  /** Every reachable view satisfies the invariant. */
  lemma Reachable(c: Setup, es: seq<Event>)
    requires Feasible(c, Init(c), es)
    ensures Inv(c, After(c, Init(c), es))
  {
    InitInv(c);
    AfterKeeps(c, Init(c), es);
  }

  lemma OutcomeKeeps(c: Setup, es: seq<Event>)
    requires Feasible(c, Init(c), es)
    ensures Inv(c, Outcome(c, es))
  {
    Reachable(c, es);
  }

  function RunTotal(c: Config): nat {
    c.clients + AfterConnecting(c)
  }

  lemma InitLeft(c: Setup)
    ensures Left(c, Init(c)) == RunTotal(c)
  {
    MissingUniform(Answered(Init(c).conn), 1, 0);
  }

  /** There are no infinite runs, and no longer ones than the planned number of steps. */
  lemma RunsAreBounded(c: Setup, es: seq<Event>)
    requires Feasible(c, Init(c), es)
    ensures |es| <= RunTotal(c)
    ensures RunTotal(c) ==
            var n, publishes, pauses := c.clients, c.clients * (c.wanted + c.idle), if c.idle > 0 then 1 else 0;
            match c.mode
            case Single => 2 * n + 3 + 2 * publishes + pauses
            case Send => n + 2 + publishes + pauses
            case Recv => 2 * n + 1 + publishes
  {
    InitInv(c);
    InitLeft(c);
    RunLength(c, Init(c), es);
  }

  /** Single mode: a complete run finishes exactly when no client was refused. Then it has
      exactly the planned number of steps - two per message, one extra when there is a warm-up -
      every message was sent and received, and every client has one sample per wanted message. */
  lemma SingleModeTermination(c: Setup, es: seq<Event>)
    requires c.mode == Single && Complete(c, es)
    ensures Outcome(c, es).stage == Finished <==> AllGood(es)
    ensures AllGood(es) ==>
              |es| == 2 * c.clients + 3 + 2 * (c.clients * (c.wanted + c.idle)) + (if c.idle > 0 then 1 else 0)
    ensures AllGood(es) ==>
              forall i :: 0 <= i < c.clients ==>
                var l := Outcome(c, es).logs[i];
                |l.sentAt| == |l.recvAt| == c.wanted + c.idle && |l.rtt| == c.wanted
  {
    var w := Outcome(c, es);
    Reachable(c, es);
    RefusalsStay(c, Init(c), es);
    Progress(c, w);
    InitInv(c);
    InitLeft(c);
    RunLength(c, Init(c), es);
    SingleNeverFaults(c, Init(c), es);
    assert w.stage == Finished ==> Unrefused(w);
    if AllGood(es) {
      forall i | 0 <= i < c.clients
        ensures var l := w.logs[i];
                |l.sentAt| == |l.recvAt| == c.wanted + c.idle && |l.rtt| == c.wanted
      {
        assert LogOk(c, w, i);
        assert RecvCounts(w.logs)[i] >= c.Times();
      }
    }
  }

  /** Only a rejected subscription stops a single-mode or send-mode run. */
  lemma {:induction false} SingleNeverFaults(c: Setup, v: View, es: seq<Event>)
    requires c.mode != Recv && Inv(c, v) && Feasible(c, v, es)
    requires v.stage == Stopped ==> !Unrefused(v)
    ensures After(c, v, es).stage == Stopped ==> !Unrefused(After(c, v, es))
    decreases |es|
  {
    if es != [] {
      NextKeeps(c, v, es[0]);
      if Next(c, v, es[0]).stage == Stopped {
        StepStops(c, v, es[0]);
      }
      SingleNeverFaults(c, Next(c, v, es[0]), es[1..]);
    }
  }

  lemma StepStops(c: Setup, v: View, e: Event)
    requires c.mode != Recv && Enabled(c, v, e) && Next(c, v, e).stage == Stopped
    ensures !Unrefused(Next(c, v, e))
  {
    match e
    case Suback(i, grant) => MarkRefusal(v.subs, i, No);
    case _ =>
  }

  /** Send mode: a complete run finishes exactly when no connection was refused, after one step
      per publish, and no sooner than every client has sent everything. */
  lemma SendModeTermination(c: Setup, es: seq<Event>)
    requires c.mode == Send && Complete(c, es)
    ensures Outcome(c, es).stage == Finished <==> AllGood(es)
    ensures AllGood(es) ==>
              |es| == c.clients + 2 + c.clients * (c.wanted + c.idle) + (if c.idle > 0 then 1 else 0)
    ensures AllGood(es) ==>
              forall i :: 0 <= i < c.clients ==> |Outcome(c, es).logs[i].sentAt| == c.wanted + c.idle
  {
    var w := Outcome(c, es);
    Reachable(c, es);
    RefusalsStay(c, Init(c), es);
    Progress(c, w);
    InitInv(c);
    InitLeft(c);
    RunLength(c, Init(c), es);
    SingleNeverFaults(c, Init(c), es);
    assert w.stage == Finished ==> Unrefused(w);
    if AllGood(es) {
      forall i | 0 <= i < c.clients
        ensures |w.logs[i].sentAt| == c.Times()
      {
        assert LogOk(c, w, i);
        assert SentCounts(w.logs)[i] >= c.Times();
      }
    }
  }

  lemma StartOfRun(c: Setup)
    ensures Feasible(c, Init(c), []) && After(c, Init(c), []) == Init(c)
    ensures Left(c, Init(c)) == RunTotal(c)
  {
    InitLeft(c);
  }

  /** A run that came to rest is complete, and outside receive mode it finished exactly when no
      client was refused. */
  lemma EndOfRun(c: Setup, es: seq<Event>)
    requires Feasible(c, Init(c), es) && AtRest(After(c, Init(c), es))
    ensures Complete(c, es)
    ensures c.mode != Recv ==> (Outcome(c, es).stage == Finished <==> AllGood(es))
    ensures Outcome(c, es).stage == Finished ==> |es| == RunTotal(c)
  {
    Reachable(c, es);
    Progress(c, After(c, Init(c), es));
    InitInv(c);
    InitLeft(c);
    RunLength(c, Init(c), es);
    if c.mode == Single {
      SingleModeTermination(c, es);
    } else if c.mode == Send {
      SendModeTermination(c, es);
    }
  }

  // ----- phases -----

  lemma PathAscends(c: Config, j: nat, k: nat)
    requires j < k < |Path(c)|
    ensures Rank(Path(c)[j]) < Rank(Path(c)[k])
  {
  }

  /** The phases stored along any run ascend strictly in enumeration order; without a warm-up
      two of them never occur; a finished run stored its whole path. */
  lemma PhaseOrder(c: Setup, es: seq<Event>)
    requires Feasible(c, Init(c), es)
    ensures var ph := Outcome(c, es).phases;
            && (forall j, k :: 0 <= j < k < |ph| ==> Rank(ph[j]) < Rank(ph[k]))
            && (c.idle == 0 ==> PubDelay !in ph && Idle !in ph)
            && (Outcome(c, es).stage == Finished ==> ph == Path(c))
    ensures Outcome(c, es).stage == Finished ==>
              Outcome(c, es).phases ==
              match c.mode
              case Single =>
                if c.idle > 0 then [Connect, SubDelay, Subscribe, PubDelay, Idle, PubAfterIdleDelay, Publish]
                else [Connect, SubDelay, Subscribe, PubAfterIdleDelay, Publish]
              case Send =>
                if c.idle > 0 then [Connect, PubDelay, Idle, PubAfterIdleDelay, Publish]
                else [Connect, PubAfterIdleDelay, Publish]
              case Recv => [Connect, SubDelay, Subscribe]
  {
    hide LogOk, SkipsOk, AnswersOk, ProgressOk, After, Feasible;
    var w := Outcome(c, es);
    Reachable(c, es);
    var ph := w.phases;
    assert ph == Path(c)[..|ph|];
    forall j, k | 0 <= j < k < |ph|
      ensures Rank(ph[j]) < Rank(ph[k])
    {
      PathAscends(c, j, k);
    }
    if w.stage == Finished {
      assert Path(c)[|ph| - 1] == Path(c)[|Path(c)| - 1];
      if |ph| < |Path(c)| {
        PathAscends(c, |ph| - 1, |Path(c)| - 1);
      }
    }
  }

  // ----- barriers -----

  /** The connect barrier. Whatever the order of the answers, the continuation passes exactly
      when all N clients have answered with success; so it is the last answer that passes. */
  lemma ConnectBarrier(c: Setup, es: seq<Event>)
    requires Feasible(c, Init(c), es)
    requires forall k :: 0 <= k < |es| ==> es[k].Connack?
    ensures Outcome(c, es).stage != Connecting <==> |es| == c.clients && AllGood(es)
    ensures |es| <= c.clients
  {
    var w := Outcome(c, es);
    Reachable(c, es);
    OnlyConnacks(c, Init(c), es);
    RefusalsStay(c, Init(c), es);
    InitInv(c);
    InitLeft(c);
    RunLength(c, Init(c), es);
    MissingZero(Answered(w.conn), 1);
    if w.stage == Connecting && |es| == c.clients && AllGood(es) {
      forall i | 0 <= i < |w.conn|
        ensures w.conn[i] == Yes
      {
        assert Answered(w.conn)[i] >= 1;
        assert w.conn[i] in w.conn;
      }
      assert AllYes(w.conn);
    }
  }

  lemma {:induction false} OnlyConnacks(c: Setup, v: View, es: seq<Event>)
    requires Feasible(c, v, es)
    requires forall k :: 0 <= k < |es| ==> es[k].Connack?
    requires v.stage in {Connecting, SubDelaying, Syncing}
    ensures After(c, v, es).stage in {Connecting, SubDelaying, Syncing}
    ensures After(c, v, es).stage == SubDelaying && v.stage != SubDelaying ==> c.mode != Send
    ensures After(c, v, es).stage == Syncing && v.stage != Syncing ==> c.mode == Send
    decreases |es|
  {
    if es != [] {
      OnlyConnacks(c, Next(c, v, es[0]), es[1..]);
    }
  }

  /** The subscribe barrier, from the moment the subscriptions go out. */
  lemma SubscribeBarrier(c: Setup, v: View, es: seq<Event>)
    requires Inv(c, v) && v.stage == Subscribing
    requires forall i :: 0 <= i < |v.subs| ==> v.subs[i] == Pending
    requires Feasible(c, v, es)
    requires forall k :: 0 <= k < |es| ==> es[k].Suback?
    ensures After(c, v, es).stage in {Syncing, Looping} <==> |es| == c.clients && AllGood(es)
  {
    var w := After(c, v, es);
    AfterKeeps(c, v, es);
    OnlySubacks(c, v, es);
    RefusalsStay(c, v, es);
    assert Unrefused(v);
    MissingUniform(Answered(v.subs), 1, 0);
    RunLength(c, v, es);
    MissingZero(Answered(w.subs), 1);
    if w.stage == Looping {
      LoopLeftAtStart(c, w);
    }
    if w.stage == Subscribing && |es| == c.clients && AllGood(es) {
      forall i | 0 <= i < |w.subs|
        ensures w.subs[i] == Yes
      {
        assert Answered(w.subs)[i] >= 1;
        assert w.subs[i] in w.subs;
      }
      assert AllYes(w.subs);
    }
  }

  lemma LoopLeftAtStart(c: Setup, v: View)
    requires Inv(c, v) && v.stage == Looping && c.mode == Recv
    requires forall i :: 0 <= i < |v.logs| ==> v.logs[i] == ClientLog([], [], [], [])
    ensures Left(c, v) == LoopTotal(c)
  {
    FreshLoopLeft(c, v);
  }

  lemma {:induction false} OnlySubacks(c: Setup, v: View, es: seq<Event>)
    requires Inv(c, v) && Feasible(c, v, es)
    requires forall k :: 0 <= k < |es| ==> es[k].Suback?
    requires v.stage in {Subscribing, Syncing, Looping, Stopped}
    requires v.stage == Looping ==> c.mode == Recv
    requires forall i :: 0 <= i < |v.logs| ==> v.logs[i] == ClientLog([], [], [], [])
    requires v.stage == Stopped ==> !Unrefused(v)
    ensures var w := After(c, v, es);
            && w.stage in {Subscribing, Syncing, Looping, Stopped}
            && (w.stage == Looping ==> c.mode == Recv)
            && (w.stage == Stopped ==> !Unrefused(w))
            && w.logs == v.logs
    decreases |es|
  {
    if es != [] {
      var w := Next(c, v, es[0]);
      NextKeeps(c, v, es[0]);
      if w.stage == Stopped {
        MarkRefusal(v.subs, es[0].i, No);
      }
      OnlySubacks(c, w, es[1..]);
    }
  }

  // ----- the hand-over from warm-up to measurement -----

  /** Between warm-up and measurement the system is quiet: every client has done exactly its
      idle messages, nothing is in flight, and only the delay timer can fire. */
  lemma PauseIsQuiet(c: Setup, v: View)
    requires Inv(c, v) && v.stage == Looping && Current(v) == PubAfterIdleDelay
    ensures forall i :: 0 <= i < |v.logs| ==>
              && |v.logs[i].sentAt| == c.idle
              && (c.mode == Single ==> |v.logs[i].recvAt| == c.idle)
              && !TimerDue(c, v, i)
    ensures forall e :: Enabled(c, v, e) ==> e.DelayOver?
  {
    forall i | 0 <= i < |v.logs|
      ensures |v.logs[i].sentAt| == c.idle
      ensures c.mode == Single ==> |v.logs[i].recvAt| == c.idle
    {
      assert DoneCounts(c, v.logs)[i] == c.idle;
    }
  }

  /** The pause is entered by the last idle message to be done, in its own step: a reception in
      single mode, a sending in send mode. */
  lemma HandOver(c: Setup, v: View, e: Event)
    requires Inv(c, v) && Enabled(c, v, e)
    requires v.stage == Looping && Current(v) == Idle
    ensures Current(Next(c, v, e)) != Idle <==>
              (if c.mode == Single then e.Received? else e.IntervalOver?)
              && forall j :: 0 <= j < c.clients ==>
                   DoneCounts(c, v.logs)[j] + (if j == e.i then 1 else 0) >= c.idle
    ensures Current(Next(c, v, e)) in {Idle, PubAfterIdleDelay}
  {
    hide SentOk, ReceivedOk, SkipsOk, AnswersOk, Missing, Sum;
    if e.IntervalOver? {
      SentDone(c, v, e.i, e.now, e.wall);
    } else {
      assert e.Received?;
      assert !Warm(c, v);
      ReceivedDone(c, v, e.i, e.now, []);
    }
  }

  lemma SentDone(c: Setup, v: View, i: nat, now: int, wall: nat)
    requires |v.logs| == c.clients && i < c.clients
    ensures AllReached(DoneCounts(c, NoteSent(c, v, i, now, wall).logs), c.idle) <==>
              forall j :: 0 <= j < c.clients ==>
                DoneCounts(c, v.logs)[j] + (if j == i && c.mode == Send then 1 else 0) >= c.idle
  {
    var w := NoteSent(c, v, i, now, wall);
    CountsAfter(c, v, w, i);
    assert forall j :: 0 <= j < c.clients ==>
      DoneCounts(c, w.logs)[j] == DoneCounts(c, v.logs)[j] + (if j == i && c.mode == Send then 1 else 0);
  }

  lemma ReceivedDone(c: Setup, v: View, i: nat, now: int, sample: seq<nat>)
    requires |v.logs| == c.clients && i < c.clients
    ensures AllReached(DoneCounts(c, NoteReceived(v, i, now, sample).logs), c.idle) <==>
              forall j :: 0 <= j < c.clients ==>
                DoneCounts(c, v.logs)[j] + (if j == i && c.mode != Send then 1 else 0) >= c.idle
  {
    var w := NoteReceived(v, i, now, sample);
    CountsAfter(c, v, w, i);
    assert forall j :: 0 <= j < c.clients ==>
      DoneCounts(c, w.logs)[j] == DoneCounts(c, v.logs)[j] + (if j == i && c.mode != Send then 1 else 0);
  }

  /** When the delay is over every client's timer is armed, exactly once, at its own offset from
      that moment, and still nothing is in flight. */
  lemma MeasurementStart(c: Setup, v: View, now: int)
    requires Inv(c, v) && Enabled(c, v, DelayOver(now))
    ensures var w := Next(c, v, DelayOver(now));
            forall i :: 0 <= i < c.clients ==>
              && !TimerDue(c, v, i)
              && TimerDue(c, w, i)
              && Deadline(c, w, i) == now + AllInterval(c.pubIntervalMs, c.clients) * i
              && (c.mode == Single ==> |w.logs[i].sentAt| == |w.logs[i].recvAt|)
  {
    var w := Next(c, v, DelayOver(now));
    forall i | 0 <= i < c.clients
      ensures |v.logs[i].sentAt| == c.idle
      ensures c.mode == Single ==> |v.logs[i].recvAt| == c.idle
      ensures PubInterval(c.pubIntervalMs) * 0 == 0
    {
      assert LogOk(c, v, i);
      assert DoneCounts(c, v.logs)[i] == c.idle;
    }
  }

  // ----- what the samples and the comparison mean -----

  /** Each sample is the round trip of one message: received when it was, minus its own sending,
      in whole microseconds and never negative; and sample j belongs to measured message j.
      (The sample type wraps only for round trips of more than half a million years.) */
  lemma SamplesAreRoundTrips(c: Setup, v: View, i: nat, j: nat)
    requires c.mode == Single && Inv(c, v) && i < c.clients && j < |v.logs[i].rtt|
    ensures var l := v.logs[i];
            && c.idle + j < |l.recvAt| <= |l.sentAt|
            && l.sentAt[c.idle + j] <= l.recvAt[c.idle + j]
            && l.rtt[j] == (l.recvAt[c.idle + j] - l.sentAt[c.idle + j]) / 1000 % U64
  {
    var l := v.logs[i];
    assert LogOk(c, v, i);
    assert ReceivedOk(c, l);
    assert l.sentAt[c.idle + j] <= l.recvAt[c.idle + j];
  }

  lemma Room(c: Setup, i: nat, n: nat, wall: nat)
    requires c.mode != Recv && i < c.clients && n <= c.Times() && wall < I64_LIMIT
    ensures SendPayload(c.mode, Template(c.payloadSize), c.Index(i), n, wall).Some?
    ensures SendPayload(Single, Template(c.payloadSize), c.Index(i), n, wall).Some?
  {
    FewClients(c);
    MaxIndexIsLargest(c);
    PadMonotone(FIELD, c.Index(i), c.MaxIndex());
    PadMonotone(FIELD, n, c.Times());
    Width32(wall);
  }

  predicate PayloadFits(c: Config, i: nat, n: nat, wall: nat)
    requires c.payloadSize > MIN_PAYLOAD
  {
    SendPayload(c.mode, Template(c.payloadSize), c.Index(i), n, wall).Some?
  }

  /** What is asked of the options is exactly what the counters and the payloads of all clients need. */
  lemma RoomIsExact(c: Config)
    requires c.mode != Recv && c.clients > 0 && c.wanted > 0 && c.payloadSize > MIN_PAYLOAD
    requires c.startIndex < U64
    ensures Acceptable(c) <==>
              c.Publishes(c.clients) < U64
              && forall i: nat, n: nat, wall: nat ::
                   i < c.clients && n <= c.Times() && wall < I64_LIMIT ==> PayloadFits(c, i, n, wall)
  {
    if Acceptable(c) {
      forall i: nat, n: nat, wall: nat | i < c.clients && n <= c.Times() && wall < I64_LIMIT
        ensures PayloadFits(c, i, n, wall)
      {
        Room(c, i, n, wall);
      }
    } else if c.Publishes(c.clients) < U64 {
      Width32(0);
      FewClients(c);
      MaxIndexIsLargest(c);
      var i: nat :| i < c.clients && c.Index(i) == c.MaxIndex();
      assert !PayloadFits(c, i, c.Times(), 0);
    }
  }

  /** Comparing payloads and topics never misreports: what a client can receive next, in any run,
      is what that client expects. */
  lemma EchoMatches(c: Setup, v: View, i: nat, p: Message, now: int)
    requires c.mode == Single && Inv(c, v) && Enabled(c, v, Received(i, p, now))
    ensures p.topic == Topic(c, i)
    ensures Some(p.payload)
         == RecvPayload(Template(c.payloadSize), c.Index(i), c.Times() - |v.logs[i].recvAt|)
  {
    assert LogOk(c, v, i);
    Room(c, i, c.Times() - |v.logs[i].recvAt|, 0);
  }

  /** What an armed timer's deadline is: the client's offset from the start of its phase, and then
      one interval for each publish of that phase already made. */
  lemma DeadlineMeans(c: Setup, v: View, i: nat)
    requires c.mode != Recv && Inv(c, v) && i < c.clients && TimerDue(c, v, i)
    ensures var base, k := if Current(v) == Idle then v.idleBase else v.measureBase,
                           |v.logs[i].sentAt| - (if Current(v) == Idle then 0 else c.idle);
            k >= 0
            && Deadline(c, v, i)
               == base + AllInterval(c.pubIntervalMs, c.clients) * i + 1_000_000 * c.pubIntervalMs * k
  {
    assert LogOk(c, v, i);
    if Current(v) == Publish {
      assert DoneCounts(c, v.logs)[i] >= c.idle;
    }
  }

  /** When the delay before publishing is over every client's timer is armed at its own offset from
      that moment. */
  lemma LoopStart(c: Setup, v: View, now: int)
    requires Inv(c, v) && Enabled(c, v, PubDelayOver(now))
    ensures var w := Next(c, v, PubDelayOver(now));
            forall i :: 0 <= i < c.clients ==>
              && TimerDue(c, w, i)
              && Deadline(c, w, i) == now + AllInterval(c.pubIntervalMs, c.clients) * i
  {
    assert PubInterval(c.pubIntervalMs) * 0 == 0;
  }

  /** No publish leaves before its slot, and slots do not drift with late handlers. */
  lemma SlotsAreRespected(c: Setup, es: seq<Event>, i: nat, k: nat)
    requires c.mode != Recv && Feasible(c, Init(c), es) && i < c.clients
    requires k < |Outcome(c, es).logs[i].sentAt|
    ensures var w := Outcome(c, es);
            var a, p := AllInterval(c.pubIntervalMs, c.clients), 1_000_000 * c.pubIntervalMs;
            w.logs[i].sentAt[k] >=
            if k < c.idle then w.idleBase + a * i + p * k
            else w.measureBase + a * i + p * (k - c.idle)
  {
    Reachable(c, es);
    assert LogOk(c, Outcome(c, es), i);
  }
}
