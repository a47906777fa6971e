/** Several nodes publishing together: the armed timers of the programs of all nodes. */
module Cluster {
  import opened Settings
  import opened Counting
  import opened Schedule
  import opened Protocol
  import opened Runs
  import Coupling

  /** The moment from which the deadlines of the current stagger phase count. */
  function StaggerBase(v: View): int {
    if Current(v) == Idle then v.idleBase else v.measureBase
  }

  /** Node j's program armed its timers when its start time and a common delay had passed. */
  predicate OnTime(c: Setup, v: View, base: nat, delay: nat, workers: nat, j: nat) {
    j <= workers
    && StaggerBase(v) == NodeStart(base, AllInterval(c.pubIntervalMs, c.clients), workers, j) + delay
  }

  lemma RoundDeadline(c: Setup, v: View, base: nat, delay: nat, workers: nat, j: nat, i: nat)
    requires Inv(c, v) && i < c.clients && TimerDue(c, v, i) && OnTime(c, v, base, delay, workers, j)
    ensures var k := |v.logs[i].sentAt| - (if Current(v) == Idle then 0 else c.idle);
            k >= 0 && Deadline(c, v, i) == NodeDeadline(base, delay, c.pubIntervalMs, c.clients, workers, j, i, k)
  {
    if Current(v) == Publish {
      Coupling.PublishStarted(c, v, i);
    }
  }

  /** Two nodes' options agree in what the schedule depends on; their clients' indexes differ. */
  predicate SameSchedule(c: Config, c': Config) {
    c'.pubIntervalMs == c.pubIntervalMs && c'.clients == c.clients && c'.idle == c.idle
  }

  /** In one phase, no timer of one node's program ever expires together with another timer of
      that program or with any timer of another node's program, however far each has got. */
  lemma TimersNeverCoincide(c: Setup, c': Setup, base: nat, delay: nat, workers: nat,
                            v: View, j: nat, i: nat, w: View, j': nat, i': nat)
    requires SameSchedule(c, c') && AllInterval(c.pubIntervalMs, c.clients) > 0
    requires workers > 0 ==> WorkerDelay(AllInterval(c.pubIntervalMs, c.clients), workers) >= NS_PER_US
    requires Inv(c, v) && Inv(c', w) && Current(v) == Current(w)
    requires i < c.clients && TimerDue(c, v, i) && OnTime(c, v, base, delay, workers, j)
    requires i' < c'.clients && TimerDue(c', w, i') && OnTime(c', w, base, delay, workers, j')
    ensures Deadline(c, v, i) == Deadline(c', w, i')
       <==> j == j' && i == i' && |v.logs[i].sentAt| == |w.logs[i'].sentAt|
  {
    hide LogOk, PhasesOk, ProgressOk, AnswersOk, SkipsOk;
    hide NodeStart, WorkerDelay, AllInterval, PubInterval, NodeDeadline;
    var skipped := if Current(v) == Idle then 0 else c.idle;
    RoundDeadline(c, v, base, delay, workers, j, i);
    RoundDeadline(c', w, base, delay, workers, j', i');
    if Deadline(c, v, i) == Deadline(c', w, i') {
      DeadlinesDiffer(base, delay, c.pubIntervalMs, c.clients, workers,
                      j, i, |v.logs[i].sentAt| - skipped, j', i', |w.logs[i'].sentAt| - skipped);
    }
  }

  // ----- ideal timers -----

  /** Timers that expire on the dot: a client's at its deadline, the delay timer `pause` after the
      handler that started it. */
  predicate OnTheDot(c: Setup, v: View, e: Event, pause: nat)
    requires Enabled(c, v, e)
  {
    (e.IntervalOver? ==> e.now == Deadline(c, v, e.i)) && (e.DelayOver? ==> e.now == v.clock + pause)
  }

  predicate IdealRun(c: Setup, v: View, es: seq<Event>, pause: nat)
    requires Feasible(c, v, es)
    decreases |es|
  {
    es == [] || (OnTheDot(c, v, es[0], pause) && IdealRun(c, Next(c, v, es[0]), es[1..], pause))
  }

  /** Due time of client i's k-th idle publish. */
  function IdleSlot(c: Setup, v: View, i: nat, k: nat): int {
    Slot(v.idleBase, AllInterval(c.pubIntervalMs, c.clients), PubInterval(c.pubIntervalMs), i, k)
  }

  /** From the first idle publish due to the last one. */
  function Span(c: Setup): int {
    AllInterval(c.pubIntervalMs, c.clients) * (c.clients - 1)
    + if c.idle == 0 then 0 else PubInterval(c.pubIntervalMs) * (c.idle - 1)
  }

  predicate IdleSent(c: Setup, v: View, i: nat, k: nat) {
    i < |v.logs| && k < |v.logs[i].sentAt| && k < c.idle && v.logs[i].sentAt[k] == IdleSlot(c, v, i, k)
  }

  /** The clock shows the start of the warm-up or the due time of an idle publish. */
  ghost predicate ClockIsDue(c: Setup, v: View) {
    v.clock == v.idleBase || exists i, k :: IdleSent(c, v, i, k) && v.clock == IdleSlot(c, v, i, k)
  }

  ghost predicate Punctual(c: Setup, v: View, pause: nat) {
    && (forall i: nat, k: nat :: i < |v.logs| && k < |v.logs[i].sentAt| && k < c.idle ==> IdleSent(c, v, i, k))
    && (v.stage == Looping && Current(v) != Publish ==> ClockIsDue(c, v))
    && (Current(v) == Publish ==> v.measureBase == v.idleBase + Span(c) + pause)
  }

  lemma SlotInSpan(c: Setup, v: View, i: nat, k: nat)
    requires i < c.clients && k < c.idle
    ensures v.idleBase <= IdleSlot(c, v, i, k) <= v.idleBase + Span(c)
    ensures i == c.clients - 1 && k == c.idle - 1 ==> IdleSlot(c, v, i, k) == v.idleBase + Span(c)
  {
    MulMonotone(AllInterval(c.pubIntervalMs, c.clients), i, c.clients - 1);
    MulMonotone(PubInterval(c.pubIntervalMs), k, c.idle - 1);
  }

  /** The pause begins when the last client's last idle publish is due. */
  lemma PauseBegins(c: Setup, v: View, pause: nat)
    requires c.mode == Send && c.idle > 0 && Inv(c, v) && Punctual(c, v, pause)
    requires v.stage == Looping && Current(v) == PubAfterIdleDelay
    ensures v.clock == v.idleBase + Span(c)
  {
    var n := c.clients - 1;
    PauseIsQuiet(c, v);
    assert LogOk(c, v, n) && IdleSent(c, v, n, c.idle - 1);
    SlotInSpan(c, v, n, c.idle - 1);
    if v.clock != v.idleBase {
      var i, k :| IdleSent(c, v, i, k) && v.clock == IdleSlot(c, v, i, k);
      SlotInSpan(c, v, i, k);
    }
  }

  lemma PunctualSending(c: Setup, v: View, i: nat, now: int, wall: nat, pause: nat)
    requires c.mode == Send && c.idle > 0 && Inv(c, v) && Punctual(c, v, pause)
    requires Enabled(c, v, IntervalOver(i, now, wall)) && now == Deadline(c, v, i)
    ensures Punctual(c, Advance(c, NoteSent(c, v, i, now, wall)), pause)
  {
    hide SentPublish, PhasesOk, SkipsOk, AnswersOk, AllReached, DoneCounts;
    var w := Advance(c, NoteSent(c, v, i, now, wall));
    var n := |v.logs[i].sentAt|;
    if Current(v) == Publish {
      Coupling.PublishStarted(c, v, i);
    }
    forall j: nat, k: nat | j < |w.logs| && k < |w.logs[j].sentAt| && k < c.idle
      ensures IdleSent(c, w, j, k)
    {
      assert j != i || k < n ==> IdleSent(c, v, j, k);
    }
    if Current(v) != Publish {
      assert IdleSent(c, w, i, n) && w.clock == IdleSlot(c, w, i, n);
    }
  }

  lemma PunctualStep(c: Setup, v: View, e: Event, pause: nat)
    requires c.mode == Send && c.idle > 0 && Inv(c, v) && Punctual(c, v, pause)
    requires Enabled(c, v, e) && OnTheDot(c, v, e, pause)
    ensures Punctual(c, Next(c, v, e), pause)
  {
    NextKeeps(c, v, e);
    if e.IntervalOver? {
      PunctualSending(c, v, e.i, e.now, e.wall, pause);
    } else if e.DelayOver? {
      PauseBegins(c, v, pause);
      forall i: nat, k: nat | i < |v.logs| && k < |v.logs[i].sentAt| && k < c.idle
        ensures IdleSent(c, Next(c, v, e), i, k)
      {
        assert IdleSent(c, v, i, k);
      }
    }
  }

  lemma {:induction false} PunctualRun(c: Setup, v: View, es: seq<Event>, pause: nat)
    requires c.mode == Send && c.idle > 0 && Inv(c, v) && Punctual(c, v, pause)
    requires Feasible(c, v, es) && IdealRun(c, v, es, pause)
    ensures Punctual(c, After(c, v, es), pause)
    decreases |es|
  {
    hide Next, Enabled, Inv, Punctual, OnTheDot;
    if es != [] {
      NextKeeps(c, v, es[0]);
      PunctualStep(c, v, es[0], pause);
      PunctualRun(c, Next(c, v, es[0]), es[1..], pause);
    }
  }

  lemma MeasurementSpan(c: Setup, es: seq<Event>, pause: nat)
    requires c.mode == Send && c.idle > 0 && Feasible(c, Init(c), es) && IdealRun(c, Init(c), es, pause)
    ensures var v := Outcome(c, es);
            Current(v) == Publish ==> v.measureBase == v.idleBase + Span(c) + pause
  {
    InitInv(c);
    PunctualRun(c, Init(c), es, pause);
  }

  /** With ideal timers the measurement of every node starts the same time after its warm-up: the
      last client's offset, the intervals between its idle publishes, and the pause. */
  lemma MeasurementBase(c: Setup, es: seq<Event>, pause: nat)
    requires c.mode == Send && c.idle > 0 && Feasible(c, Init(c), es) && IdealRun(c, Init(c), es, pause)
    ensures var v := Outcome(c, es);
            Current(v) == Publish ==>
              v.measureBase == v.idleBase + AllInterval(c.pubIntervalMs, c.clients) * (c.clients - 1)
                               + 1_000_000 * c.pubIntervalMs * (c.idle - 1) + pause
  {
    MeasurementSpan(c, es, pause);
  }

  // ----- such runs exist -----

  /** An unrefused sending run with no timer overdue. */
  ghost predicate Ahead(c: Setup, v: View) {
    && c.mode == Send && Inv(c, v) && Unrefused(v) && v.stage != Stopped
    && forall i :: 0 <= i < c.clients && TimerDue(c, v, i) ==> Deadline(c, v, i) >= v.clock
  }

  /** The client among the first n whose timer expires first, if any of them is due. */
  lemma {:induction false} EarliestDue(c: Setup, v: View, n: nat, some: nat) returns (i: nat)
    requires n <= |v.logs| && some < n && TimerDue(c, v, some)
    ensures i < n && TimerDue(c, v, i)
    ensures forall j :: 0 <= j < n && TimerDue(c, v, j) ==> Deadline(c, v, i) <= Deadline(c, v, j)
    decreases n
  {
    hide TimerDue, Deadline;
    var last := n - 1;
    if other :| 0 <= other < last && TimerDue(c, v, other) {
      i := EarliestDue(c, v, last, other);
      if TimerDue(c, v, last) && Deadline(c, v, last) < Deadline(c, v, i) {
        i := last;
      }
    } else {
      i := some;
    }
  }

  lemma AheadAfterSending(c: Setup, v: View, i: nat)
    requires Ahead(c, v) && v.stage == Looping && i < c.clients && TimerDue(c, v, i)
    requires forall j :: 0 <= j < c.clients && TimerDue(c, v, j) ==> Deadline(c, v, i) <= Deadline(c, v, j)
    ensures Enabled(c, v, IntervalOver(i, Deadline(c, v, i), 0))
    ensures Ahead(c, Next(c, v, IntervalOver(i, Deadline(c, v, i), 0)))
  {
    var e := IntervalOver(i, Deadline(c, v, i), 0);
    var sent, w := NoteSent(c, v, i, e.now, e.wall), Next(c, v, e);
    NextKeeps(c, v, e);
    if Current(v) == Publish {
      Coupling.PublishStarted(c, v, i);
    }
    forall j | 0 <= j < c.clients && TimerDue(c, w, j)
      ensures Deadline(c, w, j) >= w.clock
    {
      if j != i {
        assert TimerDue(c, v, j) && Deadline(c, w, j) == Deadline(c, v, j);
      } else {
        Coupling.NextSlot(c, v, i, e.now, e.wall);
        assert Deadline(c, w, i) == Deadline(c, sent, i);
      }
    }
  }

  lemma AheadAfterDelay(c: Setup, v: View, now: int)
    requires Ahead(c, v) && Enabled(c, v, DelayOver(now))
    ensures Ahead(c, Next(c, v, DelayOver(now)))
  {
    NextKeeps(c, v, DelayOver(now));
    MeasurementStart(c, v, now);
    forall i | 0 <= i < c.clients
      ensures AllInterval(c.pubIntervalMs, c.clients) * i >= 0
    {
      MulMonotone(AllInterval(c.pubIntervalMs, c.clients), 0, i);
    }
  }

  lemma AheadInLoop(c: Setup, v: View)
    requires Ahead(c, v) && v.stage == PubDelaying
    ensures Enabled(c, v, PubDelayOver(v.clock)) && Ahead(c, Next(c, v, PubDelayOver(v.clock)))
  {
    NextKeeps(c, v, PubDelayOver(v.clock));
    forall i | 0 <= i < c.clients
      ensures AllInterval(c.pubIntervalMs, c.clients) * i >= 0
      ensures PubInterval(c.pubIntervalMs) * 0 == 0
    {
      MulMonotone(AllInterval(c.pubIntervalMs, c.clients), 0, i);
    }
  }

  lemma IdealStep(c: Setup, v: View, pause: nat) returns (e: Event)
    requires Ahead(c, v) && v.stage != Finished
    ensures Enabled(c, v, e) && OnTheDot(c, v, e, pause) && Ahead(c, Next(c, v, e))
  {
    Progress(c, v);
    if v.stage == Connecting {
      var i :| 0 <= i < |v.conn| && v.conn[i] == Pending;
      e := Connack(i, true);
      NextKeeps(c, v, e);
      StepRefusal(c, v, e);
    } else if v.stage == Syncing {
      e := SyncOver;
      NextKeeps(c, v, e);
    } else if v.stage == PubDelaying {
      e := PubDelayOver(v.clock);
      AheadInLoop(c, v);
    } else if Current(v) == PubAfterIdleDelay {
      e := DelayOver(v.clock + pause);
      AheadAfterDelay(c, v, e.now);
    } else {
      var live := LoopLive(c, v);
      var i := EarliestDue(c, v, c.clients, live.i);
      e := IntervalOver(i, Deadline(c, v, i), 0);
      AheadAfterSending(c, v, i);
    }
  }

  lemma {:induction false} IdealRunFrom(c: Setup, v: View, pause: nat) returns (es: seq<Event>)
    requires Ahead(c, v)
    ensures Feasible(c, v, es) && IdealRun(c, v, es, pause) && After(c, v, es).stage == Finished
    decreases Left(c, v)
  {
    hide Next, Enabled, OnTheDot;
    if v.stage == Finished {
      es := [];
    } else {
      var e := IdealStep(c, v, pause);
      StepLeft(c, v, e);
      var rest := IdealRunFrom(c, Next(c, v, e), pause);
      Prepend(c, v, e, rest);
      es := [e] + rest;
      assert es[1..] == rest;
    }
  }

  /** Whatever the options and the pause, a sending process has a run with ideal timers that
      finishes. */
  lemma IdealRunExists(c: Setup, pause: nat) returns (es: seq<Event>)
    requires c.mode == Send
    ensures Feasible(c, Init(c), es) && IdealRun(c, Init(c), es, pause) && Outcome(c, es).stage == Finished
  {
    InitInv(c);
    es := IdealRunFrom(c, Init(c), pause);
  }

  // ----- nodes with ideal timers -----

  /** Node j's warm-up started when its start time and a common delay had passed. */
  predicate WarmedUpOnTime(c: Setup, v: View, base: nat, delay: nat, workers: nat, j: nat) {
    j <= workers
    && v.idleBase == NodeStart(base, AllInterval(c.pubIntervalMs, c.clients), workers, j) + delay
  }

  /** Sending nodes whose warm-ups started on time stay apart in the warm-up and, with ideal timers,
      in the measurement too: there nothing is assumed about when it started. */
  lemma NodesStayApart(c: Setup, c': Setup, base: nat, delay: nat, pause: nat, workers: nat,
                       es: seq<Event>, j: nat, i: nat, es': seq<Event>, j': nat, i': nat)
    requires c.mode == c'.mode == Send && SameSchedule(c, c') && c.idle > 0
    requires AllInterval(c.pubIntervalMs, c.clients) > 0
    requires workers > 0 ==> WorkerDelay(AllInterval(c.pubIntervalMs, c.clients), workers) >= NS_PER_US
    requires Feasible(c, Init(c), es) && IdealRun(c, Init(c), es, pause)
    requires Feasible(c', Init(c'), es') && IdealRun(c', Init(c'), es', pause)
    requires WarmedUpOnTime(c, Outcome(c, es), base, delay, workers, j)
    requires WarmedUpOnTime(c', Outcome(c', es'), base, delay, workers, j')
    requires Current(Outcome(c, es)) == Current(Outcome(c', es'))
    requires i < c.clients && TimerDue(c, Outcome(c, es), i)
    requires i' < c'.clients && TimerDue(c', Outcome(c', es'), i')
    ensures var v, w := Outcome(c, es), Outcome(c', es');
            Deadline(c, v, i) == Deadline(c', w, i')
            <==> j == j' && i == i' && |v.logs[i].sentAt| == |w.logs[i'].sentAt|
  {
    hide Inv, Next, Enabled, Deadline, NodeStart, AllInterval, PubInterval, WorkerDelay, Feasible, IdealRun, Outcome;
    var v, w := Outcome(c, es), Outcome(c', es');
    OutcomeKeeps(c, es);
    OutcomeKeeps(c', es');
    MeasurementSpan(c, es, pause);
    MeasurementSpan(c', es', pause);
    SpanIsLate(c);
    var shift: nat := if Current(v) == Idle then 0 else Span(c) + pause;
    TimersNeverCoincide(c, c', base, delay + shift, workers, v, j, i, w, j', i');
  }

  lemma SpanIsLate(c: Setup)
    ensures Span(c) >= 0
  {
    hide AllInterval, PubInterval;
    MulMonotone(AllInterval(c.pubIntervalMs, c.clients), 0, c.clients - 1);
    if c.idle > 0 {
      MulMonotone(PubInterval(c.pubIntervalMs), 0, c.idle - 1);
    }
  }
}
