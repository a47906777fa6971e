/** What a benchmark run means, told without any of the program's counters: which answers have
    arrived, when each client sent and received each of its messages, and which phases were
    entered. The class in Bench.dfy is proved to follow this machine step by step. */
module Protocol {
  import opened Wrappers
  import opened Settings
  import opened Decimal
  import opened Counting
  import opened Payload
  import opened Schedule

  /** The options `main` lets through, with counters that hold the publishes of all clients and
      room for the two or three fields in the payload. */
  type Setup = c: Config | Acceptable(c)
    witness Config(Single, 1, 1, 0, 0, 1024, 10, "", "")

  predicate Acceptable(c: Config) {
    && c.clients > 0
    && c.wanted > 0
    && c.payloadSize > MIN_PAYLOAD
    && c.startIndex < U64
    && c.Publishes(c.clients) < U64
    && (c.mode != Recv ==>
          HeadSize(c.mode, c.MaxIndex(), c.Times()) <= c.payloadSize)
  }

  datatype Answer = Pending | Yes | No

  datatype Grant = Granted | Rejected | Unrelated

  datatype Message = Message(topic: string, payload: string)

  /** Where the one continuation that passed the last barrier is suspended. */
  datatype Stage =
    | Connecting | SubDelaying | Subscribing | Syncing | PubDelaying | Looping
    | Finished | Stopped

  /** One client's history: when each message was sent and what it said, when each was received,
      and the samples that went into the report. */
  datatype ClientLog = ClientLog(sentAt: seq<int>, pubs: seq<Message>, recvAt: seq<int>, rtt: seq<nat>)

  datatype View = View(
    stage: Stage,
    phases: seq<Phase>,
    conn: seq<Answer>,
    subs: seq<Answer>,
    logs: seq<ClientLog>,
    idleBase: int,
    measureBase: int,
    clock: int
  )

  /** The handler invocations. `now` is the clock reading the handler makes, `wall` the
      wall-clock reading that goes into a payload. */
  datatype Event =
    | Connack(i: nat, ok: bool)
    | SubDelayOver
    | Suback(i: nat, grant: Grant)
    | SyncOver
    | PubDelayOver(now: int)
    | IntervalOver(i: nat, now: int, wall: nat)
    | Received(i: nat, p: Message, now: int)
    | DelayOver(now: int)

  // ----- reading a view -----

  predicate AllYes(answers: seq<Answer>) {
    forall i :: 0 <= i < |answers| ==> answers[i] == Yes
  }

  function Current(v: View): Phase {
    if v.phases == [] then Connect else v.phases[|v.phases| - 1]
  }

  function SentCounts(logs: seq<ClientLog>): seq<nat> {
    seq(|logs|, i requires 0 <= i < |logs| => |logs[i].sentAt|)
  }

  function RecvCounts(logs: seq<ClientLog>): seq<nat> {
    seq(|logs|, i requires 0 <= i < |logs| => |logs[i].recvAt|)
  }

  /** What a mode counts as done: the publishes sent when only sending, those received otherwise. */
  function DoneCounts(c: Config, logs: seq<ClientLog>): seq<nat> {
    if c.mode == Send then SentCounts(logs) else RecvCounts(logs)
  }

  /** Received messages that gave no sample. */
  function SkipCounts(logs: seq<ClientLog>): seq<nat> {
    seq(|logs|, i requires 0 <= i < |logs| => Monus(|logs[i].recvAt|, |logs[i].rtt|))
  }

  /** The warm-up is over. A receiving process only sees the messages of all clients together. */
  predicate Warm(c: Config, v: View) {
    if c.mode == Recv then Sum(RecvCounts(v.logs)) >= c.clients * c.idle
    else AllReached(DoneCounts(c, v.logs), c.idle)
  }

  /** Due time of client i's k-th publish; the measured ones count from the second stagger. */
  function SlotOf(c: Setup, idleBase: int, measureBase: int, i: nat, k: nat): int {
    var a, p := AllInterval(c.pubIntervalMs, c.clients), PubInterval(c.pubIntervalMs);
    if k < c.idle then Slot(idleBase, a, p, i, k) else Slot(measureBase, a, p, i, k - c.idle)
  }

  predicate TimerDue(c: Config, v: View, i: nat)
    requires i < |v.logs|
  {
    v.stage == Looping && c.mode != Recv
    && (if Current(v) == Idle then |v.logs[i].sentAt| < c.idle
        else Current(v) == Publish && |v.logs[i].sentAt| < c.Times())
  }

  function Deadline(c: Setup, v: View, i: nat): int
    requires i < |v.logs|
  {
    SlotOf(c, v.idleBase, v.measureBase, i, |v.logs[i].sentAt|)
  }

  predicate RecvDue(c: Config, v: View, i: nat)
    requires i < |v.logs|
  {
    v.stage == Looping && c.mode != Send && |v.logs[i].recvAt| < c.Times()
  }

  predicate DelayDue(v: View) {
    v.stage == SubDelaying || v.stage == PubDelaying
    || (v.stage == Looping && Current(v) == PubAfterIdleDelay)
  }

  function Topic(c: Config, i: nat): string {
    c.topicPrefix + IndexStr(c.Index(i))
  }

  /** Client i's k-th publish, made at wall-clock time `wall`. */
  function SentPublish(c: Setup, i: nat, k: nat, wall: nat): Message {
    var payload := SendPayload(c.mode, Template(c.payloadSize), c.Index(i), Monus(c.Times(), k), wall);
    Message(Topic(c, i), if payload.Some? then payload.value else "")
  }

  // ----- steps -----

  /** Round trip time in microseconds. */
  function Micros(sent: int, received: int): int {
    TruncDiv(received - sent, 1000)
  }

  /** The conversion of a signed duration to the unsigned sample type. */
  function AsSize(d: int): nat {
    d % U64
  }

  predicate Enabled(c: Setup, v: View, e: Event) {
    match e
    case Connack(i, _) => v.stage == Connecting && i < |v.conn| && v.conn[i] == Pending
    case SubDelayOver => v.stage == SubDelaying
    case Suback(i, _) => v.stage == Subscribing && i < |v.subs| && v.subs[i] == Pending
    case SyncOver => v.stage == Syncing
    case PubDelayOver(now) => v.stage == PubDelaying && now >= v.clock
    case IntervalOver(i, now, wall) =>
      i < |v.logs| && TimerDue(c, v, i) && now >= v.clock && now >= Deadline(c, v, i) && wall < I64_LIMIT
    case Received(i, p, now) =>
      i < |v.logs| && RecvDue(c, v, i)
      && (c.mode == Single ==>
            && now >= v.clock
            && |v.logs[i].recvAt| < |v.logs[i].sentAt| == |v.logs[i].pubs|
            && p == v.logs[i].pubs[|v.logs[i].recvAt|])
    case DelayOver(now) => v.stage == Looping && Current(v) == PubAfterIdleDelay && now >= v.clock
  }

  function Store(v: View, p: Phase): View {
    v.(phases := v.phases + [p])
  }

  function AfterConnack(c: Config, v: View, i: nat, ok: bool): View
    requires i < |v.conn|
  {
    var v1 := v.(conn := v.conn[i := if ok then Yes else No]);
    if !AllYes(v1.conn) then v1
    else if c.mode == Send then v1.(stage := Syncing)
    else Store(v1, SubDelay).(stage := SubDelaying)
  }

  function AfterSuback(c: Config, v: View, i: nat, grant: Grant): View
    requires i < |v.subs|
  {
    var v1 := v.(subs := v.subs[i := if grant == Granted then Yes else No]);
    if grant == Rejected then v1.(stage := Stopped)
    else if !AllYes(v1.subs) then v1
    else if c.mode == Recv then v1.(stage := Looping)
    else v1.(stage := Syncing)
  }

  function AfterSync(c: Config, v: View): View {
    Store(v, if c.idle == 0 then PubAfterIdleDelay else PubDelay).(stage := PubDelaying)
  }

  function AfterPubDelay(c: Config, v: View, now: int): View {
    var v1 := v.(stage := Looping, clock := now);
    if c.idle == 0 then Store(v1, Publish).(measureBase := now) else Store(v1, Idle).(idleBase := now)
  }

  /** The consequences of a finished message: the warm-up ends when every client has done its
      idle messages, the run when every client has done them all. */
  function Advance(c: Config, v: View): View {
    if Current(v) == Idle && AllReached(DoneCounts(c, v.logs), c.idle) then Store(v, PubAfterIdleDelay)
    else if AllReached(DoneCounts(c, v.logs), c.Times()) then v.(stage := Finished)
    else v
  }

  function NoteSent(c: Setup, v: View, i: nat, now: int, wall: nat): View
    requires i < |v.logs|
  {
    var l := v.logs[i];
    var pub := SentPublish(c, i, |l.sentAt|, wall);
    v.(logs := v.logs[i := l.(sentAt := l.sentAt + [now], pubs := l.pubs + [pub])], clock := now)
  }

  function NoteReceived(v: View, i: nat, now: int, sample: seq<nat>): View
    requires i < |v.logs|
  {
    var l := v.logs[i];
    v.(logs := v.logs[i := l.(recvAt := l.recvAt + [now], rtt := l.rtt + sample)], clock := now)
  }

  /** The duration measured for a message: against its own sending in single mode, against its
      time stamp in receive mode. */
  function Measured(c: Config, l: ClientLog, p: Message, now: int): Option<int>
    requires c.mode != Recv ==> |l.recvAt| < |l.sentAt|
  {
    if c.mode != Recv then Some(Micros(l.sentAt[|l.recvAt|], now))
    else match DecodeStamp(p.payload)
      case None => None
      case Some(ts) => Some(Micros(ts, now))
  }

  function AfterReceived(c: Config, v: View, i: nat, p: Message, now: int): View
    requires i < |v.logs|
    requires c.mode != Recv ==> |v.logs[i].recvAt| < |v.logs[i].sentAt|
  {
    if !Warm(c, v) then Advance(c, NoteReceived(v, i, now, []))
    else match Measured(c, v.logs[i], p, now)
      case None => v.(stage := Stopped, clock := now)
      case Some(d) => Advance(c, NoteReceived(v, i, now, [AsSize(d)]))
  }

  function AfterDelay(v: View, now: int): View {
    Store(v, Publish).(measureBase := now, clock := now)
  }

  function Next(c: Setup, v: View, e: Event): View
    requires Enabled(c, v, e)
  {
    match e
    case Connack(i, ok) => AfterConnack(c, v, i, ok)
    case SubDelayOver => Store(v, Subscribe).(stage := Subscribing)
    case Suback(i, grant) => AfterSuback(c, v, i, grant)
    case SyncOver => AfterSync(c, v)
    case PubDelayOver(now) => AfterPubDelay(c, v, now)
    case IntervalOver(i, now, wall) => Advance(c, NoteSent(c, v, i, now, wall))
    case Received(i, p, now) => AfterReceived(c, v, i, p, now)
    case DelayOver(now) => AfterDelay(v, now)
  }

  function Init(c: Setup): View {
    View(Connecting, [Connect],
         seq(c.clients, _ => Pending), seq(c.clients, _ => Pending),
         seq(c.clients, _ => ClientLog([], [], [], [])), 0, 0, 0)
  }

  // ----- what every reachable view satisfies -----

  /** The phases a complete run stores, in order. */
  function Path(c: Config): seq<Phase> {
    match c.mode
    case Single =>
      if c.idle == 0 then [Connect, SubDelay, Subscribe, PubAfterIdleDelay, Publish]
      else [Connect, SubDelay, Subscribe, PubDelay, Idle, PubAfterIdleDelay, Publish]
    case Send =>
      if c.idle == 0 then [Connect, PubAfterIdleDelay, Publish]
      else [Connect, PubDelay, Idle, PubAfterIdleDelay, Publish]
    case Recv => [Connect, SubDelay, Subscribe]
  }

  predicate PhaseFits(c: Config, stage: Stage, p: Phase) {
    match stage
    case Connecting => p == Connect
    case SubDelaying => c.mode != Send && p == SubDelay
    case Subscribing => c.mode != Send && p == Subscribe
    case Syncing => c.mode != Recv && p == (if c.mode == Send then Connect else Subscribe)
    case PubDelaying => c.mode != Recv && p == (if c.idle == 0 then PubAfterIdleDelay else PubDelay)
    case Looping =>
      if c.mode == Recv then p == Subscribe
      else p == Publish || (c.idle > 0 && (p == Idle || p == PubAfterIdleDelay))
    case Finished => p == (if c.mode == Recv then Subscribe else Publish)
    case Stopped => true
  }

  predicate PhasesOk(c: Config, v: View) {
    && 0 < |v.phases|
    && v.phases <= Path(c)
    && PhaseFits(c, v.stage, Current(v))
  }

  predicate AnswersOk(c: Config, v: View) {
    && |v.conn| == |v.subs| == c.clients
    && (v.stage == Connecting ==> !AllYes(v.conn))
    && (v.stage == Subscribing ==> !AllYes(v.subs))
    && (v.stage in {Connecting, SubDelaying} || c.mode == Send ==>
          forall i :: 0 <= i < |v.subs| ==> v.subs[i] == Pending)
    && (v.stage !in {Connecting, Stopped} ==> AllYes(v.conn))
    && (v.stage !in {Connecting, SubDelaying, Subscribing, Stopped} && c.mode != Send ==> AllYes(v.subs))
  }

  predicate Started(stage: Stage) {
    stage == Looping || stage == Finished || stage == Stopped
  }

  predicate LogOk(c: Setup, v: View, i: nat)
    requires i < |v.logs|
  {
    var l := v.logs[i];
    match c.mode
    case Single => SentOk(c, v, i) && PubsOk(c, v, i) && ReceivedOk(c, l)
    case Send => SentOk(c, v, i) && PubsOk(c, v, i) && l.recvAt == [] && l.rtt == []
    case Recv => l.sentAt == [] && l.pubs == [] && |l.recvAt| <= c.Times() && |l.rtt| <= |l.recvAt|
  }

  /** No publish leaves before its slot, however late the handlers before it ran. */
  predicate SentOk(c: Setup, v: View, i: nat)
    requires i < |v.logs|
  {
    var l := v.logs[i];
    && |l.sentAt| <= c.Times()
    && forall k :: 0 <= k < |l.sentAt| ==>
         SlotOf(c, v.idleBase, v.measureBase, i, k) <= l.sentAt[k] <= v.clock
  }

  /** Every message sent is the publish of its number, made at some time. */
  predicate PubsOk(c: Setup, v: View, i: nat)
    requires i < |v.logs|
  {
    var l := v.logs[i];
    && |l.pubs| == |l.sentAt|
    && (c.mode == Single ==> forall k :: 0 <= k < |l.pubs| ==> l.pubs[k] == SentPublish(c, i, k, 0))
  }

  /** Messages come back in order; sample j belongs to message idle + j. */
  predicate ReceivedOk(c: Config, l: ClientLog) {
    && |l.recvAt| <= |l.sentAt|
    && (forall k :: 0 <= k < |l.recvAt| ==> l.sentAt[k] <= l.recvAt[k])
    && |l.rtt| == Monus(|l.recvAt|, c.idle)
    && forall j :: 0 <= j < |l.rtt| ==>
         l.rtt[j] == AsSize(Micros(l.sentAt[c.idle + j], l.recvAt[c.idle + j]))
  }

  /** The samples a receiving process drops are the first N * idle messages it sees. */
  predicate SkipsOk(c: Config, v: View) {
    c.mode == Recv ==>
      var seen, warmup := Sum(RecvCounts(v.logs)), c.clients * c.idle;
      Sum(SkipCounts(v.logs)) == if seen < warmup then seen else warmup
  }

  /** How far the clients are in each phase of the loop. */
  predicate ProgressOk(c: Config, v: View) {
    var done := DoneCounts(c, v.logs);
    && (!Started(v.stage) ==> forall i :: 0 <= i < |v.logs| ==> v.logs[i] == ClientLog([], [], [], []))
    && (v.stage == Looping && Current(v) == Idle ==>
          !AllReached(done, c.idle)
          && forall i :: 0 <= i < |v.logs| ==> |v.logs[i].sentAt| <= c.idle)
    && (v.stage == Looping && Current(v) == PubAfterIdleDelay ==>
          forall i :: 0 <= i < |v.logs| ==> |v.logs[i].sentAt| == c.idle == done[i])
    && (v.stage == Looping && Current(v) == Publish ==>
          AllReached(done, c.idle))
    && (v.stage == Looping ==> !AllReached(done, c.Times()))
    && (v.stage == Finished ==> AllReached(done, c.Times()))
  }

  predicate Inv(c: Setup, v: View) {
    && |v.logs| == c.clients
    && AnswersOk(c, v)
    && PhasesOk(c, v)
    && (forall i :: 0 <= i < |v.logs| ==> LogOk(c, v, i))
    && SkipsOk(c, v)
    && ProgressOk(c, v)
  }

  lemma InitInv(c: Setup)
    ensures Inv(c, Init(c))
  {
    var v := Init(c);
    assert v.conn[0] == Pending;
    SumUniform(RecvCounts(v.logs), 0);
    SumUniform(SkipCounts(v.logs), 0);
  }

  lemma ConnackKeeps(c: Setup, v: View, i: nat, ok: bool)
    requires Inv(c, v) && Enabled(c, v, Connack(i, ok))
    ensures Inv(c, AfterConnack(c, v, i, ok))
  {
    var w := AfterConnack(c, v, i, ok);
    assert v.phases == [Connect];
  }

  lemma SubackKeeps(c: Setup, v: View, i: nat, grant: Grant)
    requires Inv(c, v) && Enabled(c, v, Suback(i, grant))
    ensures Inv(c, AfterSuback(c, v, i, grant))
  {
    assert DoneCounts(c, v.logs)[0] == 0;
  }

  /** The position of a phase on the path, read off from the phase itself. */
  function PathIndex(c: Config, p: Phase): nat {
    match p
    case Connect => 0
    case SubDelay => 1
    case Subscribe => 2
    case PubDelay => if c.mode == Send then 1 else 3
    case Idle => if c.mode == Send then 2 else 4
    case PubAfterIdleDelay => (if c.mode == Send then 1 else 3) + (if c.idle > 0 then 2 else 0)
    case Publish => (if c.mode == Send then 2 else 4) + (if c.idle > 0 then 2 else 0)
  }

  lemma PathIsIndexed(c: Config, k: nat)
    requires k < |Path(c)|
    ensures PathIndex(c, Path(c)[k]) == k
  {
  }

  lemma StoreFollowsPath(c: Config, v: View, p: Phase)
    requires PhasesOk(c, v)
    requires PathIndex(c, p) < |Path(c)| && Path(c)[PathIndex(c, p)] == p
    requires PathIndex(c, p) == PathIndex(c, Current(v)) + 1
    ensures Store(v, p).phases <= Path(c)
  {
    PathIsIndexed(c, |v.phases| - 1);
  }

  lemma SubDelayKeeps(c: Setup, v: View)
    requires Inv(c, v) && v.stage == SubDelaying
    ensures Inv(c, Next(c, v, SubDelayOver))
  {
    StoreFollowsPath(c, v, Subscribe);
    assert v.subs[0] == Pending;
  }

  lemma SyncKeeps(c: Setup, v: View)
    requires Inv(c, v) && v.stage == Syncing
    ensures Inv(c, AfterSync(c, v))
  {
    StoreFollowsPath(c, v, if c.idle == 0 then PubAfterIdleDelay else PubDelay);
  }

  lemma PubDelayKeeps(c: Setup, v: View, now: int)
    requires Inv(c, v) && Enabled(c, v, PubDelayOver(now))
    ensures Inv(c, AfterPubDelay(c, v, now))
  {
    StoreFollowsPath(c, v, if c.idle == 0 then Publish else Idle);
    assert DoneCounts(c, v.logs)[0] == 0;
  }

  /** The shape of the counts after one client's log changed. */
  lemma CountsAfter(c: Config, v: View, w: View, i: nat)
    requires i < |v.logs| == |w.logs| && w.logs == v.logs[i := w.logs[i]]
    ensures SentCounts(w.logs) == SentCounts(v.logs)[i := |w.logs[i].sentAt|]
    ensures RecvCounts(w.logs) == RecvCounts(v.logs)[i := |w.logs[i].recvAt|]
    ensures SkipCounts(w.logs) == SkipCounts(v.logs)[i := Monus(|w.logs[i].recvAt|, |w.logs[i].rtt|)]
  {
  }

  /** A log stays in order while only the clock and other clients' logs move on. */
  lemma LogFrame(c: Setup, v: View, w: View, j: nat)
    requires j < |v.logs| == |w.logs| && w.logs[j] == v.logs[j]
    requires w.idleBase == v.idleBase && w.measureBase == v.measureBase
    requires c.mode == Recv || w.clock >= v.clock
    requires LogOk(c, v, j)
    ensures LogOk(c, w, j)
  {
  }

  lemma SentInOrder(c: Setup, v: View, i: nat, now: int, wall: nat)
    requires i < |v.logs| && SentOk(c, v, i) && Enabled(c, v, IntervalOver(i, now, wall))
    ensures SentOk(c, NoteSent(c, v, i, now, wall), i)
  {
    hide SentPublish, SlotOf;
  }

  lemma PublishedInOrder(c: Setup, v: View, i: nat, now: int, wall: nat)
    requires i < |v.logs| && PubsOk(c, v, i)
    ensures PubsOk(c, NoteSent(c, v, i, now, wall), i)
  {
    if c.mode == Single {
      WallUnused(c, i, |v.logs[i].sentAt|, wall);
    }
    hide SentPublish;
  }

  lemma SentLog(c: Setup, v: View, i: nat, now: int, wall: nat)
    requires i < |v.logs| && LogOk(c, v, i) && Enabled(c, v, IntervalOver(i, now, wall))
    ensures LogOk(c, NoteSent(c, v, i, now, wall), i)
  {
    hide SentPublish, SlotOf, AsSize, Micros, SentOk, PubsOk;
    if c.mode != Recv {
      SentInOrder(c, v, i, now, wall);
      PublishedInOrder(c, v, i, now, wall);
    }
  }

  /** A publish in single mode does not depend on the time. */
  lemma WallUnused(c: Setup, i: nat, k: nat, wall: nat)
    requires c.mode == Single
    ensures SentPublish(c, i, k, wall) == SentPublish(c, i, k, 0)
  {
  }

  lemma NoteSentLogs(c: Setup, v: View, i: nat, now: int, wall: nat)
    requires Inv(c, v) && Enabled(c, v, IntervalOver(i, now, wall))
    ensures forall j :: 0 <= j < |v.logs| ==> LogOk(c, NoteSent(c, v, i, now, wall), j)
  {
    SentLog(c, v, i, now, wall);
    forall j | 0 <= j < |v.logs|
      ensures LogOk(c, NoteSent(c, v, i, now, wall), j)
    {
      if j != i {
        LogFrame(c, v, NoteSent(c, v, i, now, wall), j);
      }
    }
  }

  /** Entering the delay or finishing keeps the invariant when everything else already holds. */
  lemma AdvanceKeeps(c: Setup, v: View)
    requires |v.logs| == c.clients
    requires AnswersOk(c, v) && PhasesOk(c, v) && SkipsOk(c, v) && v.stage == Looping
    requires forall i :: 0 <= i < |v.logs| ==> LogOk(c, v, i)
    requires Current(v) == Idle ==> forall i :: 0 <= i < |v.logs| ==> |v.logs[i].sentAt| <= c.idle
    requires Current(v) == Publish ==> AllReached(DoneCounts(c, v.logs), c.idle)
    requires Current(v) != PubAfterIdleDelay
    ensures Inv(c, Advance(c, v))
  {
    var w := Advance(c, v);
    var done := DoneCounts(c, v.logs);
    forall i | 0 <= i < |v.logs|
      ensures LogOk(c, w, i)
      ensures c.mode != Recv ==> done[i] <= |v.logs[i].sentAt|
    {
      LogFrame(c, v, w, i);
    }
    if Current(v) == Idle {
      if AllReached(done, c.idle) {
        StoreFollowsPath(c, v, PubAfterIdleDelay);
        assert done[0] == c.idle < c.Times();
      } else {
        assert !AllReached(done, c.Times());
      }
    }
  }

  lemma IntervalKeeps(c: Setup, v: View, i: nat, now: int, wall: nat)
    requires Inv(c, v) && Enabled(c, v, IntervalOver(i, now, wall))
    ensures Inv(c, Advance(c, NoteSent(c, v, i, now, wall)))
  {
    var w := NoteSent(c, v, i, now, wall);
    NoteSentLogs(c, v, i, now, wall);
    CountsAfter(c, v, w, i);
    assert forall j :: 0 <= j < |v.logs| ==>
      DoneCounts(c, w.logs)[j] >= DoneCounts(c, v.logs)[j];
    AdvanceKeeps(c, w);
  }

  lemma ReceivedLog(c: Setup, v: View, i: nat, p: Message, now: int, sample: seq<nat>)
    requires i < |v.logs| && LogOk(c, v, i) && Enabled(c, v, Received(i, p, now))
    requires c.mode == Single ==> (sample == [] <==> |v.logs[i].recvAt| < c.idle)
    requires sample != [] ==>
               Measured(c, v.logs[i], p, now).Some?
               && sample == [AsSize(Measured(c, v.logs[i], p, now).value)]
    ensures LogOk(c, NoteReceived(v, i, now, sample), i)
  {
  }

  lemma NoteReceivedLogs(c: Setup, v: View, i: nat, p: Message, now: int, sample: seq<nat>)
    requires Inv(c, v) && Enabled(c, v, Received(i, p, now))
    requires if Warm(c, v) then
               Measured(c, v.logs[i], p, now).Some?
               && sample == [AsSize(Measured(c, v.logs[i], p, now).value)]
             else sample == []
    ensures forall j :: 0 <= j < |v.logs| ==> LogOk(c, NoteReceived(v, i, now, sample), j)
  {
    var w := NoteReceived(v, i, now, sample);
    assert LogOk(c, v, i);
    if c.mode == Single {
      assert DoneCounts(c, v.logs)[i] == |v.logs[i].recvAt|;
      assert !Warm(c, v) ==> |v.logs[i].sentAt| <= c.idle;
    }
    ReceivedLog(c, v, i, p, now, sample);
    forall j | 0 <= j < |v.logs|
      ensures LogOk(c, w, j)
    {
      if j != i {
        LogFrame(c, v, w, j);
      }
    }
  }

  lemma NoteReceivedSkips(c: Setup, v: View, i: nat, now: int, sample: seq<nat>)
    requires i < |v.logs| && SkipsOk(c, v) && LogOk(c, v, i)
    requires |sample| == if Warm(c, v) then 1 else 0
    ensures SkipsOk(c, NoteReceived(v, i, now, sample))
  {
    if c.mode == Recv {
      CountsAfter(c, v, NoteReceived(v, i, now, sample), i);
      SumBump(RecvCounts(v.logs), i, 1);
      SumBump(SkipCounts(v.logs), i, 1 - |sample|);
    }
  }

  lemma ReceivedGrows(c: Setup, v: View, i: nat, now: int, sample: seq<nat>, target: nat)
    requires i < |v.logs| && AllReached(DoneCounts(c, v.logs), target)
    ensures AllReached(DoneCounts(c, NoteReceived(v, i, now, sample).logs), target)
  {
    var w := NoteReceived(v, i, now, sample);
    CountsAfter(c, v, w, i);
    assert forall j :: 0 <= j < |v.logs| ==>
      DoneCounts(c, w.logs)[j] >= DoneCounts(c, v.logs)[j] >= target;
  }

  lemma PauseReceivesNothing(c: Setup, v: View, i: nat, p: Message, now: int)
    requires Inv(c, v) && Enabled(c, v, Received(i, p, now))
    ensures Current(v) != PubAfterIdleDelay
  {
    assert c.mode == Single ==> DoneCounts(c, v.logs)[i] == |v.logs[i].recvAt|;
  }

  lemma NoteReceivedKeeps(c: Setup, v: View, i: nat, p: Message, now: int, sample: seq<nat>)
    requires Inv(c, v) && Enabled(c, v, Received(i, p, now))
    requires if Warm(c, v) then
               Measured(c, v.logs[i], p, now).Some?
               && sample == [AsSize(Measured(c, v.logs[i], p, now).value)]
             else sample == []
    ensures Inv(c, Advance(c, NoteReceived(v, i, now, sample)))
  {
    var w := NoteReceived(v, i, now, sample);
    NoteReceivedLogs(c, v, i, p, now, sample);
    NoteReceivedSkips(c, v, i, now, sample);
    if AllReached(DoneCounts(c, v.logs), c.idle) {
      ReceivedGrows(c, v, i, now, sample, c.idle);
    }
    PauseReceivesNothing(c, v, i, p, now);
    AdvanceKeeps(c, w);
  }

  lemma ReceivedKeeps(c: Setup, v: View, i: nat, p: Message, now: int)
    requires Inv(c, v) && Enabled(c, v, Received(i, p, now))
    ensures Inv(c, AfterReceived(c, v, i, p, now))
  {
    if !Warm(c, v) {
      NoteReceivedKeeps(c, v, i, p, now, []);
    } else {
      match Measured(c, v.logs[i], p, now)
      case None => StoppedKeeps(c, v, now);
      case Some(d) => NoteReceivedKeeps(c, v, i, p, now, [AsSize(d)]);
    }
  }

  lemma StoppedKeeps(c: Setup, v: View, now: int)
    requires Inv(c, v) && v.stage == Looping && (c.mode == Recv || now >= v.clock)
    ensures Inv(c, v.(stage := Stopped, clock := now))
  {
    var w := v.(stage := Stopped, clock := now);
    forall j | 0 <= j < |v.logs|
      ensures LogOk(c, w, j)
    {
      LogFrame(c, v, w, j);
    }
  }

  lemma DelayKeeps(c: Setup, v: View, now: int)
    requires Inv(c, v) && Enabled(c, v, DelayOver(now))
    ensures Inv(c, AfterDelay(v, now))
  {
    var w := AfterDelay(v, now);
    StoreFollowsPath(c, v, Publish);
    forall j | 0 <= j < |v.logs|
      ensures LogOk(c, w, j)
    {
      assert LogOk(c, v, j);
    }
  }

  /** Every handler invocation keeps the invariant. */
  lemma NextKeeps(c: Setup, v: View, e: Event)
    requires Inv(c, v) && Enabled(c, v, e)
    ensures Inv(c, Next(c, v, e))
  {
    match e
    case Connack(i, ok) => ConnackKeeps(c, v, i, ok);
    case SubDelayOver => SubDelayKeeps(c, v);
    case Suback(i, grant) => SubackKeeps(c, v, i, grant);
    case SyncOver => SyncKeeps(c, v);
    case PubDelayOver(now) => PubDelayKeeps(c, v, now);
    case IntervalOver(i, now, wall) => IntervalKeeps(c, v, i, now, wall);
    case Received(i, p, now) => ReceivedKeeps(c, v, i, p, now);
    case DelayOver(now) => DelayKeeps(c, v, now);
  }
}
