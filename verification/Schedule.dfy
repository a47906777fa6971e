/** The publish schedule: clients of one node are staggered by an equal share of the publish
    interval, and cooperating nodes by an equal share of that share. All times are nanoseconds. */
module Schedule {
  import opened Wrappers
  import opened Decimal
  import opened Counting

  const NS_PER_US: nat := 1000
  const STAMP_WIDTH: nat := 32

  /** The publish interval the user asks for, which the re-armed timers add to their expiry. */
  function PubInterval(pubIntervalMs: nat): nat {
    pubIntervalMs * 1000 * 1000
  }

  /** The same interval as `main` computes it, in 64 bits without a sign. */
  function ComputedInterval(pubIntervalMs: nat): nat {
    (pubIntervalMs * 1000 % U64) * 1000 % U64
  }

  /** The stagger between neighbouring clients of one node. */
  function AllInterval(pubIntervalMs: nat, clients: nat): nat
    requires clients > 0
  {
    ComputedInterval(pubIntervalMs) / clients
  }

  /** The timers add intervals in signed 64-bit nanoseconds, so the interval has to fit there. */
  predicate TimersInRange(pubIntervalMs: nat) {
    PubInterval(pubIntervalMs) < I64_LIMIT
  }

  lemma ComputedWraps(pubIntervalMs: nat)
    ensures ComputedInterval(pubIntervalMs) == PubInterval(pubIntervalMs) % U64
    ensures ComputedInterval(pubIntervalMs) <= PubInterval(pubIntervalMs)
    ensures TimersInRange(pubIntervalMs) ==> ComputedInterval(pubIntervalMs) == PubInterval(pubIntervalMs)
  {
    var us := pubIntervalMs * 1000;
    assert us == U64 * (us / U64) + us % U64;
    assert PubInterval(pubIntervalMs) == U64 * (1000 * (us / U64)) + us % U64 * 1000;
  }

  /** The stagger is an equal share of the publish interval of 1000000 nanoseconds a millisecond,
      as much of that as is left in 64 bits. */
  lemma StaggerIsShare(pubIntervalMs: nat, clients: nat)
    requires clients > 0
    ensures var a, left := AllInterval(pubIntervalMs, clients), 1_000_000 * pubIntervalMs % 0x1_0000_0000_0000_0000;
            a * clients <= left < (a + 1) * clients
  {
    ComputedWraps(pubIntervalMs);
    Share(ComputedInterval(pubIntervalMs), clients);
  }

  lemma Share(x: nat, n: nat)
    requires n > 0
    ensures x / n * n <= x < (x / n + 1) * n
  {
  }

  lemma IntervalSpelledOut(pubIntervalMs: nat)
    ensures PubInterval(pubIntervalMs) == 1_000_000 * pubIntervalMs
    ensures TimersInRange(pubIntervalMs) <==> 1_000_000 * pubIntervalMs < 0x8000_0000_0000_0000
  {
  }

  /** So client j's offset is j shares of the interval up to j nanoseconds. */
  lemma OffsetIsShare(pubIntervalMs: nat, clients: nat, j: nat)
    requires clients > 0 && TimersInRange(pubIntervalMs)
    ensures var offset := AllInterval(pubIntervalMs, clients) * j;
            offset * clients <= j * (1_000_000 * pubIntervalMs) <= (offset + j) * clients
  {
    hide AllInterval, ComputedInterval;
    StaggerIsShare(pubIntervalMs, clients);
    var a, p := AllInterval(pubIntervalMs, clients), 1_000_000 * pubIntervalMs;
    assert a * clients <= p <= (a + 1) * clients;
    Scaled(a, clients, p, j);
  }

  lemma Scaled(a: nat, n: nat, p: nat, j: nat)
    requires a * n <= p <= (a + 1) * n
    ensures a * j * n <= j * p <= (a * j + j) * n
  {
    MulMonotone(j, a * n, p);
    MulMonotone(j, p, (a + 1) * n);
    assert j * (a * n) == a * j * n;
    assert j * ((a + 1) * n) == (a * j + j) * n;
  }

  /** Deadline of a client's k-th publish when its node armed the timers at time `base`. */
  function Slot(base: int, stagger: nat, interval: nat, client: nat, k: nat): int {
    base + stagger * client + interval * k
  }

  function ToMicros(ns: nat): nat {
    ns / NS_PER_US * NS_PER_US
  }

  function WorkerDelay(stagger: nat, workers: nat): nat {
    stagger / (workers + 1)
  }

  /** The nodes share the stagger equally. */
  lemma NodesShareEqually(stagger: nat, workers: nat)
    ensures var d := WorkerDelay(stagger, workers);
            d * (workers + 1) <= stagger < (d + 1) * (workers + 1)
  {
    Share(stagger, workers + 1);
  }

  /** What the manager writes to its i-th worker: a time computed in 64 bits. */
  function StartMessage(base: nat, stagger: nat, workers: nat, i: nat): string {
    Pad(STAMP_WIDTH, (base + WorkerDelay(stagger, workers) * (i + 1)) % U64)
  }

  /** Division of signed integers, rounding toward zero. */
  function TruncDiv(a: int, b: int): int
    requires b > 0
  {
    if a >= 0 then a / b else -((-a) / b)
  }

  /** An unsigned 64-bit number taken for a signed one. */
  function Signed(ns: nat): int
    requires ns < U64
  {
    if ns < I64_LIMIT then ns else ns - U64
  }

  /** What a worker makes of that message: a signed number of nanoseconds, cut to microseconds. */
  function WorkerStart(message: string): Option<int> {
    match Parse(message, U64)
    case None => None
    case Some(ns) => Some(TruncDiv(Signed(ns), NS_PER_US) * NS_PER_US)
  }

  /** Start time of node j: the manager is node 0 and keeps its own clock's resolution. */
  function NodeStart(base: nat, stagger: nat, workers: nat, j: nat): nat {
    if j == 0 then base else ToMicros(base + WorkerDelay(stagger, workers) * j)
  }

  /** The start message has the length the worker reads, and the worker starts at its node's
      time exactly as long as that time is a signed 64-bit number. */
  lemma StartMessageRoundTrip(base: nat, stagger: nat, workers: nat, i: nat)
    ensures |StartMessage(base, stagger, workers, i)| == STAMP_WIDTH
    ensures WorkerStart(StartMessage(base, stagger, workers, i)) == Some(NodeStart(base, stagger, workers, i + 1))
       <==> base + WorkerDelay(stagger, workers) * (i + 1) < I64_LIMIT
  {
    var ns := base + WorkerDelay(stagger, workers) * (i + 1);
    StampArrives(ns % U64);
    SignShows(ns);
  }

  lemma StampArrives(ns: nat)
    requires ns < U64
    ensures |Pad(STAMP_WIDTH, ns)| == STAMP_WIDTH
    ensures WorkerStart(Pad(STAMP_WIDTH, ns)) == Some(TruncDiv(Signed(ns), NS_PER_US) * NS_PER_US)
  {
    ParsePad(STAMP_WIDTH, ns, U64);
    Width32(ns);
  }

  lemma SignShows(ns: nat)
    ensures TruncDiv(Signed(ns % U64), NS_PER_US) * NS_PER_US == ToMicros(ns) <==> ns < I64_LIMIT
  {
    assert ns >= U64 ==> ns % U64 + U64 <= ns;
    assert ns < U64 ==> ns % U64 == ns;
  }

  /** A time beyond the signed range starts the worker long before its node's time. */
  lemma LateStartsWrap(base: nat, stagger: nat, workers: nat, i: nat)
    requires I64_LIMIT <= base + WorkerDelay(stagger, workers) * (i + 1) < U64
    ensures WorkerStart(StartMessage(base, stagger, workers, i)).Some?
    ensures WorkerStart(StartMessage(base, stagger, workers, i)).value
         == -((0x1_0000_0000_0000_0000 - (base + WorkerDelay(stagger, workers) * (i + 1))) / 1000 * 1000) <= 0
  {
    var ns := base + WorkerDelay(stagger, workers) * (i + 1);
    assert ns % U64 == ns;
    StampArrives(ns);
  }

  /** Worker i, the (i + 1)-th of workers + 1 nodes, starts that many shares of the stagger after
      the manager, up to less than a microsecond and a nanosecond for every node before it, and at
      a whole microsecond. */
  predicate StartsInTurn(base: nat, stagger: nat, workers: nat, i: nat, start: int) {
    var n := workers + 1;
    start % 1000 == 0
    && start * n <= base * n + (i + 1) * stagger < (start + 1000 + i + 1) * n
  }

  lemma NodeStartsInTurn(base: nat, stagger: nat, workers: nat, i: nat)
    requires i < workers
    ensures StartsInTurn(base, stagger, workers, i, NodeStart(base, stagger, workers, i + 1))
  {
    var d, n, j := WorkerDelay(stagger, workers), workers + 1, i + 1;
    var ns, start := base + d * j, NodeStart(base, stagger, workers, j);
    NodesShareEqually(stagger, workers);
    assert start <= ns < start + 1000 && start == ns / 1000 * 1000;
    Turns(base, d, n, j, stagger, start);
  }

  lemma Turns(base: nat, d: nat, n: nat, j: nat, stagger: nat, start: nat)
    requires n > 0 && j > 0 && d * n <= stagger < (d + 1) * n
    requires start <= base + d * j < start + 1000
    ensures start * n <= base * n + j * stagger < (start + 1000 + j) * n
  {
    Scaled(d, n, stagger, j);
    assert (base + d * j) * n == base * n + d * j * n;
    MulMonotone(n, start, base + d * j);
    MulMonotone(n, base + d * j + 1, start + 1000);
    assert n * (base + d * j + 1) == (base + d * j) * n + n;
    assert (d * j + j) * n == d * j * n + j * n;
    assert (start + 1000 + j) * n == (start + 1000) * n + j * n;
  }

  /** The manager's messages: every worker learns its own node's start time. */
  method SendStartTimes(base: nat, stagger: nat, workers: nat) returns (written: seq<string>)
    ensures |written| == workers
    ensures forall i :: 0 <= i < workers ==> written[i] == StartMessage(base, stagger, workers, i)
    ensures base + WorkerDelay(stagger, workers) * workers < I64_LIMIT ==>
              forall i :: 0 <= i < workers ==>
                && |written[i]| == 32
                && WorkerStart(written[i]) == Some(NodeStart(base, stagger, workers, i + 1))
                && StartsInTurn(base, stagger, workers, i, WorkerStart(written[i]).value)
  {
    written := [];
    var workerDelay := WorkerDelay(stagger, workers);
    var i := 0;
    while i != workers
      invariant 0 <= i <= workers && |written| == i
      invariant forall j :: 0 <= j < i ==> written[j] == StartMessage(base, stagger, workers, j)
    {
      var tsVal := (base + workerDelay * (i + 1)) % U64;
      written := written + [Pad(STAMP_WIDTH, tsVal)];
      i := i + 1;
    }
    if base + workerDelay * workers < I64_LIMIT {
      forall j | 0 <= j < workers
        ensures |written[j]| == STAMP_WIDTH
        ensures WorkerStart(written[j]) == Some(NodeStart(base, stagger, workers, j + 1))
        ensures StartsInTurn(base, stagger, workers, j, WorkerStart(written[j]).value)
      {
        NodeStartsInTurn(base, stagger, workers, j);
        MulMonotone(workerDelay, j + 1, workers);
        StartMessageRoundTrip(base, stagger, workers, j);
      }
    }
  }

  lemma NodeStep(base: nat, stagger: nat, workers: nat, j: nat)
    requires WorkerDelay(stagger, workers) >= NS_PER_US
    ensures NodeStart(base, stagger, workers, j) < NodeStart(base, stagger, workers, j + 1)
  {
    var d := WorkerDelay(stagger, workers);
    assert base + d * (j + 1) == (base + d * j) + d;
  }

  lemma {:induction false} NodeOrder(base: nat, stagger: nat, workers: nat, i: nat, j: nat)
    requires WorkerDelay(stagger, workers) >= NS_PER_US
    requires i < j
    ensures NodeStart(base, stagger, workers, i) < NodeStart(base, stagger, workers, j)
  {
    NodeStep(base, stagger, workers, j - 1);
    if i < j - 1 {
      NodeOrder(base, stagger, workers, i, j - 1);
    }
  }

  /** Every node starts within one client stagger of the manager. */
  lemma NodeRange(base: nat, stagger: nat, workers: nat, j: nat)
    requires j <= workers && stagger > 0
    requires j > 0 ==> WorkerDelay(stagger, workers) >= NS_PER_US
    ensures base <= NodeStart(base, stagger, workers, j) < base + stagger
  {
    if j > 0 {
      var d := WorkerDelay(stagger, workers);
      NodeOrder(base, stagger, workers, 0, j);
      assert d * j <= d * workers by {
        MulMonotone(d, j, workers);
      }
      assert d * (workers + 1) <= stagger;
      assert d * (workers + 1) == d * workers + d;
    }
  }

  /** Nodes start one after another for every base time exactly when the share of the stagger
      that separates them survives the worker's truncation to microseconds. */
  lemma NodesStartInOrder(stagger: nat, workers: nat)
    requires workers > 0
    ensures (forall base: nat, j: nat :: j < workers ==>
               NodeStart(base, stagger, workers, j) < NodeStart(base, stagger, workers, j + 1))
       <==> WorkerDelay(stagger, workers) >= NS_PER_US
  {
    if WorkerDelay(stagger, workers) >= NS_PER_US {
      forall base: nat, j: nat | j < workers
        ensures NodeStart(base, stagger, workers, j) < NodeStart(base, stagger, workers, j + 1)
      {
        NodeStep(base, stagger, workers, j);
      }
    } else {
      FirstWorkerTies(stagger, workers);
      assert !(NodeStart(0, stagger, workers, 0) < NodeStart(0, stagger, workers, 0 + 1));
    }
  }

  lemma FirstWorkerTies(stagger: nat, workers: nat)
    requires WorkerDelay(stagger, workers) < NS_PER_US
    ensures NodeStart(0, stagger, workers, 1) == NodeStart(0, stagger, workers, 0) == 0
  {
    assert WorkerDelay(stagger, workers) * 1 == WorkerDelay(stagger, workers);
  }

  /** Deadline of round k of a client of node j, when every node waits `delay` after its start. */
  function NodeDeadline(base: nat, delay: nat, pubIntervalMs: nat, clients: nat, workers: nat,
                    j: nat, client: nat, k: nat): int
    requires clients > 0
  {
    var stagger := AllInterval(pubIntervalMs, clients);
    Slot(NodeStart(base, stagger, workers, j) + delay, stagger, PubInterval(pubIntervalMs), client, k)
  }

  ghost predicate NoTwoPublishesCoincide(pubIntervalMs: nat, clients: nat, workers: nat)
    requires clients > 0
  {
    forall base: nat, delay: nat, j: nat, client: nat, k: nat, j': nat, client': nat, k': nat ::
      j <= workers && j' <= workers && client < clients && client' < clients
      && NodeDeadline(base, delay, pubIntervalMs, clients, workers, j, client, k)
         == NodeDeadline(base, delay, pubIntervalMs, clients, workers, j', client', k')
      ==> j == j' && client == client' && k == k'
  }

  lemma SlotWithinRound(offset: nat, stagger: nat, clients: nat, client: nat, interval: nat)
    requires offset < stagger && client < clients && stagger * clients <= interval
    ensures offset + stagger * client < interval
  {
    MulMonotone(stagger, client + 1, clients);
    assert stagger * (client + 1) == stagger * client + stagger;
  }

  /** The staggers of all clients fit into one publish interval. */
  lemma StaggersFit(pubIntervalMs: nat, clients: nat)
    requires clients > 0
    ensures AllInterval(pubIntervalMs, clients) * clients <= PubInterval(pubIntervalMs)
  {
    ComputedWraps(pubIntervalMs);
  }

  lemma DeadlinesDiffer(base: nat, delay: nat, pubIntervalMs: nat, clients: nat, workers: nat,
                        j: nat, client: nat, k: nat, j': nat, client': nat, k': nat)
    requires clients > 0 && j <= workers && j' <= workers && client < clients && client' < clients
    requires AllInterval(pubIntervalMs, clients) > 0
    requires workers > 0 ==> WorkerDelay(AllInterval(pubIntervalMs, clients), workers) >= NS_PER_US
    requires NodeDeadline(base, delay, pubIntervalMs, clients, workers, j, client, k)
          == NodeDeadline(base, delay, pubIntervalMs, clients, workers, j', client', k')
    ensures j == j' && client == client' && k == k'
  {
    hide PubInterval, AllInterval, NodeStart, WorkerDelay;
    var a, p := AllInterval(pubIntervalMs, clients), PubInterval(pubIntervalMs);
    NodeRange(base, a, workers, j);
    NodeRange(base, a, workers, j');
    var x := NodeStart(base, a, workers, j) - base;
    var y := NodeStart(base, a, workers, j') - base;
    StaggersFit(pubIntervalMs, clients);
    SlotWithinRound(x, a, clients, client, p);
    SlotWithinRound(y, a, clients, client', p);
    SameDigits(p, x + a * client, k, y + a * client', k');
    SameDigits(a, x, client, y, client');
    if j < j' {
      NodeOrder(base, a, workers, j, j');
    } else if j' < j {
      NodeOrder(base, a, workers, j', j);
    }
  }

  /** No two publishes of any client of any node ever share a deadline, whatever the common base
      time and delay, exactly when the stagger is positive and, with workers, each node's share of
      it is at least a microsecond. */
  lemma GlobalSchedule(pubIntervalMs: nat, clients: nat, workers: nat)
    requires clients > 0
    ensures TimersInRange(pubIntervalMs) ==>
              (NoTwoPublishesCoincide(pubIntervalMs, clients, workers)
               <==> AllInterval(pubIntervalMs, clients) > 0
                    && (workers > 0 ==> WorkerDelay(AllInterval(pubIntervalMs, clients), workers) >= NS_PER_US))
  {
    var a, p := AllInterval(pubIntervalMs, clients), PubInterval(pubIntervalMs);
    if !TimersInRange(pubIntervalMs) {
    } else if workers > 0 && WorkerDelay(a, workers) < NS_PER_US {
      FirstWorkerTies(a, workers);
      assert NodeDeadline(0, 0, pubIntervalMs, clients, workers, 0, 0, 0)
          == NodeDeadline(0, 0, pubIntervalMs, clients, workers, 1, 0, 0);
    } else if a == 0 && clients > 1 {
      assert NodeDeadline(0, 0, pubIntervalMs, clients, workers, 0, 0, 0)
          == NodeDeadline(0, 0, pubIntervalMs, clients, workers, 0, 1, 0);
    } else if a == 0 {
      ComputedWraps(pubIntervalMs);
      assert p == 0;
      assert NodeDeadline(0, 0, pubIntervalMs, clients, workers, 0, 0, 0)
          == NodeDeadline(0, 0, pubIntervalMs, clients, workers, 0, 0, 1);
    } else {
      forall base: nat, delay: nat, j: nat, client: nat, k: nat, j': nat, client': nat, k': nat
        | j <= workers && j' <= workers && client < clients && client' < clients
          && NodeDeadline(base, delay, pubIntervalMs, clients, workers, j, client, k)
             == NodeDeadline(base, delay, pubIntervalMs, clients, workers, j', client', k')
        ensures j == j' && client == client' && k == k'
      {
        DeadlinesDiffer(base, delay, pubIntervalMs, clients, workers, j, client, k, j', client', k');
      }
    }
  }
}
