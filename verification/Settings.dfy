/** The options and enumerations every part of the benchmark shares. */
module Settings {
  import opened Decimal

  datatype Mode = Single | Send | Recv

  datatype Phase = Connect | SubDelay | Subscribe | PubDelay | Idle | PubAfterIdleDelay | Publish

  /** Position of a phase in its enumeration. */
  function Rank(p: Phase): nat {
    match p
    case Connect => 0
    case SubDelay => 1
    case Subscribe => 2
    case PubDelay => 3
    case Idle => 4
    case PubAfterIdleDelay => 5
    case Publish => 6
  }

  /** `wanted` is the number of measured publishes per client the user asks for, `idle` that of
      the unmeasured ones before them. */
  datatype Config = Config(
    mode: Mode,
    clients: nat,
    wanted: nat,
    idle: nat,
    startIndex: nat,
    payloadSize: nat,
    pubIntervalMs: nat,
    cidPrefix: string,
    topicPrefix: string
  ) {
    /** The publishes of one client. */
    function Times(): nat {
      wanted + idle
    }

    /** The publishes of the first n clients together. */
    function Publishes(n: nat): nat {
      if n == 0 then 0 else Publishes(n - 1) + Times()
    }

    /** The publishes of one client as `main` adds them up, in 64 bits. */
    function ComputedTimes(): nat {
      (wanted + idle) % U64
    }

    /** The index of the i-th client, added up in 64 bits. */
    function Index(i: nat): nat {
      (startIndex + i) % U64
    }

    /** The largest of those indexes. */
    function MaxIndex(): nat
      requires clients > 0 && startIndex < U64
    {
      if startIndex + clients <= U64 then startIndex + clients - 1 else U64 - 1
    }

    /** The values the shared counters start with, in 64 bits too. */
    function ComputedRestTimes(): nat {
      ComputedTimes() * clients % U64
    }

    function ComputedRestIdle(): nat {
      idle * clients % U64
    }
  }

  lemma {:induction false} PublishesOfAll(c: Config, n: nat)
    ensures c.Publishes(n) == n * c.Times()
  {
    if n > 0 {
      PublishesOfAll(c, n - 1);
      assert n * c.Times() == (n - 1) * c.Times() + c.Times();
    }
  }

  /** The counters start right exactly when the publishes of all clients are a 64-bit number. */
  lemma CountersStartRight(c: Config)
    requires c.clients > 0
    ensures (&& c.ComputedTimes() == c.Times()
             && c.ComputedRestTimes() == c.clients * c.Times()
             && c.ComputedRestIdle() == c.clients * c.idle)
       <==> c.Publishes(c.clients) < U64
  {
    PublishesOfAll(c, c.clients);
    assert c.clients * c.idle <= c.clients * c.Times();
    assert c.Times() <= c.clients * c.Times();
    assert c.Times() * c.clients == c.clients * c.Times();
  }

  /** Among options of 64 bits, the sum leaves more publishes than the warm-up takes exactly when
      it fits; otherwise it leaves fewer. */
  lemma TimesCoverWarmup(c: Config)
    requires 0 < c.wanted < U64 && c.idle < U64
    ensures c.ComputedTimes() > c.idle <==> c.wanted + c.idle < U64
    ensures c.ComputedTimes() < c.idle <==> c.wanted + c.idle >= U64
  {
    if c.wanted + c.idle >= U64 {
      assert c.ComputedTimes() == c.wanted + c.idle - U64;
    }
  }

  /** Indexes count up from the first one, and begin again at zero where 64 bits end. */
  lemma IndexesCountUp(c: Config, i: nat)
    requires c.startIndex < U64
    ensures c.Index(0) == c.startIndex
    ensures c.Index(i + 1) == if c.Index(i) + 1 == 0x1_0000_0000_0000_0000 then 0 else c.Index(i) + 1
  {
  }

  /** Indexes may wrap round, but no two clients share one. */
  lemma IndexesDiffer(c: Config, i: nat, j: nat)
    requires i < c.clients <= U64 && j < c.clients
    ensures c.Index(i) == c.Index(j) <==> i == j
  {
  }

  lemma {:induction false} EachPublishes(c: Config, n: nat)
    requires c.wanted > 0
    ensures n <= c.Publishes(n)
  {
    if n > 0 {
      EachPublishes(c, n - 1);
    }
  }

  /** Counters that hold all publishes can number all clients. */
  lemma FewClients(c: Config)
    requires c.wanted > 0 && c.Publishes(c.clients) < U64
    ensures c.clients <= U64
  {
    EachPublishes(c, c.clients);
  }

  lemma MaxIndexIsLargest(c: Config)
    requires 0 < c.clients <= U64 && c.startIndex < U64
    ensures forall i :: 0 <= i < c.clients ==> c.Index(i) <= c.MaxIndex()
    ensures exists i :: 0 <= i < c.clients && c.Index(i) == c.MaxIndex()
  {
    var i: nat := if c.startIndex + c.clients <= U64 then c.clients - 1 else U64 - 1 - c.startIndex;
    assert c.Index(i) == c.MaxIndex();
  }
}
