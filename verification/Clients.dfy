/** The records of the clients, which the handlers of the benchmark update in place. */
module Clients {
  import opened Wrappers
  import opened Settings
  import opened Decimal
  import opened Payload
  import opened Protocol
  import opened Coupling
  import opened Targets

  class Client {
    const cidPrefix: string
    const index: nat
    const payloadStr: string
    const target: nat              // the broker this client connects to
    const sent: array<int>         // send times, indexed by the count that is left after sending
    var sendTimes: nat
    var recvTimes: nat
    var sendIdleCount: nat
    var rttUs: seq<nat>
    var awaitingAck: bool          // waits for its CONNACK or SUBACK
    var timArmed: bool             // a wait on the client's timer is pending
    var timExpiry: int
    var recvArmed: bool            // a receive is pending

    ghost function State(): ClientState
      reads this, sent
    {
      ClientState(sendTimes, recvTimes, sendIdleCount, sent[..], rttUs, awaitingAck, timArmed, timExpiry, recvArmed)
    }

    constructor (c: Setup, i: nat, target: nat)
      ensures fresh(sent) && State() == FreshState(c)
      ensures cidPrefix == c.cidPrefix && index == c.Index(i) && this.target == target
      ensures payloadStr == Template(c.payloadSize)
      ensures sendTimes == recvTimes == sent.Length == c.wanted + c.idle && sendIdleCount == c.idle
      ensures rttUs == [] && forall k :: 0 <= k < sent.Length ==> sent[k] == 0
    {
      var payload := BuildTemplate(c.payloadSize);
      cidPrefix, index, payloadStr, this.target := c.cidPrefix, c.Index(i), payload[..], target;
      CountersStartRight(c);
      sent := new int[c.ComputedTimes()](_ => 0);
      sendTimes, recvTimes, sendIdleCount, rttUs := c.ComputedTimes(), c.ComputedTimes(), c.idle, [];
      awaitingAck, timArmed, timExpiry, recvArmed := true, false, 0, false;
    }

    function ClientId(): string {
      cidPrefix + IndexStr(index)
    }

    function PayloadToSend(mode: Mode, wall: nat): Option<string>
      reads this
    {
      SendPayload(mode, payloadStr, index, sendTimes, wall)
    }

    function ExpectedPayload(): Option<string>
      reads this
    {
      RecvPayload(payloadStr, index, recvTimes)
    }
  }

  /** The records stand in the order of their indexes and share no memory. */
  predicate LinedUp(c: Setup, clients: seq<Client>) {
    && |clients| == c.clients
    && (forall i :: 0 <= i < |clients| ==>
          && clients[i].cidPrefix == c.cidPrefix && clients[i].index == c.Index(i)
          && clients[i].payloadStr == Template(c.payloadSize))
    && forall i, j :: 0 <= i < |clients| && 0 <= j < |clients| && clients[i].sent == clients[j].sent ==> i == j
  }

  /** Client identifiers and topics spelled out: the prefix, then the client's index in at least
      eight digits, with no zero too many. */
  lemma IdsAndTopicsSpelledOut(c: Setup, clients: seq<Client>, i: nat)
    requires LinedUp(c, clients) && i < |clients|
    ensures EndsInIndex(clients[i].ClientId(), c.cidPrefix, (c.startIndex + i) % 0x1_0000_0000_0000_0000)
    ensures EndsInIndex(Topic(c, i), c.topicPrefix, (c.startIndex + i) % 0x1_0000_0000_0000_0000)
  {
    var index := c.Index(i);
    FieldWidth(index);
    ParsePad(FIELD, index, U64);
    FullFields();
    PadLeading(FIELD, index);
    assert clients[i].ClientId()[|c.cidPrefix|..] == IndexStr(index);
    assert Topic(c, i)[|c.topicPrefix|..] == IndexStr(index);
  }

  predicate EndsInIndex(name: string, prefix: string, index: nat) {
    && prefix <= name
    && Parse(name[|prefix|..], U64) == Some(index)
    && |name| >= |prefix| + 8
    && (|name| > |prefix| + 8 ==> name[|prefix|] != '0')
  }

  /** No two clients share a client identifier or a topic, however many digits their indexes have. */
  lemma IdsAndTopicsDiffer(c: Setup, clients: seq<Client>, i: nat, j: nat)
    requires LinedUp(c, clients) && i < |clients| && j < |clients|
    ensures clients[i].ClientId() == clients[j].ClientId() <==> i == j
    ensures Topic(c, i) == Topic(c, j) <==> i == j
  {
    FewClients(c);
    IndexesDiffer(c, i, j);
    PadInjective(FIELD, c.Index(i), c.Index(j));
    var x, y := IndexStr(c.Index(i)), IndexStr(c.Index(j));
    SameSuffix(c.cidPrefix, x, y);
    SameSuffix(c.topicPrefix, x, y);
  }

  lemma SameSuffix(prefix: string, x: string, y: string)
    ensures prefix + x == prefix + y <==> x == y
  {
    assert (prefix + x)[|prefix|..] == x && (prefix + y)[|prefix|..] == y;
  }

  /** The memory of the records. */
  ghost function Records(clients: seq<Client>): (r: set<object>)
    ensures forall i :: 0 <= i < |clients| ==> clients[i] in r && clients[i].sent in r
    ensures forall o :: o in r ==> o is Client || o is array<int>
  {
    (set i | 0 <= i < |clients| :: clients[i] as object) + (set i | 0 <= i < |clients| :: clients[i].sent as object)
  }

  /** Creates the clients, each for the next target in turn. */
  method MakeClients(c: Setup, targets: nat, targetIndex: nat) returns (clients: seq<Client>)
    requires targetIndex < targets
    ensures LinedUp(c, clients)
    ensures forall i :: 0 <= i < |clients| ==>
              && fresh(clients[i]) && fresh(clients[i].sent)
              && clients[i].State() == FreshState(c)
    ensures forall i :: 0 <= i < |clients| ==> clients[i].target == (targetIndex + i) % targets
    ensures Balanced(TargetsOf(clients), targets)
  {
    clients := [];
    var hpsIndex := targetIndex;
    var i := 0;
    while i != c.clients
      invariant 0 <= i <= c.clients && |clients| == i
      invariant hpsIndex == Turn(targetIndex, i, targets)
      invariant forall j :: 0 <= j < i ==>
                  && fresh(clients[j]) && fresh(clients[j].sent)
                  && clients[j].State() == FreshState(c)
                  && clients[j].cidPrefix == c.cidPrefix && clients[j].index == c.Index(j)
                  && clients[j].payloadStr == Template(c.payloadSize)
                  && clients[j].target == Turn(targetIndex, j, targets)
      invariant forall j, k :: 0 <= j < i && 0 <= k < i && clients[j].sent == clients[k].sent ==> j == k
    {
      var client := new Client(c, i, hpsIndex);
      clients := clients + [client];
      NextTurn(targetIndex, i, targets);
      hpsIndex := hpsIndex + 1;
      if hpsIndex == targets {
        hpsIndex := 0;
      }
      i := i + 1;
    }
    TurnsBalance(TargetsOf(clients), targetIndex, targets);
  }

  function TargetsOf(clients: seq<Client>): seq<nat> {
    seq(|clients|, i requires 0 <= i < |clients| => clients[i].target)
  }
}
