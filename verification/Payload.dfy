/** Publish payloads: a letter template whose head is overwritten with the client index, the
    remaining count and, in send mode, a time stamp. */
module Payload {
  import opened Wrappers
  import opened Settings
  import opened Decimal

  const MIN_PAYLOAD: nat := 15
  const TS_SIZE: nat := 32
  const FIELD: nat := 8

  /** Closed form of the template: room for two fields, then the letters A to Y over and over. */
  function Template(size: nat): (t: string)
    requires size > MIN_PAYLOAD
  {
    seq(size, k requires 0 <= k < size =>
      if k <= MIN_PAYLOAD then '\0' else 'A' + ((k - MIN_PAYLOAD - 1) % 25) as char)
  }

  lemma TemplateMeans(size: nat)
    requires size > MIN_PAYLOAD
    ensures |Template(size)| == size
    ensures forall k :: 0 <= k < size ==>
              Template(size)[k] == if k <= MIN_PAYLOAD then '\0' else 'A' + ((k - MIN_PAYLOAD - 1) % 25) as char
  {
  }

  lemma NextLetter(n: nat)
    ensures (n + 1) % 25 == if n % 25 == 24 then 0 else n % 25 + 1
  {
  }

  method BuildTemplate(size: nat) returns (payload: array<char>)
    requires size > MIN_PAYLOAD
    ensures fresh(payload)
    ensures payload[..] == Template(size)
  {
    hide Template;
    TemplateMeans(size);
    payload := new char[size](_ => '\0');
    var it := MIN_PAYLOAD + 1;
    var c := 'A';
    while it != size
      invariant MIN_PAYLOAD < it <= size
      invariant c == 'A' + ((it - MIN_PAYLOAD - 1) % 25) as char
      invariant forall k :: 0 <= k < it ==> payload[k] == Template(size)[k]
      invariant forall k :: it <= k < size ==> payload[k] == '\0'
    {
      payload[it] := c;
      NextLetter(it - MIN_PAYLOAD - 1);
      c := c + 1 as char;
      it := it + 1;
      if c == 'Z' {
        c := 'A';
      }
    }
  }

  /** The template spelled out: sixteen zero characters, then letters that go on from A to Y and
      begin again. */
  lemma TemplateSpelledOut(size: nat)
    requires size >= 16
    ensures |Template(size)| == size
    ensures forall k :: 0 <= k < 16 ==> Template(size)[k] == '\0'
    ensures size > 16 ==> Template(size)[16] == 'A'
    ensures forall k :: 17 <= k < size ==>
              Template(size)[k] == if Template(size)[k - 1] == 'Y' then 'A' else Template(size)[k - 1] + 1 as char
  {
    forall k | 17 <= k < size
      ensures Template(size)[k] == if Template(size)[k - 1] == 'Y' then 'A' else Template(size)[k - 1] + 1 as char
    {
      assert (k - 16) % 25 == if (k - 17) % 25 == 24 then 0 else (k - 17) % 25 + 1;
    }
  }

  /** Copying `variable` over the head of `template`. None stands for a copy that would run
      past the end, which the program does not guard against. */
  function Overlay(template: string, variable: string): Option<string> {
    if |variable| > |template| then None else Some(variable + template[|variable|..])
  }

  function IndexStr(index: nat): string {
    Pad(FIELD, index)
  }

  /** The head of a payload sent when `count` publishes are left, at wall-clock time `wall`. */
  function SendVariable(mode: Mode, index: nat, count: nat, wall: nat): string {
    match mode
    case Single => IndexStr(index) + Pad(FIELD, count)
    case Send => IndexStr(index) + Pad(FIELD, count) + Pad(TS_SIZE, wall)
    case Recv => ""
  }

  function SendPayload(mode: Mode, template: string, index: nat, count: nat, wall: nat): Option<string> {
    Overlay(template, SendVariable(mode, index, count, wall))
  }

  function RecvPayload(template: string, index: nat, count: nat): Option<string> {
    Overlay(template, IndexStr(index) + Pad(FIELD, count))
  }

  /** How a receiving process reads a time stamp. None stands for the exceptions thrown when the
      payload is shorter than the two fields, or when the field is not a 64-bit number. */
  function DecodeStamp(payload: string): Option<nat> {
    if |payload| < 2 * FIELD then None
    else
      var end := if |payload| < 2 * FIELD + TS_SIZE then |payload| else 2 * FIELD + TS_SIZE;
      Parse(payload[2 * FIELD..end], I64_LIMIT)
  }

  lemma FieldWidth(n: nat)
    ensures |Pad(FIELD, n)| >= FIELD
    ensures |Pad(FIELD, n)| == FIELD <==> n < 1_0000_0000
  {
    PadLength(FIELD, n);
    assert Pow10(8) == 1_0000_0000;
  }

  /** Payloads keep the configured size. They can be built for every count up to `times`, at
      every time, exactly when the fields fit for `times` itself. */
  lemma FitsForEveryCount(mode: Mode, template: string, index: nat, times: nat)
    requires mode != Recv
    ensures (forall n: nat, wall: nat :: n <= times && wall < I64_LIMIT ==>
               SendPayload(mode, template, index, n, wall).Some?)
       <==> HeadSize(mode, index, times) <= |template|
    ensures forall n: nat, wall: nat ::
              SendPayload(mode, template, index, n, wall).Some? ==>
                |SendPayload(mode, template, index, n, wall).value| == |template|
  {
    forall n: nat, wall: nat | n <= times && wall < I64_LIMIT
      ensures |SendVariable(mode, index, n, wall)| <= HeadSize(mode, index, times)
    {
      PadMonotone(FIELD, n, times);
      Width32(wall);
    }
    Width32(0);
    assert SendPayload(mode, template, index, times, 0).Some? <==> HeadSize(mode, index, times) <= |template|;
  }

  /** The room the fields of one client take at most. */
  function HeadSize(mode: Mode, index: nat, times: nat): nat {
    |IndexStr(index)| + |Pad(FIELD, times)| + (if mode == Send then TS_SIZE else 0)
  }

  /** In send mode a payload shorter than two counts and a stamp can never be built, although
      `main` accepts every size above MIN_PAYLOAD. */
  lemma ShortSendPayloads(template: string, index: nat, count: nat, wall: nat)
    requires |template| < 2 * FIELD + TS_SIZE && wall < I64_LIMIT
    ensures SendPayload(Send, template, index, count, wall) == None
  {
    FieldWidth(index);
    FieldWidth(count);
    Width32(wall);
  }

  /** The built part of a payload is followed by a template letter, never by a digit. */
  lemma HeadEndsAtLetter(size: nat, v: string)
    requires size > MIN_PAYLOAD && MIN_PAYLOAD < |v| < size
    ensures !IsDigit(Overlay(Template(size), v).value[|v|])
  {
    assert Overlay(Template(size), v).value[|v|] == Template(size)[|v|];
  }

  lemma SameVariable(size: nat, v: string, v': string)
    requires size > MIN_PAYLOAD
    requires AllDigits(v) && AllDigits(v') && MIN_PAYLOAD < |v| <= |v'| <= size
    requires Overlay(Template(size), v) == Overlay(Template(size), v')
    ensures v == v'
  {
    var p := Overlay(Template(size), v).value;
    assert p[..|v|] == v && p[..|v'|] == v';
    assert forall k :: 0 <= k < |v'| ==> IsDigit(p[k]);
    if |v| < size {
      HeadEndsAtLetter(size, v);
    }
  }

  /** Equal heads with indexes of different widths: the shorter index fills its field, the longer
      one continues it with a nonzero digit, and the count next to the shorter one is too wide. */
  lemma HeadsClash(i: nat, m: nat, j: nat, n: nat)
    requires IndexStr(i) + Pad(FIELD, m) == IndexStr(j) + Pad(FIELD, n)
    requires |IndexStr(i)| < |IndexStr(j)|
    ensures i >= 1000_0000 && j > 10 * i && m >= 1_0000_0000
  {
    var x, y := IndexStr(i), IndexStr(j);
    var rest := y[|x|..];
    assert y == x + rest by {
      assert (x + Pad(FIELD, m))[..|x|] == x && (y + Pad(FIELD, n))[..|y|] == y;
    }
    assert Pad(FIELD, m) == rest + Pad(FIELD, n) by {
      assert (x + Pad(FIELD, m))[|x|..] == Pad(FIELD, m);
      assert (y + Pad(FIELD, n))[|x|..] == rest + Pad(FIELD, n);
    }
    FieldWidth(i);
    FieldWidth(j);
    FieldWidth(m);
    FieldWidth(n);
    FullFields();
    PadLeading(FIELD, i);
    PadLeading(FIELD, j);
    PadLeading(FIELD, m);
    assert x[0] == y[0] && rest[0] == Pad(FIELD, m)[0];
    ValuePositive(rest);
    ValueConcat(x, rest);
    ValueOfPad(FIELD, i);
    ValueOfPad(FIELD, j);
    ShiftGrows(i, |rest|, Value(rest));
  }

  lemma ShiftGrows(i: nat, k: nat, v: nat)
    requires k >= 1 && v >= 1
    ensures i * Pow10(k) + v > 10 * i
  {
    Pow10Grows(1, k);
    assert Pow10(1) == 10;
    assert i * 10 <= i * Pow10(k);
  }

  lemma FullFields()
    ensures Pow10(FIELD - 1) == 1000_0000 && Pow10(FIELD) == 1_0000_0000
  {
    FiveDigits(2);
    assert Pow10(2) == 100;
  }

  lemma SameHeads(i: nat, m: nat, j: nat, n: nat)
    requires IndexStr(i) + Pad(FIELD, m) == IndexStr(j) + Pad(FIELD, n)
    requires |IndexStr(i)| == |IndexStr(j)|
    ensures i == j && m == n
  {
    var v, v' := IndexStr(i) + Pad(FIELD, m), IndexStr(j) + Pad(FIELD, n);
    assert v[..|IndexStr(i)|] == IndexStr(i) && v'[..|IndexStr(j)|] == IndexStr(j);
    assert v[|IndexStr(i)|..] == Pad(FIELD, m) && v'[|IndexStr(j)|..] == Pad(FIELD, n);
    PadInjective(FIELD, i, j);
    PadInjective(FIELD, m, n);
  }

  /** Equal payloads have equal heads. */
  lemma SamePayloads(size: nat, i: nat, m: nat, j: nat, n: nat, wall: nat)
    requires size > MIN_PAYLOAD
    requires SendPayload(Single, Template(size), i, m, wall).Some?
    requires SendPayload(Single, Template(size), i, m, wall) == SendPayload(Single, Template(size), j, n, wall)
    ensures IndexStr(i) + Pad(FIELD, m) == IndexStr(j) + Pad(FIELD, n)
  {
    var v, v' := IndexStr(i) + Pad(FIELD, m), IndexStr(j) + Pad(FIELD, n);
    FieldWidth(i);
    FieldWidth(j);
    FieldWidth(m);
    FieldWidth(n);
    if |v| <= |v'| {
      SameVariable(size, v, v');
    } else {
      SameVariable(size, v', v);
    }
  }

  /** Two publishes of clients with indexes from `lo` up to `hi` share a payload only if they are
      the same client's publish with the same count. */
  ghost predicate PayloadsDiffer(size: nat, lo: nat, hi: nat, times: nat)
    requires size > MIN_PAYLOAD
  {
    forall i: nat, m: nat, j: nat, n: nat, wall: nat ::
      lo <= i < hi && lo <= j < hi && m <= times && n <= times
      && SendPayload(Single, Template(size), i, m, wall) == SendPayload(Single, Template(size), j, n, wall)
      ==> i == j && m == n
  }

  function AtLeastFull(lo: nat): nat {
    if lo < 1000_0000 then 1000_0000 else lo
  }

  /** Payloads of different publishes differ exactly when counts keep to eight digits, or no client
      has the index of another with one more nonzero digit behind its full field. */
  lemma DistinctPayloads(size: nat, lo: nat, hi: nat, times: nat)
    requires size > MIN_PAYLOAD && lo < hi && HeadSize(Single, hi - 1, times) <= size
    ensures PayloadsDiffer(size, lo, hi, times) <==> times < 1_0000_0000 || hi <= 10 * AtLeastFull(lo) + 1
  {
    if times < 1_0000_0000 || hi <= 10 * AtLeastFull(lo) + 1 {
      forall i: nat, m: nat, j: nat, n: nat, wall: nat
        | lo <= i < hi && lo <= j < hi && m <= times && n <= times
          && SendPayload(Single, Template(size), i, m, wall) == SendPayload(Single, Template(size), j, n, wall)
        ensures i == j && m == n
      {
        Fits(size, hi, times, i, m, wall);
        SamePayloads(size, i, m, j, n, wall);
        if |IndexStr(i)| < |IndexStr(j)| {
          HeadsClash(i, m, j, n);
        } else if |IndexStr(j)| < |IndexStr(i)| {
          HeadsClash(j, n, i, m);
        }
        SameHeads(i, m, j, n);
      }
    } else {
      var x := AtLeastFull(lo);
      WideIndexesCollide(Template(size), x, 1, 0, 0);
      assert SendPayload(Single, Template(size), 10 * x + 1, 0, 0)
          == SendPayload(Single, Template(size), x, 1_0000_0000, 0);
    }
  }

  lemma Fits(size: nat, hi: nat, times: nat, i: nat, m: nat, wall: nat)
    requires size > MIN_PAYLOAD && i < hi && m <= times && HeadSize(Single, hi - 1, times) <= size
    ensures SendPayload(Single, Template(size), i, m, wall).Some?
  {
    PadMonotone(FIELD, i, hi - 1);
    PadMonotone(FIELD, m, times);
  }

  /** How that fails: a client whose index has a ninth or later, nonzero digit e shares payloads,
      one of them with a nine-digit count, with the client whose index lacks that digit. */
  lemma WideIndexesCollide(template: string, x: nat, e: nat, n: nat, wall: nat)
    requires x >= 1000_0000 && 1 <= e < 10 && n < 1_0000_0000
    ensures SendPayload(Single, template, 10 * x + e, n, wall)
         == SendPayload(Single, template, x, e * 1_0000_0000 + n, wall)
  {
    FieldWidth(n);
    FullFields();
    DigitsLength(x, 7);
    AppendDigit(x, e);
    LeadingDigit(e, FIELD, n, e * 1_0000_0000 + n);
    assert Digits(x) + [DigitChar(e)] + Pad(FIELD, n) == Digits(x) + ([DigitChar(e)] + Pad(FIELD, n));
  }

  /** What stands where in a payload with fields of eight digits: the index, the count and, in send
      mode, the time; then the template. */
  lemma FieldsParse(mode: Mode, size: nat, index: nat, count: nat, wall: nat)
    requires mode != Recv && size > MIN_PAYLOAD
    requires index < 1_0000_0000 && count < 1_0000_0000 && wall < I64_LIMIT
    requires SendPayload(mode, Template(size), index, count, wall).Some?
    ensures var p := SendPayload(mode, Template(size), index, count, wall).value;
            var end := if mode == Send then 48 else 16;
            && end <= |p| == size
            && Parse(p[..8], U64) == Some(index)
            && Parse(p[8..16], U64) == Some(count)
            && (mode == Send ==> Parse(p[16..48], U64) == Some(wall) && DecodeStamp(p) == Some(wall))
            && p[end..] == Template(size)[end..]
  {
    FieldWidth(index);
    FieldWidth(count);
    Width32(wall);
    ParsePad(FIELD, index, U64);
    ParsePad(FIELD, count, U64);
    ParsePad(TS_SIZE, wall, U64);
    ParsePad(TS_SIZE, wall, I64_LIMIT);
    var p := SendPayload(mode, Template(size), index, count, wall).value;
    assert p[..8] == Pad(FIELD, index);
    assert p[8..16] == Pad(FIELD, count);
    if mode == Send {
      assert p[16..48] == Pad(TS_SIZE, wall);
    }
  }

  /** What a receiver takes for the time: the digits behind the first sixteen characters, at most
      thirty-two of them, if they are digits and below 2^63. */
  lemma WindowDecodes(head: string, stamp: string, tail: string)
    requires |head| == 16 && |stamp| <= 32 && (tail != [] ==> |stamp| == 32)
    ensures DecodeStamp(head + stamp + tail)
         == if stamp != [] && AllDigits(stamp) && Value(stamp) < 0x8000_0000_0000_0000 then Some(Value(stamp)) else None
  {
    var p := head + stamp + tail;
    assert p[16..16 + |stamp|] == stamp;
  }

  lemma TooShortToDecode(p: string)
    requires |p| < 16
    ensures DecodeStamp(p) == None
  {
  }

  /** What a receiver decodes from a send-mode payload is the written time stamp, for every
      64-bit time, exactly when index and count both keep their eight digits. */
  lemma StampDecodes(template: string, index: nat, count: nat)
    requires |IndexStr(index)| + |Pad(FIELD, count)| + TS_SIZE <= |template|
    ensures (forall wall: nat :: wall < I64_LIMIT ==> Delivered(template, index, count, wall) == Some(wall))
       <==> index < 1_0000_0000 && count < 1_0000_0000
  {
    FieldWidth(index);
    FieldWidth(count);
    if index < 1_0000_0000 && count < 1_0000_0000 {
      forall wall: nat | wall < I64_LIMIT
        ensures Delivered(template, index, count, wall) == Some(wall)
      {
        Width32(wall);
        var p := SendPayload(Send, template, index, count, wall).value;
        assert p[2 * FIELD..2 * FIELD + TS_SIZE] == Pad(TS_SIZE, wall);
        ParsePad(TS_SIZE, wall, I64_LIMIT);
      }
    } else {
      ShiftedStampIsBlind(template, index, count);
    }
  }

  /** The time stamp a receiver reads off the payload sent with the given fields. */
  function Delivered(template: string, index: nat, count: nat, wall: nat): Option<nat> {
    match SendPayload(Send, template, index, count, wall)
    case None => None
    case Some(p) => DecodeStamp(p)
  }

  /** Once a field overflows, the receiver's window no longer covers the last digit of the
      stamp: it cannot tell time 0 from time 1. */
  lemma ShiftedStampIsBlind(template: string, index: nat, count: nat)
    requires |IndexStr(index)| + |Pad(FIELD, count)| + TS_SIZE <= |template|
    requires |IndexStr(index)| + |Pad(FIELD, count)| > 2 * FIELD
    ensures Delivered(template, index, count, 0) == Delivered(template, index, count, 1)
  {
    Width32(0);
    Width32(1);
    var head := IndexStr(index) + Pad(FIELD, count);
    var zeros := seq(TS_SIZE - 1, _ => '0');
    assert Digits(0) == ['0'] && Digits(1) == ['1'];
    assert Pad(TS_SIZE, 0) == zeros + ['0'];
    assert Pad(TS_SIZE, 1) == zeros + ['1'];
    var p := SendPayload(Send, template, index, count, 0).value;
    var q := SendPayload(Send, template, index, count, 1).value;
    assert p[..|head| + TS_SIZE - 1] == head + zeros == q[..|head| + TS_SIZE - 1];
    var end := 2 * FIELD + TS_SIZE;
    assert p[2 * FIELD..end] == p[..|head| + TS_SIZE - 1][2 * FIELD..end];
    assert q[2 * FIELD..end] == q[..|head| + TS_SIZE - 1][2 * FIELD..end];
  }
}
