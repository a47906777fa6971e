/** The publish rate line: publishes per second, with thousands separators. */
module Rate {
  import opened Wrappers
  import opened Decimal
  import opened Schedule

  /** The rate computed from the options. None stands for a division by zero. */
  function PublishesPerSecond(pubIntervalMs: nat, clients: nat): Option<nat> {
    if clients == 0 || AllInterval(pubIntervalMs, clients) == 0 then None
    else Some(1000 * 1000 * 1000 / AllInterval(pubIntervalMs, clients))
  }

  /** The rate can be computed exactly when there is a client, and no more of them than
      nanoseconds are left of the publish interval in 64 bits. */
  lemma RateDefined(pubIntervalMs: nat, clients: nat)
    ensures PublishesPerSecond(pubIntervalMs, clients).Some? <==> 0 < clients <= PubInterval(pubIntervalMs) % U64
  {
    ComputedWraps(pubIntervalMs);
    if clients > 0 {
      PositiveShare(PubInterval(pubIntervalMs) % U64, clients);
    }
  }

  /** The rate is how many staggers fit into a second. */
  lemma RateMeans(pubIntervalMs: nat, clients: nat)
    requires PublishesPerSecond(pubIntervalMs, clients).Some?
    ensures var r, a := PublishesPerSecond(pubIntervalMs, clients).value, AllInterval(pubIntervalMs, clients);
            r * a <= 1_000_000_000 < (r + 1) * a
  {
    Share(1_000_000_000, AllInterval(pubIntervalMs, clients));
  }

  /** Some long intervals leave nothing: multiples of 2^58 milliseconds divide by zero. */
  lemma LongIntervalsWrap(k: nat, clients: nat)
    ensures PublishesPerSecond(k * 0x400_0000_0000_0000, clients) == None
  {
    var ms := k * 0x400_0000_0000_0000;
    RateDefined(ms, clients);
    assert PubInterval(ms) % U64 == 0 by {
      assert PubInterval(ms) == (15625 * k) * U64;
      NothingLeft(15625 * k);
    }
  }

  lemma NothingLeft(q: nat)
    ensures q * U64 % U64 == 0
  {
  }

  lemma PositiveShare(p: nat, n: nat)
    requires n > 0
    ensures p / n > 0 <==> n <= p
  {
  }

  /** Digits grouped by threes from the right: the reference for the left-to-right loop. */
  function Grouped(s: string): string {
    if |s| <= 3 then s else Grouped(s[..|s| - 3]) + "," + s[|s| - 3..]
  }

  function WithoutCommas(s: string): string {
    if s == [] then []
    else WithoutCommas(s[..|s| - 1]) + (if s[|s| - 1] == ',' then [] else [s[|s| - 1]])
  }

  lemma {:induction false} EraseConcat(s: string, t: string)
    ensures WithoutCommas(s + t) == WithoutCommas(s) + WithoutCommas(t)
  {
    if t == [] {
      assert s + t == s;
    } else {
      EraseConcat(s, t[..|t| - 1]);
      assert (s + t)[..|s + t| - 1] == s + t[..|t| - 1];
    }
  }

  lemma {:induction false} EraseDigits(s: string)
    requires AllDigits(s)
    ensures WithoutCommas(s) == s
  {
    if s != [] {
      EraseDigits(s[..|s| - 1]);
    }
  }

  lemma {:induction false} GroupedErased(s: string)
    requires AllDigits(s)
    ensures WithoutCommas(Grouped(s)) == s
  {
    if |s| <= 3 {
      EraseDigits(s);
    } else {
      var front, last := s[..|s| - 3], s[|s| - 3..];
      GroupedErased(front);
      EraseConcat(Grouped(front) + ",", last);
      EraseConcat(Grouped(front), ",");
      EraseDigits(last);
      assert Grouped(front) + "," + last == Grouped(s);
    }
  }

  /** Grouping only adds commas, one for every full group of three to the right. */
  lemma {:induction false} GroupedMeaning(s: string)
    requires s != [] && AllDigits(s)
    ensures WithoutCommas(Grouped(s)) == s
    ensures |Grouped(s)| == |s| + (|s| - 1) / 3
  {
    GroupedErased(s);
    if |s| > 3 {
      GroupedMeaning(s[..|s| - 3]);
    }
  }

  /** Commas stand exactly where a positive multiple of three digits follows, that is at every
      fourth character counted from the right. */
  predicate CommasInPlace(t: string) {
    forall k :: 0 <= k < |t| ==> (t[k] == ',' <==> (|t| - k) % 4 == 0)
  }

  lemma {:induction false} CommaPositions(s: string)
    requires s != [] && AllDigits(s)
    ensures CommasInPlace(Grouped(s)) && IsDigit(Grouped(s)[0])
  {
    if |s| > 3 {
      var front, last := s[..|s| - 3], s[|s| - 3..];
      CommaPositions(front);
      var g, t := Grouped(front), Grouped(s);
      assert t == g + "," + last;
      forall k | 0 <= k < |t|
        ensures t[k] == ',' <==> (|t| - k) % 4 == 0
      {
        if k < |g| {
          assert t[k] == g[k] && (|t| - k) % 4 == (|g| - k) % 4;
        } else if k > |g| {
          assert t[k] == last[k - |g| - 1];
        }
      }
    }
  }

  /** What the loop has written after k of the n digits. */
  function Written(s: string, k: nat): string
    requires k <= |s|
  {
    if k == 0 then []
    else if k < |s| && (|s| - k) % 3 == 0 then Written(s, k - 1) + [s[k - 1]] + ","
    else Written(s, k - 1) + [s[k - 1]]
  }

  lemma {:induction false} WrittenPrefix(s: string, t: string, k: nat)
    requires k <= |s| && |t| == 3
    ensures Written(s + t, k) == Written(s, k) + (if k == |s| && k > 0 then "," else "")
  {
    if k > 0 {
      WrittenPrefix(s, t, k - 1);
      assert (s + t)[k - 1] == s[k - 1];
      assert (|s + t| - k) % 3 == (|s| - k) % 3;
    }
  }

  /** Among the last three digits no comma is written. */
  lemma {:induction false} PlainTail(s: string, b: nat, k: nat)
    requires b <= k <= |s| <= b + 3
    ensures Written(s, k) == Written(s, b) + s[b..k]
  {
    if b < k {
      PlainTail(s, b, k - 1);
      var w, t := Written(s, b), s[b..k - 1];
      assert s[b..k] == t + [s[k - 1]];
      assert (w + t) + [s[k - 1]] == w + (t + [s[k - 1]]);
    }
  }

  lemma {:induction false} WrittenIsGrouped(s: string)
    ensures Written(s, |s|) == Grouped(s)
  {
    if |s| <= 3 {
      PlainTail(s, 0, |s|);
    } else {
      var front, last := s[..|s| - 3], s[|s| - 3..];
      assert s == front + last;
      WrittenIsGrouped(front);
      WrittenPrefix(front, last, |front|);
      PlainTail(s, |s| - 3, |s|);
    }
  }

  /** The counter and the budget call for a comma exactly where a full group follows. */
  lemma CommaStep(n: nat, k: nat, i: nat, numOfComma: nat)
    requires k < n && i == 3 - (n - 1) % 3 + k && numOfComma == (n - 1 - k) / 3
    ensures i % 3 == 0 && numOfComma != 0 <==> k + 1 < n && (n - (k + 1)) % 3 == 0
    ensures numOfComma - (if i % 3 == 0 && numOfComma != 0 then 1 else 0)
         == if k + 1 < n then (n - 1 - (k + 1)) / 3 else 0
  {
  }

  /** The loop's own way of placing commas: a counter started so that it is divisible by three
      before each full group, and a budget of commas. */
  method InsertCommas(digits: string) returns (result: string)
    requires digits != [] && AllDigits(digits)
    ensures result == Grouped(digits)
    ensures WithoutCommas(result) == digits && |result| == |digits| + (|digits| - 1) / 3
    ensures CommasInPlace(result)
  {
    hide Grouped, WithoutCommas, CommasInPlace;
    var numOfComma := (|digits| - 1) / 3;
    var i := 3 - (|digits| - 1) % 3;
    result := [];
    var k := 0;
    while k < |digits|
      invariant 0 <= k <= |digits|
      invariant i == 3 - (|digits| - 1) % 3 + k
      invariant numOfComma == if k < |digits| then (|digits| - 1 - k) / 3 else 0
      invariant result == Written(digits, k)
    {
      CommaStep(|digits|, k, i, numOfComma);
      result := result + [digits[k]];
      if i % 3 == 0 && numOfComma != 0 {
        result := result + ",";
        numOfComma := numOfComma - 1;
      }
      i := i + 1;
      k := k + 1;
    }
    assert numOfComma == 0;
    WrittenIsGrouped(digits);
    GroupedMeaning(digits);
    CommaPositions(digits);
  }
}
