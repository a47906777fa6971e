/** The decimal text the benchmark writes into payloads and onto the manager's socket:
    zero-padded fields of a minimum width, and the conversions that read them back. */
module Decimal {
  import opened Wrappers

  const U64: nat := 0x1_0000_0000_0000_0000
  const I64_LIMIT: nat := 0x8000_0000_0000_0000

  function Pow10(w: nat): (p: nat)
    ensures p >= 1
  {
    if w == 0 then 1 else 10 * Pow10(w - 1)
  }

  function DigitChar(d: nat): char
    requires d < 10
  {
    '0' + d as char
  }

  predicate IsDigit(ch: char) {
    '0' <= ch <= '9'
  }

  predicate AllDigits(s: string) {
    forall i :: 0 <= i < |s| ==> IsDigit(s[i])
  }

  /** The shortest decimal numeral of n. */
  function Digits(n: nat): (s: string)
    ensures |s| >= 1 && AllDigits(s)
  {
    if n < 10 then [DigitChar(n)] else Digits(n / 10) + [DigitChar(n % 10)]
  }

  /** The field format "%0wd": at least w characters, zeros on the left, never cut. */
  function Pad(w: nat, n: nat): (s: string)
    ensures AllDigits(s)
  {
    var d := Digits(n);
    if |d| >= w then d else seq(w - |d|, _ => '0') + d
  }

  /** The number a string of digits denotes. */
  function Value(s: string): nat
    requires AllDigits(s)
  {
    if s == [] then 0
    else 10 * Value(s[..|s| - 1]) + (s[|s| - 1] as int - '0' as int)
  }

  /** Numeric conversion of a whole string: it fails on an empty string, on any character
      that is not a digit, and on a number that does not lie below `limit`. */
  function Parse(s: string, limit: nat): Option<nat> {
    if s == [] || !AllDigits(s) || Value(s) >= limit then None else Some(Value(s))
  }

  lemma {:induction false} ValueOfDigits(n: nat)
    ensures Value(Digits(n)) == n
  {
    if n >= 10 {
      ValueOfDigits(n / 10);
      var s := Digits(n);
      assert s[..|s| - 1] == Digits(n / 10);
    }
  }

  lemma {:induction false} ValueOfZeros(k: nat, s: string)
    requires AllDigits(s)
    ensures AllDigits(seq(k, _ => '0') + s)
    ensures Value(seq(k, _ => '0') + s) == Value(s)
    decreases |s|, k
  {
    var z := seq(k, _ => '0');
    if s != [] {
      ValueOfZeros(k, s[..|s| - 1]);
      assert (z + s)[..|z + s| - 1] == z + s[..|s| - 1];
    } else if k > 0 {
      ValueOfZeros(k - 1, s);
      assert z + s == z;
      assert z[..k - 1] == seq(k - 1, _ => '0') + s;
    } else {
      assert z + s == [];
    }
  }

  /** Reading a padded field back gives the number that was written, at any width. */
  lemma ValueOfPad(w: nat, n: nat)
    ensures Value(Pad(w, n)) == n
  {
    ValueOfDigits(n);
    var d := Digits(n);
    if |d| < w {
      ValueOfZeros(w - |d|, d);
    }
  }

  lemma PadInjective(w: nat, m: nat, n: nat)
    ensures Pad(w, m) == Pad(w, n) <==> m == n
  {
    ValueOfPad(w, m);
    ValueOfPad(w, n);
  }

  lemma {:induction false} DigitsLength(n: nat, w: nat)
    requires w >= 1
    ensures |Digits(n)| <= w <==> n < Pow10(w)
  {
    if w == 1 {
      assert Pow10(1) == 10 * Pow10(0);
    } else if n >= 10 {
      DigitsLength(n / 10, w - 1);
      assert n / 10 < Pow10(w - 1) <==> n < 10 * Pow10(w - 1);
    } else {
      assert Pow10(w - 1) >= 1;
    }
  }

  lemma AppendDigit(n: nat, d: nat)
    requires n > 0 && d < 10
    ensures Digits(10 * n + d) == Digits(n) + [DigitChar(d)]
  {
  }

  lemma PadAppend(w: nat, n: nat)
    requires w >= 2
    ensures Pad(w, n) == Pad(w - 1, n / 10) + [DigitChar(n % 10)]
  {
    if n < 10 {
      assert Digits(0) == ['0'];
      assert seq(w - 1, _ => '0') == seq(w - 2, _ => '0') + ['0'];
    }
  }

  lemma DropLastDigit(e: nat, p: nat, n: nat, x: nat)
    requires e >= 1 && p >= 1 && x == e * (10 * p) + n
    ensures x >= 10 && x / 10 == e * p + n / 10 && x % 10 == n % 10
  {
    var y := e * p;
    assert e * (10 * p) == 10 * y;
    assert y >= 1;
  }

  /** A number with one more digit than a field holds is that digit followed by the field. */
  lemma {:induction false} LeadingDigit(e: nat, w: nat, n: nat, x: nat)
    requires 1 <= e < 10 && w >= 1 && n < Pow10(w)
    requires x == e * Pow10(w) + n
    ensures Digits(x) == [DigitChar(e)] + Pad(w, n)
  {
    DropLastDigit(e, Pow10(w - 1), n, x);
    if w > 1 {
      LeadingDigit(e, w - 1, n / 10, x / 10);
      PadAppend(w, n);
    }
  }

  /** A field keeps its nominal width exactly as long as the number fits in it. */
  lemma PadLength(w: nat, n: nat)
    requires w >= 1
    ensures |Pad(w, n)| >= w
    ensures |Pad(w, n)| == w <==> n < Pow10(w)
  {
    DigitsLength(n, w);
  }

  /** No numeral of a positive number begins with a zero. */
  lemma {:induction false} LeadingNonzero(n: nat)
    requires n > 0
    ensures Digits(n)[0] != '0'
  {
    if n >= 10 {
      LeadingNonzero(n / 10);
    }
  }

  /** A field begins with a zero exactly when the number leaves its first place free. */
  lemma PadLeading(w: nat, n: nat)
    requires w >= 2
    ensures Pad(w, n)[0] != '0' <==> n >= Pow10(w - 1)
  {
    DigitsLength(n, w - 1);
    if n > 0 {
      LeadingNonzero(n);
    }
    assert Pow10(w - 1) >= 1;
  }

  lemma {:induction false} ValueConcat(s: string, t: string)
    requires AllDigits(s) && AllDigits(t)
    ensures Value(s + t) == Value(s) * Pow10(|t|) + Value(t)
  {
    if t == [] {
      assert s + t == s;
    } else {
      var front := t[..|t| - 1];
      ValueConcat(s, front);
      assert (s + t)[..|s + t| - 1] == s + front;
      assert Value(s) * Pow10(|t|) == 10 * (Value(s) * Pow10(|front|));
    }
  }

  lemma {:induction false} ValuePositive(s: string)
    requires s != [] && AllDigits(s) && s[0] != '0'
    ensures Value(s) > 0
  {
    if |s| > 1 {
      ValuePositive(s[..|s| - 1]);
    }
  }

  lemma {:induction false} DigitsMonotone(m: nat, n: nat)
    requires m <= n
    ensures |Digits(m)| <= |Digits(n)|
  {
    if n >= 10 {
      if m >= 10 {
        DigitsMonotone(m / 10, n / 10);
      }
    }
  }

  lemma PadMonotone(w: nat, m: nat, n: nat)
    requires m <= n
    ensures |Pad(w, m)| <= |Pad(w, n)|
  {
    DigitsMonotone(m, n);
  }

  /** Writing a number into a field and converting it back succeeds exactly below the limit
      of the target type. */
  lemma ParsePad(w: nat, n: nat, limit: nat)
    ensures Parse(Pad(w, n), limit) == if n < limit then Some(n) else None
  {
    ValueOfPad(w, n);
  }

  lemma {:induction false} Pow10Grows(v: nat, w: nat)
    requires v <= w
    ensures Pow10(v) <= Pow10(w)
  {
    if v < w {
      Pow10Grows(v, w - 1);
    }
  }

  lemma FiveDigits(w: nat)
    ensures Pow10(w + 5) == 10_0000 * Pow10(w)
  {
    assert Pow10(w + 2) == 100 * Pow10(w);
    assert Pow10(w + 4) == 100 * Pow10(w + 2);
  }

  /** Every 64-bit number fits the 32 characters of a time stamp field. */
  lemma Width32(n: nat)
    requires n < U64
    ensures |Pad(32, n)| == 32
  {
    PadLength(32, n);
    FiveDigits(0);
    FiveDigits(5);
    FiveDigits(10);
    FiveDigits(15);
    Pow10Grows(20, 32);
  }

  /** What is not a numeral does not convert. */
  lemma NotNumerals()
    ensures Parse("", U64) == Parse("1:", U64) == Parse("/1", U64) == Parse("-1", U64) == None
  {
    assert !IsDigit("1:"[1]) && !IsDigit("/1"[0]) && !IsDigit("-1"[0]);
  }

  /** The limits of the 64-bit types and the look of a padded field, spelled out. */
  lemma LimitsAndFields()
    ensures U64 == 18_446_744_073_709_551_616 && I64_LIMIT == 9_223_372_036_854_775_808
    ensures Pad(8, 90) == "00000090" && Pad(2, 123) == "123" && Value("00000123") == 123
  {
    assert Digits(9) == "9" && Digits(90) == Digits(9) + "0";
    assert Digits(1) == "1" && Digits(12) == Digits(1) + "2" && Digits(123) == Digits(12) + "3";
    assert Pad(8, 90) == seq(6, _ => '0') + "90";
    var t := "123";
    assert t[..2] == "12" && t[..2][..1] == "1" && t[..2][..1][..0] == "";
    assert Value("1") == 1 && Value("12") == 12 && Value(t) == 123;
    assert "00000123" == seq(5, _ => '0') + t;
    ValueOfZeros(5, t);
  }
}
