/** Canonical numerals: what the number formatting of Share/Hook/Zycore/Format.c is to print. */
module Numerals {
  import opened Words

  type Base = b: nat | b == 10 || b == 16 witness 10

  function Digit(v: nat, upper: bool): char
    requires v < 16
  {
    if v < 10 then '0' + v as char else if upper then 'A' + (v - 10) as char else 'a' + (v - 10) as char
  }

  function ValueOf(c: char): nat {
    if '0' <= c <= '9' then (c - '0') as nat
    else if 'A' <= c <= 'F' then (c - 'A') as nat + 10
    else if 'a' <= c <= 'f' then (c - 'a') as nat + 10
    else 0
  }

  /** The numeral without leading zeros. */
  function Numeral(v: nat, b: Base, upper: bool): (s: string)
    ensures s != "" && (s[0] == '0' ==> v == 0)
  {
    if v < b then [Digit(v, upper)] else Numeral(v / b, b, upper) + [Digit(v % b, upper)]
  }

  /** The number a digit string denotes. */
  function Parse(s: string, b: Base): nat {
    if s == "" then 0 else Parse(s[..|s| - 1], b) * b + ValueOf(s[|s| - 1])
  }

  function Zeros(n: nat): (s: string)
    ensures |s| == n
  {
    seq(n, i => '0')
  }

  /** The numeral, padded with zeros on the left up to `padding` characters. */
  function Padded(v: nat, b: Base, upper: bool, padding: nat): string {
    var s := Numeral(v, b, upper);
    if |s| < padding then Zeros(padding - |s|) + s else s
  }

  function Power(b: Base, n: nat): (p: nat)
    ensures p >= 1
  {
    if n == 0 then 1 else b * Power(b, n - 1)
  }

  lemma DigitRoundTrip(v: nat, upper: bool)
    requires v < 16
    ensures ValueOf(Digit(v, upper)) == v
  {
  }

  lemma {:induction false} ParseNumeral(v: nat, b: Base, upper: bool)
    ensures Parse(Numeral(v, b, upper), b) == v
  {
    if v < b {
      DigitRoundTrip(v, upper);
      assert Parse([Digit(v, upper)][..0], b) == 0;
    } else {
      ParseNumeral(v / b, b, upper);
      DigitRoundTrip(v % b, upper);
      var front, s := Numeral(v / b, b, upper), Numeral(v, b, upper);
      assert s[..|s| - 1] == front;
      assert v == v / b * b + v % b;
    }
  }

  ghost predicate InCase(c: char, b: Base, upper: bool) {
    '0' <= c <= '9' || (b == 16 && if upper then 'A' <= c <= 'F' else 'a' <= c <= 'f')
  }

  /** Decimal numerals have decimal digits only, hexadecimal ones letters of the case asked for. */
  lemma {:induction false} NumeralInCase(v: nat, b: Base, upper: bool, k: nat)
    requires k < |Numeral(v, b, upper)|
    ensures InCase(Numeral(v, b, upper)[k], b, upper)
  {
    if v < b || k == |Numeral(v, b, upper)| - 1 {
      assert Numeral(v, b, upper)[k] == Digit(v % b, upper);
    } else {
      NumeralInCase(v / b, b, upper, k);
    }
  }

  lemma PaddedInCase(v: nat, b: Base, upper: bool, padding: nat, k: nat)
    requires k < |Padded(v, b, upper, padding)|
    ensures InCase(Padded(v, b, upper, padding)[k], b, upper)
  {
    var s := Numeral(v, b, upper);
    var zeros := if |s| < padding then padding - |s| else 0;
    if k >= zeros { NumeralInCase(v, b, upper, k - zeros); }
  }

  lemma {:induction false} ParseZeros(n: nat, s: string, b: Base)
    ensures Parse(Zeros(n) + s, b) == Parse(s, b)
  {
    if s != "" {
      ParseZeros(n, s[..|s| - 1], b);
      assert (Zeros(n) + s)[..n + |s| - 1] == Zeros(n) + s[..|s| - 1];
    } else if n > 0 {
      ParseZeros(n - 1, s, b);
      assert (Zeros(n) + s)[..n - 1] == Zeros(n - 1) + s;
      assert Zeros(n) + s == Zeros(n) && Zeros(n)[n - 1] == '0';
    } else {
      assert Zeros(0) + s == s;
    }
  }

  /** Parsing what is printed returns the value, whatever the padding. */
  lemma PrintParse(v: nat, b: Base, upper: bool, padding: nat)
    ensures Parse(Padded(v, b, upper, padding), b) == v
  {
    ParseNumeral(v, b, upper);
    var s := Numeral(v, b, upper);
    if |s| < padding { ParseZeros(padding - |s|, s, b); }
  }

  /** The length printed is the larger of the numeral's and the padding. */
  lemma PaddedLength(v: nat, b: Base, upper: bool, padding: nat)
    ensures |Padded(v, b, upper, padding)| ==
      if |Numeral(v, b, upper)| < padding then padding else |Numeral(v, b, upper)|
  {
  }

  /** A number below b^n has at most n digits, and exactly n when it is not below b^(n-1). */
  lemma {:induction false} NumeralLength(v: nat, b: Base, upper: bool, n: nat)
    requires n > 0 && v < Power(b, n)
    ensures |Numeral(v, b, upper)| <= n
    ensures n > 1 && v >= Power(b, n - 1) ==> |Numeral(v, b, upper)| == n
  {
    if v >= b {
      assert n > 1;
      QuotientBelow(v, b, Power(b, n - 1));
      NumeralLength(v / b, b, upper, n - 1);
      if n > 2 && v >= Power(b, n - 1) { QuotientAtLeast(v, b, Power(b, n - 2)); }
    }
  }

  lemma QuotientBelow(v: nat, b: Base, p: nat)
    requires v < b * p
    ensures v / b < p
  {
  }

  lemma QuotientAtLeast(v: nat, b: Base, p: nat)
    requires v >= b * p
    ensures v / b >= p
  {
  }

  /** Two decimal digits at a time. */
  lemma TwoDigits(v: nat)
    ensures v >= 100 ==>
      Numeral(v, 10, false) == Numeral(v / 100, 10, false) + [Digit(v % 100 / 10, false), Digit(v % 10, false)]
    ensures 10 <= v < 100 ==> Numeral(v, 10, false) == [Digit(v / 10, false), Digit(v % 10, false)]
  {
    assert v / 10 / 10 == v / 100 && v / 10 % 10 == v % 100 / 10;
    if v >= 100 {
      assert Numeral(v / 10, 10, false) == Numeral(v / 100, 10, false) + [Digit(v / 10 % 10, false)];
    }
  }

  lemma Distribute(q: nat, p: nat, r: nat, b: nat)
    ensures (q * p + r) * b == q * (b * p) + r * b
  {
    assert (q * p + r) * b == q * p * b + r * b;
    assert q * p * b == q * (p * b) && p * b == b * p;
  }

  lemma Scaled(r: nat, p: nat, b: nat, low: nat)
    requires r < p && low < b
    ensures r * b + low < b * p
  {
    assert (r + 1) * b <= p * b;
    assert (r + 1) * b == r * b + b;
  }

  lemma QuotientTwice(v: nat, b: Base, p: nat)
    requires p >= 1
    ensures b * p >= 1 && v / b / p == v / (b * p)
  {
    var high, low := v / b, v % b;
    var q, r := high / p, high % p;
    Recompose(v, high, low, q, r, b, p);
    Scaled(r, p, b, low);
    Quotient(v, b * p, q, r * b + low);
  }

  lemma Recompose(v: nat, high: nat, low: nat, q: nat, r: nat, b: nat, p: nat)
    requires v == high * b + low && high == q * p + r
    ensures v == q * (b * p) + (r * b + low)
  {
    Distribute(q, p, r, b);
  }

  lemma MultipleSign(x: int, d: int)
    requires d > 0
    ensures x >= 1 ==> x * d >= d
    ensures x <= -1 ==> x * d <= -d
  {
  }

  lemma Quotient(v: nat, d: nat, q: nat, r: nat)
    requires d > 0 && v == q * d + r && r < d
    ensures v / d == q
  {
    MultipleSign(v / d - q, d);
    assert v == v / d * d + v % d;
    assert (v / d - q) * d == r - v % d;
  }

  /** The digit at position `k` of a numeral is the value shifted and masked. */
  lemma {:induction false} NumeralAt(v: nat, b: Base, upper: bool, k: nat)
    requires k < |Numeral(v, b, upper)|
    ensures Numeral(v, b, upper)[k] == Digit(v / Power(b, |Numeral(v, b, upper)| - 1 - k) % b, upper)
  {
    var n := |Numeral(v, b, upper)|;
    if v < b {
      assert Power(b, 0) == 1;
      return;
    }
    var front := Numeral(v / b, b, upper);
    assert Numeral(v, b, upper) == front + [Digit(v % b, upper)];
    if k == n - 1 {
      assert Power(b, 0) == 1 && v / 1 == v;
    } else {
      NumeralAt(v / b, b, upper, k);
      QuotientTwice(v, b, Power(b, n - 2 - k));
      assert Power(b, n - 1 - k) == b * Power(b, n - 2 - k);
      hide Power; hide Digit; hide Numeral;
    }
  }
}
