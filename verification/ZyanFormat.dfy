/** Number formatting of Share/Hook/Zycore/Format.c into zero-terminated strings (String.c). */
module ZyanFormat {
  import opened Words
  import opened Numerals
  import opened VectorGrowth
  import opened ZyanVector

  const MAXCHARS_DEC_64: nat := 20
  const TWO_64: nat := 0x1_0000_0000_0000_0000

  /** A string is a vector of characters whose last one is the terminating zero. */
  ghost predicate IsString(v: Vector<char>)
    reads v, v.data
  {
    v.Valid() && v.size >= 1 && v.data[v.size - 1] == '\0'
  }

  function Text(v: Vector<char>): (s: string)
    reads v, v.data
    requires v.Valid() && v.size >= 1
    ensures |s| == v.size - 1
  {
    v.data[..v.size - 1]
  }

  lemma Prefixes<T>(a: seq<T>, b: seq<T>, k: nat, n: nat)
    requires k <= n <= |a| && n <= |b| && a[..n] == b[..n]
    ensures a[..k] == b[..k]
  {
    assert a[..n][..k] == a[..k] && b[..n][..k] == b[..k];
  }

  lemma TextKept(was: string, now: string, length: nat)
    requires |was| >= 1 && |now| == length + 1
    requires var n := if |was| < length + 1 then |was| else length + 1; now[..n] == was[..n]
    ensures var k := if |was| - 1 < length then |was| - 1 else length; now[..length][..k] == was[..|was| - 1][..k]
  {
    var k := if |was| - 1 < length then |was| - 1 else length;
    Prefixes(now, was, k, k + 1);
    assert now[..length][..k] == now[..k] && was[..|was| - 1][..k] == was[..k];
  }

  method StringResize(v: Vector<char>, length: nat) returns (st: Status)
    requires IsString(v)
    modifies v, v.data
    ensures IsString(v) && (v.data == old(v.data) || fresh(v.data))
    ensures st == if v.fixed && length + 1 > old(v.data.Length) then InsufficientBufferSize else Success
    ensures st != Success ==> Text(v) == old(Text(v))
    ensures st == Success ==>
      var kept := if |old(Text(v))| < length then |old(Text(v))| else length;
      |Text(v)| == length && Text(v)[..kept] == old(Text(v))[..kept]
  {
    ghost var was := v.Contents();
    assert Text(v) == was[..|was| - 1];
    st := v.ResizeEx(length + 1, None);
    if st != Success { return; }
    ghost var now := v.Contents();
    TextKept(was, now, length);
    v.data[v.size - 1] := '\0';
    assert Text(v) == now[..length];
  }

  lemma PowerTen()
    ensures Power(10, 20) == 100000000000000000000
  {
    assert Power(10, 4) == 10000;
    assert Power(10, 8) == 100000000 by { assert Power(10, 6) == 1000000; }
    assert Power(10, 12) == 1000000000000 by { assert Power(10, 10) == 10000000000; }
    assert Power(10, 16) == 10000000000000000 by { assert Power(10, 14) == 100000000000000; }
    assert Power(10, 18) == 1000000000000000000;
  }

  /** An entry of the table of two-digit texts. */
  function PairText(k: nat): string
    requires k < 100
  {
    [Digit(k / 10, false), Digit(k % 10, false)]
  }

  /** One lookup in the table of two-digit texts, copied into the scratch buffer. */
  method WritePair(scratch: array<char>, w: nat, k: nat)
    requires w + 2 <= scratch.Length && k < 100
    modifies scratch
    ensures scratch[w..] == PairText(k) + old(scratch[w + 2..])
  {
    scratch[w], scratch[w + 1] := Digit(k / 10, false), Digit(k % 10, false);
  }

  /** `v` still fits in the first `2 * pairs` characters. */
  predicate FitsPairs(v: nat, pairs: nat) {
    v < Power(10, 2 * pairs)
  }

  lemma TenPairsFit(v: nat)
    requires v < TWO_64
    ensures FitsPairs(v, 10)
  {
    PowerTen();
  }

  lemma HundredthFits(v: nat, pairs: nat)
    requires v >= 100 && FitsPairs(v, pairs)
    ensures pairs >= 2 && FitsPairs(v / 100, pairs - 1)
  {
    assert Power(10, 0) == 1 && Power(10, 2) == 100;
    assert pairs >= 1 ==> Power(10, 2 * pairs) == 10 * (10 * Power(10, 2 * pairs - 2));
  }

  lemma LastTwo(v: nat)
    ensures v - v / 100 * 100 == v % 100 < 100
    ensures v % 100 % 10 == v % 10
  {
  }

  lemma PairOf(v: nat)
    ensures PairText(v % 100) == [Digit(v % 100 / 10, false), Digit(v % 10, false)]
  {
    hide Digit;
    LastTwo(v);
  }

  lemma Hundreds(v: nat, tail: string)
    requires v >= 100
    ensures var k := v - v / 100 * 100;
      && k < 100
      && Numeral(v, 10, false) + tail ==
         Numeral(v / 100, 10, false) + (PairText(k) + tail)
  {
    hide *;
    LastTwo(v);
    PairOf(v);
    TwoDigits(v);
    Associative(Numeral(v / 100, 10, false), PairText(v % 100), tail);
  }

  /** The scratch buffer, filled from its end two digits at a time; twenty characters are enough. */
  method DecimalScratch(v: nat) returns (scratch: array<char>, from: nat)
    requires v < TWO_64
    ensures fresh(scratch) && scratch.Length == MAXCHARS_DEC_64 && from <= scratch.Length
    ensures scratch[from..] == Numeral(v, 10, false)
  {
    hide Power; hide Numeral; hide PairText; hide FitsPairs;
    scratch := new char[MAXCHARS_DEC_64];
    var w: nat, value: nat := MAXCHARS_DEC_64, v;
    ghost var pairs := 10;
    TenPairsFit(v);
    EmptyUnit(Numeral(v, 10, false));
    ghost var tail: string := [];
    while value >= 100
      invariant 1 <= pairs <= 10 && w == 2 * pairs && FitsPairs(value, pairs) && scratch[w..] == tail
      invariant Numeral(v, 10, false) == Numeral(value, 10, false) + tail
    {
      HundredthFits(value, pairs);
      Hundreds(value, tail);
      var before := value;
      w, pairs := w - 2, pairs - 1;
      value := value / 100;
      WritePair(scratch, w, before - value * 100);
      tail := scratch[w..];
    }
    w := w - 2;
    WritePair(scratch, w, value);
    from := w + if value < 10 then 1 else 0;
    LastDigits(value, tail, scratch[..], w);
  }

  lemma LastDigits(v: nat, tail: string, s: string, w: nat)
    requires v < 100 && w + 2 <= |s| && s[w..] == PairText(v) + tail
    ensures s[w + if v < 10 then 1 else 0..] == Numeral(v, 10, false) + tail
  {
    TwoDigits(v);
    var d := if v < 10 then 1 else 0;
    assert s[w + d..] == s[w..][d..];
  }

  /** The writes that end every append: zeros, digits, the new size and the terminating zero. */
  method PutDigits(v: Vector<char>, at: nat, zeros: nat, digits: string)
    requires v.Valid() && 1 <= at && at + zeros + |digits| <= v.data.Length
    modifies v`size, v.data
    ensures IsString(v) && Text(v) == old(v.data[..at - 1]) + Zeros(zeros) + digits
  {
    var from, top := at - 1, at + zeros + |digits|;
    forall i | 0 <= i < zeros {
      v.data[from + i] := '0';
    }
    forall i | 0 <= i < |digits| {
      v.data[from + zeros + i] := digits[i];
    }
    v.size := top;
    v.data[top - 1] := '\0';
    assert v.data[..from] == old(v.data[..at - 1]);
    assert v.data[from..from + zeros] == Zeros(zeros);
    assert v.data[from + zeros..top - 1] == digits;
    assert v.data[..top - 1] == v.data[..from] + v.data[from..from + zeros] + v.data[from + zeros..top - 1];
  }

  lemma PaddedDigits(value: nat, padding: nat, digits: string)
    requires digits == Numeral(value, 10, false)
    ensures Padded(value, 10, false, padding) ==
      Zeros(if |digits| < padding then padding - |digits| else 0) + digits
  {
    assert Zeros(0) + digits == digits;
  }

  /** Appends the decimal numeral, padded; a full fixed buffer leaves the string as it was. */
  method AppendDecU64(v: Vector<char>, value: nat, padding: Byte) returns (st: Status)
    requires IsString(v) && value < TWO_64
    modifies v, v.data
    ensures IsString(v) && (v.data == old(v.data) || fresh(v.data))
    ensures var out := Padded(value, 10, false, padding);
      && st == (if v.fixed && old(v.size) + |out| > old(v.data.Length) then InsufficientBufferSize else Success)
      && Text(v) == if st == Success then old(Text(v)) + out else old(Text(v))
  {
    hide Padded; hide Numeral;
    st := Success;
    var scratch, from := DecimalScratch(value);
    var digits := scratch[from..];
    var total := if |digits| < padding then padding else |digits|;
    PaddedDigits(value, padding, digits);
    var target := v.size;
    ghost var text := Text(v);
    if target + total > v.data.Length {
      st := StringResize(v, target + total - 1);
      if st != Success { return; }
      assert text[..|text|] == text;
    }
    assert v.data[..target - 1] == text;
    PutDigits(v, target, total - |digits|, digits);
    Associative(text, Zeros(total - |digits|), digits);
  }

  // ---------------------------------------------------------------- hexadecimal

  lemma PowerSixteen()
    ensures Power(16, 8) == TWO_32 && Power(16, 16) == TWO_64
  {
    assert Power(16, 2) == 256 && Power(16, 4) == 0x1_0000;
    assert Power(16, 6) == 0x100_0000;
    assert Power(16, 10) == 0x100_0000_0000;
    assert Power(16, 12) == 0x1_0000_0000_0000;
    assert Power(16, 14) == 0x100_0000_0000_0000;
  }

  lemma TopNibble(value: nat, i: nat)
    requires value < Power(16, i + 1)
    ensures value / Power(16, i) % 16 == 0 <==> value < Power(16, i)
  {
    var p := Power(16, i);
    QuotientBelow(value, 16, p);
    assert Power(16, i + 1) == 16 * p;
    hide Power;
    if value < p {
      Quotient(value, p, 0, value);
    } else {
      assert value == value / p * p + value % p;
      TopQuotient(value, p);
    }
  }

  lemma TopQuotient(value: nat, p: nat)
    requires 0 < p <= value < 16 * p
    ensures 1 <= value / p < 16
  {
    assert value == value / p * p + value % p;
    MultipleSign(value / p, p);
    MultipleSign(value / p - 16, p);
  }

  /** The loop's skipping part: the highest nibble that is not zero. */
  method HighestNibble(value: nat) returns (i: nat)
    requires 0 < value < TWO_64
    ensures i < 16 && Power(16, i) <= value < Power(16, i + 1)
  {
    PowerSixteen();
    i := if value >= TWO_32 then 15 else 7;
    while value / Power(16, i) % 16 == 0
      invariant i < 16 && value < Power(16, i + 1)
      decreases i
    {
      TopNibble(value, i);
      assert Power(16, 0) == 1;
      i := i - 1;
    }
    TopNibble(value, i);
  }

  /** The loop's writing part: nibble after nibble from number `i` down to 0. */
  method WriteHex(v: Vector<char>, at: nat, value: nat, i: nat, upper: bool)
    requires at + i + 1 <= v.data.Length && Power(16, i) <= value < Power(16, i + 1)
    modifies v.data
    ensures v.data[..at] == old(v.data[..at]) && v.data[at..at + i + 1] == Numeral(value, 16, upper)
  {
    ghost var digits := Numeral(value, 16, upper);
    HexLength(value, upper, i);
    hide Numeral; hide Digit; hide Power;
    for n := 0 to i + 1
      invariant v.data[..at] == old(v.data[..at])
      invariant v.data[at..at + n] == digits[..n]
    {
      NumeralAt(value, 16, upper, n);
      v.data[at + n] := Digit(value / Power(16, i - n) % 16, upper);
      assert digits[..n + 1] == digits[..n] + [digits[n]];
      assert v.data[at..at + n + 1] == v.data[at..at + n] + [digits[n]];
    }
    assert digits[..i + 1] == digits;
  }

  lemma HexLength(value: nat, upper: bool, i: nat)
    requires Power(16, i) <= value < Power(16, i + 1)
    ensures |Numeral(value, 16, upper)| == i + 1
  {
    NumeralLength(value, 16, upper, i + 1);
  }

  lemma ZeroPadded(upper: bool, padding: nat)
    ensures Padded(0, 16, upper, padding) == Zeros(if padding > 0 then padding else 1)
  {
    assert Numeral(0, 16, upper) == "0";
  }

  /** A string's text is unharmed by a resize that succeeds at no smaller length. */
  method Enlarge(v: Vector<char>, length: nat, ghost text: string) returns (st: Status)
    requires IsString(v) && |text| < v.size <= length + 1 && v.data[..|text|] == text
    modifies v, v.data
    ensures IsString(v) && (v.data == old(v.data) || fresh(v.data))
    ensures st == if v.fixed && length + 1 > old(v.data.Length) then InsufficientBufferSize else Success
    ensures st != Success ==> v.size == old(v.size) && Text(v) == old(Text(v))
    ensures st == Success ==> v.size == length + 1
    ensures |text| < v.size && v.data[..|text|] == text
  {
    ghost var was := Text(v);
    assert was[..|text|] == text;
    st := StringResize(v, length);
    if st == Success {
      Prefixes(Text(v), was, |text|, |was|);
    }
    assert Text(v)[..|text|] == v.data[..|text|];
  }

  /** The string when room for the padding has been made: `len` was its size before. */
  ghost predicate Staged(v: Vector<char>, len: nat, remaining: nat, padding: Byte, text: string)
    reads v, v.data
  {
    && IsString(v) && 1 <= len && |text| == len - 1 && v.data.Length >= len + remaining >= len + padding
    && v.data[..len - 1] == text
    && (v.size == len ==> remaining == v.data.Length - len)
    && (v.size != len ==> !v.fixed && remaining == padding && v.size == len + padding)
  }

  method AppendHexZero(v: Vector<char>, len: nat, remaining: nat, padding: Byte, ghost text: string)
      returns (st: Status)
    requires Staged(v, len, remaining, padding, text)
    modifies v, v.data
    ensures IsString(v) && (v.data == old(v.data) || fresh(v.data))
    ensures st == if v.fixed && len == old(v.data.Length) then InsufficientBufferSize else Success
    ensures Text(v) == if st == Success then text + Zeros(if padding > 0 then padding else 1) else text
  {
    var n := if padding > 0 then padding else 1;
    st := Success;
    if remaining < n {
      st := Enlarge(v, v.size + n - 1, text);
      if st != Success {
        assert Text(v) == v.data[..len - 1];
        return;
      }
    }
    PutDigits(v, len, n, "");
    assert text + Zeros(n) + "" == text + Zeros(n);
  }

  method AppendHexDigits(v: Vector<char>, len: nat, remaining: nat, padding: Byte, value: nat, upper: bool,
                         ghost text: string) returns (st: Status)
    requires Staged(v, len, remaining, padding, text) && 0 < value < TWO_64
    modifies v, v.data
    ensures IsString(v) && (v.data == old(v.data) || fresh(v.data))
    ensures var out := Padded(value, 16, upper, padding);
      && st == (if v.fixed && len + |out| > old(v.data.Length) then InsufficientBufferSize else Success)
      && Text(v) == if st == Success then text + out else text
  {
    st := Success;
    var i := HighestNibble(value);
    HexLength(value, upper, i);
    PaddedParts(value, upper, padding, i);
    hide Power; hide Numeral; hide Padded;
    if remaining <= i {
      st := Enlarge(v, v.size + i, text);
      if st != Success {
        assert Text(v) == v.data[..len - 1];
        return;
      }
    }
    WriteNumeral(v, len, if padding > i then padding - i - 1 else 0, value, i, upper, text);
  }

  lemma PaddedParts(value: nat, upper: bool, padding: nat, i: nat)
    requires |Numeral(value, 16, upper)| == i + 1
    ensures Padded(value, 16, upper, padding) ==
      Zeros(if padding > i then padding - i - 1 else 0) + Numeral(value, 16, upper)
  {
    assert Zeros(0) + Numeral(value, 16, upper) == Numeral(value, 16, upper);
  }

  method WriteNumeral(v: Vector<char>, len: nat, zeros: nat, value: nat, i: nat, upper: bool, ghost text: string)
    requires v.Valid() && 1 <= len && len + zeros + i + 1 <= v.data.Length
    requires Power(16, i) <= value < Power(16, i + 1)
    requires |text| == len - 1 && v.data[..len - 1] == text
    modifies v`size, v.data
    ensures IsString(v) && Text(v) == text + (Zeros(zeros) + Numeral(value, 16, upper))
  {
    HexLength(value, upper, i);
    FillZeros(v, len - 1, zeros);
    WriteHex(v, len - 1 + zeros, value, i, upper);
    hide Power; hide Numeral;
    v.size := len + zeros + i + 1;
    Assemble(v.data[..], text, zeros, Numeral(value, 16, upper));
    Associative(text, Zeros(zeros), Numeral(value, 16, upper));
    v.data[v.size - 1] := '\0';
  }

  lemma Assemble(data: seq<char>, text: string, zeros: nat, digits: string)
    requires |text| + zeros + |digits| <= |data|
    requires data[..|text| + zeros] == text + Zeros(zeros)
    requires data[|text| + zeros..|text| + zeros + |digits|] == digits
    ensures data[..|text| + zeros + |digits|] == text + Zeros(zeros) + digits
  {
  }

  method FillZeros(v: Vector<char>, at: nat, zeros: nat)
    requires at + zeros <= v.data.Length
    modifies v.data
    ensures v.data[..at + zeros] == old(v.data[..at]) + Zeros(zeros)
  {
    forall i | 0 <= i < zeros {
      v.data[at + i] := '0';
    }
  }

  /** Appends the hexadecimal numeral, padded; a full fixed buffer leaves the string as it was. */
  method AppendHexU64(v: Vector<char>, value: nat, padding: Byte, upper: bool) returns (st: Status)
    requires IsString(v) && value < TWO_64
    modifies v, v.data
    ensures IsString(v) && (v.data == old(v.data) || fresh(v.data))
    ensures var out := Padded(value, 16, upper, padding);
      && st == (if v.fixed && old(v.size) + |out| > old(v.data.Length) then InsufficientBufferSize else Success)
      && Text(v) == if st == Success then old(Text(v)) + out else old(Text(v))
  {
    var len, remaining := v.size, v.data.Length - v.size;
    ghost var text := Text(v);
    PaddedLength(value, 16, upper, padding);
    if remaining < padding {
      st := Enlarge(v, len + padding - 1, text);
      if st != Success {
        assert Text(v) == v.data[..len - 1];
        return;
      }
      remaining := padding;
    }
    if value == 0 {
      ZeroPadded(upper, padding);
      st := AppendHexZero(v, len, remaining, padding, text);
    } else {
      st := AppendHexDigits(v, len, remaining, padding, value, upper, text);
    }
  }
}
