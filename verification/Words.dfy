/** Machine words and the sequence vocabulary shared by the models. */
module Words {
  const TWO_32: nat := 0x1_0000_0000

  type Byte = n: nat | n < 256
  type Dword = n: nat | n < 0x1_0000_0000

  datatype Option<+T> = None | Some(value: T)

  /** The 32-bit counter value that shows at true time `t`: it wraps after 2^32 milliseconds. */
  function Low32(t: nat): Dword {
    t % TWO_32
  }

  /** Unsigned 32-bit subtraction. */
  function Minus32(a: Dword, b: Dword): Dword {
    (a - b) % TWO_32
  }

  /** Subtracting two readings mod 2^32 gives the elapsed time mod 2^32, even across a wrap. */
  lemma Minus32Elapsed(later: nat, earlier: nat)
    requires earlier <= later
    ensures Minus32(Low32(later), Low32(earlier)) == (later - earlier) % TWO_32
    ensures Minus32(Low32(later), Low32(earlier)) <= later - earlier
  {
    var wraps := later / TWO_32 - earlier / TWO_32;
    assert later - earlier == wraps * TWO_32 + (Low32(later) - Low32(earlier));
  }

  /** Byte `k` of a little-endian 32-bit word. */
  function ByteOf(v: Dword, k: nat): Byte
    requires k < 4
  {
    if k == 0 then v % 0x100
    else if k == 1 then v / 0x100 % 0x100
    else if k == 2 then v / 0x1_0000 % 0x100
    else v / 0x100_0000
  }

  /** The little-endian value of the four bytes at `o`. */
  function ReadDword(body: seq<Byte>, o: nat): nat
    requires o + 4 <= |body|
  {
    var at := (k: nat) requires k < |body| => body[k] as int;
    at(o) + 0x100 * at(o + 1) + 0x1_0000 * at(o + 2) + 0x100_0000 * at(o + 3)
  }

  /** By value: the least significant byte comes first. */
  lemma ReadDwordInBytes(body: seq<Byte>, o: nat)
    requires o + 4 <= |body|
    ensures var v := ReadDword(body, o);
      && v < 0x1_0000_0000 && body[o] == v % 0x100 && body[o + 1] == v / 0x100 % 0x100
      && body[o + 2] == v / 0x1_0000 % 0x100 && body[o + 3] == v / 0x100_0000
  {
    Digits(body[o], body[o + 1], body[o + 2], body[o + 3]);
  }

  lemma Digits(b0: int, b1: int, b2: int, b3: int)
    requires 0 <= b0 < 0x100 && 0 <= b1 < 0x100 && 0 <= b2 < 0x100 && 0 <= b3 < 0x100
    ensures var v := b0 + 0x100 * b1 + 0x1_0000 * b2 + 0x100_0000 * b3;
      && v < 0x1_0000_0000 && b0 == v % 0x100 && b1 == v / 0x100 % 0x100 && b2 == v / 0x1_0000 % 0x100
      && b3 == v / 0x100_0000
  {
    LowDigit(b0, b1 + 0x100 * b2 + 0x1_0000 * b3);
    LowDigit(b1, b2 + 0x100 * b3);
    LowDigit(b2, b3);
    Shifted(b0 + 0x100 * b1 + 0x1_0000 * b2 + 0x100_0000 * b3);
  }

  lemma LowDigit(b: int, q: int)
    requires 0 <= b < 0x100
    ensures (b + 0x100 * q) % 0x100 == b && (b + 0x100 * q) / 0x100 == q
  {
  }

  lemma Shifted(v: int)
    ensures v / 0x1_0000 == v / 0x100 / 0x100 && v / 0x100_0000 == v / 0x1_0000 / 0x100
  {
  }

  lemma BytesOfDword(v: Dword)
    ensures ByteOf(v, 0) as int + 0x100 * (ByteOf(v, 1) as int) + 0x1_0000 * (ByteOf(v, 2) as int)
          + 0x100_0000 * (ByteOf(v, 3) as int) == v
  {
    var a, b, c := v / 0x100, v / 0x1_0000, v / 0x100_0000;
    assert a / 0x100 == b && b / 0x100 == c;
    assert v == 0x100 * a + v % 0x100 && a == 0x100 * b + a % 0x100 && b == 0x100 * c + b % 0x100;
  }

  /** No element occurs at two positions. */
  ghost predicate Distinct<T>(s: seq<T>) {
    forall i, j :: 0 <= i < j < |s| ==> s[i] != s[j]
  }

  lemma Associative<T>(a: seq<T>, b: seq<T>, c: seq<T>)
    ensures (a + b) + c == a + (b + c)
  {
  }

  lemma EmptyUnit<T>(a: seq<T>)
    ensures [] + a == a == a + []
  {
  }

  /** The positions `f`, in increasing order, pick `a` out of `b`. */
  ghost predicate Embeds<T>(f: seq<nat>, a: seq<T>, b: seq<T>) {
    && |f| == |a|
    && (forall i :: 0 <= i < |f| ==> f[i] < |b| && a[i] == b[f[i]])
    && (forall i, j :: 0 <= i < j < |f| ==> f[i] < f[j])
  }

  /** `a` is what is left of `b` after deleting some of its elements. */
  ghost predicate Subsequence<T>(a: seq<T>, b: seq<T>) {
    exists f: seq<nat> :: Embeds(f, a, b)
  }

  lemma SubsequenceReflexive<T>(a: seq<T>)
    ensures Subsequence(a, a)
  {
    assert Embeds(seq(|a|, i => i), a, a);
  }

  lemma EmptySubsequence<T>(b: seq<T>)
    ensures Subsequence([], b)
  {
    assert Embeds([], [], b);
  }

  lemma SubsequenceTransitive<T>(a: seq<T>, b: seq<T>, c: seq<T>)
    requires Subsequence(a, b) && Subsequence(b, c)
    ensures Subsequence(a, c)
  {
    var f: seq<nat> :| Embeds(f, a, b);
    var g: seq<nat> :| Embeds(g, b, c);
    var h: seq<nat> := seq(|f|, i requires 0 <= i < |f| => g[f[i]]);
    assert Embeds(h, a, c);
  }

  /** Common suffixes and prefixes may be added on both sides. */
  lemma SubsequenceAppend<T>(a: seq<T>, b: seq<T>, s: seq<T>)
    requires Subsequence(a, b)
    ensures Subsequence(a + s, b + s)
  {
    var f: seq<nat> :| Embeds(f, a, b);
    var h: seq<nat> := f + seq(|s|, i => |b| + i);
    assert Embeds(h, a + s, b + s);
  }

  lemma SubsequencePrepend<T>(a: seq<T>, b: seq<T>, p: seq<T>)
    requires Subsequence(a, b)
    ensures Subsequence(p + a, p + b)
  {
    var f: seq<nat> :| Embeds(f, a, b);
    var h: seq<nat> := seq(|p|, i => i) + seq(|f|, i requires 0 <= i < |f| => |p| + f[i]);
    assert Embeds(h, p + a, p + b);
  }

  /** Two simulated stretches of a queue history, one after the other: `head` leaves and `now` enters
      first, turning `before` into `mid`; then `tail` leaves, `later` enters and `held` remains. */
  lemma ChainEqual<T>(head: seq<T>, mid: seq<T>, before: seq<T>, now: seq<T>,
                      tail: seq<T>, held: seq<T>, later: seq<T>)
    requires head + mid == before + now && tail + held == mid + later
    ensures (head + tail) + held == before + (now + later)
  {
    Associative(head, tail, held);
    Associative(head, mid, later);
    Associative(before, now, later);
  }

  lemma ChainSubsequence<T>(head: seq<T>, mid: seq<T>, before: seq<T>, now: seq<T>,
                            tail: seq<T>, held: seq<T>, later: seq<T>)
    requires Subsequence(head + mid, before + now) && Subsequence(tail + held, mid + later)
    ensures Subsequence((head + tail) + held, before + (now + later))
  {
    SubsequencePrepend(tail + held, mid + later, head);
    SubsequenceAppend(head + mid, before + now, later);
    Associative(head, tail, held);
    Associative(head, mid, later);
    Associative(before, now, later);
    SubsequenceTransitive((head + tail) + held, (head + mid) + later, before + (now + later));
  }

  /** Deleting from the middle of a queue, or everything behind its head. */
  lemma DeletedMiddle<T>(flight: seq<T>, rest: seq<T>, held: seq<T>, rest': seq<T>, held': seq<T>)
    requires rest' == rest || rest' == []
    requires held' == held || (rest' == [] && held' == [])
    ensures Subsequence(flight + rest' + held', flight + rest + held)
  {
    if held' == held {
      if rest' == [] {
        EmptySubsequence(rest);
      } else {
        SubsequenceReflexive(rest);
      }
      SubsequencePrepend(rest', rest, flight);
      SubsequenceAppend(flight + rest', flight + rest, held);
    } else {
      EmptySubsequence(rest + held);
      SubsequencePrepend([], rest + held, flight);
      assert flight + [] == flight + rest' + held';
      assert flight + (rest + held) == flight + rest + held;
    }
  }
}
