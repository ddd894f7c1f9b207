/** Length-framed messages over a byte stream: TCPServerThread::Send and Recv of Share/Simple/SimpleTCP.cpp. */
module FramedStream {
  import opened Words

  const MAGIC: Dword := 0xA11CE
  const HEADER: nat := 8
  const MAX_MESSAGE: nat := 1024 * 1024
  const INT_LIMIT: nat := 0x8000_0000

  type Bytes = seq<Byte>

  function DwordBytes(v: Dword): (s: Bytes)
    ensures |s| == 4
  {
    [ByteOf(v, 0), ByteOf(v, 1), ByteOf(v, 2), ByteOf(v, 3)]
  }

  function Frame(m: Bytes): (s: Bytes)
    requires |m| < TWO_32
    ensures |s| == HEADER + |m|
  {
    DwordBytes(MAGIC) + DwordBytes(|m|) + m
  }

  /** The message at the front of a stream and the bytes it takes, as Recv sees them. */
  function Unframe(s: Bytes): (r: Option<(Bytes, nat)>)
    ensures r.Some? ==> HEADER < r.value.1 <= |s| && |r.value.0| == r.value.1 - HEADER
  {
    if |s| < HEADER || ReadDword(s, 0) != MAGIC then None
    else
      var n := ReadDword(s, 4);
      if n == 0 || n > MAX_MESSAGE || |s| < HEADER + n then None else Some((s[HEADER..HEADER + n], HEADER + n))
  }

  /** A frame byte by byte: the magic number 0xA11CE, the length, the message; words have their low byte first. */
  lemma FrameInBytes(m: Bytes)
    requires |m| < 0x1_0000_0000
    ensures var n := |m|;
      Frame(m) == [0xCE, 0x11, 0x0A, 0x00, n % 0x100, n / 0x100 % 0x100, n / 0x1_0000 % 0x100, n / 0x100_0000] + m
  {
  }

  lemma FrameHeader(m: Bytes, rest: Bytes)
    requires |m| < TWO_32
    ensures var s := Frame(m) + rest;
      ReadDword(s, 0) == MAGIC && ReadDword(s, 4) == |m| && s[HEADER..HEADER + |m|] == m && s[HEADER + |m|..] == rest
  {
    var s := Frame(m) + rest;
    BytesOfDword(MAGIC);
    BytesOfDword(|m|);
    assert s[0] == ByteOf(MAGIC, 0) && s[1] == ByteOf(MAGIC, 1) && s[2] == ByteOf(MAGIC, 2) && s[3] == ByteOf(MAGIC, 3);
    assert s[4] == ByteOf(|m|, 0) && s[5] == ByteOf(|m|, 1) && s[6] == ByteOf(|m|, 2) && s[7] == ByteOf(|m|, 3);
  }

  predicate Sendable(m: Bytes) {
    1 <= |m| <= 0x10_0000
  }

  /** What is framed is read back, whatever follows it, if and only if it is 1 byte to 1 MiB long. */
  lemma UnframeFrame(m: Bytes, rest: Bytes)
    requires |m| < TWO_32
    ensures Unframe(Frame(m) + rest) == Some((m, HEADER + |m|)) <==> Sendable(m)
    ensures !Sendable(m) ==> Unframe(Frame(m) + rest) == None
  {
    FrameHeader(m, rest);
  }

  function Stream(ms: seq<Bytes>): Bytes
    requires forall m :: m in ms ==> Sendable(m)
  {
    if ms == [] then [] else assert Sendable(ms[0]); Frame(ms[0]) + Stream(ms[1..])
  }

  /** Everything repeated Recv delivers from a stream until it fails. */
  function Receivable(s: Bytes): seq<Bytes>
    decreases |s|
  {
    var r := Unframe(s);
    if r.None? then [] else [r.value.0] + Receivable(s[r.value.1..])
  }

  lemma {:induction false} StreamRoundTrip(ms: seq<Bytes>)
    requires forall m :: m in ms ==> Sendable(m)
    ensures Receivable(Stream(ms)) == ms
  {
    if ms != [] {
      assert ms[0] in ms;
      UnframeFrame(ms[0], Stream(ms[1..]));
      FrameHeader(ms[0], Stream(ms[1..]));
      StreamRoundTrip(ms[1..]);
    }
  }

  /** A stream cut anywhere still delivers a prefix of the messages, each one whole. */
  lemma {:induction false} CutStream(ms: seq<Bytes>, k: nat)
    requires forall m :: m in ms ==> Sendable(m)
    requires k <= |Stream(ms)|
    ensures Receivable(Stream(ms)[..k]) <= ms
  {
    hide Frame; hide Unframe; hide Receivable; hide Sendable;
    ReceiveStep(Stream(ms)[..k]);
    if ms != [] {
      assert ms[0] in ms;
      var n, rest := HEADER + |ms[0]|, Stream(ms[1..]);
      if k < n {
        CutFrame(ms[0], rest, k);
      } else {
        WholeFrame(ms[0], rest, k);
        CutStream(ms[1..], k - n);
      }
    }
  }

  lemma ReceiveStep(s: Bytes)
    ensures s == [] ==> Unframe(s) == None
    ensures var r := Unframe(s);
      Receivable(s) == if r.None? then [] else [r.value.0] + Receivable(s[r.value.1..])
  {
  }

  /** A frame cut short yields nothing. */
  lemma CutFrame(m: Bytes, rest: Bytes, k: nat)
    requires Sendable(m) && k < HEADER + |m|
    ensures k <= |Frame(m) + rest| && Unframe((Frame(m) + rest)[..k]) == None
  {
    FrameHeader(m, rest);
    if k >= HEADER { CutHeader(Frame(m) + rest, k); }
  }

  lemma WholeFrame(m: Bytes, rest: Bytes, k: nat)
    requires Sendable(m) && HEADER + |m| <= k <= |Frame(m) + rest|
    ensures var n, s := HEADER + |m|, (Frame(m) + rest)[..k];
      |s| >= n && k - n <= |rest| && Unframe(s) == Some((m, n)) && s[n..] == rest[..k - n]
  {
    var n := HEADER + |m|;
    assert (Frame(m) + rest)[..k] == Frame(m) + rest[..k - n];
    UnframeFrame(m, rest[..k - n]);
  }

  lemma CutHeader(s: Bytes, k: nat)
    requires HEADER <= k <= |s|
    ensures ReadDword(s[..k], 0) == ReadDword(s, 0) && ReadDword(s[..k], 4) == ReadDword(s, 4)
  {
  }

  // ---------------------------------------------------------------- the socket

  class Socket {
    var open: bool
    /** When true, any call may fail; otherwise a call moves at least one byte while there is one to move. */
    const faulty: bool
    /** The bytes the peer delivers before it closes, not yet received. */
    var incoming: Bytes
    /** The bytes sent so far. */
    var outgoing: Bytes

    constructor (faulty: bool, incoming: Bytes)
      ensures open && this.faulty == faulty && this.incoming == incoming && outgoing == []
    {
      open, this.faulty, this.incoming, outgoing := true, faulty, incoming, [];
    }

    /** The system call: any number of bytes from the front of `data`. */
    method SystemSend(data: Bytes) returns (sent: int)
      requires data != []
      modifies this`outgoing
      ensures sent <= |data| && (!faulty ==> sent > 0)
      ensures outgoing == if sent > 0 then old(outgoing) + data[..sent] else old(outgoing)
    {
      sent :| -1 <= sent <= |data| && (!faulty ==> sent > 0);
      if sent > 0 {
        outgoing := outgoing + data[..sent];
      }
    }

    method SystemRecv(count: nat) returns (received: int, bytes: Bytes)
      requires count > 0
      modifies this`incoming
      ensures received <= count && received <= |old(incoming)|
      ensures !faulty && old(incoming) != [] ==> received > 0
      ensures received > 0 ==> bytes == old(incoming)[..received] && incoming == old(incoming)[received..]
      ensures received <= 0 ==> incoming == old(incoming)
    {
      received :| -1 <= received <= count && received <= |incoming| && (!faulty && incoming != [] ==> received > 0);
      bytes := [];
      if received > 0 {
        bytes, incoming := incoming[..received], incoming[received..];
      }
    }

    /** What is left after taking `k` bytes. */
    ghost predicate Advanced(before: Bytes, k: nat)
      reads this
    {
      k <= |before| && incoming == before[k..]
    }

    method RecvExact(length: nat) returns (ok: bool, buffer: Bytes)
      modifies this`incoming
      ensures Advanced(old(incoming), |buffer|) && buffer == old(incoming)[..|buffer|]
      ensures ok ==> |buffer| == length
      ensures !faulty ==> (ok <==> length <= |old(incoming)|)
    {
      buffer := [];
      while |buffer| < length
        invariant |buffer| <= length && Advanced(old(incoming), |buffer|)
        invariant buffer == old(incoming)[..|buffer|]
        decreases length - |buffer|
      {
        var received, bytes := SystemRecv(length - |buffer|);
        if received <= 0 { return false, buffer; }
        buffer := buffer + bytes;
      }
      ok := true;
    }

    /** Recv: succeeds on a fault-free connection if and only if the stream starts with a whole, well-sized
        message, and then takes exactly that message. */
    method Recv() returns (ok: bool, data: Bytes)
      modifies this`incoming
      ensures ok ==>
        && Unframe(old(incoming)).Some? && data == Unframe(old(incoming)).value.0
        && Advanced(old(incoming), Unframe(old(incoming)).value.1)
      ensures open && !faulty ==> (ok <==> Unframe(old(incoming)).Some?)
      ensures |incoming| <= |old(incoming)| && Advanced(old(incoming), |old(incoming)| - |incoming|)
    {
      data := [];
      ghost var was := incoming;
      if !open { return false, data; }
      var magic, length;
      ok, magic := RecvExact(4);
      if !ok { return; }
      HeaderWord(was, 0, magic);
      if ReadDword(magic, 0) != MAGIC { return false, data; }
      assert incoming == was[4..];
      ok, length := RecvExact(4);
      if !ok { return; }
      HeaderWord(was, 4, length);
      var n := ReadDword(length, 0);
      if n == 0 || n > MAX_MESSAGE { return false, data; }
      assert incoming == was[8..];
      ok, data := RecvExact(n);
      assert incoming == was[8 + |data|..];
      assert Advanced(was, 8 + |data|);
      if !ok { data := []; }
    }

    /** Send: the whole frame, or a part of it when the connection fails. The loop counts in a signed int, so
        a frame of 2^31 bytes or more counts as sent without a byte leaving. */
    method Send(m: Bytes) returns (ok: bool)
      requires HEADER + |m| < TWO_32
      modifies this`outgoing
      ensures !open || m == [] ==> !ok && outgoing == old(outgoing)
      ensures open && m != [] && HEADER + |m| < INT_LIMIT ==>
        && |old(outgoing)| <= |outgoing| <= |old(outgoing)| + |Frame(m)|
        && outgoing == old(outgoing) + Frame(m)[..|outgoing| - |old(outgoing)|]
        && (ok ==> outgoing == old(outgoing) + Frame(m)) && (!faulty ==> ok)
      ensures open && m != [] && HEADER + |m| >= INT_LIMIT ==> ok && outgoing == old(outgoing)
    {
      if !open || m == [] { return false; }
      var total := HEADER + |m|;
      var buffer := Frame(m);
      var limit := if total < INT_LIMIT then total else total - TWO_32;
      var totalSent := 0;
      while totalSent < limit
        invariant 0 <= totalSent <= total && (limit >= 0 ==> totalSent <= limit) && (limit < 0 ==> totalSent == 0)
        invariant outgoing == old(outgoing) + buffer[..totalSent]
      {
        var sent := SystemSend(buffer[totalSent..]);
        if sent <= 0 { return false; }
        assert buffer[..totalSent] + buffer[totalSent..][..sent] == buffer[..totalSent + sent];
        Associative(old(outgoing), buffer[..totalSent], buffer[totalSent..][..sent]);
        totalSent := totalSent + sent;
      }
      assert limit >= 0 ==> buffer[..totalSent] == buffer;
      ok := true;
    }

    method SendAll(ms: seq<Bytes>)
      requires open && !faulty && forall m :: m in ms ==> Sendable(m)
      modifies this`outgoing
      ensures outgoing == old(outgoing) + Stream(ms)
    {
      assert ms[..0] == [];
      for i := 0 to |ms|
        invariant outgoing == old(outgoing) + Stream(ms[..i])
      {
        assert ms[i] in ms;
        var ok := Send(ms[i]);
        StreamSnoc(ms[..i], ms[i]);
        assert ms[..i + 1] == ms[..i] + [ms[i]];
        Associative(old(outgoing), Stream(ms[..i]), Frame(ms[i]));
      }
      assert ms[..|ms|] == ms;
    }

    /** Recv until it fails. */
    method ReceiveAll() returns (ms: seq<Bytes>)
      requires open && !faulty
      modifies this`incoming
      ensures ms == Receivable(old(incoming))
    {
      ms := [];
      var ok := true;
      while ok
        invariant Receivable(old(incoming)) == if ok then ms + Receivable(incoming) else ms
        decreases |incoming|, ok
      {
        var data;
        ghost var was := incoming;
        ok, data := Recv();
        if ok {
          Associative(ms, [data], Receivable(incoming));
          ms := ms + [data];
        }
      }
    }
  }

  lemma {:induction false} StreamSnoc(ms: seq<Bytes>, m: Bytes)
    requires Sendable(m) && forall x :: x in ms ==> Sendable(x)
    ensures Stream(ms + [m]) == Stream(ms) + Frame(m)
  {
    if ms == [] {
      assert [m][1..] == [] && ms + [m] == [m];
    } else {
      assert Sendable(ms[0]);
      StreamSnoc(ms[1..], m);
      assert (ms + [m])[1..] == ms[1..] + [m];
      Associative(Frame(ms[0]), Stream(ms[1..]), Frame(m));
    }
  }

  /** What one side sends is what the other receives, whatever the fragmentation on either side. */
  method Exchange(sender: Socket, ms: seq<Bytes>) returns (received: seq<Bytes>)
    requires sender.open && !sender.faulty && sender.outgoing == [] && forall m :: m in ms ==> Sendable(m)
    modifies sender`outgoing
    ensures received == ms
  {
    sender.SendAll(ms);
    var receiver := new Socket(false, sender.outgoing);
    received := receiver.ReceiveAll();
    StreamRoundTrip(ms);
    assert [] + Stream(ms) == Stream(ms);
  }

  lemma HeaderWord(s: Bytes, at: nat, word: Bytes)
    requires at + 4 <= |s| && word == s[at..][..4]
    ensures ReadDword(word, 0) == ReadDword(s, at)
  {
  }
}
