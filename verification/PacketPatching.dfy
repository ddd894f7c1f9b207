/** What timestamp patching does to the bytes of an injected packet. */
module PacketPatching {
  import opened Words
  import opened SchedulerModel

  /** The four bytes that a write at `o` touches, the address being computed mod 2^32: an offset close to
      2^32 reaches the fields before the packet data. */
  predicate Covers(o: Dword, k: nat) {
    (k - (DATA_AT + o)) % TWO_32 < 4
  }

  /** Two writes that share no byte. */
  predicate Apart(o: Dword, p: Dword) {
    4 <= (p - o) % TWO_32 <= TWO_32 - 4
  }

  lemma ApartCoversNot(o: Dword, p: Dword, d: nat)
    requires Apart(o, p) && d < 4
    ensures !Covers(p, DATA_AT + o + d)
  {
  }

  lemma CoversOwn(o: Dword, d: nat)
    requires d < 4
    ensures var k := DATA_AT + o + d;
      Covers(o, k) && (k - (DATA_AT + o)) % TWO_32 == d
  {
  }

  /** Where the write stays in order: below 2^32 - 24 it touches the four bytes from its place in the packet data
      on. */
  lemma CoversPlainly(o: Dword, k: nat)
    requires o < TWO_32 - 24 && k < TWO_32
    ensures Covers(o, k) <==> DATA_AT + o <= k < DATA_AT + o + 4
  {
  }

  lemma WriteAt(p: Packet, o: Dword, v: Dword, k: nat)
    requires k < |p|
    ensures Covers(o, k) ==> WriteDword(p, o, v)[k] == ByteOf(v, (k - (DATA_AT + o)) % TWO_32)
    ensures !Covers(o, k) ==> WriteDword(p, o, v)[k] == p[k]
  {
  }

  lemma OneWrite(p: Packet, o: Dword, v: Dword)
    requires WriteAllowed(o, LengthOf(p))
    ensures PatchAll(p, [o], v) == WriteDword(p, o, v)
  {
    assert [o][..0] == [] && PatchAll(p, [], v) == p;
  }

  /** The guard lets write `i` through, given the length field that the writes before it left. */
  predicate Happens(p: Packet, offsets: seq<Dword>, v: Dword, i: nat)
    requires i < |offsets|
  {
    WriteAllowed(offsets[i], LengthOf(PatchAll(p, offsets[..i], v)))
  }

  lemma HappensBefore(p: Packet, offsets: seq<Dword>, v: Dword, i: nat)
    requires i < |offsets| - 1
    ensures Happens(p, offsets, v, i) == Happens(p, offsets[..|offsets| - 1], v, i)
  {
    assert offsets[..|offsets| - 1][..i] == offsets[..i];
  }

  lemma HappensLast(p: Packet, offsets: seq<Dword>, v: Dword)
    requires offsets != []
    ensures var n := |offsets| - 1;
      Happens(p, offsets, v, n) == WriteAllowed(offsets[n], LengthOf(PatchAll(p, offsets[..n], v)))
  {
  }

  /** The last write of the loop. */
  lemma PatchLast(p: Packet, offsets: seq<Dword>, v: Dword)
    requires offsets != []
    ensures var n := |offsets| - 1;
      PatchAll(p, offsets, v) ==
        var rest := PatchAll(p, offsets[..n], v);
        if Happens(p, offsets, v, n) then WriteDword(rest, offsets[n], v) else rest
  {
  }

  /** Bytes that no write touches keep their value, the length field included. */
  lemma {:induction false} PatchLeavesOthers(p: Packet, offsets: seq<Dword>, v: Dword, k: nat)
    requires k < |p|
    requires forall i :: 0 <= i < |offsets| && Happens(p, offsets, v, i) ==> !Covers(offsets[i], k)
    ensures PatchAll(p, offsets, v)[k] == p[k]
    decreases |offsets|
  {
    if offsets != [] {
      hide Happens;
      PatchLast(p, offsets, v);
      var front := offsets[..|offsets| - 1];
      forall i | 0 <= i < |front| && Happens(p, front, v, i)
        ensures !Covers(front[i], k)
      {
        HappensBefore(p, offsets, v, i);
      }
      PatchLeavesOthers(p, front, v, k);
    }
  }

  /** A byte of the message that a write covers, and no later one, becomes that byte of the timestamp, even
      when the write runs past the end of the message or begins before its data. */
  lemma {:induction false} PatchWritesByte(p: Packet, offsets: seq<Dword>, v: Dword, i: nat, k: nat)
    requires i < |offsets| && Happens(p, offsets, v, i) && Covers(offsets[i], k) && k < |p|
    requires forall j :: i < j < |offsets| && Happens(p, offsets, v, j) ==> !Covers(offsets[j], k)
    ensures PatchAll(p, offsets, v)[k] == ByteOf(v, (k - (DATA_AT + offsets[i])) % TWO_32)
    decreases |offsets|
  {
    hide Happens; hide PatchAll; hide WriteDword; hide Covers; hide ByteOf;
    PatchLast(p, offsets, v);
    var front := offsets[..|offsets| - 1];
    WriteAt(PatchAll(p, front, v), offsets[|front|], v, k);
    if i < |front| {
      HappensBefore(p, offsets, v, i);
      forall j | i < j < |front| && Happens(p, front, v, j)
        ensures !Covers(front[j], k)
      {
        HappensBefore(p, offsets, v, j);
      }
      PatchWritesByte(p, front, v, i, k);
    }
  }

  /** So reading back at an offset inside the message returns the tick's timestamp. */
  lemma PatchWritesTimestamp(p: Packet, offsets: seq<Dword>, v: Dword, i: nat)
    requires i < |offsets| && Happens(p, offsets, v, i) && DATA_AT + offsets[i] + 4 <= |p|
    requires forall j :: i < j < |offsets| && Happens(p, offsets, v, j) ==> Apart(offsets[i], offsets[j])
    ensures ReadDword(PatchAll(p, offsets, v), DATA_AT + offsets[i]) == v
  {
    BytesOfDword(v);
    hide PatchAll; hide ByteOf; hide Happens; hide Apart; hide Covers;
    PatchReadsByte(p, offsets, v, i, 0);
    PatchReadsByte(p, offsets, v, i, 1);
    PatchReadsByte(p, offsets, v, i, 2);
    PatchReadsByte(p, offsets, v, i, 3);
  }

  lemma PatchReadsByte(p: Packet, offsets: seq<Dword>, v: Dword, i: nat, d: nat)
    requires i < |offsets| && Happens(p, offsets, v, i) && DATA_AT + offsets[i] + 4 <= |p| && d < 4
    requires forall j :: i < j < |offsets| && Happens(p, offsets, v, j) ==> Apart(offsets[i], offsets[j])
    ensures PatchAll(p, offsets, v)[DATA_AT + offsets[i] + d] == ByteOf(v, d)
  {
    hide Covers; hide Apart; hide PatchAll; hide Happens; hide ByteOf;
    var k: nat := DATA_AT + offsets[i] + d;
    CoversOwn(offsets[i], d);
    forall j | i < j < |offsets| && Happens(p, offsets, v, j)
      ensures !Covers(offsets[j], k)
    {
      ApartCoversNot(offsets[i], offsets[j], d);
    }
    PatchWritesByte(p, offsets, v, i, k);
  }

  // ---------------------------------------------------------------- what the guard does not keep out

  /** The guard adds in 32 bits: from 2^32 - 4 on it lets a write through whatever the length says, once the
      length is at least the wrapped sum. */
  lemma GuardWraps(d: nat, length: Dword)
    requires d < 4
    ensures WriteAllowed(0xFFFF_FFFC + d, length) <==> d <= length
  {
  }

  /** There is no length for which the guard keeps every write inside the message. */
  lemma NoLengthIsSafe(size: nat, length: Dword)
    requires size < TWO_32
    ensures !(forall o: Dword :: WriteAllowed(o, length) ==> o + 4 <= size)
  {
    GuardWraps(0, length);
  }

  /** Apart from the wrap, the guard keeps every write inside `size` bytes of packet data if and only if the
      message's own length field does not exceed what was received, or is too small for any write. */
  lemma LengthFieldDecides(size: nat, length: Dword)
    requires size < TWO_32 - 4
    ensures (forall o: Dword :: o < TWO_32 - 4 && WriteAllowed(o, length) ==> o + 4 <= size)
        <==> length <= size || length < 4
  {
    if length > size && length >= 4 {
      var o: Dword := length - 4;
      assert o < TWO_32 - 4 && WriteAllowed(o, length) && o + 4 > size;
    }
  }

  /** A write reaches the length field. */
  predicate HitsLength(o: Dword) {
    o >= TWO_32 - 7
  }

  lemma HitsLengthExactly(o: Dword)
    ensures HitsLength(o) <==> exists k :: LENGTH_AT <= k < LENGTH_AT + 4 && Covers(o, k)
  {
    if HitsLength(o) {
      assert Covers(o, if o >= TWO_32 - 4 then LENGTH_AT + 3 else LENGTH_AT);
    }
  }

  /** As long as no write reaches the length field, it is the received one that decides about every write. */
  lemma LengthStays(p: Packet, offsets: seq<Dword>, v: Dword)
    requires forall i :: 0 <= i < |offsets| && Happens(p, offsets, v, i) ==> !HitsLength(offsets[i])
    ensures LengthOf(PatchAll(p, offsets, v)) == LengthOf(p)
    ensures forall i :: 0 <= i < |offsets| ==> (Happens(p, offsets, v, i) <==> WriteAllowed(offsets[i], LengthOf(p)))
    decreases |offsets|
  {
    hide Happens; hide PatchAll; hide HitsLength; hide Covers;
    forall k | LENGTH_AT <= k < LENGTH_AT + 4
      ensures PatchAll(p, offsets, v)[k] == p[k]
    {
      forall i | 0 <= i < |offsets| && Happens(p, offsets, v, i)
        ensures !Covers(offsets[i], k)
      {
        HitsLengthExactly(offsets[i]);
      }
      PatchLeavesOthers(p, offsets, v, k);
    }
    if offsets != [] {
      HappensLast(p, offsets, v);
      var front := offsets[..|offsets| - 1];
      forall i | 0 <= i < |front|
        ensures Happens(p, front, v, i) == Happens(p, offsets, v, i)
      {
        HappensBefore(p, offsets, v, i);
      }
      LengthStays(p, front, v);
    }
  }

  /** A write at 2^32 - 4 always happens, makes the length field the timestamp and touches nothing else. */
  lemma WrappedWriteSetsLength(p: Packet, v: Dword)
    ensures var after := PatchAll(p, [0xFFFF_FFFC], v);
      LengthOf(after) == v && forall k :: 0 <= k < |p| && !(LENGTH_AT <= k < DATA_AT) ==> after[k] == p[k]
  {
    hide PatchAll; hide WriteDword; hide ByteOf;
    BytesOfDword(v);
    GuardWraps(0, LengthOf(p));
    OneWrite(p, 0xFFFF_FFFC, v);
    forall k | 0 <= k < |p|
      ensures WriteDword(p, 0xFFFF_FFFC, v)[k] == if LENGTH_AT <= k < DATA_AT then ByteOf(v, k - LENGTH_AT) else p[k]
    {
      WriteAt(p, 0xFFFF_FFFC, v, k);
    }
  }

  /** After it the timestamp decides about the next write, whatever length was received: a packet of length 50 is
      written at 100 once the clock shows 104. */
  lemma TimestampDecides(p: Packet, o: Dword, v: Dword)
    requires o < TWO_32 - 24 && DATA_AT + o + 4 <= |p|
    ensures var after := PatchAll(p, [0xFFFF_FFFC, o], v);
      if WriteAllowed(o, v) then ReadDword(after, DATA_AT + o) == v
      else forall k :: DATA_AT <= k < |p| ==> after[k] == p[k]
  {
    var offsets := [0xFFFF_FFFC, o];
    assert offsets[..1] == [0xFFFF_FFFC];
    WrappedWriteSetsLength(p, v);
    PatchLast(p, offsets, v);
    if WriteAllowed(o, v) {
      PatchWritesTimestamp(p, offsets, v, 1);
    }
  }

  /** A write at 2^32 - 2 overwrites the upper half of the length field and the first two bytes of the data. */
  lemma WrappedWriteReachesStart(p: Packet, v: Dword)
    requires LengthOf(p) >= 2
    ensures var after := PatchAll(p, [0xFFFF_FFFE], v);
      && after[LENGTH_AT + 2] == ByteOf(v, 0) && after[LENGTH_AT + 3] == ByteOf(v, 1)
      && after[DATA_AT] == ByteOf(v, 2) && after[DATA_AT + 1] == ByteOf(v, 3)
      && forall k :: 0 <= k < |p| && !(LENGTH_AT + 2 <= k < DATA_AT + 2) ==> after[k] == p[k]
  {
    hide PatchAll; hide WriteDword; hide ByteOf; hide LengthOf;
    GuardWraps(2, LengthOf(p));
    OneWrite(p, 0xFFFF_FFFE, v);
    WriteAt(p, 0xFFFF_FFFE, v, LENGTH_AT + 2);
    WriteAt(p, 0xFFFF_FFFE, v, LENGTH_AT + 3);
    WriteAt(p, 0xFFFF_FFFE, v, DATA_AT);
    WriteAt(p, 0xFFFF_FFFE, v, DATA_AT + 1);
    forall k | 0 <= k < |p| && !(LENGTH_AT + 2 <= k < DATA_AT + 2)
      ensures WriteDword(p, 0xFFFF_FFFE, v)[k] == p[k]
    {
      WriteAt(p, 0xFFFF_FFFE, v, k);
    }
  }

  // ---------------------------------------------------------------- the packet as it goes out

  /** No later write that happens shares a byte with write `i`. */
  ghost predicate LastWord(p: Packet, offsets: seq<Dword>, v: Dword, i: nat)
    requires i < |offsets|
  {
    forall j :: i < j < |offsets| && Happens(p, offsets, v, j) ==> Apart(offsets[i], offsets[j])
  }

  /** Write `i` happens, lies inside the message, and is not written over. */
  ghost predicate InPlace(p: Packet, offsets: seq<Dword>, v: Dword, i: nat) {
    i < |offsets| && Happens(p, offsets, v, i) && 20 + offsets[i] + 4 <= |p| && LastWord(p, offsets, v, i)
  }

  ghost predicate Uncovered(p: Packet, offsets: seq<Dword>, v: Dword, k: nat) {
    forall i :: 0 <= i < |offsets| && Happens(p, offsets, v, i) ==> !Covers(offsets[i], k)
  }

  /** `r` is `p` with every write that happens inside the message done, and nothing else. */
  ghost predicate WritesDone(p: Packet, r: Packet, offsets: seq<Dword>, v: Dword) {
    && |r| == |p|
    && (forall i: nat :: InPlace(p, offsets, v, i) ==> ReadDword(r, 20 + offsets[i]) == v)
    && (forall k :: 0 <= k < |p| && Uncovered(p, offsets, v, k) ==> r[k] == p[k])
  }

  lemma PatchDone(p: Packet, offsets: seq<Dword>, v: Dword)
    ensures WritesDone(p, PatchAll(p, offsets, v), offsets, v)
  {
    hide PatchAll; hide Happens; hide Apart; hide Covers; hide ReadDword;
    forall i: nat | InPlace(p, offsets, v, i)
      ensures ReadDword(PatchAll(p, offsets, v), 20 + offsets[i]) == v
    {
      PatchWritesTimestamp(p, offsets, v, i);
    }
    forall k | 0 <= k < |p| && Uncovered(p, offsets, v, k)
      ensures PatchAll(p, offsets, v)[k] == p[k]
    {
      PatchLeavesOthers(p, offsets, v, k);
    }
  }

  /** A packet that is sent goes out with the timestamps of its slot in place, if the configuration asks for them; any
      other packet goes out as it came. */
  ghost predicate StampedBy(c: QueueConfig, index: nat, original: Packet, sent: Packet, v: Dword) {
    if index < |c.timestamps| && c.timestamps[index].needsUpdate && ReadDword(original, 0) == 0 then
      WritesDone(original, sent, c.timestamps[index].offsets, v)
    else sent == original
  }

  lemma PatchIsStamped(c: QueueConfig, index: nat, p: Packet, v: Dword)
    ensures StampedBy(c, index, p, PatchPacket(p, c, index, v), v)
  {
    hide PatchAll; hide WritesDone; hide ReadDword;
    if index < |c.timestamps| {
      PatchDone(p, c.timestamps[index].offsets, v);
    }
  }
}
