/** The decoder's working state and its prefix handling (Share/Hook/Zydis/Decoder.c). */
module DecoderContext {
  import opened Words
  import opened DecoderPrefixes
  import opened DecoderMarks

  datatype Status = Success | NoMoreData | TooLong | DecodingError

  datatype RawPrefix = RawPrefix(kind: PrefixKind, value: Byte)

  /** What collecting the prefixes of `input` answers. */
  function CollectStatus(mode: MachineMode, input: seq<Byte>): Status {
    var n := PrefixCount(mode, input);
    if n >= MAX_INSTRUCTION_LENGTH then TooLong else if n == |input| then NoMoreData else Success
  }

  lemma RexSnoc(mode: MachineMode, input: seq<Byte>, n: nat)
    requires n < |input|
    ensures EffectiveRex(mode, input[..n + 1]) == if IsRex(mode, input[n]) then input[n] else 0
    ensures EffectiveRex(mode, input[..n]) != 0 ==> IsRex(mode, EffectiveRex(mode, input[..n]))
    ensures IsRex(mode, input[n]) ==> input[n] != 0
  {
  }

  lemma OtherByteChangesNothing(mode: MachineMode, p: Prefixes, byte: Byte, offset: nat)
    requires !IsPrefix(mode, byte)
    ensures AfterByte(mode, p, byte, offset) == p && !In(OperandSize, byte) && !In(AddressSize, byte)
  {
  }

  /** The reading of one more input byte, and which size overrides have been seen then. */
  lemma OneMoreByte(mode: MachineMode, input: seq<Byte>, n: nat)
    requires n < |input|
    ensures var ps, byte := input[..n], input[n];
      && Reading(mode, input[..n + 1]) == AfterByte(mode, Reading(mode, ps), byte, n)
      && (LastIn(input[..n + 1], OperandSize) >= 0 <==> LastIn(ps, OperandSize) >= 0 || In(OperandSize, byte))
      && (LastIn(input[..n + 1], AddressSize) >= 0 <==> LastIn(ps, AddressSize) >= 0 || In(AddressSize, byte))
  {
    hide LastIn; hide Reading; hide AfterByte; hide In;
    assert input[..n + 1] == input[..n] + [input[n]];
    ReadingSnoc(mode, input[..n], input[n]);
    LastInSnoc(input[..n], input[n], OperandSize);
    LastInSnoc(input[..n], input[n], AddressSize);
  }

  lemma NothingYet(mode: MachineMode)
    ensures EffectiveRex(mode, []) == 0 && LastIn([], OperandSize) < 0 && LastIn([], AddressSize) < 0
  {
  }

  lemma Halves(n: Byte)
    ensures 8 * (n / 8 % 2) + 4 * (n / 4 % 2) + 2 * (n / 2 % 2) + n % 2 == n % 16
  {
    var n2, n4, n8, n16 := n / 2, n / 4, n / 8, n / 16;
    assert n2 / 2 == n4 && n4 / 2 == n8 && n8 / 2 == n16;
    assert n == 2 * n2 + n % 2 && n2 == 2 * n4 + n2 % 2 && n4 == 2 * n8 + n4 % 2 && n8 == 2 * n16 + n8 % 2;
  }

  class Context {
    const mode: MachineMode
    ghost const input: seq<Byte>
    /** The unread bytes and the number of bytes read. */
    var buffer: seq<Byte>
    var length: nat
    var prefixes: Prefixes
    var hasOperandSize: bool
    var hasAddressSize: bool
    var hasRex: bool
    var rexOffset: nat
    var w: Byte
    var r: Byte
    var x: Byte
    var b: Byte
    const raw: array<RawPrefix>
    var prefixCount: nat

    ghost predicate Valid()
      reads this
    {
      && raw.Length == MAX_INSTRUCTION_LENGTH && length <= MAX_INSTRUCTION_LENGTH
      && length <= |input| && buffer == input[length..]
    }

    constructor (mode: MachineMode, input: seq<Byte>)
      ensures Valid() && Fresh() && fresh(raw) && this.mode == mode && this.input == input
    {
      this.mode, this.input, buffer, length := mode, input, input, 0;
      prefixes := Prefixes(false, 0, 0, 0, 0, 0, 0, 0, 0, 0, 0, 0);
      hasOperandSize, hasAddressSize, hasRex, rexOffset := false, false, false, 0;
      w, r, x, b, prefixCount := 0, 0, 0, 0, 0;
      raw := new RawPrefix[MAX_INSTRUCTION_LENGTH](i => RawPrefix(Ignored, 0));
    }

    /** Nothing has been decoded yet. */
    ghost predicate Fresh()
      reads this, raw
    {
      && length == 0 && prefixCount == 0 && prefixes == Reading(mode, [])
      && !hasOperandSize && !hasAddressSize && !hasRex && rexOffset == 0
      && w == r == x == b == 0
      && forall i :: 0 <= i < raw.Length ==> raw[i].kind == Ignored
    }

    // -------------------------------------------------------------- input

    method InputPeek() returns (st: Status, value: Byte)
      requires Valid()
      ensures st == if length >= MAX_INSTRUCTION_LENGTH then TooLong
                    else if length == |input| then NoMoreData else Success
      ensures st == Success ==> value == input[length]
    {
      if length >= MAX_INSTRUCTION_LENGTH { return TooLong, 0; }
      if |buffer| > 0 { return Success, buffer[0]; }
      return NoMoreData, 0;
    }

    method InputSkip()
      requires Valid() && length < MAX_INSTRUCTION_LENGTH && length < |input|
      modifies this`length, this`buffer
      ensures Valid() && length == old(length) + 1
    {
      length := length + 1;
      buffer := buffer[1..];
    }

    method InputNext() returns (st: Status, value: Byte)
      requires Valid()
      modifies this`length, this`buffer
      ensures Valid()
      ensures st == if old(length) >= MAX_INSTRUCTION_LENGTH then TooLong
                    else if old(length) == |input| then NoMoreData else Success
      ensures st == Success ==> length == old(length) + 1 && value == input[old(length)]
      ensures st != Success ==> length == old(length)
    {
      if length >= MAX_INSTRUCTION_LENGTH { return TooLong, 0; }
      if |buffer| > 0 {
        value := buffer[0];
        buffer := buffer[1..];
        length := length + 1;
        return Success, value;
      }
      return NoMoreData, 0;
    }

    method InputNextBytes(count: nat) returns (st: Status, value: seq<Byte>)
      requires Valid()
      modifies this`length, this`buffer
      ensures Valid()
      ensures st == if old(length) + count > MAX_INSTRUCTION_LENGTH then TooLong
                    else if old(length) + count > |input| then NoMoreData else Success
      ensures st == Success ==> length == old(length) + count && value == input[old(length)..length]
      ensures st != Success ==> length == old(length)
    {
      if length + count > MAX_INSTRUCTION_LENGTH { return TooLong, []; }
      if |buffer| >= count {
        value := buffer[..count];
        length := length + count;
        buffer := buffer[count..];
        return Success, value;
      }
      return NoMoreData, [];
    }

    // -------------------------------------------------------------- prefixes

    /** The fields collecting has filled in agree with the reading of the bytes `ps`. */
    ghost predicate Read(ps: seq<Byte>)
      reads this, raw
    {
      && raw.Length == MAX_INSTRUCTION_LENGTH && |ps| <= raw.Length
      && prefixes == Reading(mode, ps)
      && hasOperandSize == (LastIn(ps, OperandSize) >= 0)
      && hasAddressSize == (LastIn(ps, AddressSize) >= 0)
      && prefixCount == |ps| && forall i :: 0 <= i < |ps| ==> raw[i].value == ps[i]
    }

    /** The switch over one byte; `done` when the byte is no prefix. */
    method SwitchByte(byte: Byte, offset: nat) returns (done: bool, rex: bool)
      modifies this`prefixes, this`hasOperandSize, this`hasAddressSize
      ensures done == !IsPrefix(mode, byte) && rex == IsRex(mode, byte)
      ensures prefixes == AfterByte(mode, old(prefixes), byte, offset)
      ensures hasOperandSize == (old(hasOperandSize) || In(OperandSize, byte))
      ensures hasAddressSize == (old(hasAddressSize) || In(AddressSize, byte))
    {
      done, rex := false, false;
      var p := prefixes;
      if byte == 0xF0 {
        p := p.(hasLock := true, offsetLock := offset);
      } else if byte == 0xF2 || byte == 0xF3 {
        p := p.(group1 := byte, candidate := byte, offsetGroup1 := offset, offsetMandatory := offset);
      } else if byte == 0x2E || byte == 0x36 || byte == 0x3E || byte == 0x26 {
        p := p.(group2 := byte, offsetGroup2 := offset);
        if mode != Long64 || (p.segment != 0x64 && p.segment != 0x65) {
          p := p.(segment := byte, offsetSegment := offset);
        }
      } else if byte == 0x64 || byte == 0x65 {
        p := p.(group2 := byte, offsetGroup2 := offset, segment := byte, offsetSegment := offset);
      } else if byte == 0x66 {
        p := p.(offsetOperandSize := offset);
        if p.candidate == 0 {
          p := p.(candidate := 0x66, offsetMandatory := offset);
        }
        hasOperandSize := true;
      } else if byte == 0x67 {
        p := p.(offsetAddressSize := offset);
        hasAddressSize := true;
      } else if mode == Long64 && (byte / 16) * 16 == 0x40 {
        rex := true;
      } else {
        done := true;
      }
      prefixes := p;
    }

    ghost predicate NothingMarked()
      reads this, raw
    {
      && !hasRex && w == r == x == b == 0
      && forall i :: 0 <= i < raw.Length ==> raw[i].kind == Ignored
    }

    /** The outcome of collecting: every mark and flag is the one the bytes `ps` call for. */
    ghost predicate Collected(ps: seq<Byte>)
      reads this, raw
    {
      && Read(ps)
      && (forall i :: 0 <= i < raw.Length ==> raw[i].kind == if i < |ps| then KindAt(mode, ps, i) else Ignored)
      && var rex := EffectiveRex(mode, ps);
      && hasRex == (rex != 0) && rexOffset == (if rex != 0 then |ps| - 1 else 0)
      && 8 * w + 4 * r + 2 * x + b == rex % 16 && w <= 1 && r <= 1 && x <= 1 && b <= 1
    }

    /** One more prefix byte goes into the record. */
    method StorePrefix(byte: Byte)
      requires Valid() && length < MAX_INSTRUCTION_LENGTH && length < |input| && byte == input[length]
      requires NothingMarked() && prefixCount == length
      requires prefixes == AfterByte(mode, Reading(mode, input[..length]), byte, length)
      requires hasOperandSize == (LastIn(input[..length], OperandSize) >= 0 || In(OperandSize, byte))
      requires hasAddressSize == (LastIn(input[..length], AddressSize) >= 0 || In(AddressSize, byte))
      requires forall i :: 0 <= i < length ==> raw[i].value == input[i]
      modifies this`length, this`buffer, this`prefixCount, raw
      ensures Valid() && length == old(length) + 1
      ensures Read(input[..length]) && NothingMarked()
    {
      hide LastIn; hide Reading; hide AfterByte; hide In;
      OneMoreByte(mode, input, length);
      raw[prefixCount] := raw[prefixCount].(value := byte);
      prefixCount := prefixCount + 1;
      InputSkip();
    }

    /** A REX byte is remembered; any other prefix byte invalidates the one remembered. */
    method TrackRex(rex: Byte, isRex: bool, byte: Byte, offset: nat) returns (now: Byte)
      requires isRex == IsRex(mode, byte) && (rex != 0 ==> IsRex(mode, rex))
      requires rex == 0 ==> rexOffset == 0
      modifies this`rexOffset
      ensures IsPrefix(mode, byte) ==>
        now == (if isRex then byte else 0) && rexOffset == (if isRex then offset else 0)
      ensures !IsPrefix(mode, byte) ==> now == rex && rexOffset == old(rexOffset)
    {
      now := rex;
      if isRex {
        now := byte;
        rexOffset := offset;
      }
      if IsPrefix(mode, byte) && now != 0 && now != byte {
        now := 0;
        rexOffset := 0;
      }
    }

    /** Every prefix byte is taken; the first other byte ends the loop. */
    method CollectBytes() returns (st: Status, rex: Byte)
      requires Valid() && Fresh()
      modifies this, raw
      ensures Valid() && st == CollectStatus(mode, input)
      ensures length == (if PrefixCount(mode, input) < 15 then PrefixCount(mode, input) else 15)
      ensures Read(input[..length]) && NothingMarked()
      ensures rex == EffectiveRex(mode, input[..length]) && rexOffset == (if rex != 0 then length - 1 else 0)
    {
      hide EffectiveRex; hide IsPrefix; hide PrefixCount; hide Reading; hide LastIn; hide AfterByte; hide In;
      hide IsRex;
      rex := 0;
      ghost var n := PrefixCount(mode, input);
      NothingYet(mode);
      var offset, done := 0, false;
      while !done
        invariant Valid() && offset == length <= n && Read(input[..length]) && NothingMarked()
        invariant rex == EffectiveRex(mode, input[..length]) && rexOffset == (if rex != 0 then length - 1 else 0)
        invariant done ==> length < |input| && length == n < MAX_INSTRUCTION_LENGTH
        decreases MAX_INSTRUCTION_LENGTH - length, !done
      {
        var byte, isRex;
        st, byte := InputPeek();
        if st != Success { return; }
        ghost var was := prefixes;
        done, isRex := SwitchByte(byte, offset);
        if done { OtherByteChangesNothing(mode, was, byte, offset); }
        RexSnoc(mode, input, length);
        rex := TrackRex(rex, isRex, byte, offset);
        if !done {
          StorePrefix(byte);
          offset := offset + 1;
        }
      }
      st := Success;
    }

    method DecodeRex(data: Byte)
      modifies this`hasRex, this`w, this`r, this`x, this`b
      ensures hasRex && w <= 1 && r <= 1 && x <= 1 && b <= 1
      ensures 8 * w + 4 * r + 2 * x + b == data % 16
    {
      hasRex := true;
      var eighth, quarter, half := data / 8, data / 4, data / 2;
      w, r, x, b := eighth % 2, quarter % 2, half % 2, data % 2;
      Halves(data);
    }

    method MarkEffective(i: nat)
      requires i < raw.Length
      modifies raw
      ensures forall j :: 0 <= j < raw.Length ==>
        raw[j].value == old(raw[j].value) && raw[j].kind == if j == i then Effective else old(raw[j].kind)
    {
      raw[i] := raw[i].(kind := Effective);
    }

    /** The two size overrides that count, at ghost positions `osz` and `asz` (-1 for none). */
    method MarkSizes(ghost osz: int, ghost asz: int)
      requires osz < raw.Length && asz < raw.Length
      requires if hasOperandSize then prefixes.offsetOperandSize == osz else osz == -1
      requires if hasAddressSize then prefixes.offsetAddressSize == asz else asz == -1
      requires forall j :: 0 <= j < raw.Length ==> raw[j].kind == Ignored
      modifies raw
      ensures forall j :: 0 <= j < raw.Length ==> raw[j].value == old(raw[j].value)
      ensures forall j :: 0 <= j < raw.Length ==> raw[j].kind == if j == osz || j == asz then Effective else Ignored
    {
      if hasOperandSize {
        MarkEffective(prefixes.offsetOperandSize);
      }
      if hasAddressSize {
        MarkEffective(prefixes.offsetAddressSize);
      }
    }

    /** Collecting equals reading the prefix bytes as a whole, for every input. */
    method CollectOptionalPrefixes() returns (st: Status)
      requires Valid() && Fresh()
      modifies this, raw
      ensures Valid() && st == CollectStatus(mode, input)
      ensures length == (if PrefixCount(mode, input) < 15 then PrefixCount(mode, input) else 15)
      ensures Read(input[..length])
      ensures st == Success ==> Collected(input[..length])
    {
      hide PrefixCount; hide LastIn; hide FirstIn; hide EffectiveRex; hide CollectStatus; hide CandidateIndex;
      hide SegmentIndex; hide In; hide IsRex; hide ByteAt;
      var rex;
      st, rex := CollectBytes();
      if st != Success { return; }
      ghost var ps := input[..length];
      MarkSizes(LastIn(ps, OperandSize), LastIn(ps, AddressSize));
      if rex != 0 {
        MarkEffective(rexOffset);
        DecodeRex(rex);
      }
    }

    // -------------------------------------------------------------- marks

    function KindOf(i: nat): PrefixKind
      reads raw
      requires i < raw.Length
    {
      raw[i].kind
    }

    function State(): (m: Marks)
      reads this, raw
      ensures |m.kinds| == raw.Length && forall i :: 0 <= i < raw.Length ==> m.kinds[i] == raw[i].kind
    {
      Marks(seq(raw.Length, i requires 0 <= i < raw.Length reads raw => KindOf(i)), hasOperandSize)
    }

    lemma CollectedState()
      requires Valid() && Collected(input[..length])
      ensures State() == MarksOf(mode, input[..length])
    {
      hide KindAt; hide LastIn; hide Reading;
    }

    method MandatoryPrefixHandler() returns (index: nat)
      requires Fits(prefixes, State())
      modifies raw, this`hasOperandSize
      ensures index == MandatoryIndex(prefixes) && State() == Consumed(prefixes, old(State()))
    {
      var at := prefixes.offsetMandatory;
      if prefixes.candidate == 0x66 {
        raw[at] := raw[at].(kind := Mandatory);
        hasOperandSize := false;
        index := 2;
      } else if prefixes.candidate == 0xF3 {
        raw[at] := raw[at].(kind := Mandatory);
        index := 3;
      } else if prefixes.candidate == 0xF2 {
        raw[at] := raw[at].(kind := Mandatory);
        index := 4;
      } else {
        index := 1;
      }
    }

    /** The marks when the walk turns to the saved child 0. */
    method ReleaseMandatory()
      requires Fits(prefixes, State())
      modifies raw, this`hasOperandSize
      ensures State() == Released(prefixes, old(State()))
    {
      var at := prefixes.offsetMandatory;
      if prefixes.candidate != 0 {
        raw[at] := raw[at].(kind := Ignored);
      }
      if prefixes.candidate == 0x66 {
        if prefixes.offsetOperandSize == at {
          raw[at] := raw[at].(kind := Effective);
        }
        hasOperandSize := true;
      }
    }

    method OperandSizeHandler(wide: bool) returns (index: nat)
      requires Fits(prefixes, State())
      modifies raw
      ensures State() == Sized(prefixes, old(State()), mode, wide)
      ensures index == OperandSizeIndex(mode, wide, hasOperandSize)
    {
      if mode == Long64 && wide { return 2; }
      if hasOperandSize {
        var at := prefixes.offsetOperandSize;
        raw[at] := raw[at].(kind := Effective);
      }
      match mode
      case Long64 | LongCompat32 | Legacy32 => index := if hasOperandSize then 0 else 1;
      case LongCompat16 | Legacy16 | Real16 => index := if hasOperandSize then 1 else 0;
    }
  }
}
