/** ModRM, SIB and displacement: the bytes ZydisDecodeOptionalInstructionParts takes and the operand
    ZydisDecodeOperandMemory builds (Share/Hook/Zydis/Decoder.c), against the tables of section 2.1.5 of the
    Intel SDM, Volume 2. */
module DecoderAddressing {
  import opened Words
  import opened DecoderPrefixes
  import opened DecoderContext

  type AddressWidth = w: nat | w in {16, 32, 64} witness 32
  type Bits2 = n: nat | n < 4
  type Bits3 = n: nat | n < 8
  type Bit = n: nat | n < 2

  datatype ModRM = ModRM(mod: Bits2, reg: Bits3, rm: Bits3)
  datatype Sib = Sib(scale: Bits2, index: Bits3, base: Bits3)

  /** The register-extension bits of REX, VEX or EVEX. */
  datatype Extension = Extension(b: Bit, x: Bit, v2: Bit)

  datatype Register =
    NoRegister | Gpr(width: AddressWidth, id: nat) | InstructionPointer(width: AddressWidth) | Vector(id: nat)
  datatype Operand = Operand(base: Register, index: Register, scale: nat, dispSize: nat)

  function ModRMOf(byte: Byte): ModRM {
    ModRM(byte / 64, byte / 8 % 8, byte % 8)
  }

  function SibOf(byte: Byte): Sib {
    Sib(byte / 64, byte / 8 % 8, byte % 8)
  }

  // ---------------------------------------------------------------- the tables of the manual

  predicate HasSib(width: AddressWidth, m: ModRM) {
    width != 16 && m.mod != 3 && m.rm == 4
  }

  /** The displacement's bits: tables 2-1 to 2-3. REX has no say in it. */
  function DispSize(width: AddressWidth, m: ModRM, base: Bits3): nat {
    if m.mod == 3 then 0
    else if m.mod == 1 then 8
    else if m.mod == 2 then (if width == 16 then 16 else 32)
    else if width == 16 then (if m.rm == 6 then 16 else 0)
    else if m.rm == 5 || (m.rm == 4 && base == 5) then 32
    else 0
  }

  function Base16(m: ModRM): Register {
    if m.mod == 0 && m.rm == 6 then NoRegister
    else if m.rm in {0, 1, 7} then Gpr(16, 3)
    else if m.rm in {2, 3, 6} then Gpr(16, 5)
    else if m.rm == 4 then Gpr(16, 6)
    else Gpr(16, 7)
  }

  function Index16(m: ModRM): Register {
    if m.rm in {0, 2} then Gpr(16, 6) else if m.rm in {1, 3} then Gpr(16, 7) else NoRegister
  }

  function Extend(mode: MachineMode, id: nat, bit: Bit, weight: nat): nat {
    if mode == Long64 then id + bit * weight else id
  }

  function BaseOf(mode: MachineMode, width: AddressWidth, m: ModRM, s: Sib, e: Extension): Register {
    if width == 16 then Base16(m)
    else if m.mod == 0 && m.rm == 5 then (if mode == Long64 then InstructionPointer(width) else NoRegister)
    else if m.rm != 4 then Gpr(width, Extend(mode, m.rm, e.b, 8))
    else if m.mod == 0 && s.base == 5 then NoRegister
    else Gpr(width, Extend(mode, s.base, e.b, 8))
  }

  function IndexOf(mode: MachineMode, width: AddressWidth, m: ModRM, s: Sib, e: Extension, vector: bool): Register {
    var id := Extend(mode, s.index, e.x, 8);
    if width == 16 then Index16(m)
    else if m.rm != 4 then NoRegister
    else if vector then Vector(Extend(mode, id, e.v2, 16))
    else if id == 4 then NoRegister
    else Gpr(width, id)
  }

  function OperandOf(mode: MachineMode, width: AddressWidth, m: ModRM, s: Sib, e: Extension, vector: bool): Operand {
    var index := IndexOf(mode, width, m, s, e, vector);
    var scale: nat := if index == NoRegister then 0 else if width == 16 then 1 else Power2(s.scale);
    Operand(BaseOf(mode, width, m, s, e), index, scale, DispSize(width, m, s.base))
  }

  function Power2(n: Bits2): nat {
    if n == 0 then 1 else if n == 1 then 2 else if n == 2 then 4 else 8
  }

  /** The index counts once, twice, four or eight times; in 16-bit forms once. */
  lemma ScaleByValue(mode: MachineMode, width: AddressWidth, m: ModRM, s: Sib, e: Extension, vector: bool)
    ensures var o := OperandOf(mode, width, m, s, e, vector);
      && (o.scale == 0 <==> o.index == NoRegister)
      && (o.scale > 0 ==> (if width == 16 then 0 else s.scale, o.scale) in {(0, 1), (1, 2), (2, 4), (3, 8)})
  {
  }

  /** The register numbers of 32 and 64-bit forms: the extension bits count 8 and 16, in 64-bit mode only. */
  lemma RegistersByValue(mode: MachineMode, width: AddressWidth, m: ModRM, s: Sib, e: Extension, vector: bool)
    requires width != 16
    ensures var o, b, x := OperandOf(mode, width, m, s, e, vector), if mode == Long64 then 8 * e.b else 0,
                           if mode == Long64 then 8 * e.x else 0;
      && (m.rm == 4 && vector ==> o.index == Vector(s.index + x + if mode == Long64 then 16 * e.v2 else 0))
      && (m.rm == 4 && !vector ==> o.index == if s.index + x == 4 then NoRegister else Gpr(width, s.index + x))
      && (m.rm != 4 ==> o.index == NoRegister && (m.mod > 0 || m.rm != 5 ==> o.base == Gpr(width, m.rm + b)))
      && (m.rm == 4 && (m.mod > 0 || s.base != 5) ==> o.base == Gpr(width, s.base + b))
  {
  }

  // ---------------------------------------------------------------- the operand as decoded

  /** The one encoding family decoded wrongly: R13D as SIB base with mod 0 in 64-bit mode. The displacement
      check of the 32-bit case looks for EBP alone, that of the 64-bit case for RBP and R13. */
  predicate MissesR13D(mode: MachineMode, width: AddressWidth, m: ModRM, s: Sib, e: Extension) {
    mode == Long64 && width == 32 && m.mod == 0 && m.rm == 4 && s.base == 5 && e.b == 1
  }

  /** ZydisDecodeOperandMemory: right if and only if the encoding is not of that family. */
  method DecodeOperandMemory(mode: MachineMode, width: AddressWidth, m: ModRM, s: Sib, e: Extension, vector: bool)
      returns (o: Operand)
    requires m.mod != 3 && (vector ==> m.rm == 4 && width != 16)
    ensures o == OperandOf(mode, width, m, s, e, vector) <==> !MissesR13D(mode, width, m, s, e)
    ensures o.dispSize == DispSize(width, m, s.base) <==> !MissesR13D(mode, width, m, s, e)
    ensures MissesR13D(mode, width, m, s, e) ==>
      o == OperandOf(mode, width, m, s, e, vector).(base := Gpr(32, 13), dispSize := 0)
  {
    var base, index, scale: nat, dispSize := NoRegister, NoRegister, 0, 0;
    var baseId := Extend(mode, if m.rm == 4 then s.base else m.rm, e.b, 8);
    if width == 16 {
      var bases := [3, 3, 5, 5, 6, 7, 5, 3];
      var indices := [6, 7, 6, 7];
      base := Gpr(16, bases[m.rm]);
      index := if m.rm < 4 then Gpr(16, indices[m.rm]) else NoRegister;
      scale := if index == NoRegister then 0 else 1;
      match m.mod {
        case 0 =>
          if m.rm == 6 {
            dispSize, base := 16, NoRegister;
          }
        case 1 => dispSize := 8;
        case _ => dispSize := 16;
      }
    } else {
      base := Gpr(width, baseId);
      match m.mod {
        case 0 =>
          if m.rm == 5 {
            base := if mode == Long64 then InstructionPointer(width) else NoRegister;
            dispSize := 32;
          }
        case 1 => dispSize := 8;
        case _ => dispSize := 32;
      }
      if m.rm == 4 {
        var id := Extend(mode, s.index, e.x, 8);
        index := if vector then Vector(Extend(mode, id, e.v2, 16)) else Gpr(width, id);
        scale := Power2(s.scale);
        if index == Gpr(width, 4) {
          index, scale := NoRegister, 0;
        }
        if base == Gpr(width, 5) || (width == 64 && base == Gpr(width, 13)) {
          if m.mod == 0 {
            base := NoRegister;
          }
          dispSize := if m.mod == 1 then 8 else 32;
        }
      }
    }
    o := Operand(base, index, scale, dispSize);
  }

  // ---------------------------------------------------------------- the bytes as read

  datatype Parts = Parts(modrm: ModRM, sib: Option<Sib>, dispSize: nat, disp: int)

  function LittleEndian(bytes: seq<Byte>): nat {
    if bytes == [] then 0 else bytes[0] + 256 * LittleEndian(bytes[1..])
  }

  /** The two's complement reading of little-endian bytes. */
  function Signed(bytes: seq<Byte>): int {
    if bytes != [] && bytes[|bytes| - 1] >= 128 then LittleEndian(bytes) - Modulus(|bytes|) else LittleEndian(bytes)
  }

  function Modulus(n: nat): nat {
    if n == 0 then 1 else 256 * Modulus(n - 1)
  }

  function Two(lo: int, hi: int): int {
    lo + 0x100 * hi
  }

  function Four(b0: int, b1: int, b2: int, b3: int): int {
    b0 + 0x100 * b1 + 0x1_0000 * b2 + 0x100_0000 * b3
  }

  /** `d` is the two's complement reading of `unsigned`, `half` being the weight of the sign bit. */
  ghost predicate IsSigned(d: int, half: int, unsigned: int) {
    d == if unsigned >= half then unsigned - 2 * half else unsigned
  }

  lemma OneByte(b: seq<Byte>)
    requires |b| == 1
    ensures LittleEndian(b) == b[0] && Modulus(1) == 0x100
  {
    assert b[1..] == [];
  }

  lemma TwoBytes(b: seq<Byte>)
    requires |b| == 2
    ensures LittleEndian(b) == Two(b[0], b[1]) && Modulus(2) == 0x1_0000
  {
    OneByte(b[1..]);
  }

  lemma FourBytes(b: seq<Byte>)
    requires |b| == 4
    ensures LittleEndian(b) == Four(b[0], b[1], b[2], b[3]) && Modulus(4) == 0x1_0000_0000
  {
    TwoBytes(b[2..]);
    assert b[1..][1..] == b[2..] && LittleEndian(b[1..]) == b[1] + 0x100 * LittleEndian(b[2..]);
    assert Modulus(3) == 0x100_0000;
  }

  lemma EightBytes(b: seq<Byte>)
    requires |b| == 8
    ensures LittleEndian(b) == Four(b[0], b[1], b[2], b[3]) + 0x1_0000_0000 * Four(b[4], b[5], b[6], b[7])
    ensures Modulus(8) == 0x1_0000_0000_0000_0000
  {
    FourBytes(b[4..]);
    assert b[1..][1..] == b[2..] && b[2..][1..] == b[3..] && b[3..][1..] == b[4..];
    assert LittleEndian(b[3..]) == b[3] + 0x100 * LittleEndian(b[4..]);
    assert LittleEndian(b[2..]) == b[2] + 0x100 * LittleEndian(b[3..]);
    assert LittleEndian(b[1..]) == b[1] + 0x100 * LittleEndian(b[2..]);
    assert Modulus(6) == 0x1_0000_0000_0000;
  }

  /** By value, for the sizes that occur. */
  lemma SignedByValue(b: seq<Byte>)
    ensures |b| == 1 ==> IsSigned(Signed(b), 0x80, b[0])
    ensures |b| == 2 ==> IsSigned(Signed(b), 0x8000, Two(b[0], b[1]))
    ensures |b| == 4 ==> IsSigned(Signed(b), 0x8000_0000, Four(b[0], b[1], b[2], b[3]))
    ensures |b| == 8 ==>
      IsSigned(Signed(b), 0x8000_0000_0000_0000,
               Four(b[0], b[1], b[2], b[3]) + 0x1_0000_0000 * Four(b[4], b[5], b[6], b[7]))
  {
    hide LittleEndian; hide Modulus;
    if |b| == 1 { OneByte(b); }
    if |b| == 2 { TwoBytes(b); }
    if |b| == 4 { FourBytes(b); }
    if |b| == 8 { EightBytes(b); }
  }

  /** The bytes that can still be read: input and instruction length both bound them. */
  function Readable(input: seq<Byte>, from: nat): seq<Byte>
    requires from <= |input| && from <= MAX_INSTRUCTION_LENGTH
  {
    input[from..if |input| < MAX_INSTRUCTION_LENGTH then |input| else MAX_INSTRUCTION_LENGTH]
  }

  function SibBase(sib: Option<Sib>): Bits3 {
    if sib.Some? then sib.value.base else 0
  }

  /** Where the displacement starts, ModRM and SIB being read; None when they do not fit. `known` is a ModRM
      byte that the tree walk has read already; the register form has neither SIB nor displacement. */
  function Head(width: AddressWidth, known: Option<ModRM>, force: bool, bytes: seq<Byte>)
    : Option<(ModRM, Option<Sib>, nat)>
  {
    var k := if known.Some? then 0 else 1;
    if |bytes| < k then None
    else
      var m := if known.Some? then known.value else ModRMOf(bytes[0]);
      if force || !HasSib(width, m) then Some((m, None, k))
      else if |bytes| <= k then None
      else Some((m, Some(SibOf(bytes[k])), k + 1))
  }

  /** The parts and the number of bytes they take, by the tables of the manual. */
  function Tail(width: AddressWidth, known: Option<ModRM>, force: bool, bytes: seq<Byte>): Option<(Parts, nat)> {
    match Head(width, known, force, bytes)
    case None => None
    case Some((m, sib, k)) =>
      var size := if force then 0 else DispSize(width, m, SibBase(sib));
      var n := size / 8;
      if |bytes| < k + n then None else Some((Parts(m, sib, size, Signed(bytes[k..][..n])), k + n))
  }

  /** The next `n` bytes of the input are the first `n` readable ones, when there are that many. */
  lemma ReadableBytes(input: seq<Byte>, from: nat, n: nat)
    requires from <= |input| && from <= MAX_INSTRUCTION_LENGTH
    ensures n <= |Readable(input, from)| <==> from + n <= |input| && from + n <= MAX_INSTRUCTION_LENGTH
    ensures n <= |Readable(input, from)| ==> Readable(input, from)[..n] == input[from..from + n]
  {
  }

  lemma ReadableAt(input: seq<Byte>, from: nat, i: nat)
    requires from <= |input| && from <= MAX_INSTRUCTION_LENGTH
    ensures i < |Readable(input, from)| <==> from + i < |input| && from + i < MAX_INSTRUCTION_LENGTH
    ensures i < |Readable(input, from)| ==> Readable(input, from)[i] == input[from + i]
  {
  }

  method ReadDisplacement(c: Context, size: nat) returns (st: Status, disp: int)
    requires c.Valid() && size in {8, 16, 32, 64}
    modifies c`length, c`buffer
    ensures c.Valid() && (st == Success <==> |Readable(c.input, old(c.length))| >= size / 8)
    ensures st == Success ==>
      && c.length == old(c.length) + size / 8
      && disp == Signed(Readable(c.input, old(c.length))[..size / 8])
  {
    ReadableBytes(c.input, c.length, size / 8);
    hide Readable; hide Signed;
    var value;
    st, value := c.InputNextBytes(size / 8);
    disp := Signed(value);
  }

  /** The switch over mod and rm, as the physical decoder has it. */
  function PhysicalSize(width: AddressWidth, m: ModRM, sib: Option<Sib>): nat {
    var plain :=
      if width == 16 then
        match m.mod { case 0 => if m.rm == 6 then 16 else 0 case 1 => 8 case 2 => 16 case _ => 0 }
      else
        match m.mod { case 0 => if m.rm == 5 then 32 else 0 case 1 => 8 case 2 => 32 case _ => 0 };
    if sib.Some? && sib.value.base == 5 then (if m.mod == 1 then 8 else 32) else plain
  }

  /** What is read is what the tables say, for every ModRM, SIB, address width and mode. */
  lemma PhysicalIsTabled(width: AddressWidth, m: ModRM, sib: Option<Sib>)
    requires sib.Some? <==> HasSib(width, m)
    ensures PhysicalSize(width, m, sib) == DispSize(width, m, SibBase(sib))
  {
  }

  /** ModRM and SIB are the bytes from `at` on, field by field; there is a SIB byte exactly for rm 4 in memory forms of
      32 and 64-bit addresses. */
  ghost predicate HeadBytes(input: seq<Byte>, at: nat, width: AddressWidth, known: Option<ModRM>, force: bool,
                            m: ModRM, sib: Option<Sib>) {
    var sibAt := if known.Some? then at else at + 1;
    && (if known.Some? then m == known.value else at < |input| && 64 * m.mod + 8 * m.reg + m.rm == input[at])
    && (sib.Some? <==> !force && width != 16 && m.mod < 3 && m.rm == 4)
    && (sib.Some? ==>
          sibAt < |input| && 64 * sib.value.scale + 8 * sib.value.index + sib.value.base == input[sibAt])
  }

  lemma FieldsOfByte(b: Byte)
    ensures 64 * ModRMOf(b).mod + 8 * ModRMOf(b).reg + ModRMOf(b).rm == b
    ensures 64 * SibOf(b).scale + 8 * SibOf(b).index + SibOf(b).base == b
  {
  }

  lemma SibForm(width: AddressWidth, m: ModRM)
    ensures HasSib(width, m) <==> width != 16 && m.mod < 3 && m.rm == 4
  {
  }

  method ReadHead(c: Context, width: AddressWidth, known: Option<ModRM>, force: bool)
      returns (st: Status, m: ModRM, sib: Option<Sib>)
    requires c.Valid()
    modifies c`length, c`buffer
    ensures c.Valid()
    ensures var h := Head(width, known, force, Readable(c.input, old(c.length)));
      && (st == Success <==> h.Some?)
      && (st == Success ==> h.value == (m, sib, c.length - old(c.length)))
    ensures st == Success ==> HeadBytes(c.input, old(c.length), width, known, force, m, sib)
  {
    hide Readable; hide HasSib; hide ModRMOf; hide SibOf;
    ReadableAt(c.input, c.length, 0);
    ReadableAt(c.input, c.length, 1);
    SibForm(width, if known.Some? then known.value else ModRMOf(if c.length < |c.input| then c.input[c.length] else 0));
    sib := None;
    st := Success;
    if known.Some? {
      m := known.value;
    } else {
      var byte;
      st, byte := c.InputNext();
      m := ModRMOf(byte);
      FieldsOfByte(byte);
      if st != Success { return; }
    }
    if !force && HasSib(width, m) {
      var byte;
      st, byte := c.InputNext();
      sib := Some(SibOf(byte));
      FieldsOfByte(byte);
    }
  }

  lemma SizeCases(width: AddressWidth, m: ModRM, base: Bits3)
    ensures DispSize(width, m, base) in {0, 8, 16, 32}
  {
  }

  lemma TailAt(width: AddressWidth, known: Option<ModRM>, force: bool, bytes: seq<Byte>,
               m: ModRM, sib: Option<Sib>, k: nat, size: nat)
    requires Head(width, known, force, bytes) == Some((m, sib, k))
    requires size == if force then 0 else DispSize(width, m, SibBase(sib))
    ensures k <= |bytes| && (sib.Some? <==> !force && HasSib(width, m))
    ensures size == 0 ==> Tail(width, known, force, bytes) == Some((Parts(m, sib, 0, 0), k))
    ensures size > 0 && |bytes[k..]| < size / 8 ==> Tail(width, known, force, bytes) == None
    ensures size > 0 && |bytes[k..]| >= size / 8 ==>
      Tail(width, known, force, bytes) == Some((Parts(m, sib, size, Signed(bytes[k..][..size / 8])), k + size / 8))
  {
    assert bytes[k..][..0] == [] && Signed([]) == 0;
    hide Signed; hide DispSize; hide SibBase;
  }

  lemma NoHeadNoTail(width: AddressWidth, known: Option<ModRM>, force: bool, bytes: seq<Byte>)
    ensures Head(width, known, force, bytes) == None ==> Tail(width, known, force, bytes) == None
  {
  }

  lemma ReadableDrop(input: seq<Byte>, from: nat, k: nat)
    requires from <= |input| && from <= MAX_INSTRUCTION_LENGTH && k <= |Readable(input, from)|
    ensures from + k <= |input| && from + k <= MAX_INSTRUCTION_LENGTH
    ensures Readable(input, from + k) == Readable(input, from)[k..]
  {
  }

  /** The displacement's size in bits, form by form. */
  ghost predicate DisplacementForm(width: AddressWidth, force: bool, m: ModRM, sib: Option<Sib>, size: nat) {
    && (force || m.mod == 3 ==> size == 0)
    && (!force && m.mod == 1 ==> size == 8)
    && (!force && m.mod == 2 ==> size == if width == 16 then 16 else 32)
    && (!force && m.mod == 0 && width == 16 ==> size == if m.rm == 6 then 16 else 0)
    && (!force && m.mod == 0 && width != 16 ==>
          size == if m.rm == 5 || (sib.Some? && sib.value.base == 5) then 32 else 0)
  }

  /** The displacement is the signed value of the bytes before `end`, least significant first. */
  ghost predicate DisplacementBytes(input: seq<Byte>, end: nat, size: nat, disp: int) {
    && size / 8 <= end <= |input|
    && (size == 0 ==> disp == 0)
    && (size == 8 ==> IsSigned(disp, 0x80, input[end - 1]))
    && (size == 16 ==> IsSigned(disp, 0x8000, Two(input[end - 2], input[end - 1])))
    && (size == 32 ==>
          IsSigned(disp, 0x8000_0000, Four(input[end - 4], input[end - 3], input[end - 2], input[end - 1])))
  }

  lemma FormOfSize(width: AddressWidth, force: bool, m: ModRM, sib: Option<Sib>)
    requires sib.Some? <==> !force && HasSib(width, m)
    ensures DisplacementForm(width, force, m, sib, if force then 0 else DispSize(width, m, SibBase(sib)))
  {
  }

  lemma NoDisplacement(input: seq<Byte>, end: nat)
    requires end <= |input|
    ensures DisplacementBytes(input, end, 0, 0)
  {
  }

  lemma BytesOfDisplacement(input: seq<Byte>, from: nat, size: nat)
    requires size in {8, 16, 32} && from <= |input| && from <= MAX_INSTRUCTION_LENGTH
    requires size / 8 <= |Readable(input, from)|
    ensures DisplacementBytes(input, from + size / 8, size, Signed(Readable(input, from)[..size / 8]))
  {
    hide Signed; hide Readable; hide IsSigned; hide Two; hide Four;
    ReadableBytes(input, from, size / 8);
    SignedByValue(input[from..from + size / 8]);
  }

  /** ZydisDecodeOptionalInstructionParts up to the displacement. */
  method DecodeOptionalParts(c: Context, width: AddressWidth, known: Option<ModRM>, force: bool)
      returns (st: Status, parts: Parts)
    requires c.Valid()
    modifies c`length, c`buffer
    ensures c.Valid()
    ensures var t := Tail(width, known, force, Readable(c.input, old(c.length)));
      && (st == Success <==> t.Some?)
      && (st == Success ==> t.value == (parts, c.length - old(c.length)))
    ensures st == Success ==> HeadBytes(c.input, old(c.length), width, known, force, parts.modrm, parts.sib)
    ensures st == Success ==> DisplacementForm(width, force, parts.modrm, parts.sib, parts.dispSize)
    ensures st == Success ==> DisplacementBytes(c.input, c.length, parts.dispSize, parts.disp)
  {
    hide DisplacementBytes; hide DisplacementForm; hide HeadBytes; hide Head; hide HasSib; hide PhysicalSize;
    hide DispSize; hide Readable; hide Signed; hide SibBase; hide Tail;
    var m, sib;
    ghost var bytes := Readable(c.input, c.length);
    ghost var start := c.length;
    NoHeadNoTail(width, known, force, bytes);
    st, m, sib := ReadHead(c, width, known, force);
    parts := Parts(m, sib, 0, 0);
    if st != Success { return; }
    ghost var k := c.length - start;
    TailAt(width, known, force, bytes, m, sib, k, if force then 0 else DispSize(width, m, SibBase(sib)));
    FormOfSize(width, force, m, sib);
    NoDisplacement(c.input, c.length);
    if force { return; }
    var size := PhysicalSize(width, m, sib);
    PhysicalIsTabled(width, m, sib);
    ReadableDrop(c.input, start, k);
    SizeCases(width, m, SibBase(sib));
    if size != 0 {
      var disp;
      st, disp := ReadDisplacement(c, size);
      parts := Parts(m, sib, size, disp);
      if st == Success { BytesOfDisplacement(c.input, start + k, size); }
    }
  }
}
