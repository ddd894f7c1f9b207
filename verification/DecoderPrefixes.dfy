/** Prefix bytes of an instruction: the declarative reading that ZydisCollectOptionalPrefixes
    (Share/Hook/Zydis/Decoder.c) is proved against. */
module DecoderPrefixes {
  import opened Words

  const MAX_INSTRUCTION_LENGTH: nat := 15

  datatype MachineMode = Long64 | LongCompat32 | LongCompat16 | Legacy32 | Legacy16 | Real16

  /** The prefix groups of section 2.1.1 of the Intel SDM, Volume 2, split where the decoder splits them;
      `Segment` joins the two kinds of segment override. */
  datatype Group = Lock | Repeat | PlainSegment | FsGs | Segment | OperandSize | AddressSize

  predicate In(g: Group, b: Byte) {
    match g
    case Lock => b == 0xF0
    case Repeat => b == 0xF2 || b == 0xF3
    case PlainSegment => b == 0x2E || b == 0x36 || b == 0x3E || b == 0x26
    case FsGs => b == 0x64 || b == 0x65
    case Segment => b == 0x2E || b == 0x36 || b == 0x3E || b == 0x26 || b == 0x64 || b == 0x65
    case OperandSize => b == 0x66
    case AddressSize => b == 0x67
  }

  predicate IsRex(mode: MachineMode, b: Byte) {
    mode == Long64 && 0x40 <= b <= 0x4F
  }

  predicate IsPrefix(mode: MachineMode, b: Byte) {
    In(Lock, b) || In(Repeat, b) || In(Segment, b) || In(OperandSize, b) || In(AddressSize, b) || IsRex(mode, b)
  }

  /** The number of prefix bytes at the start of the input. */
  function PrefixCount(mode: MachineMode, input: seq<Byte>): (n: nat)
    ensures n <= |input|
    ensures forall i :: 0 <= i < n ==> IsPrefix(mode, input[i])
    ensures n < |input| ==> !IsPrefix(mode, input[n])
  {
    if input == [] || !IsPrefix(mode, input[0]) then 0 else 1 + PrefixCount(mode, input[1..])
  }

  function LastIn(ps: seq<Byte>, g: Group): (r: int)
    ensures -1 <= r < |ps|
    ensures r >= 0 ==> In(g, ps[r])
  {
    var n := |ps|;
    if n == 0 then -1 else if In(g, ps[n - 1]) then n - 1 else LastIn(ps[..n - 1], g)
  }

  function FirstIn(ps: seq<Byte>, g: Group): (r: int)
    ensures -1 <= r < |ps|
    ensures r >= 0 ==> In(g, ps[r])
  {
    var n := |ps|;
    if n == 0 then -1
    else
      var r := FirstIn(ps[..n - 1], g);
      if r >= 0 then r else if In(g, ps[n - 1]) then n - 1 else -1
  }

  /** The two searches find the last and the first position, and -1 only when there is none. */
  lemma {:induction false} SearchesAreExact(ps: seq<Byte>, g: Group)
    ensures forall i :: LastIn(ps, g) < i < |ps| ==> !In(g, ps[i])
    ensures forall i :: 0 <= i < (if FirstIn(ps, g) >= 0 then FirstIn(ps, g) else |ps|) ==> !In(g, ps[i])
  {
    var n := |ps|;
    if n > 0 {
      SearchesAreExact(ps[..n - 1], g);
      assert forall i :: 0 <= i < n - 1 ==> ps[i] == ps[..n - 1][i];
    }
  }

  /** The byte a lookup found, or zero. */
  function ByteAt(ps: seq<Byte>, i: int): Byte
    requires i < |ps|
  {
    if i >= 0 then ps[i] else 0
  }

  function Offset(i: int): nat {
    if i >= 0 then i else 0
  }

  /** The mandatory candidate: the last F2 or F3, else the first 66. */
  function CandidateIndex(ps: seq<Byte>): (r: int)
    ensures -1 <= r < |ps|
    ensures r >= 0 ==> In(Repeat, ps[r]) || In(OperandSize, ps[r])
  {
    var r := LastIn(ps, Repeat);
    if r >= 0 then r else FirstIn(ps, OperandSize)
  }

  /** In 64-bit mode FS and GS beat the other segments; elsewhere the last segment prefix wins. */
  function SegmentIndex(mode: MachineMode, ps: seq<Byte>): (r: int)
    ensures -1 <= r < |ps|
  {
    var fs := LastIn(ps, FsGs);
    if mode == Long64 && fs >= 0 then fs else LastIn(ps, Segment)
  }

  /** REX counts only as the last prefix, in 64-bit mode. */
  function EffectiveRex(mode: MachineMode, ps: seq<Byte>): Byte {
    if ps != [] && IsRex(mode, ps[|ps| - 1]) then ps[|ps| - 1] else 0
  }

  /** The decoder's record of the prefixes (context->prefixes). */
  datatype Prefixes = Prefixes(
    hasLock: bool, offsetLock: nat, group1: Byte, offsetGroup1: nat, group2: Byte, offsetGroup2: nat,
    candidate: Byte, offsetMandatory: nat, segment: Byte, offsetSegment: nat,
    offsetOperandSize: nat, offsetAddressSize: nat)

  /** What the bytes `ps` mean, read as a whole. */
  function Reading(mode: MachineMode, ps: seq<Byte>): Prefixes {
    var lock, g1, g2 := LastIn(ps, Lock), LastIn(ps, Repeat), LastIn(ps, Segment);
    var c, s := CandidateIndex(ps), SegmentIndex(mode, ps);
    Prefixes(
      lock >= 0, Offset(lock), ByteAt(ps, g1), Offset(g1), ByteAt(ps, g2), Offset(g2),
      ByteAt(ps, c), Offset(c), ByteAt(ps, s), Offset(s),
      Offset(LastIn(ps, OperandSize)), Offset(LastIn(ps, AddressSize)))
  }

  datatype PrefixKind = Ignored | Effective | Mandatory

  /** The last 66, the last 67 and an effective REX are marked; all other prefixes are ignored. */
  function KindAt(mode: MachineMode, ps: seq<Byte>, i: nat): PrefixKind {
    if i == LastIn(ps, OperandSize) || i == LastIn(ps, AddressSize)
       || (i == |ps| - 1 && EffectiveRex(mode, ps) != 0)
    then Effective else Ignored
  }

  // ---------------------------------------------------------------- one more byte

  lemma LastInSnoc(ps: seq<Byte>, b: Byte, g: Group)
    ensures LastIn(ps + [b], g) == if In(g, b) then |ps| else LastIn(ps, g)
  {
    assert (ps + [b])[..|ps|] == ps;
  }

  lemma FirstInSnoc(ps: seq<Byte>, b: Byte, g: Group)
    ensures FirstIn(ps + [b], g) ==
      if FirstIn(ps, g) >= 0 then FirstIn(ps, g) else if In(g, b) then |ps| else -1
  {
    assert (ps + [b])[..|ps|] == ps;
  }

  /** One prefix byte's effect on the record, as the switch of ZydisCollectOptionalPrefixes has it. */
  function AfterByte(mode: MachineMode, p: Prefixes, b: Byte, offset: nat): Prefixes {
    if In(Lock, b) then p.(hasLock := true, offsetLock := offset)
    else if In(Repeat, b) then
      p.(group1 := b, candidate := b, offsetGroup1 := offset, offsetMandatory := offset)
    else if In(PlainSegment, b) then
      var q := p.(group2 := b, offsetGroup2 := offset);
      if mode != Long64 || !In(FsGs, p.segment) then q.(segment := b, offsetSegment := offset) else q
    else if In(FsGs, b) then
      p.(group2 := b, offsetGroup2 := offset, segment := b, offsetSegment := offset)
    else if In(OperandSize, b) then
      var q := p.(offsetOperandSize := offset);
      if p.candidate == 0 then q.(candidate := b, offsetMandatory := offset) else q
    else if In(AddressSize, b) then p.(offsetAddressSize := offset)
    else p
  }

  lemma CandidateSnoc(ps: seq<Byte>, b: Byte)
    ensures CandidateIndex(ps + [b]) ==
      if In(Repeat, b) || (In(OperandSize, b) && CandidateIndex(ps) < 0) then |ps| else CandidateIndex(ps)
  {
    LastInSnoc(ps, b, Repeat);
    FirstInSnoc(ps, b, OperandSize);
  }

  lemma SegmentSnoc(mode: MachineMode, ps: seq<Byte>, b: Byte)
    ensures SegmentIndex(mode, ps + [b]) ==
      if In(FsGs, b) || (In(PlainSegment, b) && !(mode == Long64 && In(FsGs, ByteAt(ps, SegmentIndex(mode, ps)))))
      then |ps| else SegmentIndex(mode, ps)
  {
    LastInSnoc(ps, b, FsGs);
    LastInSnoc(ps, b, Segment);
    SearchesAreExact(ps, FsGs);
  }

  lemma ByteAtSnoc(ps: seq<Byte>, b: Byte, i: int)
    requires i <= |ps|
    ensures ByteAt(ps + [b], i) == if i == |ps| then b else ByteAt(ps, i)
  {
  }

  lemma NoCandidate(ps: seq<Byte>)
    ensures ByteAt(ps, CandidateIndex(ps)) == 0 <==> CandidateIndex(ps) < 0
  {
  }

  lemma Exclusive(b: Byte)
    ensures In(Segment, b) <==> In(PlainSegment, b) || In(FsGs, b)
    ensures In(Lock, b) ==> !In(Repeat, b) && !In(Segment, b) && !In(OperandSize, b) && !In(AddressSize, b)
    ensures In(Repeat, b) ==> !In(Segment, b) && !In(OperandSize, b) && !In(AddressSize, b)
    ensures In(Segment, b) ==> !In(OperandSize, b) && !In(AddressSize, b)
    ensures In(PlainSegment, b) ==> !In(FsGs, b)
    ensures In(OperandSize, b) ==> !In(AddressSize, b)
  {
  }

  lemma RepeatSnoc(mode: MachineMode, ps: seq<Byte>, b: Byte)
    ensures var r, a := Reading(mode, ps + [b]), AfterByte(mode, Reading(mode, ps), b, |ps|);
      r.group1 == a.group1 && r.offsetGroup1 == a.offsetGroup1
  {
    hide LastIn; hide FirstIn; hide CandidateIndex; hide SegmentIndex; hide ByteAt; hide In;
    LastInSnoc(ps, b, Repeat);
    ByteAtSnoc(ps, b, LastIn(ps + [b], Repeat));
    Exclusive(b);
  }

  lemma MandatorySnoc(mode: MachineMode, ps: seq<Byte>, b: Byte)
    ensures var r, a := Reading(mode, ps + [b]), AfterByte(mode, Reading(mode, ps), b, |ps|);
      r.candidate == a.candidate && r.offsetMandatory == a.offsetMandatory
  {
    hide LastIn; hide FirstIn; hide CandidateIndex; hide SegmentIndex; hide ByteAt; hide In;
    CandidateSnoc(ps, b);
    NoCandidate(ps);
    ByteAtSnoc(ps, b, CandidateIndex(ps + [b]));
    Exclusive(b);
  }

  lemma Group2Snoc(mode: MachineMode, ps: seq<Byte>, b: Byte)
    ensures var r, a := Reading(mode, ps + [b]), AfterByte(mode, Reading(mode, ps), b, |ps|);
      r.group2 == a.group2 && r.offsetGroup2 == a.offsetGroup2
  {
    hide LastIn; hide FirstIn; hide CandidateIndex; hide SegmentIndex; hide ByteAt; hide In;
    LastInSnoc(ps, b, Segment);
    ByteAtSnoc(ps, b, LastIn(ps + [b], Segment));
    Exclusive(b);
  }

  lemma EffectiveSegmentSnoc(mode: MachineMode, ps: seq<Byte>, b: Byte)
    ensures var r, a := Reading(mode, ps + [b]), AfterByte(mode, Reading(mode, ps), b, |ps|);
      r.segment == a.segment && r.offsetSegment == a.offsetSegment
  {
    hide LastIn; hide FirstIn; hide CandidateIndex; hide SegmentIndex; hide ByteAt; hide In;
    SegmentSnoc(mode, ps, b);
    ByteAtSnoc(ps, b, SegmentIndex(mode, ps + [b]));
    Exclusive(b);
  }

  /** The byte-by-byte update keeps the record equal to the reading of the bytes so far. */
  lemma ReadingSnoc(mode: MachineMode, ps: seq<Byte>, b: Byte)
    ensures Reading(mode, ps + [b]) == AfterByte(mode, Reading(mode, ps), b, |ps|)
  {
    hide LastIn; hide FirstIn; hide CandidateIndex; hide SegmentIndex; hide ByteAt; hide In;
    RepeatSnoc(mode, ps, b);
    MandatorySnoc(mode, ps, b);
    Group2Snoc(mode, ps, b);
    EffectiveSegmentSnoc(mode, ps, b);
    LastInSnoc(ps, b, Lock);
    LastInSnoc(ps, b, OperandSize);
    LastInSnoc(ps, b, AddressSize);
    Exclusive(b);
  }

  // ---------------------------------------------------------------- the record, in the bytes themselves

  /** The last byte of `ps` that is one of these, zero when there is none. */
  function LastOf(ps: seq<Byte>, among: set<Byte>): Byte {
    var n := |ps|;
    if n == 0 then 0 else if ps[n - 1] in among then ps[n - 1] else LastOf(ps[..n - 1], among)
  }

  lemma {:induction false} LastOfGroup(ps: seq<Byte>, g: Group, among: set<Byte>)
    requires forall b: Byte :: In(g, b) <==> b in among
    ensures LastOf(ps, among) == ByteAt(ps, LastIn(ps, g))
    decreases |ps|
  {
    if ps != [] {
      LastOfGroup(ps[..|ps| - 1], g, among);
    }
  }

  lemma PrefixBytes(mode: MachineMode, b: Byte)
    ensures IsPrefix(mode, b) <==>
      || b in {0xF0, 0xF2, 0xF3, 0x2E, 0x36, 0x3E, 0x26, 0x64, 0x65, 0x66, 0x67}
      || (mode == Long64 && 0x40 <= b < 0x50)
  {
  }

  /** Lock and the three groups as recorded, and the size overrides. */
  lemma GroupsInBytes(mode: MachineMode, ps: seq<Byte>)
    ensures var r := Reading(mode, ps);
      && (r.hasLock <==> 0xF0 in ps)
      && r.group1 == LastOf(ps, {0xF2, 0xF3})
      && r.group2 == LastOf(ps, {0x2E, 0x36, 0x3E, 0x26, 0x64, 0x65})
      && (LastIn(ps, OperandSize) >= 0 <==> 0x66 in ps) && (LastIn(ps, AddressSize) >= 0 <==> 0x67 in ps)
  {
    LastOfGroup(ps, Repeat, {0xF2, 0xF3});
    LastOfGroup(ps, Segment, {0x2E, 0x36, 0x3E, 0x26, 0x64, 0x65});
    SearchesAreExact(ps, Lock);
    SearchesAreExact(ps, OperandSize);
    SearchesAreExact(ps, AddressSize);
    hide LastOf;
  }

  /** The effective segment: FS or GS in 64-bit mode if there is one, else the last override of any kind. */
  lemma SegmentInBytes(mode: MachineMode, ps: seq<Byte>)
    ensures Reading(mode, ps).segment ==
      var fs := LastOf(ps, {0x64, 0x65});
      if mode == Long64 && fs != 0 then fs else LastOf(ps, {0x2E, 0x36, 0x3E, 0x26, 0x64, 0x65})
  {
    LastOfGroup(ps, FsGs, {0x64, 0x65});
    LastOfGroup(ps, Segment, {0x2E, 0x36, 0x3E, 0x26, 0x64, 0x65});
    hide LastOf; hide LastIn;
  }

  /** Position `i` of the prefix bytes holds the last one of these. */
  ghost predicate LastAt(ps: seq<Byte>, i: nat, among: set<Byte>) {
    i < |ps| && ps[i] in among && forall j :: i < j < |ps| ==> ps[j] !in among
  }

  /** The positions on record are those of the bytes on record. */
  lemma OffsetsInBytes(mode: MachineMode, ps: seq<Byte>)
    ensures var r := Reading(mode, ps);
      && (0xF0 in ps ==> LastAt(ps, r.offsetLock, {0xF0}))
      && (r.group1 != 0 ==> LastAt(ps, r.offsetGroup1, {0xF2, 0xF3}))
      && (r.group2 != 0 ==> LastAt(ps, r.offsetGroup2, {0x2E, 0x36, 0x3E, 0x26, 0x64, 0x65}))
      && (0x66 in ps ==> LastAt(ps, r.offsetOperandSize, {0x66}))
      && (0x67 in ps ==> LastAt(ps, r.offsetAddressSize, {0x67}))
  {
    SearchesAreExact(ps, Lock);
    SearchesAreExact(ps, Repeat);
    SearchesAreExact(ps, Segment);
    SearchesAreExact(ps, OperandSize);
    SearchesAreExact(ps, AddressSize);
    hide LastIn; hide FirstIn; hide CandidateIndex; hide SegmentIndex;
  }

  /** The marks: the last 66, the last 67, and a REX prefix in the last place in 64-bit mode. */
  lemma KindInBytes(mode: MachineMode, ps: seq<Byte>, i: nat)
    requires i < |ps|
    ensures KindAt(mode, ps, i) ==
      if LastAt(ps, i, {0x66}) || LastAt(ps, i, {0x67}) || (i == |ps| - 1 && mode == Long64 && 0x40 <= ps[i] < 0x50)
      then Effective else Ignored
  {
    SearchesAreExact(ps, OperandSize);
    SearchesAreExact(ps, AddressSize);
    hide LastIn; hide FirstIn;
  }
}
