/** How the tree walk of Share/Hook/Zydis/Decoder.c re-marks prefixes, and how its fallback undoes that. */
module DecoderMarks {
  import opened Words
  import opened DecoderPrefixes

  /** What the walk may still change of the prefix information. */
  datatype Marks = Marks(kinds: seq<PrefixKind>, operandSize: bool)

  /** MANDATORY_PREFIX: the child to try; never child 0, which is the fallback. */
  function MandatoryIndex(p: Prefixes): (i: nat)
    ensures 1 <= i <= 4
    ensures (i == 2 <==> p.candidate == 0x66) && (i == 3 <==> p.candidate == 0xF3) && (i == 4 <==> p.candidate == 0xF2)
  {
    if p.candidate == 0x66 then 2 else if p.candidate == 0xF3 then 3 else if p.candidate == 0xF2 then 4 else 1
  }

  function IsCandidate(p: Prefixes): bool {
    p.candidate == 0x66 || p.candidate == 0xF3 || p.candidate == 0xF2
  }

  /** What the mandatory-prefix handler does to the marks. */
  function Consumed(p: Prefixes, m: Marks): Marks
    requires Fits(p, m)
  {
    if IsCandidate(p) then
      Marks(m.kinds[p.offsetMandatory := Mandatory], m.operandSize && p.candidate != 0x66)
    else m
  }

  /** What taking the fallback does to the marks. */
  function Released(p: Prefixes, m: Marks): Marks
    requires Fits(p, m)
  {
    if p.candidate == 0 then m
    else
      var single := p.candidate == 0x66 && p.offsetOperandSize == p.offsetMandatory;
      Marks(m.kinds[p.offsetMandatory := if single then Effective else Ignored],
            m.operandSize || p.candidate == 0x66)
  }

  /** What the operand-size handler does to the marks. */
  function Sized(p: Prefixes, m: Marks, mode: MachineMode, wide: bool): Marks
    requires Fits(p, m)
  {
    if !(mode == Long64 && wide) && m.operandSize then
      m.(kinds := m.kinds[p.offsetOperandSize := Effective])
    else m
  }

  function OperandSizeIndex(mode: MachineMode, wide: bool, operandSize: bool): (i: nat)
    ensures i < 3
  {
    if mode == Long64 && wide then 2
    else if mode == LongCompat16 || mode == Legacy16 || mode == Real16 then (if operandSize then 1 else 0)
    else if operandSize then 0 else 1
  }

  /** Every offset the handlers use lies within the recorded prefixes. */
  predicate Fits(p: Prefixes, m: Marks) {
    && (p.candidate != 0 ==> p.offsetMandatory < |m.kinds|)
    && (m.operandSize || p.candidate == 0x66 ==> p.offsetOperandSize < |m.kinds|)
  }

  lemma FitsKept(p: Prefixes, m: Marks, mode: MachineMode, wide: bool)
    requires Fits(p, m)
    ensures Fits(p, Consumed(p, m)) && Fits(p, Released(p, m)) && Fits(p, Sized(p, m, mode, wide))
  {
  }

  /** The marks as collecting the prefixes leaves them. */
  ghost predicate AsCollected(p: Prefixes, m: Marks) {
    && Fits(p, m)
    && (m.operandSize ==> m.kinds[p.offsetOperandSize] == Effective)
    && (p.candidate != 0 ==> IsCandidate(p))
    && (p.candidate == 0x66 ==> m.operandSize)
    && (p.candidate != 0 ==>
          var single := p.candidate == 0x66 && p.offsetOperandSize == p.offsetMandatory;
          m.kinds[p.offsetMandatory] == if single then Effective else Ignored)
  }

  lemma CollectedFits(p: Prefixes, m: Marks)
    requires AsCollected(p, m)
    ensures Fits(p, m)
  {
  }

  lemma CandidateKind(mode: MachineMode, ps: seq<Byte>)
    requires CandidateIndex(ps) >= 0
    ensures var c := CandidateIndex(ps);
      && (ps[c] == 0x66 || ps[c] == 0xF2 || ps[c] == 0xF3)
      && KindAt(mode, ps, c) == if c == LastIn(ps, Group.OperandSize) then Effective else Ignored
  {
    var c := CandidateIndex(ps);
    assert ps[c] == 0x66 || ps[c] == 0xF2 || ps[c] == 0xF3;
    assert ps[c] != 0x67 && !IsRex(mode, ps[c]);
  }

  lemma CandidateImpliesSize(ps: seq<Byte>)
    requires ByteAt(ps, CandidateIndex(ps)) == 0x66
    ensures LastIn(ps, Group.OperandSize) >= 0
  {
    SearchesAreExact(ps, Group.OperandSize);
  }

  lemma CandidateFields(mode: MachineMode, ps: seq<Byte>)
    ensures var p, c, o := Reading(mode, ps), CandidateIndex(ps), LastIn(ps, Group.OperandSize);
      && (p.candidate != 0 <==> c >= 0) && (c >= 0 ==> p.offsetMandatory == c && p.candidate == ps[c])
      && (o >= 0 ==> p.offsetOperandSize == o && ps[o] == 0x66)
  {
    NoCandidate(ps);
    assert LastIn(ps, Group.OperandSize) >= 0 ==> In(Group.OperandSize, ps[LastIn(ps, Group.OperandSize)]);
    hide LastIn; hide CandidateIndex; hide SegmentIndex;
  }

  /** The marks that the prefix bytes `ps` call for. */
  function MarksOf(mode: MachineMode, ps: seq<Byte>): Marks
    requires |ps| <= MAX_INSTRUCTION_LENGTH
  {
    Marks(seq(MAX_INSTRUCTION_LENGTH, i requires 0 <= i => if i < |ps| then KindAt(mode, ps, i) else Ignored),
          LastIn(ps, Group.OperandSize) >= 0)
  }

  /** Collecting really leaves the marks so. */
  lemma CollectingGivesMarks(mode: MachineMode, ps: seq<Byte>)
    requires |ps| <= MAX_INSTRUCTION_LENGTH
    ensures AsCollected(Reading(mode, ps), MarksOf(mode, ps))
  {
    var m := MarksOf(mode, ps);
    var c, o := CandidateIndex(ps), LastIn(ps, Group.OperandSize);
    CandidateFields(mode, ps);
    if c >= 0 {
      CandidateKind(mode, ps);
      if ps[c] == 0x66 { CandidateImpliesSize(ps); }
    }
    assert o >= 0 ==> KindAt(mode, ps, o) == Effective;
    hide LastIn; hide CandidateIndex; hide SegmentIndex; hide KindAt; hide Reading;
  }

  /** The fallback undoes exactly what the mandatory-prefix handler did. */
  lemma FallbackUndoes(p: Prefixes, m: Marks)
    requires AsCollected(p, m)
    ensures Released(p, Consumed(p, m)) == m
  {
  }

  /** Between the two, the operand-size handler leaves no trace. */
  lemma OperandSizeLeavesNoTrace(p: Prefixes, m: Marks, mode: MachineMode, wide: bool)
    requires AsCollected(p, m)
    ensures Sized(p, m, mode, wide) == m
    ensures Sized(p, Consumed(p, m), mode, wide) == Consumed(p, m)
  {
  }

  // ---------------------------------------------------------------- what the prefix bytes select

  /** The last F2 or F3 among the prefix bytes, zero when there is none. */
  function LastRepeat(ps: seq<Byte>): Byte {
    LastOf(ps, {0xF2, 0xF3})
  }

  /** The child of a mandatory-prefix node to try: an F2 or F3, the last one, goes before any 66. */
  function ChildTried(ps: seq<Byte>): (i: nat)
    ensures 1 <= i <= 4
  {
    if LastRepeat(ps) == 0xF2 then 4
    else if LastRepeat(ps) == 0xF3 then 3
    else if 0x66 in ps then 2
    else 1
  }

  /** The prefix that this choice uses up: the last F2 or F3, or without one the first 66. */
  ghost predicate UsedUp(ps: seq<Byte>, k: nat) {
    && k < |ps|
    && if ps[k] == 0xF2 || ps[k] == 0xF3 then forall j :: k < j < |ps| ==> ps[j] != 0xF2 && ps[j] != 0xF3
       else ps[k] == 0x66 && 0xF2 !in ps && 0xF3 !in ps && 0x66 !in ps[..k]
  }

  lemma SizePrefixOccurs(ps: seq<Byte>)
    ensures 0x66 in ps <==> FirstIn(ps, Group.OperandSize) >= 0
    ensures 0x66 in ps <==> LastIn(ps, Group.OperandSize) >= 0
  {
    SearchesAreExact(ps, Group.OperandSize);
  }

  /** The handler's choice is that one. */
  lemma ChoiceByPrefix(mode: MachineMode, ps: seq<Byte>)
    ensures MandatoryIndex(Reading(mode, ps)) == ChildTried(ps)
  {
    LastOfGroup(ps, Repeat, {0xF2, 0xF3});
    SizePrefixOccurs(ps);
    hide LastRepeat;
  }

  lemma CandidateIsUsedUp(mode: MachineMode, ps: seq<Byte>, k: nat)
    requires k < |ps|
    ensures UsedUp(ps, k) <==> CandidateIndex(ps) == k
  {
    SearchesAreExact(ps, Repeat);
    SearchesAreExact(ps, Group.OperandSize);
    hide LastIn; hide FirstIn;
  }

  lemma MarksFit(mode: MachineMode, ps: seq<Byte>)
    requires |ps| <= MAX_INSTRUCTION_LENGTH
    ensures Fits(Reading(mode, ps), MarksOf(mode, ps))
    ensures |Consumed(Reading(mode, ps), MarksOf(mode, ps)).kinds| == MAX_INSTRUCTION_LENGTH
  {
    CollectingGivesMarks(mode, ps);
  }

  /** The handler marks the prefix used up as mandatory, and no other. */
  lemma MarkedByPrefix(mode: MachineMode, ps: seq<Byte>, k: nat)
    requires |ps| <= MAX_INSTRUCTION_LENGTH && k < |ps|
    ensures Fits(Reading(mode, ps), MarksOf(mode, ps))
    ensures k < |Consumed(Reading(mode, ps), MarksOf(mode, ps)).kinds|
    ensures Consumed(Reading(mode, ps), MarksOf(mode, ps)).kinds[k] == Mandatory <==> UsedUp(ps, k)
    ensures MarksOf(mode, ps).kinds[k] != Mandatory
  {
    CollectingGivesMarks(mode, ps);
    CandidateFields(mode, ps);
    CandidateIsUsedUp(mode, ps, k);
    hide UsedUp; hide CandidateIndex; hide Reading; hide LastIn;
  }

  /** The operand-size attribute before and after the handler: any 66 sets it, and one that the choice uses up no longer
      counts. */
  lemma SizeAfterChoice(mode: MachineMode, ps: seq<Byte>)
    requires |ps| <= MAX_INSTRUCTION_LENGTH
    ensures Fits(Reading(mode, ps), MarksOf(mode, ps))
    ensures MarksOf(mode, ps).operandSize <==> 0x66 in ps
    ensures Consumed(Reading(mode, ps), MarksOf(mode, ps)).operandSize <==>
      0x66 in ps && (0xF2 in ps || 0xF3 in ps)
  {
    CollectingGivesMarks(mode, ps);
    SizePrefixOccurs(ps);
    SearchesAreExact(ps, Repeat);
    hide LastIn; hide FirstIn; hide SegmentIndex; hide KindAt;
  }
}
