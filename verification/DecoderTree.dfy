/** The decoder-tree walk of ZydisDecodeInstruction (Share/Hook/Zydis/Decoder.c) with its one saved
    fallback, against backtracking over the tree. */
module DecoderTree {
  import opened Words
  import opened DecoderPrefixes
  import opened DecoderMarks
  import opened DecoderContext

  datatype Filter =
    | Xop | Vex | EmVex | Opcode | Mode | ModeCompact | ModrmMod | ModrmModCompact | ModrmReg | ModrmRm
    | PrefixGroup1 | MandatoryPrefix | OperandSizes | AddressSizes | VectorLength | RexW | RexB | EvexB | MvexE
    | ModeAmd | ModeKnc | ModeMpx | ModeCet | ModeLzcnt | ModeTzcnt | ModeWbnoinvd | ModeCldemote

  /** The child counts of DecoderData.c. */
  function Arity(f: Filter): nat {
    match f
    case Xop => 13
    case Vex => 17
    case EmVex => 33
    case Opcode => 256
    case Mode | ModrmMod => 4
    case ModeCompact | OperandSizes | AddressSizes | VectorLength => 3
    case ModrmReg | ModrmRm => 8
    case MandatoryPrefix => 5
    case _ => 2
  }

  datatype Node = Invalid | Definition(value: nat) | Inner(filter: Filter, children: seq<Node>)

  predicate WellFormed(n: Node) {
    n.Inner? ==> |n.children| == Arity(n.filter) && forall c :: c in n.children ==> WellFormed(c)
  }

  function Size(n: Node): (k: nat)
    ensures k >= 1
  {
    if n.Inner? then 1 + SizeAll(n.children) else 1
  }

  function SizeAll(cs: seq<Node>): nat {
    if cs == [] then 0 else Size(cs[0]) + SizeAll(cs[1..])
  }

  lemma {:induction false} ChildSize(cs: seq<Node>, i: nat)
    requires i < |cs|
    ensures Size(cs[i]) <= SizeAll(cs)
    ensures i > 0 ==> Size(cs[0]) + Size(cs[i]) <= SizeAll(cs)
  {
    if i > 0 {
      ChildSize(cs[1..], i - 1);
      assert cs[i] == cs[1..][i - 1];
    }
  }

  /** The tried child and the saved child 0 are different children: together they are smaller than the
      node, whichever fallback was saved before. */
  lemma SavedAndTriedShrink(n: Node, i: nat)
    requires n.Inner? && 0 < i < |n.children|
    ensures Size(n.children[i]) + Size(n.children[0]) < Size(n)
  {
    ChildSize(n.children, i);
  }

  // ---------------------------------------------------------------- handlers

  /** What a handler answers: a child to take, or a status that ends the decoding. */
  datatype Reply<+R> = Pick(index: nat, rest: R) | Stop(status: Status, rest: R)

  /** `rest` is the remaining decoder state; the handlers not modelled here are functions on it. */
  datatype Env<!R> = Env(prefixes: Prefixes, mode: MachineMode, wide: R -> bool, other: (Filter, R) -> Reply<R>)

  /** Every handler picks an existing child. */
  ghost predicate InRange<R(!new)>(env: Env<R>) {
    forall f, r :: env.other(f, r).Pick? ==> env.other(f, r).index < Arity(f)
  }

  datatype Outcome<+R> = Found(value: nat, marks: Marks, rest: R) | Failed(status: Status) | DeadEnd(rest: R)

  /** Reaching an invalid entry with nothing saved is a decoding error. */
  function Final<R>(o: Outcome<R>): Outcome<R> {
    if o.DeadEnd? then Failed(DecodingError) else o
  }

  // ---------------------------------------------------------------- the two semantics

  /** Backtracking: a mandatory-prefix node whose tried child leads to a dead end is decoded again through
      child 0, with the marks it had on entry. Input read meanwhile stays read. */
  function Backtrack<R(!new)>(env: Env<R>, n: Node, m: Marks, rest: R): Outcome<R>
    requires WellFormed(n) && InRange(env) && Fits(env.prefixes, m)
  {
    match n
    case Invalid => DeadEnd(rest)
    case Definition(v) => Found(v, m, rest)
    case Inner(f, cs) =>
      if f == MandatoryPrefix then
        var first := Backtrack(env, cs[MandatoryIndex(env.prefixes)], Consumed(env.prefixes, m), rest);
        if first.DeadEnd? then Backtrack(env, cs[0], m, first.rest) else first
      else if f == OperandSizes then
        Backtrack(env, cs[OperandSizeIndex(env.mode, env.wide(rest), m.operandSize)], m, rest)
      else
        match env.other(f, rest)
        case Pick(i, r) => Backtrack(env, cs[i], m, r)
        case Stop(st, _) => Failed(st)
  }

  function SavedSize(saved: Option<Node>): nat {
    if saved.Some? then Size(saved.value) else 0
  }

  /** The loop: one saved node, overwritten by the next mandatory-prefix node and used at most once. */
  function SingleSlot<R(!new)>(env: Env<R>, n: Node, saved: Option<Node>, m: Marks, rest: R): Outcome<R>
    requires WellFormed(n) && (saved.Some? ==> WellFormed(saved.value))
    requires InRange(env) && Fits(env.prefixes, m)
    decreases Size(n) + SavedSize(saved)
  {
    var p := env.prefixes;
    match n
    case Invalid =>
      if saved.Some? then SingleSlot(env, saved.value, None, Released(p, m), rest) else Failed(DecodingError)
    case Definition(v) => Found(v, m, rest)
    case Inner(f, cs) =>
      if f == MandatoryPrefix then
        SavedAndTriedShrink(n, MandatoryIndex(p));
        SingleSlot(env, cs[MandatoryIndex(p)], Some(cs[0]), Consumed(p, m), rest)
      else if f == OperandSizes then
        var i := OperandSizeIndex(env.mode, env.wide(rest), m.operandSize);
        ChildSize(cs, i);
        SingleSlot(env, cs[i], saved, Sized(p, m, env.mode, env.wide(rest)), rest)
      else
        match env.other(f, rest)
        case Pick(i, r) => ChildSize(cs, i); SingleSlot(env, cs[i], saved, m, r)
        case Stop(st, _) => Failed(st)
  }

  // ---------------------------------------------------------------- where they agree

  predicate MandatoryFree(n: Node) {
    n.Inner? ==> n.filter != MandatoryPrefix && forall c :: c in n.children ==> MandatoryFree(c)
  }

  /** No mandatory-prefix node lies below a tried child (1 to 4) of another; below child 0 it may. */
  predicate Flat(n: Node) {
    n.Inner? ==>
      if n.filter == MandatoryPrefix && |n.children| > 0 then
        Flat(n.children[0]) && forall c :: c in n.children[1..] ==> MandatoryFree(c)
      else
        forall c :: c in n.children ==> Flat(c)
  }

  /** No mandatory-prefix node in here has anything in its fallback child. */
  predicate Barren(n: Node) {
    n.Inner? ==>
      && (n.filter == MandatoryPrefix && |n.children| > 0 ==> n.children[0] == Invalid)
      && forall c :: c in n.children ==> Barren(c)
  }

  /** Where a mandatory-prefix node has another one below a tried child, all fallback children there are
      empty; elsewhere they may hold anything, again of this form. */
  predicate Tame(n: Node) {
    n.Inner? ==>
      if n.filter == MandatoryPrefix && |n.children| > 0 then
        Barren(n) || (Tame(n.children[0]) && forall c :: c in n.children[1..] ==> MandatoryFree(c))
      else
        forall c :: c in n.children ==> Tame(c)
  }

  lemma {:induction false} FlatIsTame(n: Node)
    requires Flat(n)
    ensures Tame(n)
  {
    if n.Inner? {
      forall c | c in n.children && (n.filter == MandatoryPrefix ==> c == n.children[0])
        ensures Tame(c)
      {
        FlatIsTame(c);
      }
    }
  }

  /** The marks that occur below mandatory-prefix nodes, nested or not. */
  ghost predicate Steady(p: Prefixes, m: Marks) {
    AsCollected(p, m) || exists m0 :: AsCollected(p, m0) && m == Consumed(p, m0)
  }

  lemma SteadyMarks(p: Prefixes, m: Marks, mode: MachineMode, wide: bool)
    requires Steady(p, m)
    ensures Fits(p, m) && Sized(p, m, mode, wide) == m && Steady(p, Consumed(p, m))
  {
    if AsCollected(p, m) {
      OperandSizeLeavesNoTrace(p, m, mode, wide);
      FitsKept(p, m, mode, wide);
    } else {
      var m0 :| AsCollected(p, m0) && m == Consumed(p, m0);
      OperandSizeLeavesNoTrace(p, m0, mode, wide);
      FitsKept(p, m0, mode, wide);
      assert Consumed(p, m) == m;
    }
  }

  /** What the tried children alone lead to. */
  function Tried<R(!new)>(env: Env<R>, n: Node, m: Marks, rest: R): Outcome<R>
    requires WellFormed(n) && InRange(env) && Fits(env.prefixes, m)
  {
    match n
    case Invalid => DeadEnd(rest)
    case Definition(v) => Found(v, m, rest)
    case Inner(f, cs) =>
      if f == MandatoryPrefix then
        Tried(env, cs[MandatoryIndex(env.prefixes)], Consumed(env.prefixes, m), rest)
      else if f == OperandSizes then
        Tried(env, cs[OperandSizeIndex(env.mode, env.wide(rest), m.operandSize)], m, rest)
      else
        match env.other(f, rest)
        case Pick(i, r) => Tried(env, cs[i], m, r)
        case Stop(st, _) => Failed(st)
  }

  /** On every tree, nested or not: a walk that needs no fallback answers as backtracking does. */
  lemma {:induction false} NoFallbackNeeded<R(!new)>(env: Env<R>, n: Node, saved: Option<Node>, m: Marks, rest: R)
    requires WellFormed(n) && (saved.Some? ==> WellFormed(saved.value)) && InRange(env)
    requires Steady(env.prefixes, m) && Fits(env.prefixes, m) && !Tried(env, n, m, rest).DeadEnd?
    ensures SingleSlot(env, n, saved, m, rest) == Tried(env, n, m, rest) == Backtrack(env, n, m, rest)
  {
    match n
    case Invalid =>
    case Definition(v) =>
    case Inner(f, cs) =>
      SteadyMarks(env.prefixes, m, env.mode, env.wide(rest));
      if f == MandatoryPrefix {
        NoFallbackNeeded(env, cs[MandatoryIndex(env.prefixes)], Some(cs[0]), Consumed(env.prefixes, m), rest);
      } else if f == OperandSizes {
        NoFallbackNeeded(env, cs[OperandSizeIndex(env.mode, env.wide(rest), m.operandSize)], saved, m, rest);
      } else if env.other(f, rest).Pick? {
        NoFallbackNeeded(env, cs[env.other(f, rest).index], saved, m, env.other(f, rest).rest);
      }
  }

  /** With nothing in any fallback child, nesting does no harm. */
  lemma {:induction false} BarrenBacktracks<R(!new)>(env: Env<R>, n: Node, saved: Option<Node>, m: Marks, rest: R)
    requires WellFormed(n) && Barren(n) && (saved.None? || saved.value == Invalid) && InRange(env)
    requires Steady(env.prefixes, m) && Fits(env.prefixes, m)
    ensures SingleSlot(env, n, saved, m, rest) == Final(Backtrack(env, n, m, rest))
  {
    match n
    case Invalid =>
    case Definition(v) =>
    case Inner(f, cs) =>
      SteadyMarks(env.prefixes, m, env.mode, env.wide(rest));
      if f == MandatoryPrefix {
        BarrenBacktracks(env, cs[MandatoryIndex(env.prefixes)], Some(cs[0]), Consumed(env.prefixes, m), rest);
      } else if f == OperandSizes {
        BarrenBacktracks(env, cs[OperandSizeIndex(env.mode, env.wide(rest), m.operandSize)], saved, m, rest);
      } else if env.other(f, rest).Pick? {
        BarrenBacktracks(env, cs[env.other(f, rest).index], saved, m, env.other(f, rest).rest);
      }
  }

  /** Below a tried child the loop follows backtracking until the dead end, where it takes what is saved. */
  lemma {:induction false} SlotUntilDeadEnd<R(!new)>(env: Env<R>, n: Node, saved: Option<Node>, m: Marks, rest: R)
    requires WellFormed(n) && (saved.Some? ==> WellFormed(saved.value)) && MandatoryFree(n)
    requires InRange(env) && Fits(env.prefixes, m)
    requires forall w :: Sized(env.prefixes, m, env.mode, w) == m
    ensures var o := Backtrack(env, n, m, rest);
      SingleSlot(env, n, saved, m, rest) ==
        if o.DeadEnd? && saved.Some? then SingleSlot(env, saved.value, None, Released(env.prefixes, m), o.rest)
        else Final(o)
  {
    match n
    case Invalid =>
    case Definition(v) =>
    case Inner(f, cs) =>
      if f == OperandSizes {
        SlotUntilDeadEnd(env, cs[OperandSizeIndex(env.mode, env.wide(rest), m.operandSize)], saved, m, rest);
      } else if env.other(f, rest).Pick? {
        SlotUntilDeadEnd(env, cs[env.other(f, rest).index], saved, m, env.other(f, rest).rest);
      }
  }

  /** On a tame tree the loop with its one saved node is backtracking, marks included. */
  lemma {:induction false} SingleSlotBacktracks<R(!new)>(env: Env<R>, n: Node, m: Marks, rest: R)
    requires WellFormed(n) && Tame(n) && InRange(env)
    requires AsCollected(env.prefixes, m)
    ensures SingleSlot(env, n, None, m, rest) == Final(Backtrack(env, n, m, rest))
  {
    if Barren(n) {
      BarrenBacktracks(env, n, None, m, rest);
      return;
    }
    var p := env.prefixes;
    match n
    case Invalid =>
    case Definition(v) =>
    case Inner(f, cs) =>
      if f == MandatoryPrefix {
        OverMandatory(env, cs, m, rest);
        var first := Backtrack(env, cs[MandatoryIndex(p)], Consumed(p, m), rest);
        if first.DeadEnd? {
          SingleSlotBacktracks(env, cs[0], m, first.rest);
        }
      } else if f == OperandSizes {
        OperandSizeLeavesNoTrace(p, m, env.mode, env.wide(rest));
        SingleSlotBacktracks(env, cs[OperandSizeIndex(env.mode, env.wide(rest), m.operandSize)], m, rest);
      } else if env.other(f, rest).Pick? {
        SingleSlotBacktracks(env, cs[env.other(f, rest).index], m, env.other(f, rest).rest);
      }
  }

  /** A mandatory-prefix node with no other one below its tried children: child 0 comes next, with the marks
      restored. */
  lemma OverMandatory<R(!new)>(env: Env<R>, cs: seq<Node>, m: Marks, rest: R)
    requires WellFormed(Inner(MandatoryPrefix, cs)) && InRange(env) && AsCollected(env.prefixes, m)
    requires forall c :: c in cs[1..] ==> MandatoryFree(c)
    ensures var first := Backtrack(env, cs[MandatoryIndex(env.prefixes)], Consumed(env.prefixes, m), rest);
      SingleSlot(env, Inner(MandatoryPrefix, cs), None, m, rest) ==
        if first.DeadEnd? then SingleSlot(env, cs[0], None, m, first.rest) else first
  {
    var p, i := env.prefixes, MandatoryIndex(env.prefixes);
    assert cs[i] in cs[1..];
    FallbackUndoes(p, m);
    OperandSizeLeavesNoTrace(p, m, env.mode, false);
    OperandSizeLeavesNoTrace(p, m, env.mode, true);
    SlotUntilDeadEnd(env, cs[i], Some(cs[0]), Consumed(p, m), rest);
  }

  /** Outside the tame trees, first way: below a tried child a second mandatory-prefix node overwrites the saved
      node, and the outer alternative is never tried. */
  lemma NestedNodeLosesAlternative<R(!new)>(env: Env<R>, m: Marks, rest: R, v: nat)
    requires InRange(env) && Fits(env.prefixes, m)
    ensures var dead := Inner(MandatoryPrefix, [Invalid, Invalid, Invalid, Invalid, Invalid]);
      var n := Inner(MandatoryPrefix, [Definition(v), dead, dead, dead, dead]);
      && WellFormed(n) && !Tame(n)
      && Backtrack(env, n, m, rest) == Found(v, m, rest)
      && SingleSlot(env, n, None, m, rest) == Failed(DecodingError)
  {
    var p, i := env.prefixes, MandatoryIndex(env.prefixes);
    var dead := Inner(MandatoryPrefix, [Invalid, Invalid, Invalid, Invalid, Invalid]);
    var n := Inner(MandatoryPrefix, [Definition(v), dead, dead, dead, dead]);
    var m1, m2 := Consumed(p, m), Consumed(p, Consumed(p, m));
    assert n.children[1..][0] == dead && !MandatoryFree(dead);
    assert !Barren(n);
    assert n.children[i] == dead && dead.children[i] == Invalid;
    assert Backtrack(env, dead, m1, rest) == DeadEnd(rest);
    assert SingleSlot(env, dead.children[i], Some(Invalid), m2, rest) == Failed(DecodingError);
    assert SingleSlot(env, dead, Some(Definition(v)), m1, rest) == Failed(DecodingError);
  }

  /** Second way: the inner node's fallback is found, but with all marks released instead of the outer
      node's still consumed. */
  lemma NestedFallbackReleasesOuterMark<R(!new)>(env: Env<R>, m: Marks, rest: R, v: nat)
    requires InRange(env) && AsCollected(env.prefixes, m) && IsCandidate(env.prefixes)
    ensures var inner := Inner(MandatoryPrefix, [Definition(v), Invalid, Invalid, Invalid, Invalid]);
      var n := Inner(MandatoryPrefix, [Invalid, inner, inner, inner, inner]);
      && WellFormed(n) && !Tame(n)
      && Backtrack(env, n, m, rest) == Found(v, Consumed(env.prefixes, m), rest)
      && SingleSlot(env, n, None, m, rest) == Found(v, m, rest)
      && Consumed(env.prefixes, m) != m
  {
    var p, i := env.prefixes, MandatoryIndex(env.prefixes);
    var inner := Inner(MandatoryPrefix, [Definition(v), Invalid, Invalid, Invalid, Invalid]);
    var n := Inner(MandatoryPrefix, [Invalid, inner, inner, inner, inner]);
    var m1 := Consumed(p, m);
    assert n.children[1..][0] == inner && inner in n.children && !MandatoryFree(inner) && !Barren(inner);
    assert n.children[i] == inner && inner.children[i] == Invalid;
    assert Consumed(p, m1) == m1;
    FallbackUndoes(p, m);
    assert m1.kinds[p.offsetMandatory] == Mandatory != m.kinds[p.offsetMandatory];
    assert Backtrack(env, inner, m1, rest) == Found(v, m1, rest);
    assert SingleSlot(env, inner.children[i], Some(Definition(v)), m1, rest) == Found(v, m, rest);
    assert SingleSlot(env, inner, Some(Invalid), m1, rest) == Found(v, m, rest);
  }

  // ---------------------------------------------------------------- the loop

  /** One turn of the loop. */
  lemma SlotUnfolds<R(!new)>(env: Env<R>, n: Node, saved: Option<Node>, m: Marks, rest: R)
    requires WellFormed(n) && (saved.Some? ==> WellFormed(saved.value))
    requires InRange(env) && Fits(env.prefixes, m)
    ensures n.Invalid? && saved.None? ==> SingleSlot(env, n, saved, m, rest) == Failed(DecodingError)
    ensures n.Invalid? && saved.Some? ==>
      SingleSlot(env, n, saved, m, rest) == SingleSlot(env, saved.value, None, Released(env.prefixes, m), rest)
    ensures n.Definition? ==> SingleSlot(env, n, saved, m, rest) == Found(n.value, m, rest)
    ensures n.Inner? && n.filter == MandatoryPrefix ==> |n.children| == 5
    ensures n.Inner? && n.filter == OperandSizes ==> |n.children| == 3
    ensures n.Inner? && env.other(n.filter, rest).Pick? ==> env.other(n.filter, rest).index < |n.children|
    ensures n.Inner? ==> forall i :: 0 <= i < |n.children| ==>
      WellFormed(n.children[i]) && Size(n.children[i]) < Size(n)
    ensures n.Inner? && n.filter == MandatoryPrefix ==>
      var i := MandatoryIndex(env.prefixes);
      && SingleSlot(env, n, saved, m, rest) ==
           SingleSlot(env, n.children[i], Some(n.children[0]), Consumed(env.prefixes, m), rest)
      && Size(n.children[i]) + Size(n.children[0]) < Size(n)
    ensures n.Inner? && n.filter == OperandSizes ==>
      var i := OperandSizeIndex(env.mode, env.wide(rest), m.operandSize);
      SingleSlot(env, n, saved, m, rest) ==
        SingleSlot(env, n.children[i], saved, Sized(env.prefixes, m, env.mode, env.wide(rest)), rest)
    ensures n.Inner? && n.filter != MandatoryPrefix && n.filter != OperandSizes ==>
      SingleSlot(env, n, saved, m, rest) ==
        var reply := env.other(n.filter, rest);
        if reply.Pick? then SingleSlot(env, n.children[reply.index], saved, m, reply.rest) else Failed(reply.status)
  {
    if n.Inner? {
      forall i | 0 <= i < |n.children|
        ensures WellFormed(n.children[i]) && Size(n.children[i]) < Size(n)
      {
        ChildSize(n.children, i);
      }
      if n.filter == MandatoryPrefix { SavedAndTriedShrink(n, MandatoryIndex(env.prefixes)); }
    }
  }

  /** What a mandatory-prefix node does, from the prefix bytes: the child that they select is tried, with child 0
      saved. */
  lemma TriesByPrefix<R(!new)>(env: Env<R>, ps: seq<Byte>, n: Node, saved: Option<Node>, m: Marks, rest: R)
    requires WellFormed(n) && (saved.Some? ==> WellFormed(saved.value)) && n.Inner? && n.filter == MandatoryPrefix
    requires InRange(env) && Fits(env.prefixes, m) && env.prefixes == Reading(env.mode, ps)
    ensures |n.children| == 5 && WellFormed(n.children[ChildTried(ps)]) && WellFormed(n.children[0])
    ensures Fits(env.prefixes, Consumed(env.prefixes, m))
    ensures SingleSlot(env, n, saved, m, rest) ==
      SingleSlot(env, n.children[ChildTried(ps)], Some(n.children[0]), Consumed(env.prefixes, m), rest)
  {
    hide SingleSlot; hide WellFormed; hide Fits; hide Consumed; hide InRange; hide Reading; hide Size;
    SlotUnfolds(env, n, saved, m, rest);
    ChoiceByPrefix(env.mode, ps);
    FitsKept(env.prefixes, m, env.mode, false);
  }

  /** The child of an operand-size node, from the mode, the prefix bytes and the wide bit. */
  function SizeChild(mode: MachineMode, ps: seq<Byte>, wide: bool): nat {
    if wide && mode == Long64 then 2
    else if (mode == Real16 || mode == Legacy16 || mode == LongCompat16) == (0x66 in ps) then 1
    else 0
  }

  lemma SizeByPrefix(mode: MachineMode, ps: seq<Byte>, wide: bool)
    requires |ps| <= MAX_INSTRUCTION_LENGTH
    ensures OperandSizeIndex(mode, wide, MarksOf(mode, ps).operandSize) == SizeChild(mode, ps, wide)
  {
    SizePrefixOccurs(ps);
  }

  /** A tree of one mandatory-prefix node over definitions: the child that the prefix bytes select, with the prefix
      used up marked, or, where the table has nothing there, child 0 with no prefix used up. */
  lemma OneMandatoryNode<R(!new)>(env: Env<R>, ps: seq<Byte>, n: Node, rest: R)
    requires WellFormed(n) && n.Inner? && n.filter == MandatoryPrefix
    requires InRange(env) && env.prefixes == Reading(env.mode, ps) && |ps| <= MAX_INSTRUCTION_LENGTH
    requires AsCollected(env.prefixes, MarksOf(env.mode, ps))
    ensures |n.children| == 5
    ensures var tried, o := n.children[ChildTried(ps)], SingleSlot(env, n, None, MarksOf(env.mode, ps), rest);
      && (tried.Definition? ==> o == Found(tried.value, Consumed(env.prefixes, MarksOf(env.mode, ps)), rest))
      && (tried.Invalid? && n.children[0].Definition? ==> o == Found(n.children[0].value, MarksOf(env.mode, ps), rest))
      && (tried.Invalid? && n.children[0].Invalid? ==> o == Failed(DecodingError))
  {
    var m := MarksOf(env.mode, ps);
    CollectedFits(env.prefixes, m);
    TriesByPrefix(env, ps, n, None, m, rest);
    FallbackUndoes(env.prefixes, m);
    hide WellFormed; hide MarksOf; hide Reading; hide Consumed; hide Released; hide ChildTried;
  }

  lemma OneSizeNode<R(!new)>(env: Env<R>, ps: seq<Byte>, n: Node, rest: R)
    requires WellFormed(n) && n.Inner? && n.filter == OperandSizes && |ps| <= MAX_INSTRUCTION_LENGTH
    requires InRange(env) && AsCollected(env.prefixes, MarksOf(env.mode, ps))
    ensures |n.children| == 3
    ensures var i, m := SizeChild(env.mode, ps, env.wide(rest)), MarksOf(env.mode, ps);
      n.children[i].Definition? ==> SingleSlot(env, n, None, m, rest) == Found(n.children[i].value, m, rest)
  {
    var m := MarksOf(env.mode, ps);
    CollectedFits(env.prefixes, m);
    OperandSizeLeavesNoTrace(env.prefixes, m, env.mode, env.wide(rest));
    SizeByPrefix(env.mode, ps, env.wide(rest));
    hide MarksOf; hide OperandSizeIndex; hide SizeChild; hide Sized;
  }

  /** What an entry that ends the walk answers, and a node whose handler's reply ends it or picks a definition. */
  ghost predicate EndsAt<R>(n: Node, m: Marks, rest: R, reply: Option<Reply<R>>, o: Outcome<R>) {
    && (n.Invalid? ==> o == Failed(DecodingError))
    && (n.Definition? ==> o == Found(n.value, m, rest))
    && (n.Inner? && reply.Some? && reply.value.Stop? ==> o == Failed(reply.value.status))
    && (n.Inner? && reply.Some? && reply.value.Pick? && reply.value.index < |n.children| ==>
          n.children[reply.value.index].Definition? ==>
            o == Found(n.children[reply.value.index].value, m, reply.value.rest))
  }

  lemma OneOtherNode<R(!new)>(env: Env<R>, n: Node, m: Marks, rest: R)
    requires WellFormed(n) && InRange(env) && Fits(env.prefixes, m)
    requires n.Inner? ==> n.filter != MandatoryPrefix && n.filter != OperandSizes
    ensures EndsAt(n, m, rest, if n.Inner? then Some(env.other(n.filter, rest)) else None,
                   SingleSlot(env, n, None, m, rest))
  {
    hide WellFormed; hide Fits; hide InRange;
    SlotUnfolds(env, n, None, m, rest);
  }

  /** The walk. It ends on every finite tree; what it answers is the single-slot semantics, and the marks of
      a found definition are the ones left in the context. */
  method DecodeInstruction<R(!new)>(c: Context, env: Env<R>, root: Node, rest: R) returns (o: Outcome<R>)
    requires env.prefixes == c.prefixes && env.mode == c.mode && InRange(env)
    requires WellFormed(root) && AsCollected(c.prefixes, c.State())
    modifies c.raw, c`hasOperandSize
    ensures o == SingleSlot(env, root, None, old(c.State()), rest)
    ensures Tame(root) ==> o == Final(Backtrack(env, root, old(c.State()), rest))
    ensures o.Found? ==> o.marks == c.State()
  {
    hide SingleSlot; hide WellFormed; hide Size; hide Tame; hide Backtrack; hide AsCollected; hide Final; hide InRange;
    hide Fits; hide Consumed; hide Released; hide Sized; hide Arity; hide MandatoryIndex; hide OperandSizeIndex;
    if Tame(root) { SingleSlotBacktracks(env, root, c.State(), rest); }
    CollectedFits(env.prefixes, c.State());
    var node, saved, r := root, None, rest;
    while true
      invariant WellFormed(node) && (saved.Some? ==> WellFormed(saved.value))
      invariant Fits(env.prefixes, c.State())
      invariant SingleSlot(env, node, saved, c.State(), r) == SingleSlot(env, root, None, old(c.State()), rest)
      decreases Size(node) + SavedSize(saved)
    {
      SlotUnfolds(env, node, saved, c.State(), r);
      FitsKept(env.prefixes, c.State(), env.mode, env.wide(r));
      match node
      case Invalid =>
        if saved.None? { return Failed(DecodingError); }
        node, saved := saved.value, None;
        c.ReleaseMandatory();
      case Definition(v) =>
        return Found(v, c.State(), r);
      case Inner(f, cs) =>
        var index;
        if f == MandatoryPrefix {
          index := c.MandatoryPrefixHandler();
          saved := Some(cs[0]);
        } else if f == OperandSizes {
          index := c.OperandSizeHandler(env.wide(r));
        } else {
          match env.other(f, r)
          case Pick(i, r') => index, r := i, r';
          case Stop(st, _) => return Failed(st);
        }
        node := cs[index];
    }
  }

  /** The prefix that `ps` selects is marked as mandatory in `m`, and no other (`used`), or none is. */
  ghost predicate MarkedFor(ps: seq<Byte>, m: Marks, used: bool) {
    |ps| <= |m.kinds| && forall k :: 0 <= k < |ps| ==> (m.kinds[k] == Mandatory <==> used && UsedUp(ps, k))
  }

  /** What the bytes settle at the root. At a mandatory-prefix node 4 is tried if the last F2 or F3 is F2, 3 if it is
      F3, 2 if there is neither but a 66, else 1; child 0 comes when nothing is there. An operand-size node goes by
      mode, 66 and the wide bit, any other by its handler's reply. Nothing found at all is a decoding error. */
  ghost predicate AnswersByPrefix<R>(mode: MachineMode, ps: seq<Byte>, wide: bool, other: (Filter, R) -> Reply<R>,
                                     root: Node, rest: R, o: Outcome<R>)
    requires WellFormed(root)
  {
    if root.Inner? && root.filter == MandatoryPrefix then
      var tried, fallback := root.children[ChildTried(ps)], root.children[0];
      && (tried.Definition? ==> o.Found? && o.value == tried.value && o.rest == rest && MarkedFor(ps, o.marks, true))
      && (tried.Invalid? && fallback.Definition? ==>
            o.Found? && o.value == fallback.value && o.rest == rest && MarkedFor(ps, o.marks, false))
      && (tried.Invalid? && fallback.Invalid? ==> o == Failed(DecodingError))
    else if root.Inner? && root.filter == OperandSizes then
      var child := root.children[SizeChild(mode, ps, wide)];
      child.Definition? ==> o.Found? && o.value == child.value && o.rest == rest && MarkedFor(ps, o.marks, false)
    else
      exists m :: MarkedFor(ps, m, false)
        && EndsAt(root, m, rest, if root.Inner? then Some(other(root.filter, rest)) else None, o)
  }

  lemma DecodedRoot<R(!new)>(env: Env<R>, ps: seq<Byte>, root: Node, rest: R)
    requires WellFormed(root) && InRange(env) && env.prefixes == Reading(env.mode, ps) && |ps| <= MAX_INSTRUCTION_LENGTH
    requires AsCollected(env.prefixes, MarksOf(env.mode, ps)) && Fits(env.prefixes, MarksOf(env.mode, ps))
    ensures AnswersByPrefix(env.mode, ps, env.wide(rest), env.other, root, rest,
                            SingleSlot(env, root, None, MarksOf(env.mode, ps), rest))
  {
    hide SingleSlot; hide Reading; hide InRange; hide AsCollected; hide Consumed; hide MarksOf; hide UsedUp;
    hide ChildTried; hide SizeChild; hide Fits; hide MarkedFor;
    MarkedAll(env.mode, ps);
    if root.Inner? && root.filter == MandatoryPrefix {
      OneMandatoryNode(env, ps, root, rest);
    } else if root.Inner? && root.filter == OperandSizes {
      OneSizeNode(env, ps, root, rest);
    } else {
      OneOtherNode(env, root, MarksOf(env.mode, ps), rest);
    }
  }

  lemma MarkedAll(mode: MachineMode, ps: seq<Byte>)
    requires |ps| <= MAX_INSTRUCTION_LENGTH
    ensures Fits(Reading(mode, ps), MarksOf(mode, ps))
    ensures MarkedFor(ps, MarksOf(mode, ps), false)
    ensures MarkedFor(ps, Consumed(Reading(mode, ps), MarksOf(mode, ps)), true)
  {
    hide Reading; hide Consumed; hide UsedUp; hide Fits; hide KindAt;
    MarksFit(mode, ps);
    forall k | 0 <= k < |ps|
      ensures MarksOf(mode, ps).kinds[k] != Mandatory
      ensures k < |Consumed(Reading(mode, ps), MarksOf(mode, ps)).kinds|
      ensures Consumed(Reading(mode, ps), MarksOf(mode, ps)).kinds[k] == Mandatory <==> UsedUp(ps, k)
    {
      MarkedByPrefix(mode, ps, k);
    }
  }

  /** Decoding a buffer from its first byte: the answer is a function of the bytes alone. */
  method Decode<R(!new)>(c: Context, wide: R -> bool, other: (Filter, R) -> Reply<R>, root: Node, rest: R)
      returns (o: Outcome<R>)
    requires c.Valid() && c.Fresh() && WellFormed(root)
    requires forall f, r :: other(f, r).Pick? ==> other(f, r).index < Arity(f)
    modifies c, c.raw
    ensures CollectStatus(c.mode, c.input) != Success ==> o == Failed(CollectStatus(c.mode, c.input))
    ensures CollectStatus(c.mode, c.input) == Success ==>
      var ps := c.input[..PrefixCount(c.mode, c.input)];
      var env, m := Env(Reading(c.mode, ps), c.mode, wide, other), MarksOf(c.mode, ps);
      && AsCollected(env.prefixes, m)
      && o == SingleSlot(env, root, None, m, rest)
      && (Tame(root) ==> o == Final(Backtrack(env, root, m, rest)))
    ensures CollectStatus(c.mode, c.input) == Success ==>
      AnswersByPrefix(c.mode, c.input[..PrefixCount(c.mode, c.input)], wide(rest), other, root, rest, o)
  {
    hide Tame; hide Backtrack; hide SingleSlot; hide Reading; hide PrefixCount; hide LastIn; hide KindAt;
    hide WellFormed;
    var st := c.CollectOptionalPrefixes();
    if st != Success { return Failed(st); }
    ghost var ps := c.input[..c.length];
    c.CollectedState();
    CollectingGivesMarks(c.mode, ps);
    hide MarksOf; hide AsCollected;
    var env := Env(c.prefixes, c.mode, wide, other);
    DecodedRoot(env, ps, root, rest);
    o := DecodeInstruction(c, env, root, rest);
  }
}
