/** Exactly when the walk with its one saved fallback (Share/Hook/Zydis/Decoder.c) is backtracking: both are
    followed side by side over the tree, and no handler is needed to tell whether they part. */
module DecoderLockstep {
  import opened Words
  import opened DecoderPrefixes
  import opened DecoderMarks
  import opened DecoderContext
  import opened DecoderTree

  /** A fallback child that is still open, and the marks to try it with. */
  datatype Alternative = Alternative(node: Node, marks: Marks)

  /** A point of a walk; the innermost alternative comes first. */
  datatype Point = Point(node: Node, marks: Marks, alternatives: seq<Alternative>)

  ghost predicate AllOk(p: Prefixes, alternatives: seq<Alternative>) {
    forall a :: a in alternatives ==> WellFormed(a.node) && Fits(p, a.marks)
  }

  ghost predicate Ok(p: Prefixes, c: Point) {
    WellFormed(c.node) && Fits(p, c.marks) && AllOk(p, c.alternatives)
  }

  function SizeOpen(alternatives: seq<Alternative>): nat {
    if alternatives == [] then 0 else Size(alternatives[0].node) + SizeOpen(alternatives[1..])
  }

  lemma OpenOneMore(a: Alternative, alternatives: seq<Alternative>)
    ensures SizeOpen([a] + alternatives) == Size(a.node) + SizeOpen(alternatives)
    ensures SizeOpen([a]) == Size(a.node)
  {
    assert ([a] + alternatives)[1..] == alternatives;
    assert SizeOpen([a][1..]) == 0;
  }

  function Left(c: Point): nat {
    Size(c.node) + SizeOpen(c.alternatives)
  }

  /** A move that asks no handler but the two modelled ones: the next node follows from the tree, the prefixes
      and the operand size. */
  predicate Silent(c: Point) {
    || (c.node.Invalid? && c.alternatives != [])
    || (c.node.Inner? && (c.node.filter == MandatoryPrefix || c.node.filter == OperandSizes))
  }

  /** Into a mandatory-prefix node: the loop (`one`) keeps this alternative only, backtracking keeps them all. */
  function Entered(p: Prefixes, one: bool, c: Point): (d: Point)
    requires Ok(p, c) && c.node.Inner? && c.node.filter == MandatoryPrefix
    ensures Ok(p, d) && Left(d) < Left(c)
    ensures one ==> |d.alternatives| == 1
  {
    FitsKept(p, c.marks, Long64, false);
    SavedAndTriedShrink(c.node, MandatoryIndex(p));
    var a := Alternative(c.node.children[0], c.marks);
    OpenOneMore(a, c.alternatives);
    Point(c.node.children[MandatoryIndex(p)], Consumed(p, c.marks), if one then [a] else [a] + c.alternatives)
  }

  /** A silent move: the loop re-marks as the code does, backtracking returns to the marks of the alternative. */
  function Move(p: Prefixes, mode: MachineMode, wide: bool, one: bool, c: Point): (d: Point)
    requires Ok(p, c) && Silent(c)
    ensures Ok(p, d) && Left(d) < Left(c)
    ensures one && |c.alternatives| <= 1 ==> |d.alternatives| <= 1
  {
    FitsKept(p, c.marks, mode, wide);
    if c.node.Invalid? then
      var a := c.alternatives[0];
      Point(a.node, if one then Released(p, c.marks) else a.marks, c.alternatives[1..])
    else if c.node.filter == MandatoryPrefix then Entered(p, one, c)
    else
      var i := OperandSizeIndex(mode, wide, c.marks.operandSize);
      ChildSize(c.node.children, i);
      Point(c.node.children[i], if one then Sized(p, c.marks, mode, wide) else c.marks, c.alternatives)
  }

  /** Child `i` of the node at which a walk asks a handler. */
  function Below(c: Point, i: nat): (d: Point)
    requires c.node.Inner? && i < |c.node.children|
    ensures Left(d) < Left(c)
  {
    ChildSize(c.node.children, i);
    Point(c.node.children[i], c.marks, c.alternatives)
  }

  /** Either walk, on the handlers of `env`. */
  function Walk<R(!new)>(env: Env<R>, one: bool, c: Point, rest: R): Outcome<R>
    requires InRange(env) && Ok(env.prefixes, c)
    decreases Left(c)
  {
    if Silent(c) then
      Walk(env, one, Move(env.prefixes, env.mode, env.wide(rest), one, c), rest)
    else
      match c.node
      case Invalid => Failed(DecodingError)
      case Definition(v) => Found(v, c.marks, rest)
      case Inner(f, _) =>
        match env.other(f, rest)
        case Pick(i, r) => Walk(env, one, Below(c, i), r)
        case Stop(st, _) => Failed(st)
  }

  // ---------------------------------------------------------------- the two walks are the two semantics

  lemma {:induction false} WalkIsSingleSlot<R(!new)>(env: Env<R>, c: Point, rest: R)
    requires InRange(env) && Ok(env.prefixes, c) && |c.alternatives| <= 1
    ensures Walk(env, true, c, rest) ==
      SingleSlot(env, c.node, if c.alternatives == [] then None else Some(c.alternatives[0].node), c.marks, rest)
    decreases Left(c)
  {
    if Silent(c) {
      WalkIsSingleSlot(env, Move(env.prefixes, env.mode, env.wide(rest), true, c), rest);
    } else if c.node.Inner? && env.other(c.node.filter, rest).Pick? {
      WalkIsSingleSlot(env, Below(c, env.other(c.node.filter, rest).index), env.other(c.node.filter, rest).rest);
    }
  }

  /** Backtracking from the current node, then, at its dead end, from the innermost alternative on. */
  lemma {:induction false} WalkIsBacktrack<R(!new)>(env: Env<R>, c: Point, rest: R)
    requires InRange(env) && Ok(env.prefixes, c)
    ensures var o := Backtrack(env, c.node, c.marks, rest);
      Walk(env, false, c, rest) ==
        if o.DeadEnd? && c.alternatives != [] then
          Walk(env, false, Point(c.alternatives[0].node, c.alternatives[0].marks, c.alternatives[1..]), o.rest)
        else Final(o)
    decreases Left(c)
  {
    if c.node.Inner? && c.node.filter == MandatoryPrefix {
      var d := Move(env.prefixes, env.mode, env.wide(rest), false, c);
      WalkIsBacktrack(env, d, rest);
      var first := Backtrack(env, d.node, d.marks, rest);
      assert d.alternatives[1..] == c.alternatives;
      if first.DeadEnd? {
        WalkIsBacktrack(env, Below(c, 0), first.rest);
      }
    } else if c.node.Inner? && c.node.filter == OperandSizes {
      WalkIsBacktrack(env, Move(env.prefixes, env.mode, env.wide(rest), false, c), rest);
    } else if c.node.Inner? && env.other(c.node.filter, rest).Pick? {
      WalkIsBacktrack(env, Below(c, env.other(c.node.filter, rest).index), env.other(c.node.filter, rest).rest);
    }
  }

  lemma WalksFromRoot<R(!new)>(env: Env<R>, n: Node, m: Marks, rest: R)
    requires WellFormed(n) && InRange(env) && Fits(env.prefixes, m)
    ensures Walk(env, true, Point(n, m, []), rest) == SingleSlot(env, n, None, m, rest)
    ensures Walk(env, false, Point(n, m, []), rest) == Final(Backtrack(env, n, m, rest))
  {
    WalkIsSingleSlot(env, Point(n, m, []), rest);
    WalkIsBacktrack(env, Point(n, m, []), rest);
  }

  // ---------------------------------------------------------------- side by side

  /** Where a walk answers or asks a handler next. */
  function Settled(p: Prefixes, mode: MachineMode, wide: bool, one: bool, c: Point): (d: Point)
    requires Ok(p, c)
    ensures Ok(p, d) && !Silent(d) && Left(d) <= Left(c)
    decreases Left(c)
  {
    if Silent(c) then Settled(p, mode, wide, one, Move(p, mode, wide, one, c))
    else c
  }

  lemma {:induction false} SettledWalks<R(!new)>(env: Env<R>, one: bool, c: Point, rest: R)
    requires InRange(env) && Ok(env.prefixes, c)
    ensures Walk(env, one, c, rest) ==
      Walk(env, one, Settled(env.prefixes, env.mode, env.wide(rest), one, c), rest)
    decreases Left(c)
  {
    if Silent(c) {
      SettledWalks(env, one, Move(env.prefixes, env.mode, env.wide(rest), one, c), rest);
    }
  }

  /** The same answer, or the same handler asked with the same again below each of its children. */
  predicate Matches(p: Prefixes, mode: MachineMode, a: Point, b: Point)
    requires Ok(p, a) && Ok(p, b)
    decreases Left(a), 0
  {
    match a.node
    case Invalid => b.node.Invalid?
    case Definition(_) => b.node == a.node && b.marks == a.marks
    case Inner(f, cs) =>
      && b.node.Inner? && b.node.filter == f
      && forall i :: 0 <= i < Arity(f) ==> InStep(p, mode, Below(a, i), Below(b, i))
  }

  /** The loop at `c` and backtracking at `d` stay in step, whatever the handlers answer. */
  predicate InStep(p: Prefixes, mode: MachineMode, c: Point, d: Point)
    requires Ok(p, c) && Ok(p, d)
    decreases Left(c), 1
  {
    forall wide :: Matches(p, mode, Settled(p, mode, wide, true, c), Settled(p, mode, wide, false, d))
  }

  lemma {:induction false} InStepWalks<R(!new)>(env: Env<R>, c: Point, d: Point, rest: R)
    requires InRange(env) && Ok(env.prefixes, c) && Ok(env.prefixes, d) && InStep(env.prefixes, env.mode, c, d)
    ensures Walk(env, true, c, rest) == Walk(env, false, d, rest)
    decreases Left(c)
  {
    var p, wide := env.prefixes, env.wide(rest);
    var a, b := Settled(p, env.mode, wide, true, c), Settled(p, env.mode, wide, false, d);
    SettledWalks(env, true, c, rest);
    SettledWalks(env, false, d, rest);
    assert Matches(p, env.mode, a, b);
    if a.node.Inner? && env.other(a.node.filter, rest).Pick? {
      var i := env.other(a.node.filter, rest).index;
      InStepWalks(env, Below(a, i), Below(b, i), env.other(a.node.filter, rest).rest);
    }
  }

  // ---------------------------------------------------------------- handlers that can do anything

  /** One entry of a script for the handlers: what the operand-size test sees, and the child to pick or the handler
      that refuses. */
  datatype Reaction = Take(wide: bool, index: nat) | Refuse(wide: bool, filter: Filter)

  function ScriptedWide(script: seq<Reaction>): bool {
    script != [] && script[0].wide
  }

  function ScriptedReply(f: Filter, script: seq<Reaction>): Reply<seq<Reaction>> {
    if script == [] then Stop(TooLong, script)
    else
      match script[0]
      case Take(_, i) => if i < Arity(f) then Pick(i, script[1..]) else Stop(TooLong, script)
      case Refuse(_, g) => Stop(if f == g then TooLong else NoMoreData, script)
  }

  function Scripted(p: Prefixes, mode: MachineMode): (env: Env<seq<Reaction>>)
    ensures InRange(env) && env.prefixes == p && env.mode == mode && env.wide == ScriptedWide
  {
    Env(p, mode, ScriptedWide, ScriptedReply)
  }

  /** Different answers, different handlers asked, or one that answers while the other asks: a refusal shows it. */
  lemma RefusalParts(p: Prefixes, mode: MachineMode, a: Point, b: Point, wide: bool) returns (script: seq<Reaction>)
    requires Ok(p, a) && Ok(p, b) && !Silent(a) && !Silent(b) && !Matches(p, mode, a, b)
    requires !(a.node.Inner? && b.node.Inner? && a.node.filter == b.node.filter)
    ensures ScriptedWide(script) == wide
    ensures Walk(Scripted(p, mode), true, a, script) != Walk(Scripted(p, mode), false, b, script)
  {
    var refusing := if a.node.Inner? then a.node.filter else if b.node.Inner? then b.node.filter else Opcode;
    script := [Refuse(wide, refusing)];
  }

  /** The handler picks child `i`, and the script goes on below. */
  lemma PickGoesOn(p: Prefixes, mode: MachineMode, one: bool, a: Point, i: nat, wide: bool, more: seq<Reaction>)
    requires Ok(p, a) && !Silent(a) && a.node.Inner? && i < Arity(a.node.filter)
    ensures Walk(Scripted(p, mode), one, a, [Take(wide, i)] + more) == Walk(Scripted(p, mode), one, Below(a, i), more)
  {
    assert ([Take(wide, i)] + more)[1..] == more;
  }

  lemma ChildOutOfStep(p: Prefixes, mode: MachineMode, a: Point, b: Point) returns (i: nat)
    requires Ok(p, a) && Ok(p, b) && !Matches(p, mode, a, b)
    requires a.node.Inner? && b.node.Inner? && a.node.filter == b.node.filter
    ensures i < Arity(a.node.filter) && i < |a.node.children| && i < |b.node.children|
    ensures Ok(p, Below(a, i)) && Ok(p, Below(b, i)) && !InStep(p, mode, Below(a, i), Below(b, i))
  {
    hide InStep;
    i :| 0 <= i < Arity(a.node.filter) && !InStep(p, mode, Below(a, i), Below(b, i));
  }

  /** Two walks that are out of step part on some script. */
  lemma {:induction false} OutOfStepParts(p: Prefixes, mode: MachineMode, c: Point, d: Point)
      returns (script: seq<Reaction>)
    requires Ok(p, c) && Ok(p, d) && !InStep(p, mode, c, d)
    ensures Walk(Scripted(p, mode), true, c, script) != Walk(Scripted(p, mode), false, d, script)
    decreases Left(c)
  {
    hide Walk; hide Silent; hide Settled; hide Scripted; hide Left; hide Matches; hide Ok; hide Below; hide Arity;
    var wide :| !Matches(p, mode, Settled(p, mode, wide, true, c), Settled(p, mode, wide, false, d));
    var a, b := Settled(p, mode, wide, true, c), Settled(p, mode, wide, false, d);
    if a.node.Inner? && b.node.Inner? && a.node.filter == b.node.filter {
      var i := ChildOutOfStep(p, mode, a, b);
      var more := OutOfStepParts(p, mode, Below(a, i), Below(b, i));
      script := [Take(wide, i)] + more;
      PickGoesOn(p, mode, true, a, i, wide, more);
      PickGoesOn(p, mode, false, b, i, wide, more);
    } else {
      script := RefusalParts(p, mode, a, b, wide);
    }
    SettledWalks(Scripted(p, mode), true, c, script);
    SettledWalks(Scripted(p, mode), false, d, script);
  }

  // ---------------------------------------------------------------- the exact condition

  /** The loop and backtracking, started on the same tree, stay in step: a finite check of tree, prefixes, mode and
      marks, without input and without handlers. */
  predicate Faithful(p: Prefixes, mode: MachineMode, n: Node, m: Marks)
    requires WellFormed(n) && Fits(p, m)
  {
    InStep(p, mode, Point(n, m, []), Point(n, m, []))
  }

  /** If the check succeeds, the loop is backtracking on every input, for handlers of every kind. */
  lemma FaithfulBacktracks<R(!new)>(env: Env<R>, n: Node, m: Marks, rest: R)
    requires WellFormed(n) && InRange(env) && Fits(env.prefixes, m) && Faithful(env.prefixes, env.mode, n, m)
    ensures SingleSlot(env, n, None, m, rest) == Final(Backtrack(env, n, m, rest))
  {
    WalksFromRoot(env, n, m, rest);
    InStepWalks(env, Point(n, m, []), Point(n, m, []), rest);
  }

  /** And only if: scripted handlers show every difference. */
  lemma BacktracksIffFaithful(p: Prefixes, mode: MachineMode, n: Node, m: Marks)
    requires WellFormed(n) && Fits(p, m)
    ensures (forall script ::
               SingleSlot(Scripted(p, mode), n, None, m, script) == Final(Backtrack(Scripted(p, mode), n, m, script)))
        <==> Faithful(p, mode, n, m)
  {
    var env := Scripted(p, mode);
    if Faithful(p, mode, n, m) {
      forall script
        ensures SingleSlot(env, n, None, m, script) == Final(Backtrack(env, n, m, script))
      {
        FaithfulBacktracks(env, n, m, script);
      }
    } else {
      var script := OutOfStepParts(p, mode, Point(n, m, []), Point(n, m, []));
      WalksFromRoot(env, n, m, script);
    }
  }

  /** The tame trees pass the check. */
  lemma TameIsFaithful(p: Prefixes, mode: MachineMode, n: Node, m: Marks)
    requires WellFormed(n) && Tame(n) && AsCollected(p, m)
    ensures Faithful(p, mode, n, m)
  {
    CollectedFits(p, m);
    BacktracksIffFaithful(p, mode, n, m);
    forall script: seq<Reaction>
      ensures SingleSlot(Scripted(p, mode), n, None, m, script) == Final(Backtrack(Scripted(p, mode), n, m, script))
    {
      SingleSlotBacktracks(Scripted(p, mode), n, m, script);
    }
  }

  /** The nested tree that loses the outer alternative does not. */
  lemma NestedNodeFailsCheck(p: Prefixes, mode: MachineMode, m: Marks, v: nat)
    requires Fits(p, m)
    ensures var dead := Inner(MandatoryPrefix, [Invalid, Invalid, Invalid, Invalid, Invalid]);
      var n := Inner(MandatoryPrefix, [Definition(v), dead, dead, dead, dead]);
      WellFormed(n) && !Faithful(p, mode, n, m)
  {
    var dead := Inner(MandatoryPrefix, [Invalid, Invalid, Invalid, Invalid, Invalid]);
    var script: seq<Reaction> := [];
    NestedNodeLosesAlternative(Scripted(p, mode), m, script, v);
    BacktracksIffFaithful(p, mode, Inner(MandatoryPrefix, [Definition(v), dead, dead, dead, dead]), m);
  }
}
