/** The bounded sequence that the fixed-buffer list of Share/Hook/Zycore/List.c refines. */
module BoundedSequence {
  import opened Words

  datatype Status = Success | InsufficientBufferSize | InvalidOperation

  /** What a caller sees: the elements in order and the elements handed to the destructor so far. */
  datatype Model<T> = Model(items: seq<T>, destroyed: seq<T>)

  /** `None` as a constructor or an initializer leaves the node's old bytes in place. */
  datatype Op<T> =
    | PushBack(x: T) | PushFront(x: T) | EmplaceBack(c: Option<T>) | EmplaceFront(c: Option<T>)
    | PopBack | PopFront | Resize(n: nat, init: Option<T>) | Clear

  function Reversed<T>(s: seq<T>): seq<T> {
    if s == [] then [] else Reversed(s[1..]) + [s[0]]
  }

  ghost predicate Filled<T>(added: seq<T>, init: Option<T>) {
    init.Some? ==> forall i :: 0 <= i < |added| ==> added[i] == init.value
  }

  /** What the destructor sees of the removed elements, in removal order. */
  function Destroyed<T>(destructor: bool, removed: seq<T>): seq<T> {
    if destructor then removed else []
  }

  ghost predicate GrownBack<T>(m: Model<T>, m': Model<T>, size: nat, init: Option<T>) {
    var n := |m.items|;
    && m'.destroyed == m.destroyed && |m'.items| == size >= n
    && m'.items[..n] == m.items && Filled(m'.items[n..], init)
  }

  ghost predicate GrownFront<T>(m: Model<T>, m': Model<T>, init: Option<T>) {
    && m'.destroyed == m.destroyed && |m'.items| == |m.items| + 1
    && m'.items[1..] == m.items && Filled(m'.items[..1], init)
  }

  ghost predicate AddedBack<T>(slots: nat, m: Model<T>, init: Option<T>, m': Model<T>, st: Status) {
    if |m.items| >= slots then st == InsufficientBufferSize && m' == m
    else st == Success && GrownBack(m, m', |m.items| + 1, init)
  }

  ghost predicate AddedFront<T>(slots: nat, m: Model<T>, init: Option<T>, m': Model<T>, st: Status) {
    if |m.items| >= slots then st == InsufficientBufferSize && m' == m
    else st == Success && GrownFront(m, m', init)
  }

  /** A growing list stops where the buffer ends; a list cut to nothing is destroyed from the front, any
      other cut from the back. */
  ghost predicate Resized<T>(slots: nat, destructor: bool, m: Model<T>, k: nat, init: Option<T>,
                             m': Model<T>, st: Status) {
    if k == 0 then
      st == Success && m' == Model([], m.destroyed + Destroyed(destructor, m.items))
    else if k <= |m.items| then
      st == Success && m' == Model(m.items[..k], m.destroyed + Destroyed(destructor, Reversed(m.items[k..])))
    else if k <= slots then
      st == Success && GrownBack(m, m', k, init)
    else
      st == InsufficientBufferSize && GrownBack(m, m', if |m.items| < slots then slots else |m.items|, init)
  }

  /** A sequence of at most `slots` elements: the specification of every list operation. */
  ghost predicate Effect<T>(slots: nat, destructor: bool, m: Model<T>, op: Op<T>, m': Model<T>, st: Status) {
    var n := |m.items|;
    match op
    case PushBack(x) => AddedBack(slots, m, Some(x), m', st)
    case PushFront(x) => AddedFront(slots, m, Some(x), m', st)
    case EmplaceBack(c) => AddedBack(slots, m, c, m', st)
    case EmplaceFront(c) => AddedFront(slots, m, c, m', st)
    case PopBack =>
      if n == 0 then st == InvalidOperation && m' == m
      else st == Success && m' == Model(m.items[..n - 1], m.destroyed + Destroyed(destructor, [m.items[n - 1]]))
    case PopFront =>
      if n == 0 then st == InvalidOperation && m' == m
      else st == Success && m' == Model(m.items[1..], m.destroyed + Destroyed(destructor, [m.items[0]]))
    case Resize(k, init) => Resized(slots, destructor, m, k, init, m', st)
    case Clear => Resized(slots, destructor, m, 0, None, m', st)
  }

  // ---------------------------------------------------------------- runs

  /** `ms` are the models before, between and after `ops`; `sts` the status codes. */
  ghost predicate Run<T>(slots: nat, destructor: bool, ms: seq<Model<T>>, ops: seq<Op<T>>, sts: seq<Status>) {
    && |ms| == |ops| + 1 && |sts| == |ops|
    && forall i :: 0 <= i < |ops| ==> Effect(slots, destructor, ms[i], ops[i], ms[i + 1], sts[i])
  }

  lemma RunExtends<T>(slots: nat, destructor: bool, ms: seq<Model<T>>, ops: seq<Op<T>>, sts: seq<Status>,
                      op: Op<T>, m: Model<T>, st: Status)
    requires Run(slots, destructor, ms, ops, sts)
    requires Effect(slots, destructor, ms[|ops|], op, m, st)
    ensures Run(slots, destructor, ms + [m], ops + [op], sts + [st])
  {
    var ms', ops', sts' := ms + [m], ops + [op], sts + [st];
    forall i | 0 <= i < |ops'|
      ensures Effect(slots, destructor, ms'[i], ops'[i], ms'[i + 1], sts'[i])
    {
      assert i < |ops| ==> Effect(slots, destructor, ms[i], ops[i], ms[i + 1], sts[i]);
      assert ms'[i] == ms[i];
    }
  }

  /** A run that starts within the buffer stays within it. */
  lemma {:induction false} RunBounded<T>(slots: nat, destructor: bool, ms: seq<Model<T>>, ops: seq<Op<T>>,
                                         sts: seq<Status>, k: nat)
    requires Run(slots, destructor, ms, ops, sts) && |ms[0].items| <= slots && k <= |ops|
    ensures |ms[k].items| <= slots
  {
    if k > 0 {
      RunBounded(slots, destructor, ms, ops, sts, k - 1);
      assert Effect(slots, destructor, ms[k - 1], ops[k - 1], ms[k], sts[k - 1]);
    }
  }

  /** After any operations whatever, a push succeeds if and only if a slot is left. */
  lemma PushSucceedsIffRoom<T>(slots: nat, destructor: bool, ms: seq<Model<T>>, ops: seq<Op<T>>,
                               sts: seq<Status>, k: nat)
    requires Run(slots, destructor, ms, ops, sts) && |ms[0].items| <= slots && k < |ops|
    requires ops[k].PushBack? || ops[k].PushFront? || ops[k].EmplaceBack? || ops[k].EmplaceFront?
    ensures sts[k] == Success <==> |ms[k].items| < slots
    ensures sts[k] == Success <==> |ms[k + 1].items| == |ms[k].items| + 1
  {
    RunBounded(slots, destructor, ms, ops, sts, k);
    assert Effect(slots, destructor, ms[k], ops[k], ms[k + 1], sts[k]);
  }

  // ---------------------------------------------------------------- conservation

  function Occurrences<T(==)>(s: seq<T>, v: T): nat {
    if s == [] then 0 else (if s[0] == v then 1 else 0) + Occurrences(s[1..], v)
  }

  lemma {:induction false} OccurrencesAppend<T>(a: seq<T>, b: seq<T>, v: T)
    ensures Occurrences(a + b, v) == Occurrences(a, v) + Occurrences(b, v)
  {
    if a == [] {
      assert a + b == b;
    } else {
      OccurrencesAppend(a[1..], b, v);
      assert (a + b)[0] == a[0] && (a + b)[1..] == a[1..] + b;
    }
  }

  lemma OccurrencesSplit<T>(s: seq<T>, k: nat, v: T)
    requires k <= |s|
    ensures Occurrences(s, v) == Occurrences(s[..k], v) + Occurrences(s[k..], v)
  {
    hide Occurrences;
    OccurrencesAppend(s[..k], s[k..], v);
    assert s == s[..k] + s[k..];
  }

  lemma {:induction false} OccurrencesReversed<T>(s: seq<T>, v: T)
    ensures Occurrences(Reversed(s), v) == Occurrences(s, v)
  {
    if s != [] {
      OccurrencesReversed(s[1..], v);
      OccurrencesAppend(Reversed(s[1..]), [s[0]], v);
      assert Occurrences([s[0]], v) == if s[0] == v then 1 else 0;
    }
  }

  /** The elements an operation brought in. */
  function Entered<T>(m: Model<T>, op: Op<T>, m': Model<T>): seq<T> {
    var n, n' := |m.items|, |m'.items|;
    if n' <= n then []
    else if op.PushFront? || op.EmplaceFront? then m'.items[..n' - n]
    else m'.items[n..]
  }

  function Total<T(==)>(m: Model<T>, v: T): nat {
    Occurrences(m.items, v) + Occurrences(m.destroyed, v)
  }

  lemma RemovedConserves<T>(m: Model<T>, m': Model<T>, removed: seq<T>, v: T)
    requires m'.destroyed == m.destroyed + removed
    requires Occurrences(m.items, v) == Occurrences(m'.items, v) + Occurrences(removed, v)
    ensures Total(m', v) == Total(m, v)
  {
    OccurrencesAppend(m.destroyed, removed, v);
  }

  lemma ResizedConserves<T>(slots: nat, m: Model<T>, k: nat, init: Option<T>, m': Model<T>, st: Status, v: T)
    requires Resized(slots, true, m, k, init, m', st)
    ensures Total(m', v) == Total(m, v) + Occurrences(Entered(m, Resize(k, init), m'), v)
  {
    if k == 0 {
      RemovedConserves(m, m', m.items, v);
    } else if k <= |m.items| {
      OccurrencesSplit(m.items, k, v);
      OccurrencesReversed(m.items[k..], v);
      RemovedConserves(m, m', Reversed(m.items[k..]), v);
    } else {
      OccurrencesSplit(m'.items, |m.items|, v);
    }
  }

  lemma AddedConserves<T>(m: Model<T>, op: Op<T>, m': Model<T>, v: T)
    requires m'.destroyed == m.destroyed && |m'.items| == |m.items| + 1
    requires if op.PushFront? || op.EmplaceFront? then m'.items[1..] == m.items else m'.items[..|m.items|] == m.items
    ensures Total(m', v) == Total(m, v) + Occurrences(Entered(m, op, m'), v)
  {
    hide Occurrences;
    if op.PushFront? || op.EmplaceFront? {
      OccurrencesSplit(m'.items, 1, v);
    } else {
      OccurrencesSplit(m'.items, |m.items|, v);
    }
  }

  lemma PopBackConserves<T>(m: Model<T>, m': Model<T>, v: T)
    requires m.items != [] && m'.items == m.items[..|m.items| - 1]
    requires m'.destroyed == m.destroyed + [m.items[|m.items| - 1]]
    ensures Total(m', v) == Total(m, v)
  {
    hide Occurrences;
    var n := |m.items|;
    OccurrencesSplit(m.items, n - 1, v);
    assert m.items[n - 1..] == [m.items[n - 1]];
    RemovedConserves(m, m', [m.items[n - 1]], v);
  }

  lemma PopFrontConserves<T>(m: Model<T>, m': Model<T>, v: T)
    requires m.items != [] && m'.items == m.items[1..]
    requires m'.destroyed == m.destroyed + [m.items[0]]
    ensures Total(m', v) == Total(m, v)
  {
    hide Occurrences;
    OccurrencesSplit(m.items, 1, v);
    assert m.items[..1] == [m.items[0]];
    RemovedConserves(m, m', [m.items[0]], v);
  }

  lemma UnchangedConserves<T>(m: Model<T>, op: Op<T>, v: T)
    ensures Total(m, v) == Total(m, v) + Occurrences(Entered(m, op, m), v)
  {
  }

  lemma StepConserves<T>(slots: nat, m: Model<T>, op: Op<T>, m': Model<T>, st: Status, v: T)
    requires Effect(slots, true, m, op, m', st)
    ensures Total(m', v) == Total(m, v) + Occurrences(Entered(m, op, m'), v)
  {
    hide Occurrences; hide Total; hide Resized; hide Filled;
    if m' == m {
      UnchangedConserves(m, op, v);
    } else if op.Resize? {
      ResizedConserves(slots, m, op.n, op.init, m', st, v);
    } else if op.Clear? {
      ResizedConserves(slots, m, 0, None, m', st, v);
    } else if op.PopBack? {
      PopBackConserves(m, m', v);
      assert Occurrences([], v) == 0 by { NoOccurrence(v); }
    } else if op.PopFront? {
      PopFrontConserves(m, m', v);
      assert Occurrences([], v) == 0 by { NoOccurrence(v); }
    } else {
      AddedConserves(m, op, m', v);
    }
  }

  lemma NoOccurrence<T>(v: T)
    ensures Occurrences([], v) == 0
  {
  }

  lemma NothingYet<T>(v: T)
    ensures Total(Model([], []), v) == 0 && Occurrences([], v) == 0
  {
  }

  function EnteredInRun<T>(ms: seq<Model<T>>, ops: seq<Op<T>>, k: nat): seq<T>
    requires |ms| == |ops| + 1 && k <= |ops|
  {
    if k == 0 then [] else EnteredInRun(ms, ops, k - 1) + Entered(ms[k - 1], ops[k - 1], ms[k])
  }

  /** With a destructor set, over any run, an element value that came in `c` times is `c` times in the list
      or in the destructor's log: no element is lost, none is destroyed twice. */
  lemma {:induction false} DestroyedExactlyOnce<T>(slots: nat, ms: seq<Model<T>>, ops: seq<Op<T>>,
                                                   sts: seq<Status>, k: nat, v: T)
    requires Run(slots, true, ms, ops, sts) && ms[0] == Model([], []) && k <= |ops|
    ensures Total(ms[k], v) == Occurrences(EnteredInRun(ms, ops, k), v)
  {
    hide Effect; hide Occurrences; hide Total; hide Entered;
    if k == 0 {
      NothingYet<T>(v);
    } else {
      DestroyedExactlyOnce(slots, ms, ops, sts, k - 1, v);
      assert Effect(slots, true, ms[k - 1], ops[k - 1], ms[k], sts[k - 1]);
      StepConserves(slots, ms[k - 1], ops[k - 1], ms[k], sts[k - 1], v);
      OccurrencesAppend(EnteredInRun(ms, ops, k - 1), Entered(ms[k - 1], ops[k - 1], ms[k]), v);
    }
  }

  // ---------------------------------------------------------------- queue and stack

  /** The elements that pushes at the back have added. */
  function Pushed<T>(ops: seq<Op<T>>, sts: seq<Status>, k: nat): seq<T>
    requires k <= |ops| == |sts|
  {
    if k == 0 then []
    else Pushed(ops, sts, k - 1) + if ops[k - 1].PushBack? && sts[k - 1] == Success then [ops[k - 1].x] else []
  }

  lemma Regroup<T>(a: seq<T>, b: seq<T>, c: seq<T>)
    ensures (a + b) + c == a + (b + c)
  {
  }

  /** Pushing at the back and popping at the front is a FIFO queue over every run: destroyed, then held, is what was
      destroyed and held at first, then what was pushed. */
  lemma {:induction false} QueueOrder<T>(slots: nat, ms: seq<Model<T>>, ops: seq<Op<T>>, sts: seq<Status>, k: nat)
    requires Run(slots, true, ms, ops, sts) && k <= |ops|
    requires forall i :: 0 <= i < |ops| ==> ops[i].PushBack? || ops[i].PopFront?
    ensures ms[k].destroyed + ms[k].items == ms[0].destroyed + ms[0].items + Pushed(ops, sts, k)
  {
    if k == 0 {
      EmptyUnit(ms[0].destroyed + ms[0].items);
    } else {
      QueueOrder(slots, ms, ops, sts, k - 1);
      var m, m', more := ms[k - 1], ms[k], Pushed(ops, sts, k)[|Pushed(ops, sts, k - 1)|..];
      assert Effect(slots, true, m, ops[k - 1], m', sts[k - 1]);
      QueueStep(slots, m, ops[k - 1], m', sts[k - 1]);
      Regroup(ms[0].destroyed + ms[0].items, Pushed(ops, sts, k - 1), more);
    }
  }

  lemma QueueStep<T>(slots: nat, m: Model<T>, op: Op<T>, m': Model<T>, st: Status)
    requires Effect(slots, true, m, op, m', st) && (op.PushBack? || op.PopFront?)
    ensures m'.destroyed + m'.items == m.destroyed + m.items + if op.PushBack? && st == Success then [op.x] else []
  {
    var n := |m.items|;
    if op.PopFront? && n > 0 {
      assert m.items == [m.items[0]] + m.items[1..];
    } else if st == Success && op.PushBack? {
      assert m'.items == m'.items[..n] + [m'.items[n]];
    }
  }

  /** Pushing and popping at the same end is a stack: the pop takes back exactly what was pushed. */
  lemma PopUndoesPush<T>(slots: nat, destructor: bool, x: T, m: Model<T>, m1: Model<T>, m2: Model<T>, st: Status,
                         front: bool)
    requires |m.items| < slots
    requires Effect(slots, destructor, m, if front then PushFront(x) else PushBack(x), m1, Success)
    requires Effect(slots, destructor, m1, if front then PopFront else PopBack, m2, st)
    ensures st == Success && m2.items == m.items && m2.destroyed == m.destroyed + if destructor then [x] else []
  {
  }
}
