/** The slot-ownership protocol of Packet/PacketQueue.cpp between any number of producers, the worker
    thread and Stop. Each step is one lock-protected stretch or one unprotected access, so steps of
    different threads interleave in every order. */
module QueueProtocol {
  import opened Words
  import opened BufferPool

  const BATCH_SIZE := 16

  /** One allocate-then-queue call; `call` numbers the calls. */
  datatype Entry = Entry(call: nat, handle: Handle)

  /** Where the worker stands in ProcessQueue. */
  datatype Worker =
    | Outer                                  // about to test `running` in the outer loop
    | Inner(processed: nat)                  // about to test `running` and the batch size
    | Taking(processed: nat)                 // about to lock the queue and pop
    | Sending(entry: Entry, processed: nat)  // about to call SendPacketData
    | Freeing(entry: Entry, processed: nat)  // about to give the buffer back
    | Ended

  /** Where Stop stands. While it drains it holds the queue lock. */
  datatype Stopper = NotCalled | Signalled | Draining | Stopped

  datatype Taker = ByWorker | ByStop

  datatype Taken = Taken(entry: Entry, taker: Taker)

  datatype State = State(
    inUse: seq<bool>,
    heap: set<nat>,              // heap blocks not deleted yet
    producers: seq<Entry>,       // calls between Allocate and the push
    queue: seq<Entry>,
    worker: Worker,
    running: bool,
    stopper: Stopper,
    calls: nat,
    queued: seq<Entry>,          // every push, in order
    taken: seq<Taken>,           // every pop, in order
    sent: seq<Entry>,            // every SendPacketData
    drained: seq<Entry>)         // every entry cleaned up by Stop

  function NoneInUse(): (inUse: seq<bool>)
    ensures |inUse| == POOL_SIZE && forall i :: 0 <= i < POOL_SIZE ==> !inUse[i]
  {
    seq(POOL_SIZE, _ => false)
  }

  /** After Start. */
  const INITIAL := State(NoneInUse(), {}, [], [], Outer, true, NotCalled, 0, [], [], [], [])

  datatype Event =
    | Allocate(size: nat)
    | Push(producer: nat)
    | GiveUp(producer: nat)      // QueuePacketBlocking could not create its event
    | Work
    | StopBegin
    | StopWaitOver               // the worker ended, or five seconds passed
    | DrainOne
    | StopEnd

  ghost predicate Enabled(s: State, e: Event) {
    match e
    case Allocate(_) => true
    case Push(j) => j < |s.producers| && s.stopper != Draining
    case GiveUp(j) => j < |s.producers|
    case Work => s.worker != Ended && !(s.worker.Taking? && s.stopper == Draining)
    case StopBegin => s.stopper == NotCalled
    case StopWaitOver => s.stopper == Signalled
    case DrainOne => s.stopper == Draining && s.queue != []
    case StopEnd => s.stopper == Draining && s.queue == []
  }

  function Released(s: State, h: Handle): State {
    s.(inUse := Marked(s.inUse, h, false), heap := if h.Heap? then s.heap - {h.call} else s.heap)
  }

  function Without(es: seq<Entry>, j: nat): seq<Entry>
    requires j < |es|
  {
    es[..j] + es[j + 1..]
  }

  function WorkStep(s: State): State {
    match s.worker
    case Outer => s.(worker := if s.running then Inner(0) else Ended)
    case Inner(k) => s.(worker := if s.running && k < BATCH_SIZE then Taking(k) else Outer)
    case Taking(k) =>
      if s.queue == [] then s.(worker := Outer)
      else s.(worker := Sending(s.queue[0], k + 1), queue := s.queue[1..],
              taken := s.taken + [Taken(s.queue[0], ByWorker)])
    case Sending(e, k) => s.(worker := Freeing(e, k), sent := s.sent + [e])
    case Freeing(e, k) => Released(s, e.handle).(worker := Inner(k))
    case Ended => s
  }

  ghost function Step(s: State, e: Event): State
    requires Enabled(s, e)
  {
    match e
    case Allocate(size) =>
      var h := AllocateHandle(s.inUse, size, s.calls);
      s.(inUse := Marked(s.inUse, h, true), heap := if h.Heap? then s.heap + {h.call} else s.heap,
         producers := s.producers + [Entry(s.calls, h)], calls := s.calls + 1)
    case Push(j) =>
      s.(queue := s.queue + [s.producers[j]], queued := s.queued + [s.producers[j]],
         producers := Without(s.producers, j))
    case GiveUp(j) =>
      Released(s, s.producers[j].handle).(producers := Without(s.producers, j))
    case Work => WorkStep(s)
    case StopBegin => s.(running := false, stopper := Signalled)
    case StopWaitOver => s.(stopper := Draining)
    case DrainOne =>
      Released(s, s.queue[0].handle).(queue := s.queue[1..], drained := s.drained + [s.queue[0]],
                                      taken := s.taken + [Taken(s.queue[0], ByStop)])
    case StopEnd => s.(stopper := Stopped)
  }

  // ---------------------------------------------------------------- ownership

  /** How many of these entries hold buffer `h`. */
  function Count(es: seq<Entry>, h: Handle): nat {
    if es == [] then 0 else (if es[0].handle == h then 1 else 0) + Count(es[1..], h)
  }

  function WorkerCount(w: Worker, h: Handle): nat {
    if (w.Sending? || w.Freeing?) && w.entry.handle == h then 1 else 0
  }

  /** How many holders buffer `h` has: producers, queue entries and the worker. */
  function Holders(s: State, h: Handle): nat {
    Count(s.producers, h) + Count(s.queue, h) + WorkerCount(s.worker, h)
  }

  predicate InUse(s: State, h: Handle) {
    match h
    case Slot(i) => i < |s.inUse| && s.inUse[i]
    case Heap(c) => c in s.heap
  }

  /** Each buffer in use has exactly one holder, each free buffer has none. */
  ghost predicate OneHolderEach(s: State) {
    && |s.inUse| == POOL_SIZE
    && (forall c :: c in s.heap ==> c < s.calls)
    && (forall h :: Holders(s, h) == if InUse(s, h) then 1 else 0)
  }

  lemma {:induction false} CountAppend(es: seq<Entry>, e: Entry, h: Handle)
    ensures Count(es + [e], h) == Count(es, h) + if e.handle == h then 1 else 0
  {
    if es == [] {
      assert es + [e] == [e];
    } else {
      assert (es + [e])[1..] == es[1..] + [e];
      CountAppend(es[1..], e, h);
    }
  }

  lemma {:induction false} CountWithout(es: seq<Entry>, j: nat, h: Handle)
    requires j < |es|
    ensures Count(es, h) == Count(Without(es, j), h) + if es[j].handle == h then 1 else 0
  {
    if j == 0 {
      assert Without(es, 0) == es[1..];
    } else {
      assert Without(es, j)[1..] == Without(es[1..], j - 1);
      CountWithout(es[1..], j - 1, h);
    }
  }

  /** What a step does to the holders of `h`: +1 for the buffer it takes, -1 for the one it frees. */
  lemma StepHolders(s: State, e: Event, h: Handle)
    requires Enabled(s, e)
    ensures Holders(Step(s, e), h) + (if Frees(s, e) == Some(h) then 1 else 0)
         == Holders(s, h) + (if Takes(s, e) == Some(h) then 1 else 0)
  {
    if e.Allocate? || e.Push? || e.GiveUp? {
      ProducerHolders(s, e, h);
    }
  }

  lemma ProducerHolders(s: State, e: Event, h: Handle)
    requires Enabled(s, e) && (e.Allocate? || e.Push? || e.GiveUp?)
    ensures Holders(Step(s, e), h) + (if Frees(s, e) == Some(h) then 1 else 0)
         == Holders(s, h) + (if Takes(s, e) == Some(h) then 1 else 0)
  {
    hide AllocateHandle; hide Marked; hide Count;
    match e
    case Allocate(size) =>
      CountAppend(s.producers, Entry(s.calls, AllocateHandle(s.inUse, size, s.calls)), h);
    case Push(j) =>
      CountWithout(s.producers, j, h);
      CountAppend(s.queue, s.producers[j], h);
    case GiveUp(j) => CountWithout(s.producers, j, h);
  }

  function Takes(s: State, e: Event): Option<Handle> {
    if e.Allocate? then Some(AllocateHandle(s.inUse, e.size, s.calls)) else None
  }

  ghost function Frees(s: State, e: Event): Option<Handle>
    requires Enabled(s, e)
  {
    match e
    case GiveUp(j) => Some(s.producers[j].handle)
    case Work => if s.worker.Freeing? then Some(s.worker.entry.handle) else None
    case DrainOne => Some(s.queue[0].handle)
    case _ => None
  }

  /** A step marks exactly the buffer it takes and unmarks exactly the one it frees. */
  lemma StepMarks(s: State, e: Event, h: Handle)
    requires Enabled(s, e) && |s.inUse| == POOL_SIZE
    requires Frees(s, e).Some? ==> InUse(s, Frees(s, e).value)
    ensures InUse(Step(s, e), h) <==> (Takes(s, e) == Some(h) || (InUse(s, h) && Frees(s, e) != Some(h)))
    ensures |Step(s, e).inUse| == POOL_SIZE
  {
  }

  /** A free buffer is taken: Allocate never hands out a slot or block that somebody holds. */
  lemma StepTakesFree(s: State, e: Event)
    requires OneHolderEach(s) && Enabled(s, e)
    ensures Takes(s, e).Some? ==> !InUse(s, Takes(s, e).value)
  {
  }

  lemma StepFreesHeld(s: State, e: Event)
    requires Enabled(s, e) && Frees(s, e).Some?
    ensures Holders(s, Frees(s, e).value) >= 1
  {
    if e.GiveUp? {
      CountWithout(s.producers, e.producer, s.producers[e.producer].handle);
    }
  }

  lemma StepKeepsOwnership(s: State, e: Event)
    requires OneHolderEach(s) && Enabled(s, e)
    ensures OneHolderEach(Step(s, e))
  {
    var s' := Step(s, e);
    StepTakesFree(s, e);
    if Frees(s, e).Some? {
      StepFreesHeld(s, e);
    }
    forall h
      ensures Holders(s', h) == if InUse(s', h) then 1 else 0
    {
      StepHolders(s, e, h);
      StepMarks(s, e, h);
      hide Holders; hide InUse; hide Step; hide Takes; hide Frees;
      assert Holders(s, h) == if InUse(s, h) then 1 else 0;
    }
    StepMarks(s, e, Heap(0));
    assert forall c :: c in s'.heap ==> c < s'.calls;
  }

  // ---------------------------------------------------------------- delivery

  function EntriesOf(ts: seq<Taken>): seq<Entry> {
    if ts == [] then [] else EntriesOf(ts[..|ts| - 1]) + [ts[|ts| - 1].entry]
  }

  /** The entries one taker popped, in order. */
  function TakenBy(ts: seq<Taken>, who: Taker): seq<Entry> {
    if ts == [] then []
    else
      var front, last := TakenBy(ts[..|ts| - 1], who), ts[|ts| - 1];
      if last.taker == who then front + [last.entry] else front
  }

  function Unsent(w: Worker): seq<Entry> {
    if w.Sending? then [w.entry] else []
  }

  /** Pops follow push order; the worker sends what it pops, in that order; Stop drains what it pops. */
  ghost predicate FifoDelivery(s: State) {
    && s.queued == EntriesOf(s.taken) + s.queue
    && s.sent + Unsent(s.worker) == TakenBy(s.taken, ByWorker)
    && s.drained == TakenBy(s.taken, ByStop)
  }

  lemma EntriesSnoc(ts: seq<Taken>, t: Taken)
    ensures EntriesOf(ts + [t]) == EntriesOf(ts) + [t.entry]
  {
    assert (ts + [t])[..|ts|] == ts;
  }

  lemma TakenSnoc(ts: seq<Taken>, t: Taken, who: Taker)
    ensures TakenBy(ts + [t], who) == if t.taker == who then TakenBy(ts, who) + [t.entry] else TakenBy(ts, who)
  {
    assert (ts + [t])[..|ts|] == ts;
  }

  /** Who pops an entry in this step. */
  function Popper(s: State, e: Event): Option<Taker> {
    if e.Work? && s.worker.Taking? && s.queue != [] then Some(ByWorker)
    else if e.DrainOne? then Some(ByStop)
    else None
  }

  /** What a step does to the queue and its logs: it pops the head, pushes at the back, or neither. */
  lemma StepLogs(s: State, e: Event)
    requires Enabled(s, e)
    ensures Popper(s, e).Some? ==> s.queue != [] && Step(s, e).queue == s.queue[1..]
    ensures Popper(s, e).Some? ==> Step(s, e).taken == s.taken + [Taken(s.queue[0], Popper(s, e).value)]
    ensures Popper(s, e).None? ==> Step(s, e).taken == s.taken
    ensures e.Push? ==> e.producer < |s.producers|
    ensures e.Push? ==> Step(s, e).queue == s.queue + [s.producers[e.producer]]
    ensures e.Push? ==> Step(s, e).queued == s.queued + [s.producers[e.producer]]
    ensures !e.Push? ==> Step(s, e).queued == s.queued
    ensures !e.Push? && Popper(s, e).None? ==> Step(s, e).queue == s.queue
  {
    hide AllocateHandle; hide Marked; hide Without;
  }

  /** What a step sends and drains: an entry counts as the worker's from its pop on. */
  lemma StepOutputs(s: State, e: Event)
    requires Enabled(s, e)
    ensures Step(s, e).drained == s.drained + if Popper(s, e) == Some(ByStop) then [s.queue[0]] else []
    ensures Popper(s, e) == Some(ByWorker) ==>
      s.queue != [] && Unsent(s.worker) == [] && Unsent(Step(s, e).worker) == [s.queue[0]]
    ensures Popper(s, e) == Some(ByWorker) ==> Step(s, e).sent == s.sent
    ensures Popper(s, e) != Some(ByWorker) ==>
      Step(s, e).sent + Unsent(Step(s, e).worker) == s.sent + Unsent(s.worker)
  {
    hide AllocateHandle; hide Marked; hide Without;
    EmptyUnit(s.drained);
    EmptyUnit(s.sent + Unsent(s.worker));
  }

  lemma StepKeepsQueued(s: State, e: Event)
    requires s.queued == EntriesOf(s.taken) + s.queue && Enabled(s, e)
    ensures Step(s, e).queued == EntriesOf(Step(s, e).taken) + Step(s, e).queue
  {
    StepLogs(s, e);
    hide *;
    if Popper(s, e).Some? {
      EntriesSnoc(s.taken, Taken(s.queue[0], Popper(s, e).value));
      HeadMoves(EntriesOf(s.taken), s.queue);
    } else if e.Push? {
      Associative(EntriesOf(s.taken), s.queue, [s.producers[e.producer]]);
    }
  }

  lemma HeadMoves<T>(front: seq<T>, back: seq<T>)
    requires back != []
    ensures front + back == front + [back[0]] + back[1..]
  {
  }

  lemma StepKeepsTaken(s: State, e: Event)
    requires Enabled(s, e) && s.drained == TakenBy(s.taken, ByStop)
    requires s.sent + Unsent(s.worker) == TakenBy(s.taken, ByWorker)
    ensures Step(s, e).drained == TakenBy(Step(s, e).taken, ByStop)
    ensures Step(s, e).sent + Unsent(Step(s, e).worker) == TakenBy(Step(s, e).taken, ByWorker)
  {
    StepLogs(s, e);
    StepOutputs(s, e);
    hide *;
    EmptyUnit(s.drained);
    EmptyUnit(s.sent);
    if Popper(s, e).Some? {
      var t := Taken(s.queue[0], Popper(s, e).value);
      TakenSnoc(s.taken, t, ByWorker);
      TakenSnoc(s.taken, t, ByStop);
    }
  }

  lemma StepKeepsDelivery(s: State, e: Event)
    requires FifoDelivery(s) && Enabled(s, e)
    ensures FifoDelivery(Step(s, e))
  {
    StepKeepsQueued(s, e);
    StepKeepsTaken(s, e);
    hide Step; hide Enabled; hide EntriesOf; hide TakenBy; hide Unsent;
  }

  ghost predicate Below(es: seq<Entry>, n: nat) {
    forall i :: 0 <= i < |es| ==> es[i].call < n
  }

  ghost predicate NoRepeat(es: seq<Entry>) {
    forall i, j :: 0 <= i < j < |es| ==> es[i].call != es[j].call
  }

  ghost predicate NoCommon(es: seq<Entry>, fs: seq<Entry>) {
    forall i, j :: 0 <= i < |es| && 0 <= j < |fs| ==> es[i].call != fs[j].call
  }

  /** No call is queued twice, or queued while its producer still holds the buffer. */
  ghost predicate DistinctCalls(s: State) {
    && Below(s.producers, s.calls) && Below(s.queued, s.calls)
    && NoRepeat(s.producers) && NoRepeat(s.queued) && NoCommon(s.producers, s.queued)
  }

  lemma WithoutElements(es: seq<Entry>, j: nat)
    requires j < |es|
    ensures |Without(es, j)| == |es| - 1
    ensures forall i :: 0 <= i < |es| - 1 ==> Without(es, j)[i] == es[if i < j then i else i + 1]
  {
  }

  lemma PushKeepsDistinctCalls(s: State, j: nat)
    requires DistinctCalls(s) && Enabled(s, Push(j))
    ensures DistinctCalls(Step(s, Push(j)))
  {
    WithoutElements(s.producers, j);
    hide Without;
    var rest, more := Without(s.producers, j), s.queued + [s.producers[j]];
    assert NoRepeat(more) && Below(more, s.calls);
    assert NoRepeat(rest) && Below(rest, s.calls);
    assert NoCommon(rest, more);
  }

  lemma AllocateKeepsDistinctCalls(s: State, size: nat)
    requires DistinctCalls(s)
    ensures DistinctCalls(Step(s, Allocate(size)))
  {
    hide AllocateHandle; hide Marked;
  }

  lemma GiveUpKeepsDistinctCalls(s: State, j: nat)
    requires DistinctCalls(s) && j < |s.producers|
    ensures DistinctCalls(Step(s, GiveUp(j)))
  {
    WithoutElements(s.producers, j);
    hide Without; hide Marked;
  }

  lemma StepKeepsDistinctCalls(s: State, e: Event)
    requires DistinctCalls(s) && Enabled(s, e)
    ensures DistinctCalls(Step(s, e))
  {
    if e.Push? {
      PushKeepsDistinctCalls(s, e.producer);
    } else if e.GiveUp? {
      GiveUpKeepsDistinctCalls(s, e.producer);
    } else if e.Allocate? {
      AllocateKeepsDistinctCalls(s, e.size);
    } else {
      StepLogs(s, e);
      StepCalls(s, e);
      hide *;
      SameCalls(s, Step(s, e));
    }
  }

  lemma StepCalls(s: State, e: Event)
    requires Enabled(s, e) && !e.Push? && !e.GiveUp? && !e.Allocate?
    ensures Step(s, e).producers == s.producers && Step(s, e).calls == s.calls
  {
    hide Marked;
  }

  lemma SameCalls(s: State, s': State)
    requires DistinctCalls(s) && s'.producers == s.producers && s'.queued == s.queued && s'.calls == s.calls
    ensures DistinctCalls(s')
  {
  }

  ghost predicate Inv(s: State) {
    OneHolderEach(s) && FifoDelivery(s) && DistinctCalls(s)
  }

  lemma InitialInv()
    ensures Inv(INITIAL)
  {
  }

  // ---------------------------------------------------------------- runs

  ghost predicate ValidRun(s: State, es: seq<Event>)
    decreases |es|
  {
    es == [] || (Enabled(s, es[0]) && ValidRun(Step(s, es[0]), es[1..]))
  }

  ghost function Run(s: State, es: seq<Event>): State
    requires ValidRun(s, es)
    decreases |es|
  {
    if es == [] then s else Run(Step(s, es[0]), es[1..])
  }

  /** Ownership and delivery order hold at every moment of every interleaving. */
  lemma {:induction false} RunKeepsInv(s: State, es: seq<Event>)
    requires Inv(s) && ValidRun(s, es)
    ensures Inv(Run(s, es))
    decreases |es|
  {
    if es != [] {
      hide OneHolderEach; hide FifoDelivery; hide DistinctCalls; hide Enabled; hide Step;
      StepKeepsOwnership(s, es[0]);
      StepKeepsDelivery(s, es[0]);
      StepKeepsDistinctCalls(s, es[0]);
      RunKeepsInv(Step(s, es[0]), es[1..]);
    }
  }

  /** Every state that producers, worker and shutdown can reach from Start satisfies the invariant. */
  lemma Reachable(es: seq<Event>)
    requires ValidRun(INITIAL, es)
    ensures Inv(Run(INITIAL, es))
  {
    InitialInv();
    RunKeepsInv(INITIAL, es);
  }

  /** A batch has sixteen entries at most. */
  ghost predicate InBatch(w: Worker) {
    && (w.Inner? ==> w.processed <= 16)
    && (w.Taking? ==> w.processed < 16)
    && (w.Sending? || w.Freeing? ==> 1 <= w.processed <= 16)
  }

  /** Over every run the worker goes back to the outer loop after sixteen entries at the latest. */
  lemma {:induction false} BatchesAreBounded(s: State, es: seq<Event>)
    requires InBatch(s.worker) && ValidRun(s, es)
    ensures InBatch(Run(s, es).worker)
    decreases |es|
  {
    if es != [] {
      BatchStep(s, es[0]);
      hide Step; hide Enabled; hide InBatch;
      BatchesAreBounded(Step(s, es[0]), es[1..]);
    }
  }

  lemma BatchStep(s: State, e: Event)
    requires InBatch(s.worker) && Enabled(s, e)
    ensures InBatch(Step(s, e).worker)
  {
    hide AllocateHandle; hide Marked; hide Without;
  }

  /** In every reachable state Allocate uses the heap exactly for requests over 8192 bytes and when all
      256 slots are held by somebody. */
  lemma FallbackMeansHeld(es: seq<Event>, size: nat)
    requires ValidRun(INITIAL, es)
    ensures var s := Run(INITIAL, es);
      AllocateHandle(s.inUse, size, s.calls).Heap?
      <==> size > 8192 || forall i :: 0 <= i < 256 ==> Holders(s, Slot(i)) == 1
  {
    Reachable(es);
    var s := Run(INITIAL, es);
    HeapFallback(s.inUse, size, s.calls);
    forall i | 0 <= i < POOL_SIZE
      ensures Holders(s, Slot(i)) == 1 <==> s.inUse[i]
    {
      assert Holders(s, Slot(i)) == if InUse(s, Slot(i)) then 1 else 0;
    }
    hide *;
  }

  // ---------------------------------------------------------------- shutdown

  ghost predicate AllBack(s: State) {
    |s.inUse| == POOL_SIZE && s.heap == {} && forall i :: 0 <= i < POOL_SIZE ==> !s.inUse[i]
  }

  lemma CountMember(es: seq<Entry>, i: nat)
    requires i < |es|
    ensures Count(es, es[i].handle) >= 1
  {
    if i > 0 {
      CountMember(es[1..], i - 1);
    }
  }

  lemma HeldIsInUse(s: State, h: Handle)
    requires OneHolderEach(s) && Holders(s, h) >= 1
    ensures InUse(s, h) && !AllBack(s)
  {
    assert Holders(s, h) == if InUse(s, h) then 1 else 0;
  }

  lemma FreeIsUnheld(s: State, h: Handle)
    requires OneHolderEach(s) && s.producers == [] && s.queue == [] && s.worker.Ended?
    ensures !InUse(s, h)
  {
    assert Holders(s, h) == if InUse(s, h) then 1 else 0;
  }

  /** Once the worker has ended, every slot is free and every heap block deleted if and only if no producer
      and no queue entry holds a buffer. */
  lemma AllBackIffNothingHeld(s: State)
    requires OneHolderEach(s) && s.worker.Ended?
    ensures AllBack(s) <==> s.producers == [] && s.queue == []
  {
    if s.producers != [] {
      CountMember(s.producers, 0);
      HeldIsInUse(s, s.producers[0].handle);
    } else if s.queue != [] {
      CountMember(s.queue, 0);
      HeldIsInUse(s, s.queue[0].handle);
    } else {
      forall i | 0 <= i < POOL_SIZE
        ensures !s.inUse[i]
      {
        FreeIsUnheld(s, Slot(i));
      }
      forall c
        ensures c !in s.heap
      {
        FreeIsUnheld(s, Heap(c));
      }
    }
  }

  /** Every pop is the worker's or Stop's. */
  lemma {:induction false} TakenSplit(ts: seq<Taken>)
    ensures multiset(EntriesOf(ts)) == multiset(TakenBy(ts, ByWorker)) + multiset(TakenBy(ts, ByStop))
  {
    if ts != [] {
      TakenSplit(ts[..|ts| - 1]);
    }
  }

  lemma NoRepeatCounts(es: seq<Entry>, e: Entry)
    requires NoRepeat(es) && e in es
    ensures multiset(es)[e] == 1
  {
    var i :| 0 <= i < |es| && es[i] == e;
    assert es == es[..i] + [e] + es[i + 1..];
    assert e !in es[..i] && e !in es[i + 1..];
  }

  /** Every queued entry is sent, drained, still queued or in the worker's hands: exactly one of these. */
  lemma QueuedSplit(s: State)
    requires FifoDelivery(s)
    ensures multiset(s.queued)
         == multiset(s.sent) + multiset(Unsent(s.worker)) + multiset(s.drained) + multiset(s.queue)
  {
    TakenSplit(s.taken);
    hide EntriesOf; hide TakenBy; hide Unsent;
    assert multiset(s.sent + Unsent(s.worker)) == multiset(s.sent) + multiset(Unsent(s.worker));
    assert multiset(EntriesOf(s.taken) + s.queue) == multiset(EntriesOf(s.taken)) + multiset(s.queue);
  }

  /** In every run, once the worker has ended and the producers are quiet: every queued entry was sent or
      drained or is still queued, exactly once, and all buffers are back if and only if none is queued. */
  lemma CleanShutdown(es: seq<Event>)
    requires ValidRun(INITIAL, es)
    requires Run(INITIAL, es).worker.Ended? && Run(INITIAL, es).producers == []
    ensures var end := Run(INITIAL, es);
      && (AllBack(end) <==> end.queue == [])
      && multiset(end.queued) == multiset(end.sent) + multiset(end.drained) + multiset(end.queue)
      && forall e :: e in end.queued ==> multiset(end.sent)[e] + multiset(end.drained)[e] + multiset(end.queue)[e] == 1
  {
    Reachable(es);
    var end := Run(INITIAL, es);
    AllBackIffNothingHeld(end);
    QueuedSplit(end);
    assert Unsent(end.worker) == [];
    hide Run; hide ValidRun; hide OneHolderEach; hide FifoDelivery; hide AllBack;
    forall e | e in end.queued
      ensures multiset(end.sent)[e] + multiset(end.drained)[e] + multiset(end.queue)[e] == 1
    {
      NoRepeatCounts(end.queued, e);
    }
  }

  /** In every run, entries reach SendPacketData in queueing order, each at most once. */
  lemma SentInOrder(es: seq<Event>)
    requires ValidRun(INITIAL, es)
    ensures Subsequence(Run(INITIAL, es).sent, Run(INITIAL, es).queued) && NoRepeat(Run(INITIAL, es).sent)
  {
    Reachable(es);
    SendsFollowQueue(Run(INITIAL, es));
  }

  lemma SendsFollowQueue(s: State)
    requires Inv(s)
    ensures Subsequence(s.sent, s.queued) && NoRepeat(s.sent)
  {
    TakenBySubsequence(s.taken, ByWorker);
    SubsequenceOfPrefix(s.sent, Unsent(s.worker));
    SubsequenceOfPrefix(EntriesOf(s.taken), s.queue);
    SubsequenceTransitive(s.sent, TakenBy(s.taken, ByWorker), EntriesOf(s.taken));
    SubsequenceTransitive(s.sent, EntriesOf(s.taken), s.queued);
    SubsequenceNoRepeat(s.sent, s.queued);
  }

  lemma SubsequenceOfPrefix<T>(a: seq<T>, b: seq<T>)
    ensures Subsequence(a, a + b)
  {
    EmptySubsequence(b);
    SubsequencePrepend([], b, a);
    EmptyUnit(a);
  }

  lemma SubsequenceNoRepeat(a: seq<Entry>, b: seq<Entry>)
    requires Subsequence(a, b) && NoRepeat(b)
    ensures NoRepeat(a)
  {
    var f: seq<nat> :| Embeds(f, a, b);
    forall i, j | 0 <= i < j < |a|
      ensures a[i].call != a[j].call
    {
      assert f[i] < f[j];
    }
  }

  lemma {:induction false} TakenBySubsequence(ts: seq<Taken>, who: Taker)
    ensures Subsequence(TakenBy(ts, who), EntriesOf(ts))
  {
    if ts == [] {
      SubsequenceReflexive<Entry>([]);
    } else {
      var front, last := ts[..|ts| - 1], ts[|ts| - 1];
      TakenBySubsequence(front, who);
      if last.taker == who {
        SubsequenceAppend(TakenBy(front, who), EntriesOf(front), [last.entry]);
      } else {
        SubsequenceOfPrefix(EntriesOf(front), [last.entry]);
        SubsequenceTransitive(TakenBy(front, who), EntriesOf(front), EntriesOf(ts));
      }
    }
  }

  // ---------------------------------------------------------------- the worker winds down

  /** Steps the worker still takes once `running` is false. */
  function WindDown(w: Worker): nat {
    match w
    case Ended => 0
    case Outer => 1
    case Inner(_) => 2
    case Freeing(_, _) => 3
    case Sending(_, _) => 4
    case Taking(_) => 5
  }

  function WorkSteps(es: seq<Event>): nat {
    if es == [] then 0 else (if es[0].Work? then 1 else 0) + WorkSteps(es[1..])
  }

  /** After Stop has cleared the flag the worker takes at most five more steps, whatever the others
      do, and pops at most one more entry. */
  lemma {:induction false} WorkerWindsDown(s: State, es: seq<Event>)
    requires !s.running && ValidRun(s, es)
    ensures !Run(s, es).running
    ensures WorkSteps(es) + WindDown(Run(s, es).worker) <= WindDown(s.worker) <= 5
    ensures |TakenBy(Run(s, es).taken, ByWorker)|
         <= |TakenBy(s.taken, ByWorker)| + if s.worker.Taking? then 1 else 0
    decreases |es|
  {
    if es != [] {
      var s' := Step(s, es[0]);
      if |s'.taken| > |s.taken| {
        assert s'.taken[..|s.taken|] == s.taken;
      }
      WorkerWindsDown(s', es[1..]);
    }
  }

  // ---------------------------------------------------------------- Stop's drain loop

  function FreeAll(inUse: seq<bool>, es: seq<Entry>): seq<bool>
    decreases |es|
  {
    if es == [] then inUse else FreeAll(Marked(inUse, es[0].handle, false), es[1..])
  }

  function Drains(n: nat): seq<Event> {
    if n == 0 then [] else [DrainOne] + Drains(n - 1)
  }

  /** Draining entry by entry frees every queued buffer in queue order and leaves nothing behind. */
  lemma {:induction false} DrainRun(s: State)
    requires s.stopper == Draining
    ensures ValidRun(s, Drains(|s.queue|))
    ensures var end := Run(s, Drains(|s.queue|));
      end.queue == [] && end.drained == s.drained + s.queue && end.inUse == FreeAll(s.inUse, s.queue)
    decreases |s.queue|
  {
    if s.queue != [] {
      assert Drains(|s.queue|)[0] == DrainOne && Drains(|s.queue|)[1..] == Drains(|s.queue| - 1);
      DrainRun(Step(s, DrainOne));
      Associative(s.drained, [s.queue[0]], s.queue[1..]);
      assert [s.queue[0]] + s.queue[1..] == s.queue;
    } else {
      EmptyUnit(s.drained);
    }
  }

  // ---------------------------------------------------------------- what the code's methods amount to

  function Works(n: nat): seq<Event> {
    if n == 0 then [] else [Work] + Works(n - 1)
  }

  /** Four worker steps send one entry and free its buffer. */
  lemma OneEntryRun(s: State, k: nat)
    requires s.worker == Inner(k) && s.running && s.stopper == NotCalled && k < BATCH_SIZE && s.queue != []
    ensures ValidRun(s, Works(4))
    ensures var end := Run(s, Works(4));
      && end.queue == s.queue[1..] && end.sent == s.sent + [s.queue[0]]
      && end.inUse == Marked(s.inUse, s.queue[0].handle, false)
      && end.worker == Inner(k + 1) && end.running && end.stopper == NotCalled
  {
    assert Works(4)[0] == Work && Works(4)[1..] == Works(3);
    assert Works(3)[0] == Work && Works(3)[1..] == Works(2);
    assert Works(2)[0] == Work && Works(2)[1..] == Works(1);
    assert Works(1)[0] == Work && Works(1)[1..] == [];
    hide Marked;
    var s1 := Step(s, Work);
    var s2 := Step(s1, Work);
    var s3 := Step(s2, Work);
    var s4 := Step(s3, Work);
    assert Run(s3, Works(1)) == s4;
    assert Run(s2, Works(2)) == s4;
    assert Run(s1, Works(3)) == s4;
  }

  lemma {:induction false} RunConcat(s: State, a: seq<Event>, b: seq<Event>)
    requires ValidRun(s, a) && ValidRun(Run(s, a), b)
    ensures ValidRun(s, a + b) && Run(s, a + b) == Run(Run(s, a), b)
    decreases |a|
  {
    if a == [] {
      assert a + b == b;
    } else {
      hide Step; hide Enabled;
      assert (a + b)[0] == a[0] && (a + b)[1..] == a[1..] + b;
      RunConcat(Step(s, a[0]), a[1..], b);
    }
  }

  lemma {:induction false} WorksSplit(m: nat, n: nat)
    ensures Works(m + n) == Works(m) + Works(n)
  {
    if m > 0 {
      WorksSplit(m - 1, n);
      Associative([Work], Works(m - 1), Works(n));
    } else {
      EmptyUnit(Works(n));
    }
  }

  /** From `s` to `end` the first `n` entries left the queue, were sent in order, and gave their buffers back. */
  ghost predicate Handled(s: State, end: State, n: nat) {
    && n <= |s.queue| && end.queue == s.queue[n..] && end.sent == s.sent + s.queue[..n]
    && end.inUse == FreeAll(s.inUse, s.queue[..n])
  }

  lemma HandledOne(s: State, mid: State, end: State, n: nat)
    requires |s.queue| > 0 && mid.queue == s.queue[1..] && mid.sent == s.sent + [s.queue[0]]
    requires mid.inUse == Marked(s.inUse, s.queue[0].handle, false) && Handled(mid, end, n)
    ensures Handled(s, end, n + 1)
  {
    var first := s.queue[..n + 1];
    assert first == [s.queue[0]] + mid.queue[..n] && first[1..] == mid.queue[..n];
    Associative(s.sent, [s.queue[0]], mid.queue[..n]);
  }

  lemma NoEntryRun(s: State)
    ensures ValidRun(s, Works(0)) && Run(s, Works(0)) == s && Handled(s, s, 0)
  {
    EmptyUnit(s.sent);
  }

  /** A batch of `n` entries is `4 * n` worker steps. */
  lemma {:induction false} BatchRun(s: State, k: nat, n: nat)
    requires s.worker == Inner(k) && s.running && s.stopper == NotCalled
    requires k + n <= BATCH_SIZE && n <= |s.queue|
    ensures ValidRun(s, Works(4 * n))
    ensures var end := Run(s, Works(4 * n));
      Handled(s, end, n) && end.worker == Inner(k + n) && end.running && end.stopper == NotCalled
    decreases n
  {
    hide *;
    if n == 0 {
      NoEntryRun(s);
    } else {
      OneEntryRun(s, k);
      var mid := Run(s, Works(4));
      BatchRun(mid, k + 1, n - 1);
      WorksSplit(4, 4 * (n - 1));
      RunConcat(s, Works(4), Works(4 * (n - 1)));
      HandledOne(s, mid, Run(s, Works(4 * n)), n - 1);
    }
  }

  lemma TwoSteps(s: State, first: Event, second: Event)
    requires Enabled(s, first) && Enabled(Step(s, first), second)
    ensures ValidRun(s, [first, second]) && Run(s, [first, second]) == Step(Step(s, first), second)
  {
    hide Step; hide Enabled;
    var s1, s2 := Step(s, first), Step(Step(s, first), second);
    assert [first, second][1..] == [second] && [second][1..] == [];
    assert ValidRun(s2, []) && Run(s2, []) == s2;
    assert ValidRun(s1, [second]) && Run(s1, [second]) == s2;
  }

  /** An allocate-then-queue call that nobody interrupts is the two steps Allocate and Push. */
  lemma AddRun(s: State, size: nat)
    requires s.stopper != Draining
    ensures var es := [Allocate(size), Push(|s.producers|)];
      && ValidRun(s, es)
      && var end, h := Run(s, es), AllocateHandle(s.inUse, size, s.calls);
      && end.queue == s.queue + [Entry(s.calls, h)] && end.inUse == Marked(s.inUse, h, true)
      && end.calls == s.calls + 1 && end.producers == s.producers
  {
    hide AllocateHandle; hide Marked;
    TwoSteps(s, Allocate(size), Push(|s.producers|));
    hide Run; hide ValidRun;
    assert Step(s, Allocate(size)).producers[..|s.producers|] == s.producers;
  }

  /** A blocking call whose event cannot be created leaves queue and pool as they were. */
  lemma GiveUpRun(s: State, size: nat)
    requires OneHolderEach(s)
    ensures var es := [Allocate(size), GiveUp(|s.producers|)];
      && ValidRun(s, es)
      && var end := Run(s, es);
      end.queue == s.queue && end.inUse == s.inUse && end.heap == s.heap && end.producers == s.producers
  {
    StepTakesFree(s, Allocate(size));
    hide AllocateHandle; hide OneHolderEach;
    TwoSteps(s, Allocate(size), GiveUp(|s.producers|));
    hide Run; hide ValidRun;
    assert Step(s, Allocate(size)).producers[..|s.producers|] == s.producers;
  }
}
