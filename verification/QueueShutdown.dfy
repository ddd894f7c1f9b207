/** What may still happen after AsyncPacketQueue::Stop and ShutdownPacketQueue (Packet/PacketQueue.cpp): pushes that
    come late, and buffers given back late. */
module QueueShutdown {
  import opened Words
  import opened BufferPool
  import opened QueueProtocol

  // ---------------------------------------------------------------- late pushes

  function Pushes(es: seq<Event>): nat {
    if es == [] then 0 else (if es[0].Push? then 1 else 0) + Pushes(es[1..])
  }

  /** Stop has returned: the flag is cleared. */
  ghost predicate AfterStop(s: State) {
    s.stopper == Stopped && !s.running
  }

  lemma {:induction false} FlagStep(s: State, es: seq<Event>)
    requires ValidRun(s, es) && (s.running <==> s.stopper == NotCalled)
    ensures Run(s, es).running <==> Run(s, es).stopper == NotCalled
    decreases |es|
  {
    if es != [] {
      hide Marked; hide AllocateHandle;
      FlagStep(Step(s, es[0]), es[1..]);
    }
  }

  lemma StopClearsFlag(es: seq<Event>)
    requires ValidRun(INITIAL, es) && Run(INITIAL, es).stopper == Stopped
    ensures AfterStop(Run(INITIAL, es))
  {
    FlagStep(INITIAL, es);
  }

  lemma StoppedStep(s: State, e: Event)
    requires Enabled(s, e) && AfterStop(s)
    ensures var s' := Step(s, e);
      && AfterStop(s') && |s'.queue| + |s'.taken| == |s.queue| + |s.taken| + (if e.Push? then 1 else 0)
      && |s'.taken| + (if s'.worker.Taking? then 1 else 0) <= |s.taken| + (if s.worker.Taking? then 1 else 0)
      && |s'.taken| >= |s.taken|
  {
    hide AllocateHandle; hide Marked; hide Without;
  }

  /** Every push after Stop stays in the queue or is popped by the worker, which pops at most once more. */
  lemma {:induction false} LatePushes(s: State, es: seq<Event>)
    requires ValidRun(s, es) && AfterStop(s)
    ensures |Run(s, es).queue| + |Run(s, es).taken| == |s.queue| + |s.taken| + Pushes(es)
    ensures 0 <= |Run(s, es).taken| - |s.taken| <= if s.worker.Taking? then 1 else 0
    ensures AfterStop(Run(s, es))
    decreases |es|
  {
    if es != [] {
      StoppedStep(s, es[0]);
      hide Step; hide Enabled;
      LatePushes(Step(s, es[0]), es[1..]);
    }
  }

  /** From a drained queue on: when the worker has ended and the producers are quiet, all buffers are back if and
      only if the worker popped every push that came late, which can be one, and only if it had already passed its
      test of the flag. */
  lemma LatePushesLeak(s: State, es: seq<Event>)
    requires Inv(s) && AfterStop(s) && s.queue == [] && ValidRun(s, es)
    requires Run(s, es).worker.Ended? && Run(s, es).producers == []
    ensures AllBack(Run(s, es)) <==> Pushes(es) == |Run(s, es).taken| - |s.taken|
    ensures |Run(s, es).taken| - |s.taken| <= if s.worker.Taking? then 1 else 0
  {
    RunKeepsInv(s, es);
    LatePushes(s, es);
    hide *;
    NothingHeldAtEnd(Run(s, es));
  }

  lemma NothingHeldAtEnd(s: State)
    requires Inv(s) && s.worker.Ended?
    ensures AllBack(s) <==> s.producers == [] && |s.queue| == 0
  {
    AllBackIffNothingHeld(s);
  }

  // ---------------------------------------------------------------- the pool is deleted

  /** Once both objects are deleted no new call begins, but calls under way and a worker that outlived the wait
      go on. */
  predicate NoNewCall(es: seq<Event>) {
    es == [] || (!es[0].Allocate? && NoNewCall(es[1..]))
  }

  ghost predicate NoFree(s: State, es: seq<Event>)
    requires ValidRun(s, es)
    decreases |es|
  {
    es == [] || (Frees(s, es[0]).None? && NoFree(Step(s, es[0]), es[1..]))
  }

  /** Nobody holds a buffer that is yet to be given back. */
  ghost predicate Quiet(s: State) {
    s.producers == [] && s.queue == [] && !s.worker.Sending? && !s.worker.Freeing?
  }

  lemma QuietStep(s: State, e: Event)
    requires Enabled(s, e) && AfterStop(s) && Quiet(s) && !e.Allocate?
    ensures AfterStop(Step(s, e)) && Quiet(Step(s, e)) && Frees(s, e).None?
  {
  }

  lemma {:induction false} QuietStays(s: State, es: seq<Event>)
    requires ValidRun(s, es) && AfterStop(s) && Quiet(s) && NoNewCall(es)
    ensures NoFree(s, es)
    decreases |es|
  {
    if es != [] {
      QuietStep(s, es[0]);
      hide Step; hide Enabled; hide AfterStop; hide Quiet; hide Frees;
      QuietStays(Step(s, es[0]), es[1..]);
    }
  }

  lemma FirstFrees(s: State, e: Event)
    requires Enabled(s, e) && Frees(s, e).Some?
    ensures ValidRun(s, [e]) && !NoFree(s, [e])
  {
    hide Step; hide Enabled; hide Frees;
    assert [e][1..] == [];
    assert ValidRun(Step(s, e), []);
  }

  lemma SecondFrees(s: State, d: Event, e: Event)
    requires Enabled(s, d) && Enabled(Step(s, d), e) && Frees(Step(s, d), e).Some?
    ensures ValidRun(s, [d, e]) && !NoFree(s, [d, e])
  {
    FirstFrees(Step(s, d), e);
    hide Step; hide Enabled; hide Frees;
    assert [d, e][1..] == [e];
  }

  /** After Stop has drained the queue and the pool is deleted, no buffer is ever given back to it if and only if no
      call is under way and the worker does not hold an entry. */
  lemma NoFreeAfterShutdown(s: State)
    requires AfterStop(s) && s.queue == []
    ensures (forall es :: ValidRun(s, es) && NoNewCall(es) ==> NoFree(s, es))
        <==> s.producers == [] && !s.worker.Sending? && !s.worker.Freeing?
  {
    if Quiet(s) {
      forall es | ValidRun(s, es) && NoNewCall(es)
        ensures NoFree(s, es)
      {
        QuietStays(s, es);
      }
    } else if s.producers != [] {
      FirstFrees(s, GiveUp(0));
      assert NoNewCall([GiveUp(0)]);
    } else if s.worker.Freeing? {
      FirstFrees(s, Work);
      assert NoNewCall([Work]);
    } else {
      SecondFrees(s, Work, Work);
      assert [Work, Work][1..] == [Work] && NoNewCall([Work]);
    }
  }

  // ---------------------------------------------------------------- three runs

  /** `es` is a run from Start to `s`. */
  ghost predicate Reaches(es: seq<Event>, s: State) {
    ValidRun(INITIAL, es) && Run(INITIAL, es) == s
  }

  lemma Next(es: seq<Event>, s: State, e: Event)
    requires Reaches(es, s) && Enabled(s, e)
    ensures Reaches(es + [e], Step(s, e))
  {
    hide Step; hide Enabled;
    assert [e][1..] == [];
    assert ValidRun(Step(s, e), []) && Run(Step(s, e), []) == Step(s, e);
    assert ValidRun(s, [e]) && Run(s, [e]) == Step(s, e);
    RunConcat(INITIAL, es, [e]);
  }

  /** One call has allocated its buffer and not queued it yet; nothing else has happened. */
  lemma OneCall() returns (s: State)
    ensures Reaches([Allocate(1)], s)
    ensures s == INITIAL.(inUse := s.inUse, heap := s.heap, producers := s.producers, calls := 1) && |s.producers| == 1
  {
    s := Step(INITIAL, Allocate(1));
    hide Step;
    assert ValidRun(INITIAL, []) && Run(INITIAL, []) == INITIAL;
    EmptyUnit([Allocate(1)]);
    Next([], INITIAL, Allocate(1));
  }

  /** The first run: the worker ends, Stop drains, then the call queues its buffer, which is never freed. */
  lemma LatePushIsLost() returns (s: State)
    ensures Reaches([Allocate(1)] + [StopBegin] + [Work] + [StopWaitOver] + [StopEnd] + [Push(0)], s)
    ensures s.stopper == Stopped && s.worker.Ended? && s.producers == [] && !AllBack(s)
  {
    hide Marked; hide AllocateHandle; hide Run; hide ValidRun; hide AllBack; hide Reaches;
    s := OneCall();
    var es := [Allocate(1)];
    Next(es, s, StopBegin);
    s, es := Step(s, StopBegin), es + [StopBegin];
    Next(es, s, Work);
    s, es := Step(s, Work), es + [Work];
    Next(es, s, StopWaitOver);
    s, es := Step(s, StopWaitOver), es + [StopWaitOver];
    Next(es, s, StopEnd);
    s, es := Step(s, StopEnd), es + [StopEnd];
    Next(es, s, Push(0));
    s, es := Step(s, Push(0)), es + [Push(0)];
    EndOf(es, s);
    CleanShutdown(es);
  }

  /** The worker is between its test of the flag and the pop when Stop is called, and the wait runs out. */
  lemma StoppedWhileTaking() returns (s: State)
    ensures Reaches([Allocate(1)] + [Work] + [Work] + [StopBegin] + [StopWaitOver] + [StopEnd], s)
    ensures AfterStop(s) && s.worker == Taking(0) && s.queue == [] && s.sent == [] && |s.producers| == 1
  {
    hide Marked; hide AllocateHandle; hide Run; hide ValidRun; hide Reaches;
    s := OneCall();
    var es := [Allocate(1)];
    Next(es, s, Work);
    s, es := Step(s, Work), es + [Work];
    Next(es, s, Work);
    s, es := Step(s, Work), es + [Work];
    Next(es, s, StopBegin);
    s, es := Step(s, StopBegin), es + [StopBegin];
    Next(es, s, StopWaitOver);
    s, es := Step(s, StopWaitOver), es + [StopWaitOver];
    Next(es, s, StopEnd);
    s, es := Step(s, StopEnd), es + [StopEnd];
  }

  /** The second run: that worker pops the late push, sends it and frees its buffer before it ends. */
  lemma LatePushIsServed() returns (es: seq<Event>, s: State)
    ensures Reaches(es, s) && s.stopper == Stopped && s.worker.Ended? && s.producers == []
    ensures |s.sent| == 1 && AllBack(s)
  {
    hide Marked; hide AllocateHandle; hide Run; hide ValidRun; hide AllBack; hide Reaches;
    s := StoppedWhileTaking();
    es := [Allocate(1)] + [Work] + [Work] + [StopBegin] + [StopWaitOver] + [StopEnd];
    Next(es, s, Push(0));
    s, es := Step(s, Push(0)), es + [Push(0)];
    Next(es, s, Work);
    s, es := Step(s, Work), es + [Work];
    Next(es, s, Work);
    s, es := Step(s, Work), es + [Work];
    Next(es, s, Work);
    s, es := Step(s, Work), es + [Work];
    Next(es, s, Work);
    s, es := Step(s, Work), es + [Work];
    Next(es, s, Work);
    s, es := Step(s, Work), es + [Work];
    EndOf(es, s);
    CleanShutdown(es);
  }

  /** The third run: from the same point the pool is deleted, and the late push makes the worker free into it. */
  lemma WorkerOutlivesPool() returns (es: seq<Event>, s: State, late: seq<Event>)
    ensures Reaches(es, s) && AfterStop(s) && s.queue == []
    ensures ValidRun(s, late) && NoNewCall(late) && !NoFree(s, late)
    ensures late == [Push(0), Work, Work, Work]
  {
    hide Marked; hide AllocateHandle; hide Run; hide Reaches;
    s := StoppedWhileTaking();
    es := [Allocate(1)] + [Work] + [Work] + [StopBegin] + [StopWaitOver] + [StopEnd];
    late := [Push(0), Work, Work, Work];
    var pushed := Step(s, Push(0));
    var popped := Step(pushed, Work);
    SecondFrees(popped, Work, Work);
    hide Step; hide Enabled;
    assert late[1..] == [Work, Work, Work] && [Work, Work, Work][1..] == [Work, Work];
    assert [Work, Work][1..] == [Work] && [Work][1..] == [];
    assert ValidRun(pushed, [Work, Work, Work]) && !NoFree(pushed, [Work, Work, Work]);
  }

  lemma EndOf(es: seq<Event>, s: State)
    requires Reaches(es, s)
    ensures ValidRun(INITIAL, es) && Run(INITIAL, es) == s
  {
  }
}
