/** AsyncPacketQueue of Packet/PacketQueue.cpp and its clients in Packet/PacketLogging.cpp as code that
    changes a queue and a pool in place. The contracts say what each loop does when no other thread
    interferes; QueueProtocol says what every interleaving keeps. */
module PacketQueue {
  import opened Words
  import opened BufferPool
  import opened QueueProtocol

  class AsyncPacketQueue {
    const pool: PacketBufferPool
    var queue: seq<Entry>
    var running: bool
    var calls: nat
    var sent: seq<Entry>       // the calls of SendPacketData

    ghost predicate Valid()
      reads this, pool
    {
      pool.Valid()
    }

    constructor ()
      ensures Valid() && fresh(pool) && fresh(pool.inUse) && fresh(pool.sizes)
      ensures queue == [] && running && sent == [] && calls == 0
      ensures pool.inUse[..] == INITIAL.inUse
    {
      pool := new PacketBufferPool();
      queue, running, calls, sent := [], true, 0, [];
    }

    method QueuePacket(e: Entry)
      modifies this`queue
      ensures queue == old(queue) + [e]
    {
      queue := queue + [e];
    }

    /** When the event cannot be created the buffer goes straight back. */
    method QueuePacketBlocking(e: Entry, eventCreated: bool) returns (ok: bool)
      requires Valid()
      modifies this`queue, pool.inUse, pool.sizes
      ensures Valid() && ok == eventCreated
      ensures queue == if eventCreated then old(queue) + [e] else old(queue)
      ensures pool.inUse[..] ==
        if eventCreated then old(pool.inUse[..]) else Marked(old(pool.inUse[..]), e.handle, false)
    {
      if !eventCreated {
        pool.Free(e.handle);
        return false;
      }
      queue := queue + [e];
      ok := true;
    }

    /** The common part of AddExtra, AddSendPacket and AddRecvPacket: allocate, fill, queue. A blocking call
        that gets no event leaves queue and pool as they were. */
    method AddPacket(size: nat, blocking: bool, eventCreated: bool)
      requires Valid()
      modifies this`queue, this`calls, pool.inUse, pool.sizes
      ensures Valid() && calls == old(calls) + 1
      ensures var h := AllocateHandle(old(pool.inUse[..]), size, old(calls));
        if blocking && !eventCreated then queue == old(queue) && pool.inUse[..] == old(pool.inUse[..])
        else queue == old(queue) + [Entry(old(calls), h)] && pool.inUse[..] == Marked(old(pool.inUse[..]), h, true)
    {
      var h := pool.Allocate(size, calls);
      if blocking {
        var _ := QueuePacketBlocking(Entry(calls, h), eventCreated);
      } else {
        QueuePacket(Entry(calls, h));
      }
      calls := calls + 1;
    }

    /** AddExtraAll: the tracked items of one packet are queued in tracking order. */
    method AddExtraAll(sizes: seq<nat>)
      requires Valid()
      modifies this`queue, this`calls, pool.inUse, pool.sizes
      ensures Valid() && calls == old(calls) + |sizes|
      ensures queue == old(queue) + AllocatedEntries(old(pool.inUse[..]), sizes, old(calls))
      ensures pool.inUse[..] == AfterAllocating(old(pool.inUse[..]), sizes, old(calls))
    {
      ghost var start, q0 := pool.inUse[..], queue;
      ResumesStart(q0, start, sizes, calls);
      hide AllocateHandle; hide Marked; hide Resumes;
      for i := 0 to |sizes|
        invariant Valid() && calls == old(calls) + i
        invariant Resumes(q0, start, sizes, old(calls), queue, pool.inUse[..], sizes[i..], calls)
      {
        ResumesStep(q0, start, sizes, old(calls), queue, pool.inUse[..], sizes[i..], calls);
        assert sizes[i..][0] == sizes[i] && sizes[i..][1..] == sizes[i + 1..];
        AddPacket(sizes[i], false, false);
      }
      ResumesEnd(q0, start, sizes, old(calls), queue, pool.inUse[..], calls);
    }

    /** AddSendPacket: the packet's tracked items first, then the packet. */
    method AddSendPacket(extras: seq<nat>, size: nat, blocking: bool, eventCreated: bool)
      requires Valid()
      modifies this`queue, this`calls, pool.inUse, pool.sizes
      ensures Valid() && calls == old(calls) + |extras| + 1
      ensures var items, marks := AllocatedEntries(old(pool.inUse[..]), extras, old(calls)),
                                  AfterAllocating(old(pool.inUse[..]), extras, old(calls));
        var h := AllocateHandle(marks, size, old(calls) + |extras|);
        if blocking && !eventCreated then queue == old(queue) + items && pool.inUse[..] == marks
        else
          && queue == old(queue) + items + [Entry(old(calls) + |extras|, h)]
          && pool.inUse[..] == Marked(marks, h, true)
    {
      hide AllocateHandle; hide Marked; hide AllocatedEntries; hide AfterAllocating;
      AddExtraAll(extras);
      AddPacket(size, blocking, eventCreated);
    }

    /** One round of the worker's batch loop: up to 16 entries leave the front, are sent in order, and
        their buffers go back to the pool. Stop clears the flag when `clearedAfter` entries have been sent,
        or later. */
    method ProcessBatch(clearedAfter: nat)
      requires Valid() && running
      modifies this`queue, this`sent, this`running, pool.inUse, pool.sizes
      ensures Valid()
      ensures var full := if |old(queue)| < BATCH_SIZE then |old(queue)| else BATCH_SIZE;
        var n := if clearedAfter < full then clearedAfter else full;
        && sent == old(sent) + old(queue)[..n]
        && queue == old(queue)[n..]
        && pool.inUse[..] == FreeAll(old(pool.inUse[..]), old(queue)[..n])
        && running == (clearedAfter > full)
    {
      ghost var all := queue;
      var processed := 0;
      running := clearedAfter > 0;
      while running && processed < BATCH_SIZE && queue != []
        invariant Valid() && running == (clearedAfter > processed)
        invariant 0 <= processed <= BATCH_SIZE && processed <= |all| && processed <= clearedAfter
        invariant queue == all[processed..] && sent == old(sent) + all[..processed]
        invariant pool.inUse[..] == FreeAll(old(pool.inUse[..]), all[..processed])
        decreases BATCH_SIZE - processed
      {
        var e := queue[0];
        queue := queue[1..];
        processed := processed + 1;
        sent := sent + [e];
        FreeAllAppend(old(pool.inUse[..]), all[..processed - 1], e);
        assert all[..processed] == all[..processed - 1] + [e];
        pool.Free(e.handle);
        running := clearedAfter > processed;
      }
    }

    /** The drain at the end of Stop. */
    method Drain()
      requires Valid()
      modifies this`queue, pool.inUse, pool.sizes
      ensures Valid() && queue == []
      ensures pool.inUse[..] == FreeAll(old(pool.inUse[..]), old(queue))
    {
      while queue != []
        invariant Valid()
        invariant FreeAll(pool.inUse[..], queue) == FreeAll(old(pool.inUse[..]), old(queue))
        decreases |queue|
      {
        var e := queue[0];
        queue := queue[1..];
        pool.Free(e.handle);
      }
    }
  }

  function AllocatedEntries(inUse: seq<bool>, sizes: seq<nat>, call: nat): seq<Entry>
    decreases |sizes|
  {
    if sizes == [] then []
    else
      var h := AllocateHandle(inUse, sizes[0], call);
      [Entry(call, h)] + AllocatedEntries(Marked(inUse, h, true), sizes[1..], call + 1)
  }

  /** The pool after those allocations. */
  function AfterAllocating(inUse: seq<bool>, sizes: seq<nat>, call: nat): seq<bool>
    decreases |sizes|
  {
    if sizes == [] then inUse
    else AfterAllocating(Marked(inUse, AllocateHandle(inUse, sizes[0], call), true), sizes[1..], call + 1)
  }

  /** Queueing `rest` from here ends where queueing `all` from the start ends. */
  ghost predicate Resumes(q0: seq<Entry>, start: seq<bool>, all: seq<nat>, call0: nat,
                          q: seq<Entry>, inUse: seq<bool>, rest: seq<nat>, call: nat) {
    && q0 + AllocatedEntries(start, all, call0) == q + AllocatedEntries(inUse, rest, call)
    && AfterAllocating(start, all, call0) == AfterAllocating(inUse, rest, call)
  }

  lemma ResumesStart(q0: seq<Entry>, start: seq<bool>, all: seq<nat>, call0: nat)
    ensures Resumes(q0, start, all, call0, q0, start, all[0..], call0)
  {
    assert all[0..] == all;
  }

  lemma ResumesStep(q0: seq<Entry>, start: seq<bool>, all: seq<nat>, call0: nat,
                    q: seq<Entry>, inUse: seq<bool>, rest: seq<nat>, call: nat)
    requires Resumes(q0, start, all, call0, q, inUse, rest, call) && rest != []
    ensures var h := AllocateHandle(inUse, rest[0], call);
      Resumes(q0, start, all, call0, q + [Entry(call, h)], Marked(inUse, h, true), rest[1..], call + 1)
  {
    var h := AllocateHandle(inUse, rest[0], call);
    AllocateFirst(inUse, rest, call);
    hide AllocatedEntries; hide AfterAllocating; hide AllocateHandle; hide Marked;
    Associative(q, [Entry(call, h)], AllocatedEntries(Marked(inUse, h, true), rest[1..], call + 1));
  }

  lemma ResumesEnd(q0: seq<Entry>, start: seq<bool>, all: seq<nat>, call0: nat,
                   q: seq<Entry>, inUse: seq<bool>, call: nat)
    requires Resumes(q0, start, all, call0, q, inUse, all[|all|..], call)
    ensures q == q0 + AllocatedEntries(start, all, call0) && inUse == AfterAllocating(start, all, call0)
  {
    assert all[|all|..] == [];
    assert AllocatedEntries(inUse, [], call) == [] && AfterAllocating(inUse, [], call) == inUse;
    EmptyUnit(q);
  }

  lemma AllocateFirst(inUse: seq<bool>, sizes: seq<nat>, call: nat)
    requires sizes != []
    ensures var h := AllocateHandle(inUse, sizes[0], call);
      && AllocatedEntries(inUse, sizes, call) ==
         [Entry(call, h)] + AllocatedEntries(Marked(inUse, h, true), sizes[1..], call + 1)
      && AfterAllocating(inUse, sizes, call) == AfterAllocating(Marked(inUse, h, true), sizes[1..], call + 1)
  {
  }

  /** The tracked items get different slots, each free before, and no other slot changes. */
  lemma {:induction false} AllocatesFreeSlots(inUse: seq<bool>, sizes: seq<nat>, call: nat, i: nat)
    requires i < |inUse|
    ensures |AfterAllocating(inUse, sizes, call)| == |inUse|
    ensures Count(AllocatedEntries(inUse, sizes, call), Slot(i)) + (if inUse[i] then 1 else 0)
         == if AfterAllocating(inUse, sizes, call)[i] then 1 else 0
    decreases |sizes|
  {
    if sizes != [] {
      var h := AllocateHandle(inUse, sizes[0], call);
      AllocateFirst(inUse, sizes, call);
      AllocatesFreeSlots(Marked(inUse, h, true), sizes[1..], call + 1, i);
      hide AllocatedEntries; hide AfterAllocating;
    }
  }

  lemma {:induction false} FreeAllAppend(inUse: seq<bool>, es: seq<Entry>, e: Entry)
    ensures FreeAll(inUse, es + [e]) == Marked(FreeAll(inUse, es), e.handle, false)
    decreases |es|
  {
    if es == [] {
      assert FreeAll(inUse, [e]) == FreeAll(Marked(inUse, e.handle, false), []);
    } else {
      assert (es + [e])[1..] == es[1..] + [e];
      FreeAllAppend(Marked(inUse, es[0].handle, false), es[1..], e);
    }
  }

  /** Freed slots are exactly the drained ones. */
  lemma {:induction false} FreeAllFrees(inUse: seq<bool>, es: seq<Entry>, i: nat)
    requires i < |inUse|
    ensures |FreeAll(inUse, es)| == |inUse|
    ensures FreeAll(inUse, es)[i] == (inUse[i] && Count(es, Slot(i)) == 0)
    decreases |es|
  {
    if es != [] {
      FreeAllFrees(Marked(inUse, es[0].handle, false), es[1..], i);
    }
  }
}
