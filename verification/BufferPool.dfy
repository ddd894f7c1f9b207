/** The packet buffer pool of Packet/PacketQueue.cpp: 256 fixed slots, with a heap fallback. */
module BufferPool {
  import opened Words

  const POOL_SIZE: nat := 256
  const BUFFER_SIZE: nat := 8192

  /** What Allocate hands out: a pool slot, or (buffer_index == -1) a heap block, named by the call. */
  datatype Handle = Slot(index: nat) | Heap(call: nat)

  /** The lowest slot at or after `from` that is not in use. */
  function FirstFree(inUse: seq<bool>, from: nat): (r: Option<nat>)
    requires from <= |inUse|
    ensures r.Some? ==> from <= r.value < |inUse| && !inUse[r.value] && forall k :: from <= k < r.value ==> inUse[k]
    ensures r.None? ==> forall k :: from <= k < |inUse| ==> inUse[k]
    decreases |inUse| - from
  {
    if from == |inUse| then None else if !inUse[from] then Some(from) else FirstFree(inUse, from + 1)
  }

  function AllocateHandle(inUse: seq<bool>, size: nat, call: nat): Handle {
    if size > BUFFER_SIZE then Heap(call)
    else match FirstFree(inUse, 0)
      case Some(i) => Slot(i)
      case None => Heap(call)
  }

  function Marked(inUse: seq<bool>, h: Handle, used: bool): seq<bool> {
    if h.Slot? && h.index < |inUse| then inUse[h.index := used] else inUse
  }

  /** The heap is used exactly for oversized packets and when every slot is taken. */
  lemma HeapFallback(inUse: seq<bool>, size: nat, call: nat)
    ensures AllocateHandle(inUse, size, call).Heap?
       <==> size > BUFFER_SIZE || forall k :: 0 <= k < |inUse| ==> inUse[k]
  {
    assert FirstFree(inUse, 0).None? ==> forall k :: 0 <= k < |inUse| ==> inUse[k];
  }

  class PacketBufferPool {
    const inUse: array<bool>
    const sizes: array<nat>

    ghost predicate Valid()
      reads this
    {
      inUse.Length == POOL_SIZE && sizes.Length == POOL_SIZE
    }

    constructor ()
      ensures Valid() && fresh(inUse) && fresh(sizes)
      ensures forall k :: 0 <= k < POOL_SIZE ==> !inUse[k] && sizes[k] == 0
    {
      inUse := new bool[256];
      sizes := new nat[256];
      new;
      for i := 0 to POOL_SIZE
        invariant forall k :: 0 <= k < i ==> !inUse[k] && sizes[k] == 0
      {
        inUse[i] := false;
        sizes[i] := 0;
      }
    }

    method Allocate(size: nat, call: nat) returns (h: Handle)
      requires Valid()
      modifies inUse, sizes
      ensures h == AllocateHandle(old(inUse[..]), size, call)
      ensures inUse[..] == Marked(old(inUse[..]), h, true)
      ensures forall k :: 0 <= k < POOL_SIZE ==>
        sizes[k] == if h == Slot(k) then size else old(sizes[k])
    {
      if size > BUFFER_SIZE {
        return Heap(call);
      }
      var i := 0;
      while i < POOL_SIZE
        invariant 0 <= i <= POOL_SIZE
        invariant inUse[..] == old(inUse[..]) && sizes[..] == old(sizes[..])
        invariant FirstFree(inUse[..], 0) == FirstFree(inUse[..], i)
      {
        if !inUse[i] {
          inUse[i] := true;
          sizes[i] := size;
          return Slot(i);
        }
        i := i + 1;
      }
      return Heap(call);
    }

    method Free(h: Handle)
      requires Valid()
      modifies inUse, sizes
      ensures inUse[..] == Marked(old(inUse[..]), h, false)
      ensures forall k :: 0 <= k < POOL_SIZE ==>
        sizes[k] == if h == Slot(k) then 0 else old(sizes[k])
    {
      if h.Heap? {
        return;
      }
      if h.index < POOL_SIZE {
        inUse[h.index] := false;
        sizes[h.index] := 0;
      }
    }
  }
}
