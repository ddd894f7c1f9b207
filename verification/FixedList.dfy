/** The doubly linked list of Share/Hook/Zycore/List.c in a caller's fixed buffer. */
module FixedList {
  import opened Words
  import opened ListLayout
  import opened BoundedSequence

  /** The byte comparison of the bump allocator asks whether one more node fits. */
  lemma FitsIff(size: nat, stride: nat, capacity: nat)
    requires stride > 0
    ensures size * stride + stride <= capacity <==> size < capacity / stride
  {
    var q, r := capacity / stride, capacity % stride;
    assert capacity == q * stride + r;
    if size < q {
      assert (size + 1) * stride <= q * stride;
    } else {
      assert q * stride <= size * stride;
    }
  }

  lemma BackRefused<T>(slots: nat, destructor: bool, m: Model<T>, c: Option<T>)
    requires |m.items| >= slots
    ensures Effect(slots, destructor, m, EmplaceBack(c), m, InsufficientBufferSize)
  {
  }

  lemma FrontRefused<T>(slots: nat, destructor: bool, m: Model<T>, c: Option<T>)
    requires |m.items| >= slots
    ensures Effect(slots, destructor, m, EmplaceFront(c), m, InsufficientBufferSize)
  {
  }

  lemma BackAdded<T>(slots: nat, destructor: bool, m: Model<T>, c: Option<T>, value: T)
    requires |m.items| < slots && (c.Some? ==> c.value == value)
    ensures Effect(slots, destructor, m, EmplaceBack(c), Model(m.items + [value], m.destroyed), Success)
  {
    var n := |m.items|;
    assert (m.items + [value])[..n] == m.items && (m.items + [value])[n..] == [value];
  }

  lemma FrontAdded<T>(slots: nat, destructor: bool, m: Model<T>, c: Option<T>, value: T)
    requires |m.items| < slots && (c.Some? ==> c.value == value)
    ensures Effect(slots, destructor, m, EmplaceFront(c), Model([value] + m.items, m.destroyed), Success)
  {
    assert ([value] + m.items)[1..] == m.items && ([value] + m.items)[..1] == [value];
  }

  /** `m'` is `m` without its last element `x`, which the destructor has seen if there is one. */
  ghost predicate WithoutLast<T>(destructor: bool, m: Model<T>, x: T, m': Model<T>) {
    m.items == m'.items + [x] && m'.destroyed == m.destroyed + Destroyed(destructor, [x])
  }

  ghost predicate WithoutFirst<T>(destructor: bool, m: Model<T>, x: T, m': Model<T>) {
    m.items == [x] + m'.items && m'.destroyed == m.destroyed + Destroyed(destructor, [x])
  }

  lemma BackPopped<T>(slots: nat, destructor: bool, m: Model<T>, x: T, m': Model<T>)
    requires WithoutLast(destructor, m, x, m')
    ensures Effect(slots, destructor, m, PopBack, m', Success)
  {
    var rest := m'.items;
    assert (rest + [x])[..|rest|] == rest && (rest + [x])[|rest|] == x;
  }

  lemma FrontPopped<T>(slots: nat, destructor: bool, m: Model<T>, x: T, m': Model<T>)
    requires WithoutFirst(destructor, m, x, m')
    ensures Effect(slots, destructor, m, PopFront, m', Success)
  {
    var rest := m'.items;
    assert ([x] + rest)[1..] == rest;
  }

  lemma GrownBackStep<T>(m: Model<T>, before: Model<T>, init: Option<T>, value: T)
    requires GrownBack(m, before, |before.items|, init) && (init.Some? ==> init.value == value)
    ensures GrownBack(m, Model(before.items + [value], before.destroyed), |before.items| + 1, init)
  {
    var n, items := |m.items|, before.items + [value];
    assert items[..n] == before.items[..n];
    assert items[n..] == before.items[n..] + [value];
  }

  /** Part way through a cut from the back. */
  ghost predicate ShrunkTo<T>(destructor: bool, m: Model<T>, m': Model<T>) {
    var k := |m'.items|;
    && k <= |m.items| && m'.items == m.items[..k]
    && m'.destroyed == m.destroyed + Destroyed(destructor, Reversed(m.items[k..]))
  }

  lemma ShrunkStart<T>(destructor: bool, m: Model<T>)
    ensures ShrunkTo(destructor, m, m)
  {
    assert m.items[..|m.items|] == m.items;
    EmptyUnit(m.destroyed);
  }

  lemma ShrunkEnd<T>(slots: nat, destructor: bool, m: Model<T>, m': Model<T>, init: Option<T>)
    requires ShrunkTo(destructor, m, m') && 0 < |m'.items|
    ensures Resized(slots, destructor, m, |m'.items|, init, m', Success)
  {
  }

  lemma ShrunkStep<T>(destructor: bool, m: Model<T>, before: Model<T>, x: T, after: Model<T>)
    requires ShrunkTo(destructor, m, before) && WithoutLast(destructor, before, x, after)
    ensures ShrunkTo(destructor, m, after)
  {
    var rest := after.items;
    var k := |rest|;
    assert before.items[k] == x && rest == before.items[..k] == m.items[..k];
    var cut := m.items[k..];
    assert cut[0] == x && cut[1..] == m.items[k + 1..];
    assert Reversed(cut) == Reversed(cut[1..]) + [cut[0]];
    if destructor {
      Associative(m.destroyed, Reversed(cut[1..]), [x]);
    } else {
      EmptyUnit(m.destroyed);
    }
  }

  lemma ResizeToSame<T>(slots: nat, destructor: bool, m: Model<T>, init: Option<T>)
    ensures Effect(slots, destructor, m, Resize(|m.items|, init), m, Success)
  {
    assert m.items[..|m.items|] == m.items;
    EmptyUnit(m.destroyed);
  }

  lemma DestroyedMore<T>(destructor: bool, before: seq<T>, items: seq<T>, k: nat)
    requires k < |items|
    ensures before + Destroyed(destructor, items[..k + 1]) ==
      before + Destroyed(destructor, items[..k]) + Destroyed(destructor, [items[k]])
  {
    assert items[..k + 1] == items[..k] + [items[k]];
    Associative(before, items[..k], [items[k]]);
  }

  lemma DestroyedNone<T>(destructor: bool, before: seq<T>, items: seq<T>)
    ensures before == before + Destroyed(destructor, items[..0])
  {
  }

  lemma DestroyedAll<T>(destructor: bool, items: seq<T>)
    ensures !destructor ==> Destroyed(destructor, items) == Destroyed(destructor, items[..0])
    ensures Destroyed(destructor, items[..|items|]) == Destroyed(destructor, items)
  {
    assert items[..|items|] == items;
  }

  class FixedBufferList<T> {
    /** The buffer, seen as node slots of `stride` bytes (link header plus element). */
    const nodes: array<Node<T>>
    const stride: nat
    const capacity: nat
    const hasDestructor: bool
    var head: int
    var tail: int
    var firstUnused: int
    var size: nat
    /** The elements passed to the destructor, in call order. */
    var destroyed: seq<T>
    ghost var live: seq<nat>
    ghost var free: seq<nat>

    /** The chains hold, and head, tail and first_unused mirror them. */
    ghost predicate Linked()
      reads this, nodes
    {
      && stride > 0 && nodes.Length == capacity / stride
      && head == Link(live, 0) && tail == Link(live, |live| - 1)
      && firstUnused == Link(free, 0)
      && Within(nodes[..], live) && Chain(nodes[..], live) && FreeChain(nodes[..], free)
    }

    ghost predicate Valid()
      reads this, nodes
    {
      Linked() && size == |live| && Layout(live, free, nodes.Length)
    }

    ghost function State(): (m: Model<T>)
      reads this, nodes
      requires Linked()
      ensures |m.items| == |live|
    {
      Model(Items(nodes[..], live), destroyed)
    }

    /** Node `p` has been allocated and not yet linked in. */
    ghost predicate Reserved(p: nat)
      reads this, nodes
    {
      && Linked() && size == |live| && p < nodes.Length && Fresh(live, free, p)
      && Layout(live + [p], free, nodes.Length) && Layout([p] + live, free, nodes.Length)
    }

    /** The parts of validity, put together. */
    lemma BecomesValid()
      requires stride > 0 && nodes.Length == capacity / stride && size == |live|
      requires head == Link(live, 0) && tail == Link(live, |live| - 1) && firstUnused == Link(free, 0)
      requires Within(nodes[..], live) && Chain(nodes[..], live) && FreeChain(nodes[..], free)
      requires Layout(live, free, nodes.Length)
      ensures Valid() && State() == Model(Items(nodes[..], live), destroyed)
    {
    }

    constructor (buffer: array<Node<T>>, stride: nat, capacity: nat, hasDestructor: bool)
      requires stride > 0 && capacity > 0 && buffer.Length == capacity / stride
      ensures Valid() && State() == Model([], [])
      ensures nodes == buffer && this.stride == stride && this.capacity == capacity
      ensures this.hasDestructor == hasDestructor
    {
      nodes, this.stride, this.capacity, this.hasDestructor := buffer, stride, capacity, hasDestructor;
      head, tail, firstUnused, size, destroyed := NIL, NIL, NIL, 0, [];
      live, free := [], [];
    }

    method AllocateNode() returns (st: Status, p: nat)
      requires Valid()
      modifies this`firstUnused, this`free
      ensures st == (if |live| < nodes.Length then Success else InsufficientBufferSize)
      ensures st == Success ==> p == NewSlot(live, old(free)) && free == FreeAfter(old(free)) && Reserved(p)
      ensures st != Success ==> firstUnused == old(firstUnused) && free == old(free)
    {
      hide Chain; hide Within; hide FreeChain; hide Layout; hide Items; hide Link; hide Fresh;
      hide NewSlot; hide FreeAfter;
      st, p := Success, 0;
      FitsIff(size, stride, capacity);
      SlotFor(nodes[..], live, free);
      if firstUnused != NIL {
        p := firstUnused;
        firstUnused := nodes[p].next;
      } else {
        if size * stride + stride > capacity {
          return InsufficientBufferSize, 0;
        }
        p := size;
      }
      free := FreeAfter(free);
    }

    method DeallocateNode(p: nat)
      requires p < nodes.Length
      modifies this`firstUnused, nodes
      ensures nodes[..] == old(nodes[..])[p := old(nodes[p]).(next := old(firstUnused))]
      ensures firstUnused == p
    {
      nodes[p] := nodes[p].(next := firstUnused);
      firstUnused := p;
    }

    /** The tail of PushBack, EmplaceBack and ResizeEx: fill in the node and hang it behind the tail. */
    method LinkBack(p: nat, value: T)
      requires Reserved(p)
      modifies this`head, this`tail, this`size, this`live, nodes
      ensures Valid() && State() == Model(old(State().items) + [value], destroyed)
      ensures tail == p && nodes[p].data == value
    {
      hide Chain; hide Within; hide FreeChain; hide Layout; hide Items; hide Link; hide Fresh;
      BackHung(nodes[..], live, free, p, value);
      live := live + [p];
      HangBack(p, value);
      BecomesValid();
    }

    /** The stores of a push. */
    method HangBack(p: nat, value: T)
      requires p < nodes.Length && -1 <= tail < nodes.Length && (head == NIL <==> tail == NIL)
      modifies this`head, this`tail, this`size, nodes
      ensures nodes[..] == HungBack(old(nodes[..]), p, old(tail), value) && nodes[p].data == nodes[..][p].data
      ensures head == (if old(head) == NIL then p else old(head)) && tail == p && size == old(size) + 1
    {
      nodes[p] := Node(tail, NIL, value);
      if head == NIL {
        head := p;
        tail := p;
      } else {
        nodes[tail] := nodes[tail].(next := p);
        tail := p;
      }
      size := size + 1;
    }

    method LinkFront(p: nat, value: T)
      requires Reserved(p)
      modifies this`head, this`tail, this`size, this`live, nodes
      ensures Valid() && State() == Model([value] + old(State().items), destroyed)
      ensures head == p && nodes[p].data == value
    {
      hide Chain; hide Within; hide FreeChain; hide Layout; hide Items; hide Link; hide Fresh;
      FrontHung(nodes[..], live, free, p, value);
      live := [p] + live;
      HangFront(p, value);
      BecomesValid();
    }

    method HangFront(p: nat, value: T)
      requires p < nodes.Length && -1 <= head < nodes.Length && (head == NIL <==> tail == NIL)
      modifies this`head, this`tail, this`size, nodes
      ensures nodes[..] == HungFront(old(nodes[..]), p, old(head), value) && nodes[p].data == nodes[..][p].data
      ensures tail == (if old(head) == NIL then p else old(tail)) && head == p && size == old(size) + 1
    {
      nodes[p] := Node(NIL, head, value);
      if head == NIL {
        head := p;
        tail := p;
      } else {
        nodes[head] := nodes[head].(prev := p);
        head := p;
      }
      size := size + 1;
    }

    method PushBack(x: T) returns (st: Status)
      requires Valid()
      modifies this, nodes
      ensures Valid()
      ensures Effect(nodes.Length, hasDestructor, old(State()), Op.PushBack(x), State(), st)
    {
      hide Linked; hide Layout; hide Items;
      var p;
      st, p := AllocateNode();
      ghost var m := State();
      if st != Success { return; }
      LinkBack(p, x);
      BackAdded(nodes.Length, hasDestructor, m, Some(x), x);
    }

    method PushFront(x: T) returns (st: Status)
      requires Valid()
      modifies this, nodes
      ensures Valid()
      ensures Effect(nodes.Length, hasDestructor, old(State()), Op.PushFront(x), State(), st)
    {
      hide Linked; hide Layout; hide Items;
      var p;
      st, p := AllocateNode();
      ghost var m := State();
      if st != Success { return; }
      LinkFront(p, x);
      FrontAdded(nodes.Length, hasDestructor, m, Some(x), x);
    }

    /** `c` is what the constructor writes; without one the node keeps its old bytes. */
    method EmplaceBack(c: Option<T>) returns (st: Status, item: nat)
      requires Valid()
      modifies this, nodes
      ensures Valid()
      ensures Effect(nodes.Length, hasDestructor, old(State()), Op.EmplaceBack(c), State(), st)
      ensures st == Success ==> item == tail < nodes.Length
      ensures st == Success && c.None? ==> nodes[item].data == old(nodes[item].data)
    {
      hide Linked; hide Layout; hide Items; hide Effect;
      st, item := AllocateNode();
      ghost var m := State();
      if st != Success {
        BackRefused(nodes.Length, hasDestructor, m, c);
        return;
      }
      var value := if c.Some? then c.value else nodes[item].data;
      LinkBack(item, value);
      BackAdded(nodes.Length, hasDestructor, m, c, value);
    }

    method EmplaceFront(c: Option<T>) returns (st: Status, item: nat)
      requires Valid()
      modifies this, nodes
      ensures Valid()
      ensures Effect(nodes.Length, hasDestructor, old(State()), Op.EmplaceFront(c), State(), st)
      ensures st == Success ==> item == head < nodes.Length
      ensures st == Success && c.None? ==> nodes[item].data == old(nodes[item].data)
    {
      hide Linked; hide Layout; hide Items; hide Effect;
      st, item := AllocateNode();
      ghost var m := State();
      if st != Success {
        FrontRefused(nodes.Length, hasDestructor, m, c);
        return;
      }
      var value := if c.Some? then c.value else nodes[item].data;
      LinkFront(item, value);
      FrontAdded(nodes.Length, hasDestructor, m, c, value);
    }

    method Destruct(p: nat)
      requires p < nodes.Length
      modifies this`destroyed
      ensures destroyed == old(destroyed) + Destroyed(hasDestructor, [nodes[p].data])
    {
      if hasDestructor {
        destroyed := destroyed + [nodes[p].data];
      }
    }

    /** The cut shared by PopBack and ResizeEx: destruct the tail, unhook it and recycle its node. */
    method CutTail() returns (ghost x: T)
      requires Linked() && Layout(live, free, nodes.Length) && |live| > 0
      modifies this`tail, this`firstUnused, this`free, this`live, this`destroyed, nodes
      ensures |live| == |old(live)| - 1 && Link(live, 0) == (if |live| == 0 then NIL else old(head))
      ensures Within(nodes[..], live) && Chain(nodes[..], live) && FreeChain(nodes[..], free)
      ensures Layout(live, free, nodes.Length)
      ensures WithoutLast(hasDestructor, old(State()), x, Model(Items(nodes[..], live), destroyed))
      ensures tail == Link(live, |live| - 1) && firstUnused == Link(free, 0) && (|live| == 0 ==> tail == NIL)
    {
      hide Chain; hide Within; hide FreeChain; hide Layout; hide Items; hide Link; hide Destroyed;
      ghost var ns, was, m := nodes[..], live, State();
      ghost var rest, more := BackCut(ns, live, free);
      var p := tail;
      x := nodes[p].data;
      Destruct(p);
      RecycleTail(p, ns[p].prev);
      live, free := rest, more;
    }

    /** The stores of the cut. */
    method RecycleTail(p: nat, ghost neighbour: int)
      requires p < nodes.Length && neighbour == nodes[p].prev && -1 <= neighbour < nodes.Length && neighbour != p
      modifies this`tail, this`firstUnused, nodes
      ensures nodes[..] == StoredBack(old(nodes[..]), p, neighbour, old(firstUnused))
      ensures tail == neighbour && firstUnused == p
    {
      tail := nodes[p].prev;
      if tail != NIL {
        nodes[tail] := nodes[tail].(next := NIL);
      }
      DeallocateNode(p);
    }

    method CutHead() returns (ghost x: T)
      requires Linked() && Layout(live, free, nodes.Length) && |live| > 0
      modifies this`head, this`firstUnused, this`free, this`live, this`destroyed, nodes
      ensures |live| == |old(live)| - 1 && Link(live, |live| - 1) == (if |live| == 0 then NIL else old(tail))
      ensures Within(nodes[..], live) && Chain(nodes[..], live) && FreeChain(nodes[..], free)
      ensures Layout(live, free, nodes.Length)
      ensures WithoutFirst(hasDestructor, old(State()), x, Model(Items(nodes[..], live), destroyed))
      ensures head == Link(live, 0) && firstUnused == Link(free, 0) && (|live| == 0 ==> head == NIL)
    {
      hide Chain; hide Within; hide FreeChain; hide Layout; hide Items; hide Link; hide Destroyed;
      ghost var ns, was, m := nodes[..], live, State();
      ghost var rest, more := FrontCut(ns, live, free);
      var p := head;
      x := nodes[p].data;
      Destruct(p);
      RecycleHead(p, ns[p].next);
      live, free := rest, more;
    }

    /** The stores of the cut. */
    method RecycleHead(p: nat, ghost neighbour: int)
      requires p < nodes.Length && neighbour == nodes[p].next && -1 <= neighbour < nodes.Length && neighbour != p
      modifies this`head, this`firstUnused, nodes
      ensures nodes[..] == StoredFront(old(nodes[..]), p, neighbour, old(firstUnused))
      ensures head == neighbour && firstUnused == p
    {
      head := nodes[p].next;
      if head != NIL {
        nodes[head] := nodes[head].(prev := NIL);
      }
      DeallocateNode(p);
    }

    /** A pop without its status. */
    method RemoveTail() returns (ghost x: T)
      requires Valid() && size > 0
      modifies this, nodes
      ensures Valid() && WithoutLast(hasDestructor, old(State()), x, State())
    {
      hide Chain; hide Within; hide FreeChain; hide Layout; hide Items; hide Link; hide WithoutLast; hide WithoutFirst;
      EndsDiffer(live, free, nodes.Length);
      var p := tail;
      x := CutTail();
      head := if head == p then tail else head;
      size := size - 1;
      BecomesValid();
    }

    method PopBack() returns (st: Status)
      requires Valid()
      modifies this, nodes
      ensures Valid()
      ensures Effect(nodes.Length, hasDestructor, old(State()), Op.PopBack, State(), st)
    {
      if tail == NIL { return InvalidOperation; }
      ghost var m := State();
      assert size > 0;
      hide Chain; hide Within; hide FreeChain; hide Layout; hide Items; hide Effect; hide Linked;
      hide WithoutLast; hide WithoutFirst;
      ghost var x := RemoveTail();
      st := Success;
      BackPopped(nodes.Length, hasDestructor, m, x, State());
    }

    /** A pop without its status. */
    method RemoveHead() returns (ghost x: T)
      requires Valid() && size > 0
      modifies this, nodes
      ensures Valid() && WithoutFirst(hasDestructor, old(State()), x, State())
    {
      hide Chain; hide Within; hide FreeChain; hide Layout; hide Items; hide Link; hide WithoutLast; hide WithoutFirst;
      EndsDiffer(live, free, nodes.Length);
      var p := head;
      x := CutHead();
      tail := if tail == p then head else tail;
      size := size - 1;
      BecomesValid();
    }

    method PopFront() returns (st: Status)
      requires Valid()
      modifies this, nodes
      ensures Valid()
      ensures Effect(nodes.Length, hasDestructor, old(State()), Op.PopFront, State(), st)
    {
      if head == NIL { return InvalidOperation; }
      ghost var m := State();
      assert size > 0;
      hide Chain; hide Within; hide FreeChain; hide Layout; hide Items; hide Effect; hide Linked;
      hide WithoutLast; hide WithoutFirst;
      ghost var x := RemoveHead();
      st := Success;
      FrontPopped(nodes.Length, hasDestructor, m, x, State());
    }

    /** The destructor's walk from the head along the next links. */
    method DestructAll()
      requires Valid()
      modifies this`destroyed
      ensures destroyed == old(destroyed) + Destroyed(hasDestructor, State().items)
    {
      hide Chain; hide Within; hide FreeChain; hide Layout; hide Items; hide Destroyed; hide Link;
      var p := if hasDestructor then head else NIL;
      ghost var items, last := State().items, if hasDestructor then |live| else 0;
      ghost var k := 0;
      NoEnds(live);
      DestroyedNone(hasDestructor, destroyed, items);
      while p != NIL
        invariant k <= last && (p == NIL <==> k == last) && (k < last ==> p == Link(live, k))
        invariant destroyed == old(destroyed) + Destroyed(hasDestructor, items[..k])
        decreases last - k
      {
        ChainAt(nodes[..], live, k);
        Destruct(p);
        DestroyedMore(hasDestructor, old(destroyed), items, k);
        p := nodes[p].next;
        k := k + 1;
      }
      DestroyedAll(hasDestructor, items);
    }

    /** ResizeEx to 0: run the destructor along the list, then forget every node, recycled or not. */
    method ResizeToZero()
      requires Valid()
      modifies this
      ensures Valid() && State() == Model([], old(destroyed) + Destroyed(hasDestructor, old(State().items)))
    {
      hide Chain; hide Within; hide FreeChain; hide Layout; hide Items; hide Link; hide Destroyed;
      DestructAll();
      EmptyLayout(nodes[..]);
      EmptyLinks();
      size, head, tail, firstUnused := 0, NIL, NIL, NIL;
      live, free := [], [];
      BecomesValid();
    }

    method Grow(n: nat, init: Option<T>) returns (st: Status)
      requires Valid() && n > size
      modifies this, nodes
      ensures Valid()
      ensures Resized(nodes.Length, hasDestructor, old(State()), n, init, State(), st)
    {
      hide Linked; hide Layout; hide Items;
      ghost var m := State();
      assert m.items[..|m.items|] == m.items;
      for i := size to n
        invariant Valid() && size == i && GrownBack(m, State(), i, init)
        invariant i <= nodes.Length || i == |m.items|
      {
        var p;
        st, p := AllocateNode();
        if st != Success { return; }
        ghost var before := State();
        var value := if init.Some? then init.value else nodes[p].data;
        LinkBack(p, value);
        GrownBackStep(m, before, init, value);
      }
      st := Success;
    }

    method Shrink(n: nat, ghost init: Option<T>)
      requires Valid() && 0 < n < size
      modifies this, nodes
      ensures Valid()
      ensures Resized(nodes.Length, hasDestructor, old(State()), n, init, State(), Success)
    {
      hide Chain; hide Within; hide FreeChain; hide Layout; hide Items; hide Link;
      hide ShrunkTo; hide Resized; hide WithoutLast;
      ghost var m := State();
      ShrunkStart(hasDestructor, m);
      for i := n to size
        invariant Linked() && Layout(live, free, nodes.Length) && size == old(size)
        invariant |live| == size - (i - n)
        invariant ShrunkTo(hasDestructor, m, State())
      {
        ghost var before := State();
        ghost var x := CutTail();
        ShrunkStep(hasDestructor, m, before, x, State());
      }
      size := n;
      ShrunkEnd(nodes.Length, hasDestructor, m, State(), init);
    }

    method ResizeEx(n: nat, init: Option<T>) returns (st: Status)
      requires Valid()
      modifies this, nodes
      ensures Valid()
      ensures Effect(nodes.Length, hasDestructor, old(State()), Op.Resize(n, init), State(), st)
    {
      hide Linked; hide Layout; hide Items;
      if n == size {
        ResizeToSame(nodes.Length, hasDestructor, State(), init);
        return Success;
      }
      if n == 0 {
        ResizeToZero();
        return Success;
      }
      st := Success;
      if n > size {
        st := Grow(n, init);
      } else {
        Shrink(n, init);
      }
    }

    method Clear() returns (st: Status)
      requires Valid()
      modifies this, nodes
      ensures Valid()
      ensures Effect(nodes.Length, hasDestructor, old(State()), Op.Clear, State(), st)
    {
      hide Linked; hide Layout; hide Items;
      st := ResizeEx(0, None);
    }

    method Apply(op: Op<T>) returns (st: Status)
      requires Valid()
      modifies this, nodes
      ensures Valid()
      ensures Effect(nodes.Length, hasDestructor, old(State()), op, State(), st)
    {
      hide Linked; hide Layout; hide Items; hide Effect;
      var p;
      match op
      case PushBack(x) => st := PushBack(x);
      case PushFront(x) => st := PushFront(x);
      case EmplaceBack(c) => st, p := EmplaceBack(c);
      case EmplaceFront(c) => st, p := EmplaceFront(c);
      case PopBack => st := PopBack();
      case PopFront => st := PopFront();
      case Resize(n, init) => st := ResizeEx(n, init);
      case Clear => st := Clear();
    }

    /** Any sequence of operations is a run of the bounded sequence, ending in what the list then holds. */
    method Execute(ops: seq<Op<T>>) returns (sts: seq<Status>, ghost ms: seq<Model<T>>)
      requires Valid()
      modifies this, nodes
      ensures Valid()
      ensures Run(nodes.Length, hasDestructor, ms, ops, sts)
      ensures ms[0] == old(State()) && ms[|ops|] == State()
    {
      hide Linked; hide Layout; hide Items; hide Effect;
      sts, ms := [], [State()];
      for i := 0 to |ops|
        invariant Valid() && Run(nodes.Length, hasDestructor, ms, ops[..i], sts)
        invariant ms[0] == old(State()) && ms[i] == State()
      {
        var st := Apply(ops[i]);
        RunExtends(nodes.Length, hasDestructor, ms, ops[..i], sts, ops[i], State(), st);
        assert ops[..i + 1] == ops[..i] + [ops[i]];
        ms, sts := ms + [State()], sts + [st];
      }
      assert ops[..|ops|] == ops;
    }
  }
}
