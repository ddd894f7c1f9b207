/** The memory of a fixed-buffer list of Share/Hook/Zycore/List.c, as a value: node slots, the chain of
    live nodes, the chain of recycled nodes, and the effect of linking and unlinking on them. */
module ListLayout {
  import opened Words

  /** A link is a slot number (the node lies `slot` strides into the buffer) or NIL. */
  const NIL: int := -1

  datatype Node<T> = Node(prev: int, next: int, data: T)

  function Link(s: seq<nat>, i: int): int {
    if 0 <= i < |s| then s[i] else NIL
  }

  /** All these slots lie in the buffer. */
  ghost predicate Within<T>(ns: seq<Node<T>>, live: seq<nat>) {
    forall i :: 0 <= i < |live| ==> live[i] < |ns|
  }

  /** `live` lists the slots from head to tail: next and prev are mutually inverse. */
  ghost predicate Chain<T>(ns: seq<Node<T>>, live: seq<nat>) {
    && Within(ns, live)
    && forall i :: 0 <= i < |live| ==>
      ns[live[i]].prev == Link(live, i - 1) && ns[live[i]].next == Link(live, i + 1)
  }

  /** `free` lists the recycled slots from first_unused on; it ends in NIL, so it has no cycle. */
  ghost predicate FreeChain<T>(ns: seq<Node<T>>, free: seq<nat>) {
    forall i :: 0 <= i < |free| ==> free[i] < |ns| && ns[free[i]].next == Link(free, i + 1)
  }

  /** Live and recycled slots are distinct and are exactly 0 .. |live| + |free| - 1. */
  ghost predicate Layout(live: seq<nat>, free: seq<nat>, slots: nat) {
    && |live| + |free| <= slots
    && (forall i :: 0 <= i < |live| ==> live[i] < |live| + |free|)
    && (forall i :: 0 <= i < |free| ==> free[i] < |live| + |free|)
    && Distinct(live) && Distinct(free)
    && (forall i, j :: 0 <= i < |live| && 0 <= j < |free| ==> live[i] != free[j])
  }

  ghost function Items<T>(ns: seq<Node<T>>, live: seq<nat>): (items: seq<T>)
    requires Within(ns, live)
    ensures |items| == |live|
  {
    seq(|live|, i requires 0 <= i < |live| => ns[live[i]].data)
  }

  /** Head and tail are nodes, and the same node only in a list of one. */
  lemma EndsDiffer(live: seq<nat>, free: seq<nat>, slots: nat)
    requires Layout(live, free, slots) && |live| > 0
    ensures 0 <= Link(live, 0) < slots && 0 <= Link(live, |live| - 1) < slots
    ensures Link(live, 0) == Link(live, |live| - 1) <==> |live| == 1
  {
    assert live[0] < slots && live[|live| - 1] < slots;
  }

  lemma NoEnds(live: seq<nat>)
    ensures Link(live, 0) == NIL <==> |live| == 0
    ensures Link(live, |live| - 1) == NIL <==> |live| == 0
  {
  }

  /** What the first two and the last two nodes of a chain show. */
  lemma ChainEnds<T>(ns: seq<Node<T>>, live: seq<nat>)
    requires Chain(ns, live) && Distinct(live) && live != []
    ensures live[0] < |ns| && ns[live[0]].next == Link(live, 1)
    ensures live[|live| - 1] < |ns| && ns[live[|live| - 1]].prev == Link(live, |live| - 2)
    ensures |live| > 1 ==> live[1] < |ns| && live[1] != live[0] && live[0] != live[|live| - 1]
    ensures |live| > 1 ==> live[|live| - 2] < |ns| && live[|live| - 2] != live[|live| - 1]
  {
  }

  lemma EmptyLayout<T>(ns: seq<Node<T>>)
    ensures Chain(ns, []) && FreeChain(ns, []) && Layout([], [], |ns|) && Items(ns, []) == []
  {
  }

  lemma EmptyLinks()
    ensures Link([], 0) == NIL && Link([], -1) == NIL
  {
  }

  lemma ChainAt<T>(ns: seq<Node<T>>, live: seq<nat>, k: nat)
    requires Chain(ns, live) && k < |live|
    ensures live[k] < |ns| && ns[live[k]].prev == Link(live, k - 1) && ns[live[k]].next == Link(live, k + 1)
    ensures ns[live[k]].data == Items(ns, live)[k]
    ensures Link(live, k) == live[k] && (Link(live, k + 1) == NIL <==> k + 1 == |live|)
  {
  }

  // ---------------------------------------------------------------- slots

  /** The slot ZyanListAllocateNode picks: the first recycled one, else the one behind all others. */
  function NewSlot(live: seq<nat>, free: seq<nat>): nat {
    if free == [] then |live| else free[0]
  }

  function FreeAfter(free: seq<nat>): seq<nat> {
    if free == [] then [] else free[1..]
  }

  /** Bump allocation at `size * stride` is right: when nothing is recycled, the live nodes fill exactly
      the first `size` slots. */
  lemma NewSlotUnused(live: seq<nat>, free: seq<nat>, slots: nat)
    requires Layout(live, free, slots) && |live| < slots
    ensures NewSlot(live, free) < slots
    ensures NewSlot(live, free) !in live && NewSlot(live, free) !in FreeAfter(free)
    ensures Layout(live + [NewSlot(live, free)], FreeAfter(free), slots)
    ensures Layout([NewSlot(live, free)] + live, FreeAfter(free), slots)
  {
    var p, rest := NewSlot(live, free), FreeAfter(free);
    if free != [] {
      assert forall j :: 0 <= j < |rest| ==> rest[j] == free[j + 1];
    }
    assert p !in live && p !in rest;
  }

  /** Distinct slots below n number at most n, and all of them when they number n. */
  lemma {:induction false} Pigeonhole(s: seq<nat>, n: nat)
    requires Distinct(s) && forall i :: 0 <= i < |s| ==> s[i] < n
    ensures |s| <= n
    ensures |s| == n ==> forall k :: 0 <= k < n ==> k in s
    decreases n
  {
    if s == [] {
      return;
    }
    assert s[0] < n;
    if n - 1 in s {
      var i :| 0 <= i < |s| && s[i] == n - 1;
      var rest := s[..i] + s[i + 1..];
      Pigeonhole(rest, n - 1);
      assert forall k :: k in rest ==> k in s;
    } else {
      Pigeonhole(s, n - 1);
    }
  }

  /** The layout's literal reading: every slot below size + |free| is live or recycled, and no other. */
  lemma LayoutIsExact(live: seq<nat>, free: seq<nat>, slots: nat)
    requires Layout(live, free, slots)
    ensures forall k: nat :: k in live || k in free <==> k < |live| + |free|
  {
    var all := live + free;
    assert Distinct(all);
    Pigeonhole(all, |live| + |free|);
    forall k: nat
      ensures k in live || k in free <==> k < |live| + |free|
    {
      assert k in all <==> k in live || k in free;
    }
  }

  // ---------------------------------------------------------------- linking

  ghost function LinkedBack<T>(ns: seq<Node<T>>, live: seq<nat>, p: nat, x: T): seq<Node<T>>
    requires p < |ns| && Within(ns, live)
  {
    var ns' := ns[p := Node(Link(live, |live| - 1), NIL, x)];
    if live == [] then ns' else ns'[live[|live| - 1] := ns'[live[|live| - 1]].(next := p)]
  }

  ghost function LinkedFront<T>(ns: seq<Node<T>>, live: seq<nat>, p: nat, x: T): seq<Node<T>>
    requires p < |ns| && Within(ns, live)
  {
    var ns' := ns[p := Node(NIL, Link(live, 0), x)];
    if live == [] then ns' else ns'[live[0] := ns'[live[0]].(prev := p)]
  }

  lemma LinkedBackNode<T>(ns: seq<Node<T>>, live: seq<nat>, p: nat, x: T, i: nat)
    requires Chain(ns, live) && p < |ns| && Distinct(live) && p !in live && i < |live|
    ensures var n, o := LinkedBack(ns, live, p, x)[live[i]], ns[live[i]];
      n == if i == |live| - 1 then o.(next := p) else o
  {
    var last := live[|live| - 1];
    assert live[i] in live && last in live;
    assert i < |live| - 1 ==> live[i] != last;
    assert last < |ns| && live[i] < |ns|;
    HungBehind(ns, p, Node(Link(live, |live| - 1), NIL, x), last, live[i]);
  }

  lemma HungBehind<T>(ns: seq<Node<T>>, p: nat, node: Node<T>, last: nat, q: nat)
    requires p < |ns| && last < |ns| && q < |ns| && last != p && q != p
    ensures var ns' := ns[p := node];
      ns'[last := ns'[last].(next := p)][q] == if q == last then ns[q].(next := p) else ns[q]
  {
  }

  /** Hanging a node behind the tail turns the chain into the longer chain. */
  lemma ChainExtends<T>(ns: seq<Node<T>>, ns': seq<Node<T>>, live: seq<nat>, p: nat)
    requires Chain(ns, live) && |ns'| == |ns| && p < |ns|
    requires forall i :: 0 <= i < |live| ==>
      ns'[live[i]] == if i == |live| - 1 then ns[live[i]].(next := p) else ns[live[i]]
    requires ns'[p].prev == Link(live, |live| - 1) && ns'[p].next == NIL
    ensures Chain(ns', live + [p])
    ensures Items(ns', live + [p]) == Items(ns, live) + [ns'[p].data]
  {
    var more := live + [p];
    forall i | 0 <= i < |more|
      ensures && more[i] < |ns'| && ns'[more[i]].prev == Link(more, i - 1) && ns'[more[i]].next == Link(more, i + 1)
              && ns'[more[i]].data == if i < |live| then ns[live[i]].data else ns'[p].data
    {
      if i < |live| { ChainAt(ns, live, i); }
    }
  }

  lemma LinkedBackChain<T>(ns: seq<Node<T>>, live: seq<nat>, p: nat, x: T)
    requires Chain(ns, live) && p < |ns| && Distinct(live) && p !in live
    ensures Chain(LinkedBack(ns, live, p, x), live + [p])
    ensures Items(LinkedBack(ns, live, p, x), live + [p]) == Items(ns, live) + [x]
  {
    var ns' := LinkedBack(ns, live, p, x);
    assert live != [] ==> live[|live| - 1] in live;
    assert ns'[p] == Node(Link(live, |live| - 1), NIL, x);
    forall i | 0 <= i < |live|
      ensures ns'[live[i]] == if i == |live| - 1 then ns[live[i]].(next := p) else ns[live[i]]
    {
      LinkedBackNode(ns, live, p, x, i);
    }
    ChainExtends(ns, ns', live, p);
  }

  lemma LinkedFrontNode<T>(ns: seq<Node<T>>, live: seq<nat>, p: nat, x: T, i: nat)
    requires Chain(ns, live) && p < |ns| && Distinct(live) && p !in live && i < |live|
    ensures var n, o := LinkedFront(ns, live, p, x)[live[i]], ns[live[i]];
      n == if i == 0 then o.(prev := p) else o
  {
    var first := live[0];
    assert live[i] in live && first in live;
    assert i > 0 ==> live[i] != first;
    assert first < |ns| && live[i] < |ns|;
    HungBefore(ns, p, Node(NIL, Link(live, 0), x), first, live[i]);
  }

  lemma HungBefore<T>(ns: seq<Node<T>>, p: nat, node: Node<T>, first: nat, q: nat)
    requires p < |ns| && first < |ns| && q < |ns| && first != p && q != p
    ensures var ns' := ns[p := node];
      ns'[first := ns'[first].(prev := p)][q] == if q == first then ns[q].(prev := p) else ns[q]
  {
  }

  lemma LinkStarts(live: seq<nat>, p: nat, i: int)
    ensures i != -1 ==> Link([p] + live, i + 1) == Link(live, i)
    ensures Link([p] + live, 0) == p && Link([p] + live, -1) == NIL
    ensures 0 <= i < |live| ==> ([p] + live)[i + 1] == live[i]
  {
  }

  /** Hanging a node before the head turns the chain into the longer chain. */
  lemma ChainStarts<T>(ns: seq<Node<T>>, ns': seq<Node<T>>, live: seq<nat>, p: nat)
    requires Chain(ns, live) && |ns'| == |ns| && p < |ns|
    requires forall i :: 0 <= i < |live| ==>
      ns'[live[i]] == if i == 0 then ns[live[i]].(prev := p) else ns[live[i]]
    requires ns'[p].next == Link(live, 0) && ns'[p].prev == NIL
    ensures Chain(ns', [p] + live)
  {
    hide Link;
    var more := [p] + live;
    forall i | 0 <= i < |more|
      ensures more[i] < |ns'| && ns'[more[i]].prev == Link(more, i - 1) && ns'[more[i]].next == Link(more, i + 1)
    {
      hide *;
      LinkStarts(live, p, i);
      if i > 0 {
        LinkStarts(live, p, i - 1);
        ChainAt(ns, live, i - 1);
        if i > 1 { LinkStarts(live, p, i - 2); }
      }
    }
  }

  lemma ItemsStart<T>(ns: seq<Node<T>>, ns': seq<Node<T>>, live: seq<nat>, p: nat)
    requires Within(ns, live) && Within(ns', live) && p < |ns'| && Within(ns', [p] + live)
    requires forall i :: 0 <= i < |live| ==> ns'[live[i]].data == ns[live[i]].data
    ensures Items(ns', [p] + live) == [ns'[p].data] + Items(ns, live)
  {
    assert forall i :: 0 <= i < |live| ==> ([p] + live)[i + 1] == live[i];
  }

  lemma LinkedFrontChain<T>(ns: seq<Node<T>>, live: seq<nat>, p: nat, x: T)
    requires Chain(ns, live) && p < |ns| && Distinct(live) && p !in live
    ensures Chain(LinkedFront(ns, live, p, x), [p] + live)
    ensures Items(LinkedFront(ns, live, p, x), [p] + live) == [x] + Items(ns, live)
  {
    var ns' := LinkedFront(ns, live, p, x);
    assert live != [] ==> live[0] in live;
    assert ns'[p] == Node(NIL, Link(live, 0), x);
    forall i | 0 <= i < |live|
      ensures ns'[live[i]] == if i == 0 then ns[live[i]].(prev := p) else ns[live[i]]
    {
      LinkedFrontNode(ns, live, p, x, i);
    }
    ChainStarts(ns, ns', live, p);
    ItemsStart(ns, ns', live, p);
  }

  /** Recycled nodes are untouched by changes to other nodes. */
  lemma FreeChainFrame<T>(ns: seq<Node<T>>, ns': seq<Node<T>>, free: seq<nat>)
    requires FreeChain(ns, free) && |ns'| == |ns|
    requires forall j :: 0 <= j < |free| ==> ns'[free[j]] == ns[free[j]]
    ensures FreeChain(ns', free)
  {
  }

  lemma LinkedBackOk<T>(ns: seq<Node<T>>, live: seq<nat>, free: seq<nat>, p: nat, x: T)
    requires Chain(ns, live) && FreeChain(ns, free) && p < |ns| && p !in live && p !in free
    requires Distinct(live) && forall i, j :: 0 <= i < |live| && 0 <= j < |free| ==> live[i] != free[j]
    ensures var ns' := LinkedBack(ns, live, p, x);
      Chain(ns', live + [p]) && FreeChain(ns', free) && Items(ns', live + [p]) == Items(ns, live) + [x]
  {
    LinkedBackChain(ns, live, p, x);
    FreeChainFrame(ns, LinkedBack(ns, live, p, x), free);
  }

  lemma LinkedFrontOk<T>(ns: seq<Node<T>>, live: seq<nat>, free: seq<nat>, p: nat, x: T)
    requires Chain(ns, live) && FreeChain(ns, free) && p < |ns| && p !in live && p !in free
    requires Distinct(live) && forall i, j :: 0 <= i < |live| && 0 <= j < |free| ==> live[i] != free[j]
    ensures var ns' := LinkedFront(ns, live, p, x);
      Chain(ns', [p] + live) && FreeChain(ns', free) && Items(ns', [p] + live) == [x] + Items(ns, live)
  {
    LinkedFrontChain(ns, live, p, x);
    FreeChainFrame(ns, LinkedFront(ns, live, p, x), free);
  }

  // ---------------------------------------------------------------- unlinking

  /** Cut off the tail and put it on the free list. */
  ghost function UnlinkedBack<T>(ns: seq<Node<T>>, live: seq<nat>, free: seq<nat>): seq<Node<T>>
    requires live != [] && Within(ns, live)
  {
    var p := live[|live| - 1];
    var ns' := if |live| == 1 then ns else ns[live[|live| - 2] := ns[live[|live| - 2]].(next := NIL)];
    ns'[p := ns'[p].(next := Link(free, 0))]
  }

  ghost function UnlinkedFront<T>(ns: seq<Node<T>>, live: seq<nat>, free: seq<nat>): seq<Node<T>>
    requires live != [] && Within(ns, live)
  {
    var p := live[0];
    var ns' := if |live| == 1 then ns else ns[live[1] := ns[live[1]].(prev := NIL)];
    ns'[p := ns'[p].(next := Link(free, 0))]
  }

  lemma UnlinkedBackNode<T>(ns: seq<Node<T>>, live: seq<nat>, free: seq<nat>, i: nat)
    requires Chain(ns, live) && Distinct(live) && i < |live| - 1
    ensures var n, o := UnlinkedBack(ns, live, free)[live[i]], ns[live[i]];
      n == if i == |live| - 2 then o.(next := NIL) else o
  {
    hide Link;
    var last, before := live[|live| - 1], live[|live| - 2];
    assert live[i] != last;
    assert i < |live| - 2 ==> live[i] != before;
    assert last < |ns| && before < |ns| && live[i] < |ns|;
    CutBehind(ns, last, before, live[i], Link(free, 0));
  }

  lemma CutBehind<T>(ns: seq<Node<T>>, last: nat, before: nat, q: nat, unused: int)
    requires last < |ns| && before < |ns| && q < |ns| && last != q
    ensures var ns' := ns[before := ns[before].(next := NIL)];
      ns'[last := ns'[last].(next := unused)][q] == if q == before then ns[q].(next := NIL) else ns[q]
  {
  }

  /** Cutting off the last node turns the chain into the shorter chain. */
  lemma ChainShortens<T>(ns: seq<Node<T>>, ns': seq<Node<T>>, live: seq<nat>)
    requires Chain(ns, live) && live != [] && |ns'| == |ns|
    requires forall i :: 0 <= i < |live| - 1 ==>
      ns'[live[i]] == if i == |live| - 2 then ns[live[i]].(next := NIL) else ns[live[i]]
    ensures Chain(ns', live[..|live| - 1])
    ensures Items(ns', live[..|live| - 1]) + [ns[live[|live| - 1]].data] == Items(ns, live)
  {
    var rest := live[..|live| - 1];
    forall i | 0 <= i < |rest|
      ensures && rest[i] < |ns'| && ns'[rest[i]].prev == Link(rest, i - 1) && ns'[rest[i]].next == Link(rest, i + 1)
              && ns'[rest[i]].data == ns[live[i]].data
    {
      ChainAt(ns, live, i);
    }
  }

  lemma UnlinkedBackChain<T>(ns: seq<Node<T>>, live: seq<nat>, free: seq<nat>)
    requires Chain(ns, live) && Distinct(live) && live != []
    ensures var ns', rest := UnlinkedBack(ns, live, free), live[..|live| - 1];
      Chain(ns', rest) && Items(ns', rest) + [ns[live[|live| - 1]].data] == Items(ns, live)
  {
    var ns' := UnlinkedBack(ns, live, free);
    forall i | 0 <= i < |live| - 1
      ensures ns'[live[i]] == if i == |live| - 2 then ns[live[i]].(next := NIL) else ns[live[i]]
    {
      UnlinkedBackNode(ns, live, free, i);
    }
    ChainShortens(ns, ns', live);
  }

  lemma UnlinkedFrontChain<T>(ns: seq<Node<T>>, live: seq<nat>, free: seq<nat>)
    requires Chain(ns, live) && Distinct(live) && live != []
    ensures var ns', rest := UnlinkedFront(ns, live, free), live[1..];
      Chain(ns', rest) && [ns[live[0]].data] + Items(ns', rest) == Items(ns, live)
  {
    var ns', rest := UnlinkedFront(ns, live, free), live[1..];
    forall i | 0 <= i < |rest|
      ensures && ns'[rest[i]].prev == Link(rest, i - 1) && ns'[rest[i]].next == Link(rest, i + 1)
              && ns'[rest[i]].data == ns[live[i + 1]].data
    {
      assert rest[i] == live[i + 1] && live[i + 1] != live[0];
      assert i > 0 ==> live[i + 1] != live[1];
    }
  }

  lemma RecycledFree<T>(ns: seq<Node<T>>, ns': seq<Node<T>>, free: seq<nat>, p: nat)
    requires FreeChain(ns, free) && |ns'| == |ns| && p < |ns| && ns'[p].next == Link(free, 0)
    requires forall j :: 0 <= j < |free| ==> ns'[free[j]] == ns[free[j]]
    ensures FreeChain(ns', [p] + free)
  {
    var more := [p] + free;
    forall j | 0 <= j < |more|
      ensures more[j] < |ns'| && ns'[more[j]].next == Link(more, j + 1)
    {
      assert j > 0 ==> more[j] == free[j - 1];
    }
  }

  lemma DistinctPush(s: seq<nat>, p: nat)
    requires Distinct(s) && p !in s
    ensures Distinct([p] + s)
  {
    assert forall j :: 0 < j <= |s| ==> ([p] + s)[j] == s[j - 1];
  }

  /** Moving the head or the tail to the front of the free list keeps the layout. */
  lemma RecycledLayout(live: seq<nat>, free: seq<nat>, slots: nat, rest: seq<nat>, p: nat)
    requires Layout(live, free, slots) && live != []
    requires (rest == live[1..] && p == live[0]) || (rest == live[..|live| - 1] && p == live[|live| - 1])
    ensures Layout(rest, [p] + free, slots)
  {
    var more := [p] + free;
    var d := if p == live[0] && rest == live[1..] then 1 else 0;
    DistinctPush(free, p);
    assert forall i :: 0 <= i < |rest| ==> rest[i] == live[i + d] && live[i + d] != p;
    assert forall j :: 0 < j < |more| ==> more[j] == free[j - 1];
  }

  lemma UnlinkedBackOk<T>(ns: seq<Node<T>>, live: seq<nat>, free: seq<nat>)
    requires Chain(ns, live) && FreeChain(ns, free) && Layout(live, free, |ns|) && live != []
    ensures var ns', rest, p := UnlinkedBack(ns, live, free), live[..|live| - 1], live[|live| - 1];
      && Chain(ns', rest) && FreeChain(ns', [p] + free) && Layout(rest, [p] + free, |ns|)
      && Items(ns', rest) + [ns[p].data] == Items(ns, live)
  {
    UnlinkedBackChain(ns, live, free);
    RecycledFree(ns, UnlinkedBack(ns, live, free), free, live[|live| - 1]);
    RecycledLayout(live, free, |ns|, live[..|live| - 1], live[|live| - 1]);
  }

  lemma UnlinkedFrontOk<T>(ns: seq<Node<T>>, live: seq<nat>, free: seq<nat>)
    requires Chain(ns, live) && FreeChain(ns, free) && Layout(live, free, |ns|) && live != []
    ensures var ns', rest, p := UnlinkedFront(ns, live, free), live[1..], live[0];
      && Chain(ns', rest) && FreeChain(ns', [p] + free) && Layout(rest, [p] + free, |ns|)
      && [ns[p].data] + Items(ns', rest) == Items(ns, live)
  {
    UnlinkedFrontChain(ns, live, free);
    RecycledFree(ns, UnlinkedFront(ns, live, free), free, live[0]);
    RecycledLayout(live, free, |ns|, live[1..], live[0]);
  }

  // ---------------------------------------------------------------- the stores of the code

  /** Node `p` leaves the list: its neighbour `next to it` forgets it, and it goes on the free list. */
  function StoredBack<T>(ns: seq<Node<T>>, p: nat, before: int, unused: int): seq<Node<T>>
    requires p < |ns| && -1 <= before < |ns|
  {
    (if before == NIL then ns else ns[before := ns[before].(next := NIL)])[p := ns[p].(next := unused)]
  }

  function StoredFront<T>(ns: seq<Node<T>>, p: nat, after: int, unused: int): seq<Node<T>>
    requires p < |ns| && -1 <= after < |ns|
  {
    (if after == NIL then ns else ns[after := ns[after].(prev := NIL)])[p := ns[p].(next := unused)]
  }

  lemma StoredIsUnlinkedBack<T>(ns: seq<Node<T>>, live: seq<nat>, free: seq<nat>)
    requires Chain(ns, live) && Layout(live, free, |ns|) && |live| > 0
    ensures var p := Link(live, |live| - 1);
      && 0 <= p < |ns| && -1 <= ns[p].prev < |ns| && ns[p].prev != p && ns[p].prev == Link(live, |live| - 2)
      && StoredBack(ns, p, ns[p].prev, Link(free, 0)) == UnlinkedBack(ns, live, free)
  {
    ChainEnds(ns, live);
  }

  lemma StoredIsUnlinkedFront<T>(ns: seq<Node<T>>, live: seq<nat>, free: seq<nat>)
    requires Chain(ns, live) && Layout(live, free, |ns|) && |live| > 0
    ensures var p := Link(live, 0);
      && 0 <= p < |ns| && -1 <= ns[p].next < |ns| && ns[p].next != p && ns[p].next == Link(live, 1)
      && StoredFront(ns, p, ns[p].next, Link(free, 0)) == UnlinkedFront(ns, live, free)
  {
    ChainEnds(ns, live);
  }

  lemma RestOfBack(live: seq<nat>, free: seq<nat>)
    requires |live| > 0
    ensures var rest, p := live[..|live| - 1], live[|live| - 1];
      && |rest| == |live| - 1 && Link(rest, 0) == (if |rest| == 0 then NIL else Link(live, 0))
      && Link(rest, |rest| - 1) == Link(live, |live| - 2) && Link([p] + free, 0) == p == Link(live, |live| - 1)
      && (|rest| == 0 ==> Link(live, |live| - 2) == NIL)
  {
  }

  lemma RestOfFront(live: seq<nat>, free: seq<nat>)
    requires |live| > 0
    ensures var rest, p := live[1..], live[0];
      && |rest| == |live| - 1 && Link(rest, |rest| - 1) == (if |rest| == 0 then NIL else Link(live, |live| - 1))
      && Link(rest, 0) == Link(live, 1) && Link([p] + free, 0) == p == Link(live, 0)
      && (|rest| == 0 ==> Link(live, 1) == NIL)
  {
  }

  /** All that the pop of the tail needs to know, in the code's terms. */
  lemma BackCut<T>(ns: seq<Node<T>>, live: seq<nat>, free: seq<nat>) returns (rest: seq<nat>, more: seq<nat>)
    requires Chain(ns, live) && FreeChain(ns, free) && Layout(live, free, |ns|) && |live| > 0
    ensures var p := Link(live, |live| - 1);
      && 0 <= p < |ns| && -1 <= ns[p].prev < |ns| && ns[p].prev != p
      && var ns' := StoredBack(ns, p, ns[p].prev, Link(free, 0));
      && |ns'| == |ns| && Within(ns, live) && Within(ns', rest) && Chain(ns', rest) && FreeChain(ns', more)
      && Layout(rest, more, |ns|) && Items(ns', rest) + [ns[p].data] == Items(ns, live)
      && |rest| == |live| - 1 && Link(rest, 0) == (if |rest| == 0 then NIL else Link(live, 0))
      && Link(rest, |rest| - 1) == ns[p].prev && Link(more, 0) == p && (|rest| == 0 ==> ns[p].prev == NIL)
  {
    rest, more := live[..|live| - 1], [live[|live| - 1]] + free;
    StoredIsUnlinkedBack(ns, live, free);
    UnlinkedBackOk(ns, live, free);
    RestOfBack(live, free);
  }

  lemma FrontCut<T>(ns: seq<Node<T>>, live: seq<nat>, free: seq<nat>) returns (rest: seq<nat>, more: seq<nat>)
    requires Chain(ns, live) && FreeChain(ns, free) && Layout(live, free, |ns|) && |live| > 0
    ensures var p := Link(live, 0);
      && 0 <= p < |ns| && -1 <= ns[p].next < |ns| && ns[p].next != p
      && var ns' := StoredFront(ns, p, ns[p].next, Link(free, 0));
      && |ns'| == |ns| && Within(ns, live) && Within(ns', rest) && Chain(ns', rest) && FreeChain(ns', more)
      && Layout(rest, more, |ns|) && [ns[p].data] + Items(ns', rest) == Items(ns, live)
      && |rest| == |live| - 1 && Link(rest, |rest| - 1) == (if |rest| == 0 then NIL else Link(live, |live| - 1))
      && Link(rest, 0) == ns[p].next && Link(more, 0) == p && (|rest| == 0 ==> ns[p].next == NIL)
  {
    rest, more := live[1..], [live[0]] + free;
    StoredIsUnlinkedFront(ns, live, free);
    UnlinkedFrontOk(ns, live, free);
    RestOfFront(live, free);
  }

  /** Node `p` is filled in, and the old tail points at it. */
  function HungBack<T>(ns: seq<Node<T>>, p: nat, tail: int, x: T): seq<Node<T>>
    requires p < |ns| && -1 <= tail < |ns|
  {
    var ns' := ns[p := Node(tail, NIL, x)];
    if tail == NIL then ns' else ns'[tail := ns'[tail].(next := p)]
  }

  function HungFront<T>(ns: seq<Node<T>>, p: nat, head: int, x: T): seq<Node<T>>
    requires p < |ns| && -1 <= head < |ns|
  {
    var ns' := ns[p := Node(NIL, head, x)];
    if head == NIL then ns' else ns'[head := ns'[head].(prev := p)]
  }

  /** No live slot is `p`. */
  ghost predicate Fresh(live: seq<nat>, free: seq<nat>, p: nat) {
    && p !in live && p !in free && Distinct(live)
    && forall i, j :: 0 <= i < |live| && 0 <= j < |free| ==> live[i] != free[j]
  }

  /** All that a push behind the tail needs to know, in the code's terms. */
  lemma BackHung<T>(ns: seq<Node<T>>, live: seq<nat>, free: seq<nat>, p: nat, x: T)
    requires Chain(ns, live) && FreeChain(ns, free) && p < |ns| && Fresh(live, free, p)
    ensures var tail := Link(live, |live| - 1);
      && -1 <= tail < |ns| && (tail == NIL <==> Link(live, 0) == NIL)
      && var ns', more := HungBack(ns, p, tail, x), live + [p];
      && |ns'| == |ns| && ns'[p].data == x && Within(ns, live) && Within(ns', more)
      && Chain(ns', more) && FreeChain(ns', free) && Items(ns', more) == Items(ns, live) + [x]
      && |more| == |live| + 1 && Link(more, |more| - 1) == p
      && Link(more, 0) == if Link(live, 0) == NIL then p else Link(live, 0)
  {
    assert live != [] ==> live[|live| - 1] in live && live[|live| - 1] < |ns|;
    assert HungBack(ns, p, Link(live, |live| - 1), x) == LinkedBack(ns, live, p, x);
    LinkedBackOk(ns, live, free, p, x);
  }

  lemma FrontHung<T>(ns: seq<Node<T>>, live: seq<nat>, free: seq<nat>, p: nat, x: T)
    requires Chain(ns, live) && FreeChain(ns, free) && p < |ns| && Fresh(live, free, p)
    ensures var head := Link(live, 0);
      && -1 <= head < |ns| && (head == NIL <==> Link(live, |live| - 1) == NIL)
      && var ns', more := HungFront(ns, p, head, x), [p] + live;
      && |ns'| == |ns| && ns'[p].data == x && Within(ns, live) && Within(ns', more)
      && Chain(ns', more) && FreeChain(ns', free) && Items(ns', more) == [x] + Items(ns, live)
      && |more| == |live| + 1 && Link(more, 0) == p
      && Link(more, |more| - 1) == if head == NIL then p else Link(live, |live| - 1)
  {
    assert live != [] ==> live[0] in live && live[0] < |ns|;
    assert HungFront(ns, p, Link(live, 0), x) == LinkedFront(ns, live, p, x);
    LinkedFrontOk(ns, live, free, p, x);
  }

  /** All that an allocation needs to know, in the code's terms: a recycled slot comes off the free list, a new
      one lies behind the `size` live ones. */
  lemma SlotFor<T>(ns: seq<Node<T>>, live: seq<nat>, free: seq<nat>)
    requires FreeChain(ns, free) && Layout(live, free, |ns|)
    ensures var first, p, more := Link(free, 0), NewSlot(live, free), FreeAfter(free);
      && (first != NIL ==> 0 <= first < |ns| && p == first && ns[p].next == Link(more, 0) && |live| < |ns|)
      && (first == NIL ==> p == |live| && Link(more, 0) == NIL)
      && (|live| < |ns| ==> p < |ns| && FreeChain(ns, more) && Fresh(live, more, p)
                            && Layout(live + [p], more, |ns|) && Layout([p] + live, more, |ns|))
  {
    if |live| < |ns| {
      NewSlotUnused(live, free, |ns|);
    }
    if |free| > 0 {
      assert free[0] < |ns| && forall j :: 0 <= j < |free| - 1 ==> FreeAfter(free)[j] == free[j + 1];
    }
  }
}
