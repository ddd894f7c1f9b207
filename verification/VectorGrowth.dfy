/** The capacity policy of Share/Hook/Zycore/Vector.c (growth factor 2, shrink threshold 1/4, exact
    arithmetic) and its amortised cost. */
module VectorGrowth {

  const MIN_CAPACITY: nat := 1

  /** Element count, capacity, and the elements moved by reallocations so far. */
  datatype Shape = Shape(size: nat, capacity: nat, moved: nat)

  datatype Op = Push | Pop

  predicate ShouldGrow(size: nat, capacity: nat) {
    size > capacity
  }

  predicate ShouldShrink(size: nat, capacity: nat) {
    4 * size < capacity
  }

  function NewCapacity(size: nat): nat {
    if 2 * size < MIN_CAPACITY then MIN_CAPACITY else 2 * size
  }

  function Step(s: Shape, op: Op): Shape {
    match op
    case Push =>
      if ShouldGrow(s.size + 1, s.capacity) then Shape(s.size + 1, NewCapacity(s.size + 1), s.moved + s.size)
      else s.(size := s.size + 1)
    case Pop =>
      if s.size == 0 then s
      else if ShouldShrink(s.size - 1, s.capacity) then
        Shape(s.size - 1, NewCapacity(s.size - 1), s.moved + s.size - 1)
      else s.(size := s.size - 1)
  }

  function Run(s: Shape, ops: seq<Op>): Shape {
    if ops == [] then s else Step(Run(s, ops[..|ops| - 1]), ops[|ops| - 1])
  }

  predicate Sound(s: Shape) {
    MIN_CAPACITY <= s.capacity && s.size <= s.capacity
  }

  /** Work saved up for the next reallocation: distance from the half-full state, but never more than the
      elements present can have paid for. */
  function Potential(s: Shape): nat {
    if 2 * s.size >= s.capacity then 2 * s.size - s.capacity
    else if 4 * s.size <= s.capacity then 2 * s.size
    else s.capacity - 2 * s.size
  }

  /** One operation pays at most two moves. */
  lemma StepPaysTwo(s: Shape, op: Op)
    requires Sound(s)
    ensures Sound(Step(s, op))
    ensures Step(s, op).moved + Potential(Step(s, op)) <= s.moved + Potential(s) + 2
  {
  }

  /** Over every run from an empty vector of any capacity, reallocation moves at most two elements per
      operation, and the size stays within the capacity. */
  lemma {:induction false} MovesAmortised(capacity: nat, ops: seq<Op>)
    requires capacity >= MIN_CAPACITY
    ensures var s := Run(Shape(0, capacity, 0), ops);
      Sound(s) && s.moved + Potential(s) <= 2 * |ops|
  {
    if ops != [] {
      MovesAmortised(capacity, ops[..|ops| - 1]);
      StepPaysTwo(Run(Shape(0, capacity, 0), ops[..|ops| - 1]), ops[|ops| - 1]);
    }
  }

  /** The policy by value: a full vector goes to twice the new size, one that falls below a quarter to twice what is
      left, at least 1; nothing else reallocates. */
  lemma PolicyByValue(size: nat, capacity: nat, moved: nat)
    ensures size == capacity ==>
      Step(Shape(size, capacity, moved), Push) == Shape(size + 1, 2 * size + 2, moved + size)
    ensures size < capacity ==> Step(Shape(size, capacity, moved), Push) == Shape(size + 1, capacity, moved)
    ensures size > 0 && 4 * (size - 1) >= capacity ==>
      Step(Shape(size, capacity, moved), Pop) == Shape(size - 1, capacity, moved)
    ensures size > 1 && 4 * (size - 1) < capacity ==>
      Step(Shape(size, capacity, moved), Pop) == Shape(size - 1, 2 * size - 2, moved + size - 1)
    ensures size == 1 && capacity > 0 ==> Step(Shape(size, capacity, moved), Pop) == Shape(0, 1, moved)
    ensures size == 0 ==> Step(Shape(size, capacity, moved), Pop) == Shape(0, capacity, moved)
  {
  }

  /** After a reallocation that leaves `n` elements, no operation reallocates before the size has changed by more than
      half of them. */
  lemma {:induction false} CalmAfterReallocation(n: nat, moved: nat, ops: seq<Op>)
    requires n > 0 && 2 * |ops| <= n
    ensures var s := Run(Shape(n, 2 * n, moved), ops);
      s.moved == moved && s.capacity == 2 * n && n - |ops| <= s.size <= n + |ops|
  {
    if ops != [] {
      CalmAfterReallocation(n, moved, ops[..|ops| - 1]);
      var s := Run(Shape(n, 2 * n, moved), ops[..|ops| - 1]);
      PolicyByValue(s.size, s.capacity, s.moved);
    }
  }
}
