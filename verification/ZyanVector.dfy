/** The growable array of Share/Hook/Zycore/Vector.c. */
module ZyanVector {
  import opened Words
  import opened VectorGrowth

  datatype Status = Success | Found | NotFound | OutOfRange | InvalidArgument | InsufficientBufferSize

  /** A three-way comparison that is a total preorder. */
  ghost predicate Ordering<T(!new)>(compare: (T, T) -> int) {
    && (forall x, y :: compare(x, y) < 0 <==> compare(y, x) > 0)
    && (forall x, y, z :: compare(x, y) <= 0 && compare(y, z) <= 0 ==> compare(x, z) <= 0)
  }

  ghost predicate Sorted<T>(compare: (T, T) -> int, s: seq<T>) {
    forall i, j :: 0 <= i < j < |s| ==> compare(s[i], s[j]) <= 0
  }

  /** The comparisons with the key never fall along the range. */
  ghost predicate Monotone<T>(compare: (T, T) -> int, s: seq<T>, key: T) {
    forall i, j :: 0 <= i < j < |s| ==>
      (compare(s[j], key) < 0 ==> compare(s[i], key) < 0) && (compare(s[i], key) > 0 ==> compare(s[j], key) > 0)
  }

  ghost predicate AllBelow<T>(compare: (T, T) -> int, s: seq<T>, key: T, n: int) {
    n <= |s| && forall i :: 0 <= i < n ==> compare(s[i], key) < 0
  }

  ghost predicate NoneBelow<T>(compare: (T, T) -> int, s: seq<T>, key: T, n: int) {
    0 <= n && forall i :: n <= i < |s| ==> compare(s[i], key) >= 0
  }

  lemma SearchStart<T>(compare: (T, T) -> int, s: seq<T>, key: T)
    ensures AllBelow(compare, s, key, 0) && NoneBelow(compare, s, key, |s|)
  {
  }

  /** What one comparison says about everything before or behind it. */
  lemma SearchStep<T>(compare: (T, T) -> int, s: seq<T>, key: T, mid: nat, next: nat)
    requires Monotone(compare, s, key) && mid < |s|
    ensures mid < next < |s| && compare(s[mid], key) > 0 ==> compare(s[next], key) > 0
    ensures if compare(s[mid], key) < 0 then AllBelow(compare, s, key, mid + 1) else NoneBelow(compare, s, key, mid)
  {
  }

  lemma SearchEnd<T>(compare: (T, T) -> int, s: seq<T>, index: nat, count: nat, key: T, n: nat)
    requires index + count <= |s| && n <= count
    requires AllBelow(compare, s[index..index + count], key, n) && NoneBelow(compare, s[index..index + count], key, n)
    ensures forall i :: index <= i < index + n ==> compare(s[i], key) < 0
    ensures forall i :: index + n <= i < index + count ==> compare(s[i], key) >= 0
    ensures n < count ==> s[index..index + count][n] == s[index + n]
  {
    assert forall i :: index <= i < index + count ==> s[i] == s[index..index + count][i - index];
  }

  /** A sorted range can be searched for any key. */
  lemma SortedIsMonotone<T(!new)>(compare: (T, T) -> int, s: seq<T>, key: T)
    requires Ordering(compare) && Sorted(compare, s)
    ensures Monotone(compare, s, key)
  {
    forall i, j | 0 <= i < j < |s|
      ensures compare(s[j], key) < 0 ==> compare(s[i], key) < 0
      ensures compare(s[i], key) > 0 ==> compare(s[j], key) > 0
    {
      assert compare(s[i], s[j]) <= 0;
      if compare(key, s[i]) <= 0 {
        assert compare(key, s[j]) <= 0;
      }
      if compare(s[j], key) <= 0 {
        assert compare(s[i], key) <= 0;
      }
    }
  }

  /** Inserting the key where the search points keeps the vector sorted. */
  lemma InsertKeepsSorted<T(!new)>(compare: (T, T) -> int, s: seq<T>, key: T, at: nat)
    requires Ordering(compare) && Sorted(compare, s) && at <= |s|
    requires forall i :: 0 <= i < at ==> compare(s[i], key) < 0
    requires forall i :: at <= i < |s| ==> compare(s[i], key) >= 0
    ensures Sorted(compare, s[..at] + [key] + s[at..])
  {
    var t := s[..at] + [key] + s[at..];
    forall i, j | 0 <= i < j < |t|
      ensures compare(t[i], t[j]) <= 0
    {
      assert t[i] == if i < at then s[i] else if i == at then key else s[i - 1];
      assert t[j] == if j < at then s[j] else if j == at then key else s[j - 1];
    }
  }

  class Vector<T(0)> {
    var data: array<T>
    var size: nat
    /** A caller's buffer: no allocator, growth factor 1, shrink threshold 0. */
    const fixed: bool
    /** Elements moved by reallocations. */
    var moved: nat

    ghost predicate Valid()
      reads this
    {
      MIN_CAPACITY <= data.Length && size <= data.Length
    }

    function Contents(): (s: seq<T>)
      reads this, data
      requires Valid()
      ensures |s| == size
    {
      data[..size]
    }

    function ShapeOf(): Shape
      reads this
    {
      Shape(size, data.Length, moved)
    }

    constructor (capacity: nat)
      ensures Valid() && Contents() == [] && !fixed && fresh(data)
      ensures data.Length == if capacity < MIN_CAPACITY then MIN_CAPACITY else capacity
      ensures moved == 0
    {
      data := new T[if capacity < MIN_CAPACITY then MIN_CAPACITY else capacity];
      size, fixed, moved := 0, false, 0;
    }

    constructor CustomBuffer(buffer: array<T>)
      requires buffer.Length > 0
      ensures Valid() && Contents() == [] && fixed && data == buffer && moved == 0
    {
      data, size, fixed, moved := buffer, 0, true, 0;
    }

    /** Room for `capacity` elements; the allocator is taken to succeed. */
    method Reallocate(capacity: nat) returns (st: Status)
      requires Valid() && size <= capacity
      modifies this`data, this`moved
      ensures Valid() && Contents() == old(Contents())
      ensures fixed ==>
        && data == old(data) && moved == old(moved)
        && st == if capacity <= data.Length then Success else InsufficientBufferSize
      ensures !fixed ==>
        && st == Success && (data == old(data) || fresh(data))
        && data.Length == (if capacity < MIN_CAPACITY then MIN_CAPACITY else capacity)
        && moved == old(moved) + size
    {
      if fixed {
        return if data.Length < capacity then InsufficientBufferSize else Success;
      }
      var target := capacity;
      if target < MIN_CAPACITY {
        if data.Length <= MIN_CAPACITY { return Success; }
        target := MIN_CAPACITY;
      }
      var bigger := new T[target];
      forall i | 0 <= i < size {
        bigger[i] := data[i];
      }
      data, moved := bigger, moved + size;
      st := Success;
    }

    method EnsureRoom(count: nat) returns (st: Status)
      requires Valid() && count > 0
      modifies this`data, this`moved
      ensures Valid() && Contents() == old(Contents()) && (data == old(data) || fresh(data))
      ensures st == (if fixed && size + count > old(data.Length) then InsufficientBufferSize else Success)
      ensures st == Success ==> size + count <= data.Length
      ensures st != Success || size + count <= old(data.Length) ==> data == old(data) && moved == old(moved)
      ensures st == Success && size + count > old(data.Length) ==>
        data.Length == NewCapacity(size + count) && moved == old(moved) + size
    {
      st := Success;
      if ShouldGrow(size + count, data.Length) {
        st := Reallocate(if fixed then size + count else NewCapacity(size + count));
      }
    }

    method PushBack(x: T) returns (st: Status)
      requires Valid()
      modifies this, data
      ensures Valid() && (data == old(data) || fresh(data))
      ensures st == if fixed && old(size) == old(data.Length) then InsufficientBufferSize else Success
      ensures Contents() == if st == Success then old(Contents()) + [x] else old(Contents())
      ensures !fixed ==> ShapeOf() == Step(old(ShapeOf()), Push)
      ensures fixed ==> data == old(data) && moved == old(moved)
    {
      st := EnsureRoom(1);
      if st != Success { return; }
      data[size] := x;
      size := size + 1;
    }

    method Trim() returns (st: Status)
      requires Valid()
      modifies this`data, this`moved
      ensures Valid() && Contents() == old(Contents()) && st == Success && (data == old(data) || fresh(data))
      ensures fixed || !ShouldShrink(size, old(data.Length)) ==> data == old(data) && moved == old(moved)
      ensures !fixed && ShouldShrink(size, old(data.Length)) ==>
        data.Length == NewCapacity(size) && moved == old(moved) + size
    {
      st := Success;
      if !fixed && ShouldShrink(size, data.Length) {
        st := Reallocate(NewCapacity(size));
      }
    }

    method PopBack() returns (st: Status)
      requires Valid()
      modifies this
      ensures Valid() && (data == old(data) || fresh(data))
      ensures st == if old(size) == 0 then OutOfRange else Success
      ensures Contents() == if st == Success then old(Contents())[..old(size) - 1] else old(Contents())
      ensures !fixed ==> ShapeOf() == Step(old(ShapeOf()), Pop)
      ensures fixed ==> data == old(data) && moved == old(moved)
    {
      if size == 0 { return OutOfRange; }
      size := size - 1;
      st := Trim();
    }

    /** memmove by `count` elements to the right. */
    method ShiftRight(index: nat, count: nat)
      requires Valid() && index <= size && size + count <= data.Length
      modifies data
      ensures data[..index] == old(data[..index]) && data[index + count..size + count] == old(data[index..size])
    {
      forall i | index <= i < size {
        data[i + count] := data[i];
      }
    }

    /** memmove by `count` elements to the left. */
    method ShiftLeft(index: nat, count: nat)
      requires Valid() && index + count <= size
      modifies data
      ensures data[..index] == old(data[..index]) && data[index..size - count] == old(data[index + count..size])
    {
      forall i | index <= i < size - count {
        data[i] := data[i + count];
      }
      assert forall i :: 0 <= i < index ==> data[i] == old(data[i]);
      assert forall i :: index <= i < size - count ==> data[i] == old(data[i + count]);
    }

    /** memcpy over the gap; what lies behind it up to `top` stays. */
    method StoreRange(index: nat, elements: seq<T>, ghost top: nat)
      requires index + |elements| <= top <= data.Length
      modifies data
      ensures data[..index] == old(data[..index]) && data[index..index + |elements|] == elements
      ensures data[index + |elements|..top] == old(data[index + |elements|..top])
    {
      forall i | 0 <= i < |elements| {
        data[index + i] := elements[i];
      }
    }

    method OpenGap(index: nat, count: nat)
      requires Valid() && index <= size && size + count <= data.Length
      modifies data
      ensures data[..index] == old(Contents())[..index] && data[index + count..size + count] == old(Contents())[index..]
    {
      Slices(data[..], index, size);
      if index < size {
        ShiftRight(index, count);
      }
    }

    method SpliceIn(index: nat, elements: seq<T>)
      requires Valid() && index <= size && size + |elements| <= data.Length
      modifies this`size, data
      ensures Valid() && size == old(size) + |elements|
      ensures Contents() == old(Contents())[..index] + elements + old(Contents())[index..]
    {
      ghost var top := size + |elements|;
      OpenGap(index, |elements|);
      StoreRange(index, elements, top);
      size := size + |elements|;
      Splice(data[..], index, |elements|, top);
    }

    method InsertRange(index: nat, elements: seq<T>) returns (st: Status)
      requires Valid()
      modifies this, data
      ensures Valid() && (data == old(data) || fresh(data))
      ensures st ==
        if elements == [] then InvalidArgument
        else if index > old(size) then OutOfRange
        else if fixed && old(size) + |elements| > old(data.Length) then InsufficientBufferSize
        else Success
      ensures st != Success ==> Contents() == old(Contents())
      ensures st == Success ==> Contents() == old(Contents())[..index] + elements + old(Contents())[index..]
      ensures fixed || !ShouldGrow(size, old(data.Length)) ==> data == old(data) && moved == old(moved)
      ensures !fixed && ShouldGrow(size, old(data.Length)) ==>
        data.Length == NewCapacity(size) && moved == old(moved) + old(size)
    {
      if elements == [] { return InvalidArgument; }
      if index > size { return OutOfRange; }
      st := EnsureRoom(|elements|);
      if st != Success { return; }
      SpliceIn(index, elements);
    }

    /** ResizeEx; without an initializer the new elements are whatever the memory holds. */
    method ResizeEx(count: nat, init: Option<T>) returns (st: Status)
      requires Valid()
      modifies this, data
      ensures Valid() && (data == old(data) || fresh(data))
      ensures st == if fixed && count > old(data.Length) then InsufficientBufferSize else Success
      ensures st != Success ==> Contents() == old(Contents()) && data == old(data)
      ensures st == Success ==> size == count <= data.Length
      ensures st == Success ==>
        var kept := if old(size) < count then old(size) else count;
        && Contents()[..kept] == old(Contents())[..kept]
        && (init.Some? ==> forall i :: kept <= i < count ==> Contents()[i] == init.value)
      ensures fixed ==> data == old(data)
      ensures !fixed ==>
        var reallocates := count != old(size)
          && (ShouldGrow(count, old(data.Length)) || ShouldShrink(count, old(data.Length)));
        && data.Length == (if reallocates then NewCapacity(count) else old(data.Length))
        && moved == old(moved) + if !reallocates then 0 else if old(size) < count then old(size) else count
    {
      st := Success;
      if count == size { return; }
      ghost var was := Contents();
      if count < size { size := count; }
      assert Contents() == was[..size];
      if ShouldGrow(count, data.Length) || (!fixed && ShouldShrink(count, data.Length)) {
        st := Reallocate(if fixed then count else 2 * count);
        if st != Success { return; }
      }
      ExtendTo(count, init);
    }

    method ExtendTo(count: nat, init: Option<T>)
      requires Valid() && size <= count <= data.Length
      modifies this`size, data
      ensures Valid() && size == count && Contents()[..old(size)] == old(Contents())
      ensures init.Some? ==> forall i :: old(size) <= i < count ==> Contents()[i] == init.value
    {
      if init.Some? {
        forall i | size <= i < count {
          data[i] := init.value;
        }
      }
      size := count;
    }

    /** BinarySearchEx over [index, index + count): on a range in order, the least position whose element is
        not below the key; found exactly when that element compares equal. */
    method BinarySearchEx(key: T, compare: (T, T) -> int, index: nat, count: nat)
        returns (st: Status, found: nat)
      requires Valid() && (index + count <= size ==> Monotone(compare, Contents()[index..index + count], key))
      ensures st == OutOfRange <==> index + count > size
      ensures st != OutOfRange ==>
        && index <= found <= index + count <= size
        && (forall i :: index <= i < found ==> compare(Contents()[i], key) < 0)
        && (forall i :: found <= i < index + count ==> compare(Contents()[i], key) >= 0)
        && st == if found < index + count && compare(Contents()[found], key) == 0 then Found else NotFound
    {
      if (index >= size && count > 0) || index + count > size { return OutOfRange, 0; }
      if count == 0 { return NotFound, index; }
      hide Monotone; hide AllBelow; hide NoneBelow;
      st, found := SearchRange(key, compare, index, count);
      SearchEnd(compare, Contents(), index, count, key, found - index);
    }

    /** The loop, on a range that is not empty. */
    method SearchRange(key: T, compare: (T, T) -> int, index: nat, count: nat) returns (st: Status, found: nat)
      requires Valid() && 0 < count && index + count <= size
      requires Monotone(compare, Contents()[index..index + count], key)
      ensures var range := Contents()[index..index + count];
        && index <= found <= index + count
        && AllBelow(compare, range, key, found - index) && NoneBelow(compare, range, key, found - index)
        && st == if found < index + count && compare(range[found - index], key) == 0 then Found else NotFound
    {
      hide Monotone; hide AllBelow; hide NoneBelow;
      ghost var range := Contents()[index..index + count];
      assert forall i :: 0 <= i < count ==> data[index + i] == range[i];
      SearchStart(compare, range, key);
      st := NotFound;
      var l, h := index, index + count - 1;
      while l <= h
        invariant index <= l <= h + 1 <= index + count
        invariant AllBelow(compare, range, key, l - index) && NoneBelow(compare, range, key, h + 1 - index)
        invariant st == if h + 1 < index + count && compare(range[h + 1 - index], key) == 0 then Found else NotFound
      {
        var mid := l + (h - l) / 2;
        var order := compare(data[mid], key);
        assert data[mid] == range[mid - index];
        SearchStep(compare, range, key, mid - index, h + 1 - index);
        if order < 0 {
          l := mid + 1;
        } else {
          h := mid - 1;
          if order == 0 {
            st := Found;
          }
        }
      }
      found := l;
    }

    method DeleteRange(index: nat, count: nat) returns (st: Status)
      requires Valid()
      modifies this, data
      ensures Valid() && (data == old(data) || fresh(data))
      ensures st == if count == 0 then InvalidArgument else if index + count > old(size) then OutOfRange else Success
      ensures st != Success ==> Contents() == old(Contents())
      ensures st == Success ==> Contents() == old(Contents())[..index] + old(Contents())[index + count..]
      ensures fixed || st != Success || !ShouldShrink(size, old(data.Length)) ==>
        data == old(data) && moved == old(moved)
      ensures !fixed && st == Success && ShouldShrink(size, old(data.Length)) ==>
        data.Length == NewCapacity(size) && moved == old(moved) + size
    {
      if count == 0 { return InvalidArgument; }
      if index + count > size { return OutOfRange; }
      ghost var was := Contents();
      if index + count < size {
        ShiftLeft(index, count);
      }
      assert data[..index] == was[..index];
      assert data[index..size - count] == was[index + count..];
      size := size - count;
      assert Contents() == data[..index] + data[index..size];
      st := Trim();
    }
  }

  lemma Slices<T>(a: seq<T>, index: nat, size: nat)
    requires index <= size <= |a|
    ensures a[..size][..index] == a[..index] && a[..size][index..] == a[index..size]
  {
  }

  lemma Splice<T>(a: seq<T>, index: nat, count: nat, size: nat)
    requires index + count <= size <= |a|
    ensures a[..size] == a[..index] + a[index..index + count] + a[index + count..size]
  {
  }
}
