/** UnsafeListExtensions: the capacity-doubling EnsureCapacity and the
    AsNativeArray view of an UnsafeList<T>. */
module UnsafeListExtensions {
  import opened Allocators
  import opened Lists

  function Pow2(k: nat): (r: nat)
    ensures r >= 1
  {
    if k == 0 then 1 else 2 * Pow2(k - 1)
  }

  /** The capacity EnsureCapacity settles on: `c` itself when it already
      reaches `m`, otherwise the capacity doubled until it does. A zero
      capacity below `m` never grows, so it is excluded. */
  function DoubledCapacity(c: nat, m: int): nat
    requires c > 0 || c >= m
    decreases if c >= m then 0 else m - c
  {
    if c >= m then c else DoubledCapacity(2 * c, m)
  }

  /** The number of doublings EnsureCapacity performs. */
  function Doublings(c: nat, m: int): nat
    requires c > 0 || c >= m
    decreases if c >= m then 0 else m - c
  {
    if c >= m then 0 else 1 + Doublings(2 * c, m)
  }

  /** The settled capacity reaches `m`, never shrinks, is c * 2^k, and k is
      the least number of doublings that reaches `m`. */
  lemma {:induction false} DoubledCapacityIsLeast(c: nat, m: int)
    requires c > 0 || c >= m
    ensures DoubledCapacity(c, m) >= m && DoubledCapacity(c, m) >= c
    ensures DoubledCapacity(c, m) == c * Pow2(Doublings(c, m))
    ensures Doublings(c, m) == 0 <==> c >= m
    ensures Doublings(c, m) > 0 ==> c * Pow2(Doublings(c, m) - 1) < m
    decreases if c >= m then 0 else m - c
  {
    if c < m {
      DoubledCapacityIsLeast(2 * c, m);
      var k := Doublings(2 * c, m);
      DoublingShift(c, k);
      if k > 0 {
        DoublingShift(c, k - 1);
      }
    }
  }

  /** c doubled k + 1 times is 2c doubled k times. */
  lemma DoublingShift(c: nat, k: nat)
    ensures c * Pow2(k + 1) == (2 * c) * Pow2(k)
  {
    var p := Pow2(k);
    assert Pow2(k + 1) == 2 * p;
    assert c * (2 * p) == (2 * c) * p;
  }

  /** EnsureCapacity: doubles Capacity until it reaches minCapacity; the
      elements are kept. */
  method EnsureCapacity<T(0)>(list: UnsafeList<T>, minCapacity: int)
    requires list.Valid() && (list.Capacity() > 0 || list.Capacity() >= minCapacity)
    modifies list
    ensures list.Valid() && list.length == old(list.length)
    ensures list.Capacity() == DoubledCapacity(old(list.Capacity()), minCapacity)
    ensures list.Items() == old(list.Items())
    ensures list.data == old(list.data) || fresh(list.data)
    ensures old(list.Capacity()) >= minCapacity ==> list.data == old(list.data)
  {
    var newCapacity := if list.Capacity() > minCapacity then list.Capacity() else minCapacity;
    while list.Capacity() < newCapacity
      invariant list.Valid() && list.length == old(list.length)
      invariant list.Items() == old(list.Items())
      invariant list.Capacity() > 0 || list.Capacity() >= minCapacity
      invariant DoubledCapacity(list.Capacity(), minCapacity) == DoubledCapacity(old(list.Capacity()), minCapacity)
      invariant list.data == old(list.data) || fresh(list.data)
      invariant old(list.Capacity()) >= minCapacity ==> list.data == old(list.data)
      decreases newCapacity - list.Capacity()
    {
      list.SetCapacity(list.Capacity() * 2);
    }
  }

  /** AsNativeArray: a view over the list's memory with the list's length;
      nothing is copied and the view owns nothing. */
  function AsNativeArray<T(0)>(list: UnsafeList<T>): (v: NativeArray<T>)
    reads list
    ensures v.data == list.data && v.length == list.length && v.allocator == AllocatorNone
  {
    NativeArray(list.data, list.length, AllocatorNone)
  }

  /** Through the view the list's elements are seen, in order. */
  lemma AsNativeArrayElements<T(0)>(list: UnsafeList<T>)
    requires list.Valid()
    ensures AsNativeArray(list).Valid() && AsNativeArray(list).Elements() == list.Items()
  {
  }
}
