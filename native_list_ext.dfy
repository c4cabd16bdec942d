/** NativeListExtensions: swap-back removal through a parallel writer,
    removal by hash code, capacity growth, direct length writes, in-place
    reversal and copying out to a managed array. A NativeList<T> is a handle
    to an UnsafeList<T>, so every operation here works on the UnsafeList. */
module NativeListExtensions {
  import Seqs
  import opened Lists
  import UnsafeListExtensions

  /** ParallelWriter.RemoveAtSwapBack: the length drops by one and, when
      `index` is still inside the list, the former last element is moved
      into it. Neither the index nor the length is checked; a negative index
      or an empty list would write outside the buffer and are excluded. */
  method RemoveAtSwapBack<T(0)>(list: UnsafeList<T>, index: nat)
    requires list.Valid() && list.length > 0
    modifies list, list.data
    ensures list.Valid() && list.data == old(list.data) && list.length == old(list.length) - 1
    ensures index < list.length ==> list.data[..] == old(list.data[..])[index := old(list.data[list.length - 1])]
    ensures index >= list.length ==> list.data[..] == old(list.data[..])
    ensures index < old(list.length) ==> list.Items() == Seqs.SwapBack(old(list.Items()), index)
    ensures index >= old(list.length) ==> list.Items() == old(list.Items())[..list.length]
  {
    var newLength := list.length - 1;
    list.length := newLength;
    if index < newLength {
      list.data[index] := list.data[newLength];
    }
  }

  /** The survivors' test of Remove: a hash code different from the
      argument's. */
  function Unmatched<T>(hash: T -> int, element: T): T -> bool
  {
    x => hash(x) != hash(element)
  }

  /** One step of the backward scan: with s[i + 1..] already filtered,
      keeping or dropping s[i] leaves s[i..] filtered. */
  lemma FilterStep<T>(s: seq<T>, i: nat, keep: T -> bool)
    requires i < |s|
    ensures (s[..i + 1] + Seqs.Filter(s[i + 1..], keep))[i] == s[i]
    ensures keep(s[i]) ==>
              s[..i + 1] + Seqs.Filter(s[i + 1..], keep) == s[..i] + Seqs.Filter(s[i..], keep)
    ensures !keep(s[i]) ==>
              var cur := s[..i + 1] + Seqs.Filter(s[i + 1..], keep);
              cur[..i] + cur[i + 1..] == s[..i] + Seqs.Filter(s[i..], keep)
  {
    assert s[i..][1..] == s[i + 1..];
    assert s[..i + 1] == s[..i] + [s[i]];
    var cur := s[..i + 1] + Seqs.Filter(s[i + 1..], keep);
    assert cur[..i] == s[..i];
    assert cur[i + 1..] == Seqs.Filter(s[i + 1..], keep);
  }

  /** Remove: every element whose hash code equals the argument's is
      removed (Equals is never consulted), scanning from the end with the
      order-preserving RemoveAt; the survivors keep their order. */
  method Remove<T(0)>(list: UnsafeList<T>, element: T, hash: T -> int)
    requires list.Valid()
    modifies list, list.data
    ensures list.Valid() && list.data == old(list.data)
    ensures list.Items() == Seqs.Filter(old(list.Items()), Unmatched(hash, element))
  {
    ghost var s := list.Items();
    ghost var keep := Unmatched(hash, element);
    var i := list.length - 1;
    while i >= 0
      invariant -1 <= i < |s|
      invariant list.Valid() && list.data == old(list.data)
      invariant list.Items() == s[..i + 1] + Seqs.Filter(s[i + 1..], keep)
      decreases i
    {
      FilterStep(s, i, keep);
      assert list.data[i] == list.Items()[i];
      if hash(list.data[i]) == hash(element) {
        list.RemoveAt(i);
      }
      i := i - 1;
    }
    assert s[0..] == s;
  }

  /** SetLengthNoClear: goes through UnsafeList's Length setter, which
      resizes (without clearing) when the new length exceeds the capacity
      and otherwise overwrites the length field. No element is cleared, so
      slots past the old length keep whatever they held. */
  method SetLengthNoClear<T(0)>(list: UnsafeList<T>, length: nat)
    requires list.Valid()
    modifies list
    ensures list.Valid() && list.length == length && list.Capacity() >= length
    ensures list.Items() == list.data[..length]
    ensures length <= old(list.Capacity()) ==> list.data == old(list.data)
    ensures length > old(list.Capacity()) ==> fresh(list.data)
    ensures length <= old(list.length) ==> list.Items() == old(list.Items())[..length]
    ensures length >= old(list.length) ==> list.Items()[..old(list.length)] == old(list.Items())
  {
    if length > list.Capacity() {
      list.Resize(length);
    } else {
      list.length := length;
    }
  }

  /** EnsureCapacity: grows Capacity by doubling until it reaches
      minCapacity; with setLengthNoClear the length then becomes exactly
      minCapacity. A zero capacity below minCapacity never grows, so that
      case is excluded. */
  method EnsureCapacity<T(0)>(list: UnsafeList<T>, minCapacity: int, setLengthNoClear: bool)
    requires list.Valid() && (list.Capacity() > 0 || list.Capacity() >= minCapacity)
    requires setLengthNoClear ==> minCapacity >= 0
    modifies list
    ensures list.Valid() && list.Capacity() >= old(list.Capacity()) && list.Capacity() >= minCapacity
    ensures list.Capacity() == UnsafeListExtensions.DoubledCapacity(old(list.Capacity()), minCapacity)
    ensures !setLengthNoClear ==> list.Items() == old(list.Items())
    ensures setLengthNoClear ==> list.length == minCapacity
    ensures setLengthNoClear && minCapacity >= old(list.length) ==>
              list.Items()[..old(list.length)] == old(list.Items())
    ensures setLengthNoClear && minCapacity <= old(list.length) ==>
              list.Items() == old(list.Items())[..minCapacity]
  {
    UnsafeListExtensions.DoubledCapacityIsLeast(list.Capacity(), minCapacity);
    UnsafeListExtensions.EnsureCapacity(list, minCapacity);
    if setLengthNoClear {
      SetLengthNoClear(list, minCapacity);
    }
  }

  /** Reverse: swaps element i with element count - 1 - i for every i below
      count / 2; slots past the length are untouched. */
  method Reverse<T(0)>(list: UnsafeList<T>)
    requires list.Valid()
    modifies list.data
    ensures list.Valid() && list.Items() == Seqs.Reverse(old(list.Items()))
    ensures list.data[list.length..] == old(list.data[list.length..])
  {
    var count := list.length;
    var halfLength := count / 2;
    for i := 0 to halfLength
      invariant forall k :: 0 <= k < i ==> list.data[k] == old(list.data[count - 1 - k])
      invariant forall k :: 0 <= k < i ==> list.data[count - 1 - k] == old(list.data[k])
      invariant forall k :: i <= k < count - i ==> list.data[k] == old(list.data[k])
      invariant list.data[count..] == old(list.data[count..])
    {
      var oppositeIndex := count - i - 1;
      list.data[i], list.data[oppositeIndex] := list.data[oppositeIndex], list.data[i];
    }
  }

  /** ToManagedArray: a new array holding the list's elements in order. */
  method ToManagedArray<T(0)>(list: UnsafeList<T>) returns (managedArray: array<T>)
    requires list.Valid()
    ensures fresh(managedArray) && managedArray[..] == list.Items()
  {
    managedArray := new T[list.length];
    for i := 0 to list.length
      invariant managedArray[..i] == list.Items()[..i]
    {
      managedArray[i] := list.data[i];
    }
  }
}
