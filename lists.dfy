/** Unity's UnsafeList<T>, the storage behind NativeList<T>: a buffer whose
    size is the capacity, and a length. Its own members belong to Unity's
    collections package, not to this repository; they are modelled here only
    as far as the extension methods and jobs of this repository use them. */
module Lists {

  /** A NativeArray<T> handle: a pointer, a length and the allocator that
      owns the memory (None for a view over memory owned elsewhere). */
  datatype NativeArray<T> = NativeArray(data: array<T>, length: nat, allocator: nat)
  {
    ghost predicate Valid()
    {
      length <= data.Length
    }

    function Elements(): seq<T>
      reads data
      requires Valid()
    {
      data[..length]
    }
  }

  /** memcpy of `src` into `dst` at element offset `at`. */
  method MemCpy<T>(dst: array<T>, at: nat, src: seq<T>)
    requires at + |src| <= dst.Length
    modifies dst
    ensures dst[..] == old(dst[..at]) + src + old(dst[at + |src|..])
    ensures dst[..at + |src|] == old(dst[..at]) + src
  {
    var k := 0;
    while k < |src|
      invariant 0 <= k <= |src|
      invariant dst[..at] == old(dst[..at])
      invariant dst[at..at + k] == src[..k]
      invariant dst[at + |src|..] == old(dst[at + |src|..])
      invariant forall j :: at + k <= j < at + |src| ==> dst[j] == old(dst[j])
    {
      dst[at + k] := src[k];
      k := k + 1;
    }
    assert dst[..] == dst[..at] + dst[at..at + |src|] + dst[at + |src|..];
  }

  class UnsafeList<T(0)> {
    var data: array<T>
    var length: nat

    ghost predicate Valid()
      reads this
    {
      length <= data.Length
    }

    function Capacity(): nat
      reads this
    {
      data.Length
    }

    /** The list's elements, [0, Length). */
    function Items(): seq<T>
      reads this, data
      requires Valid()
    {
      data[..length]
    }

    constructor (capacity: nat)
      ensures Valid() && fresh(data) && data.Length == capacity && length == 0
    {
      data := new T[capacity];
      length := 0;
    }

    /** The Capacity setter: a new buffer of exactly `c` slots (Unity's
        rounding of the requested capacity is not modelled); the slots both
        buffers have are copied, stale ones beyond Length included. */
    method SetCapacity(c: nat)
      requires Valid() && length <= c
      modifies this
      ensures Valid() && fresh(data) && data.Length == c && length == old(length)
      ensures var m := if c < old(data.Length) then c else old(data.Length);
              data[..m] == old(data[..m])
      ensures Items() == old(Items())
    {
      var m := if c < data.Length then c else data.Length;
      var a := new T[c];
      forall k | 0 <= k < m {
        a[k] := data[k];
      }
      data := a;
    }

    /** Resize with uninitialized memory: grows the buffer when needed and
        sets Length; surviving elements keep their values. */
    method Resize(n: nat)
      requires Valid()
      modifies this
      ensures Valid() && length == n && data.Length >= n
      ensures data == old(data) || fresh(data)
      ensures n <= old(data.Length) ==> data == old(data)
      ensures n <= old(length) ==> Items() == old(Items()[..n])
      ensures n >= old(length) ==> Items()[..old(length)] == old(Items())
    {
      if n > data.Length {
        SetCapacity(n);
      }
      length := n;
    }

    /** RemoveAt: shifts the tail down by one (order preserved). */
    method RemoveAt(i: nat)
      requires Valid() && i < length
      modifies this, data
      ensures Valid() && data == old(data) && length == old(length) - 1
      ensures Items() == old(Items()[..i]) + old(Items()[i + 1..])
    {
      ghost var before := data[..length];
      var k := i;
      while k < length - 1
        invariant Valid() && data == old(data) && length == old(length)
        invariant i <= k <= length - 1
        invariant forall j :: 0 <= j < i ==> data[j] == before[j]
        invariant forall j :: i <= j < k ==> data[j] == before[j + 1]
        invariant forall j :: k <= j < length ==> data[j] == before[j]
      {
        data[k] := data[k + 1];
        k := k + 1;
      }
      length := length - 1;
      ghost var expected := before[..i] + before[i + 1..];
      assert forall j :: 0 <= j < length ==> Items()[j] == expected[j];
    }
  }
}
