/** UnsafeParallelArrayOfLists<T>: `listsCount` fixed-capacity lists carved
    out of one flat buffer, with one length per list. List i owns the buffer
    slots [i * cap, (i + 1) * cap). The single allocation holding buffer,
    lengths and spin locks is modelled as two separate arrays; the locks and
    the atomic increment are replaced by sequential execution. */
module ArraysOfLists {
  import opened Wrappers
  import opened Seqs
  import opened Allocators

  datatype AllocError = NotBuiltInAllocator | CustomAllocator | NegativeLength

  /** CheckAllocateArguments (checked builds), in the order the checks run. */
  function CheckAllocateArguments(length: int, allocator: nat): (r: Outcome<AllocError>)
    ensures r.Pass? <==> AllocatorNone < allocator < AllocatorFirstUserIndex && length >= 0
    ensures allocator <= AllocatorNone ==> r == Fail(NotBuiltInAllocator)
    ensures allocator >= AllocatorFirstUserIndex ==> r == Fail(CustomAllocator)
    ensures AllocatorNone < allocator < AllocatorFirstUserIndex && length < 0 ==> r == Fail(NegativeLength)
  {
    if allocator <= AllocatorNone then Fail(NotBuiltInAllocator)
    else if allocator >= AllocatorFirstUserIndex then Fail(CustomAllocator)
    else if length < 0 then Fail(NegativeLength)
    else Pass
  }

  /** GetListData: the buffer offset where list i starts, i * cap, written
      as a sum so that the proofs stay in linear arithmetic. */
  function ListStart(i: nat, cap: nat): nat
  {
    if i == 0 then 0 else ListStart(i - 1, cap) + cap
  }

  /** The offset is the source's product listIndex * InternalListCapacity. */
  lemma {:induction false} ListStartIsProduct(i: nat, cap: nat)
    ensures ListStart(i, cap) == i * cap
  {
    if i > 0 {
      ListStartIsProduct(i - 1, cap);
    }
  }

  /** A list's region ends before the region of any later list starts, so
      distinct lists never share a buffer slot. */
  lemma {:induction false} RegionsDisjoint(i: nat, j: nat, cap: nat)
    requires i < j
    ensures ListStart(i, cap) + cap <= ListStart(j, cap)
    decreases j
  {
    if i + 1 < j {
      RegionsDisjoint(i, j - 1, cap);
    }
  }

  /** Buffer of `|lens| * cap` slots and lengths within [0, cap]. */
  ghost predicate WellFormed<T>(buf: seq<T>, lens: seq<int>, cap: nat)
  {
    |buf| == ListStart(|lens|, cap) &&
    (forall i :: 0 <= i < |lens| ==> ListStart(i, cap) + cap <= |buf|) &&
    (forall i :: 0 <= i < |lens| ==> 0 <= lens[i] <= cap)
  }

  /** Every region of a buffer of n * cap slots lies inside it. */
  lemma RegionsFit(n: nat, cap: nat)
    ensures forall i :: 0 <= i < n ==> ListStart(i, cap) + cap <= ListStart(n, cap)
  {
    forall i | 0 <= i < n
      ensures ListStart(i, cap) + cap <= ListStart(n, cap)
    {
      RegionsDisjoint(i, n, cap);
    }
  }

  /** Updating a position outside [lo, hi) leaves that slice alone. */
  lemma SliceUnaffected<T>(buf: seq<T>, p: nat, v: T, lo: nat, hi: nat)
    requires p < |buf| && lo <= hi <= |buf| && (p < lo || hi <= p)
    ensures buf[p := v][lo..hi] == buf[lo..hi]
  {
  }

  /** The contents of list i: the first lens[i] slots of its region. */
  function ListOf<T>(buf: seq<T>, lens: seq<int>, cap: nat, i: nat): (r: seq<T>)
    requires WellFormed(buf, lens, cap) && i < |lens|
    ensures |r| == lens[i]
    ensures forall k :: 0 <= k < |r| ==> r[k] == buf[ListStart(i, cap) + k]
  {
    buf[ListStart(i, cap)..ListStart(i, cap) + lens[i]]
  }

  /** Writing slot `lens[i]` of list i and bumping its length appends the
      value to list i and leaves every other list as it was. */
  lemma {:induction false} AddIsolated<T>(buf: seq<T>, lens: seq<int>, cap: nat, i: nat, v: T)
    requires WellFormed(buf, lens, cap) && i < |lens| && lens[i] < cap
    ensures WellFormed(buf[ListStart(i, cap) + lens[i] := v], lens[i := lens[i] + 1], cap)
    ensures ListOf(buf[ListStart(i, cap) + lens[i] := v], lens[i := lens[i] + 1], cap, i)
         == ListOf(buf, lens, cap, i) + [v]
    ensures forall j :: 0 <= j < |lens| && j != i ==>
              ListOf(buf[ListStart(i, cap) + lens[i] := v], lens[i := lens[i] + 1], cap, j)
              == ListOf(buf, lens, cap, j)
  {
    RegionsDisjoint(i, |lens|, cap);
    var buf' := buf[ListStart(i, cap) + lens[i] := v];
    var lens' := lens[i := lens[i] + 1];
    assert WellFormed(buf', lens', cap);
    forall j | 0 <= j < |lens| && j != i
      ensures ListOf(buf', lens', cap, j) == ListOf(buf, lens, cap, j)
    {
      if j < i { RegionsDisjoint(j, i, cap); } else { RegionsDisjoint(i, j, cap); }
      SliceUnaffected(buf, ListStart(i, cap) + lens[i], v, ListStart(j, cap), ListStart(j, cap) + lens[j]);
    }
  }

  /** The buffer after swap-back removal of position k of list i. */
  function RemovedBuffer<T>(buf: seq<T>, lens: seq<int>, cap: nat, i: nat, k: nat): seq<T>
    requires WellFormed(buf, lens, cap) && i < |lens| && k < lens[i]
  {
    var last := lens[i] - 1;
    if k < last then buf[ListStart(i, cap) + k := buf[ListStart(i, cap) + last]] else buf
  }

  /** Moving the last element of list i into position k and shortening
      list i by one is SwapBack on list i; every other list is unchanged. */
  lemma {:induction false} RemoveIsolated<T>(buf: seq<T>, lens: seq<int>, cap: nat, i: nat, k: nat)
    requires WellFormed(buf, lens, cap) && i < |lens| && k < lens[i]
    ensures WellFormed(RemovedBuffer(buf, lens, cap, i, k), lens[i := lens[i] - 1], cap)
    ensures ListOf(RemovedBuffer(buf, lens, cap, i, k), lens[i := lens[i] - 1], cap, i)
         == SwapBack(ListOf(buf, lens, cap, i), k)
    ensures forall j :: 0 <= j < |lens| && j != i ==>
              ListOf(RemovedBuffer(buf, lens, cap, i, k), lens[i := lens[i] - 1], cap, j)
              == ListOf(buf, lens, cap, j)
  {
    RegionsDisjoint(i, |lens|, cap);
    var buf' := RemovedBuffer(buf, lens, cap, i, k);
    var lens' := lens[i := lens[i] - 1];
    assert WellFormed(buf', lens', cap);
    var before := ListOf(buf, lens, cap, i);
    var after := ListOf(buf', lens', cap, i);
    assert after == SwapBack(before, k) by {
      forall m | 0 <= m < |after|
        ensures after[m] == SwapBack(before, k)[m]
      {
      }
    }
    forall j | 0 <= j < |lens| && j != i
      ensures ListOf(buf', lens', cap, j) == ListOf(buf, lens, cap, j)
    {
      if j < i { RegionsDisjoint(j, i, cap); } else { RegionsDisjoint(i, j, cap); }
      if k < lens[i] - 1 {
        var b := ListStart(i, cap);
        SliceUnaffected(buf, b + k, buf[b + lens[i] - 1], ListStart(j, cap), ListStart(j, cap) + lens[j]);
      }
    }
  }

  datatype AddError = CapacityExceeded

  datatype DisposeError = ObjectDisposed | InvalidAllocator

  class UnsafeParallelArrayOfLists<T(0,==)> {
    const listsCount: nat
    /** InternalListCapacity. */
    const capacity: nat
    const allocator: nat
    const buffer: array<T>
    const lengths: array<int>
    /** Buffer != null. */
    var bufferLive: bool
    /** Ptr, Lengths and the lock pointer != null. */
    var storageLive: bool
    /** The allocation has been returned to its allocator. */
    var freed: bool

    ghost predicate Valid()
      reads this, buffer, lengths
    {
      lengths.Length == listsCount && (buffer as object) != (lengths as object) &&
      WellFormed(buffer[..], lengths[..], capacity)
    }

    /** The elements of list i. */
    function Items(i: nat): seq<T>
      reads this, buffer, lengths
      requires Valid() && i < listsCount
    {
      ListOf(buffer[..], lengths[..], capacity, i)
    }

    /** Allocate plus the constructor body (without the argument checks):
        every length is 0, and with ClearMemory every buffer slot is 0. */
    constructor (listsCount: nat, capacity: nat, allocator: nat, clearMemory: bool, zero: T)
      ensures Valid() && fresh(buffer) && fresh(lengths)
      ensures this.listsCount == listsCount && this.capacity == capacity && this.allocator == allocator
      ensures bufferLive && storageLive && !freed
      ensures forall i :: 0 <= i < listsCount ==> Items(i) == []
      ensures clearMemory ==> forall k :: 0 <= k < buffer.Length ==> buffer[k] == zero
    {
      this.listsCount := listsCount;
      this.capacity := capacity;
      this.allocator := allocator;
      ListStartIsProduct(listsCount, capacity);
      RegionsFit(listsCount, capacity);
      if clearMemory {
        buffer := new T[listsCount * capacity](_ => zero);
      } else {
        buffer := new T[listsCount * capacity];
      }
      lengths := new int[listsCount](_ => 0);
      bufferLive := true;
      storageLive := true;
      freed := false;
    }

    /** ParallelWriter.AddNoResize: the length is incremented first; then, in
        checked builds, a full list throws, leaving the incremented length
        behind; otherwise the value is written into the list's next slot. */
    method AddNoResize(i: nat, v: T) returns (r: Outcome<AddError>)
      requires Valid() && bufferLive && i < listsCount
      modifies buffer, lengths
      ensures lengths[..] == old(lengths[..])[i := old(lengths[i]) + 1]
      ensures r.Pass? <==> old(lengths[i]) < capacity
      ensures r.Fail? ==> r.error == CapacityExceeded && buffer[..] == old(buffer[..]) &&
                          lengths[i] == capacity + 1
      ensures r.Pass? ==> buffer[..] == old(buffer[..])[ListStart(i, capacity) + old(lengths[i]) := v]
      ensures r.Pass? ==> Valid() && Items(i) == old(Items(i)) + [v]
      ensures r.Pass? ==> forall j :: 0 <= j < listsCount && j != i ==> Items(j) == old(Items(j))
    {
      ghost var buf, lens := buffer[..], lengths[..];
      lengths[i] := lengths[i] + 1;
      var idx := lengths[i] - 1;
      if capacity < idx + 1 {
        return Fail(CapacityExceeded);
      }
      RegionsDisjoint(i, listsCount, capacity);
      buffer[ListStart(i, capacity) + idx] := v;
      AddIsolated(buf, lens, capacity, i, v);
      r := Pass;
    }

    /** ParallelRemover.Remove: finds the first element of list i that
        T's Equals (the parameter `equals`) accepts against `e`; when there
        is one, the list loses one element and its former last element
        moves into the hole. */
    method Remove(i: nat, e: T, equals: (T, T) -> bool)
      requires Valid() && bufferLive && i < listsCount
      modifies buffer, lengths
      ensures Valid()
      ensures var k := IndexOfBy(old(Items(i)), e, equals);
              if k == -1 then buffer[..] == old(buffer[..]) && lengths[..] == old(lengths[..])
              else lengths[..] == old(lengths[..])[i := old(lengths[i]) - 1] &&
                   buffer[..] == RemovedBuffer(old(buffer[..]), old(lengths[..]), capacity, i, k) &&
                   Items(i) == SwapBack(old(Items(i)), k)
      ensures forall j :: 0 <= j < listsCount && j != i ==> Items(j) == old(Items(j))
    {
      ghost var before := Items(i);
      var index := Find(i, e, equals);
      assert index == IndexOfBy(before, e, equals);
      if index != -1 {
        RemoveAtSwapBack(i, index);
      }
    }

    /** The removal half of Remove: shorten list i by one and move its last
        element into position k. */
    method RemoveAtSwapBack(i: nat, k: nat)
      requires Valid() && i < listsCount && k < lengths[i]
      modifies buffer, lengths
      ensures Valid()
      ensures lengths[..] == old(lengths[..])[i := old(lengths[i]) - 1]
      ensures buffer[..] == RemovedBuffer(old(buffer[..]), old(lengths[..]), capacity, i, k)
      ensures Items(i) == SwapBack(old(Items(i)), k)
      ensures forall j :: 0 <= j < listsCount && j != i ==> Items(j) == old(Items(j))
    {
      ghost var buf, lens := buffer[..], lengths[..];
      var base := ListStart(i, capacity);
      var length := lengths[i] - 1;
      lengths[i] := length;
      if k < length {
        buffer[base + k] := buffer[base + length];
      }
      assert buffer[..] == RemovedBuffer(buf, lens, capacity, i, k);
      RemoveIsolated(buf, lens, capacity, i, k);
    }

    /** The scan of Remove: the first position of list i whose element
        Equals `e`, or -1. */
    method Find(i: nat, e: T, equals: (T, T) -> bool) returns (index: int)
      requires Valid() && i < listsCount
      ensures index == IndexOfBy(Items(i), e, equals)
    {
      ghost var items := Items(i);
      var base := ListStart(i, capacity);
      var length := lengths[i];
      index := -1;
      var k := 0;
      while k < length
        invariant 0 <= k <= length
        invariant forall j :: 0 <= j < k ==> !equals(items[j], e)
      {
        if equals(buffer[base + k], e) {
          index := k;
          assert equals(items[index], e);
          return;
        }
        k := k + 1;
      }
    }

    /** Dispose: a second call throws ObjectDisposedException, an Invalid
        allocator throws InvalidOperationException; otherwise a real
        allocator gets its memory back and every pointer is nulled, while
        allocator None only nulls Buffer. */
    method Dispose() returns (r: Outcome<DisposeError>)
      modifies this
      ensures !old(bufferLive) ==> r == Fail(ObjectDisposed) && unchanged(this)
      ensures old(bufferLive) && allocator == AllocatorInvalid ==> r == Fail(InvalidAllocator) && unchanged(this)
      ensures old(bufferLive) && allocator != AllocatorInvalid ==>
                r == Pass && !bufferLive &&
                storageLive == (old(storageLive) && allocator <= AllocatorNone) &&
                freed == (old(freed) || allocator > AllocatorNone)
    {
      if !bufferLive {
        return Fail(ObjectDisposed);
      }
      if allocator == AllocatorInvalid {
        return Fail(InvalidAllocator);
      }
      if allocator > AllocatorNone {
        freed := true;
        storageLive := false;
        bufferLive := false;
      }
      bufferLive := false;
      r := Pass;
    }
  }

  /** The public constructor: the argument checks of checked builds, then
      the allocation. Two negative counts whose product is positive are
      not caught by the checks and are excluded here. */
  method Create<T(0,==)>(listsCount: int, capacity: int, allocator: nat, clearMemory: bool, zero: T)
    returns (r: Result<UnsafeParallelArrayOfLists<T>, AllocError>)
    requires listsCount * capacity < 0 || (listsCount >= 0 && capacity >= 0)
    ensures r.Err? <==> CheckAllocateArguments(listsCount * capacity, allocator).Fail?
    ensures r.Err? ==> r.error == CheckAllocateArguments(listsCount * capacity, allocator).error
    ensures r.Ok? ==> fresh(r.value) && fresh(r.value.buffer) && fresh(r.value.lengths) && r.value.Valid()
    ensures r.Ok? ==> r.value.listsCount == listsCount && r.value.capacity == capacity
    ensures r.Ok? ==> forall i :: 0 <= i < listsCount ==> r.value.Items(i) == []
    ensures r.Ok? && clearMemory ==> forall k :: 0 <= k < r.value.buffer.Length ==> r.value.buffer[k] == zero
  {
    var check := CheckAllocateArguments(listsCount * capacity, allocator);
    if check.Fail? {
      return Err(check.error);
    }
    var a := new UnsafeParallelArrayOfLists(listsCount, capacity, allocator, clearMemory, zero);
    r := Ok(a);
  }

  /** Enumerator over one list: a pointer to the list's region, the length
      read at construction, and an index that starts before the first
      element. */
  class Enumerator<T(0,==)> {
    const store: UnsafeParallelArrayOfLists<T>
    const start: nat
    const count: int
    var index: int

    constructor (store: UnsafeParallelArrayOfLists<T>, listIndex: nat)
      requires store.Valid() && listIndex < store.listsCount
      ensures this.store == store && start == ListStart(listIndex, store.capacity)
      ensures count == store.lengths[listIndex] && index == -1
    {
      this.store := store;
      start := ListStart(listIndex, store.capacity);
      count := store.lengths[listIndex];
      index := -1;
    }

    /** Current reads the buffer live, at the enumerator's position. */
    function Current(): T
      reads this, store.buffer
      requires 0 <= index && start + index < store.buffer.Length
    {
      store.buffer[start + index]
    }

    method MoveNext() returns (r: bool)
      modifies this
      ensures index == old(index) + 1 && r == (index < count)
    {
      index := index + 1;
      r := index < count;
    }

    method Reset()
      modifies this
      ensures index == -1
    {
      index := -1;
    }
  }

  /** Remove takes exactly one copy of the element it found out of list i,
      and that element Equals `e`. */
  lemma RemoveMultiset<T>(items: seq<T>, e: T, equals: (T, T) -> bool)
    ensures var k := IndexOfBy(items, e, equals);
            k != -1 ==> equals(items[k], e) &&
                        multiset(SwapBack(items, k)) == multiset(items) - multiset{items[k]}
  {
    var k := IndexOfBy(items, e, equals);
    if k != -1 {
      SwapBackMultiset(items, k);
    }
  }

  /** A foreach over GetEnumerator(i): the values it sees are exactly list i,
      in order, and the store is not modified. */
  method EnumerateList<T(0,==)>(store: UnsafeParallelArrayOfLists<T>, i: nat) returns (xs: seq<T>)
    requires store.Valid() && i < store.listsCount
    ensures xs == store.Items(i)
  {
    RegionsDisjoint(i, store.listsCount, store.capacity);
    var e := new Enumerator(store, i);
    xs := [];
    var more := e.MoveNext();
    while more
      invariant e.store == store && e.start == ListStart(i, store.capacity)
      invariant e.count == |store.Items(i)| && e.index == |xs| <= e.count
      invariant more == (e.index < e.count)
      invariant xs == store.Items(i)[..|xs|]
      decreases e.count - e.index
    {
      xs := xs + [e.Current()];
      more := e.MoveNext();
    }
  }
}
