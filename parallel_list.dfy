/** ParallelList<T>: one append-only bucket per worker slot, flattened or
    enumerated in ascending slot order once all writers are done.
    The job system, the safety handles and the chunk/thread writer and reader
    internals are outside this model; each slot is written by one owner, so
    appends are modelled sequentially. */
module ParallelLists {
  import opened Wrappers
  import opened Seqs
  import opened Lists

  const IntMaxValue: int := 0x7FFF_FFFF

  datatype CreateError = NegativeCapacity | TotalSizeTooLarge

  /** CheckInitialCapacity followed by CheckTotalSize (checked builds): the
      capacity must be non-negative and capacity * sizeof(T) must fit in an
      int; the byte size is computed in 64 bits and cannot overflow. */
  function CheckCreate(initialCapacity: int, sizeOfT: nat): (r: Outcome<CreateError>)
    ensures r.Pass? <==> 0 <= initialCapacity && sizeOfT * initialCapacity <= IntMaxValue
    ensures initialCapacity < 0 ==> r == Fail(NegativeCapacity)
    ensures 0 <= initialCapacity && sizeOfT * initialCapacity > IntMaxValue ==> r == Fail(TotalSizeTooLarge)
  {
    if initialCapacity < 0 then Fail(NegativeCapacity)
    else if sizeOfT * initialCapacity > IntMaxValue then Fail(TotalSizeTooLarge)
    else Pass
  }

  /** What an enumerator positioned at `index` of its cached bucket
      `threadList`, at slot `thread`, will still yield: the rest of the cached
      bucket, then every bucket after slot `thread`. */
  function Pending<T>(buckets: seq<seq<T>>, threadList: seq<T>, index: nat, thread: nat): seq<T>
    requires index <= |threadList|
  {
    threadList[index..] + ConcatFrom(buckets, thread + 1)
  }

  lemma PendingStep<T>(buckets: seq<seq<T>>, threadList: seq<T>, index: nat, thread: nat)
    requires index < |threadList|
    ensures Pending(buckets, threadList, index, thread) != []
    ensures Pending(buckets, threadList, index, thread)[0] == threadList[index]
    ensures Pending(buckets, threadList, index + 1, thread) == Pending(buckets, threadList, index, thread)[1..]
  {
    assert threadList[index..] == [threadList[index]] + threadList[index + 1..];
  }

  class ParallelList<T(0)> {
    /** JobsUtility.ThreadIndexCount: the number of worker slots. */
    const threadIndexCount: nat
    var buckets: seq<seq<T>>
    var isCreated: bool

    ghost predicate Valid()
      reads this
    {
      threadIndexCount >= 1 && |buckets| == threadIndexCount
    }

    /** Length: the sum of the bucket lengths. */
    function Length(): (n: nat)
      reads this
      ensures n == |Concat(buckets)|
    {
      ConcatCounts(buckets);
      TotalLength(buckets)
    }

    /** GetBlockCount(slot): the number of elements written to one slot. */
    function BlockCount(slot: nat): nat
      reads this
      requires Valid() && slot < threadIndexCount
    {
      |buckets[slot]|
    }

    constructor (threadIndexCount: nat)
      requires threadIndexCount >= 1
      ensures Valid() && isCreated && this.threadIndexCount == threadIndexCount
      ensures buckets == seq(threadIndexCount, _ => [])
    {
      this.threadIndexCount := threadIndexCount;
      buckets := seq(threadIndexCount, _ => []);
      isCreated := true;
    }

    /** ThreadWriter.Add(value, slot): appends to that slot's bucket only. */
    method Add(value: T, slot: nat)
      requires Valid() && isCreated && slot < threadIndexCount
      modifies this
      ensures Valid() && isCreated
      ensures buckets == old(buckets)[slot := old(buckets)[slot] + [value]]
      ensures Length() == old(Length()) + 1
    {
      buckets := buckets[slot := buckets[slot] + [value]];
      assert Concat(buckets) == Concat(buckets[..slot]) + buckets[slot] + Concat(buckets[slot + 1..]) by {
        ConcatSplit(buckets, slot);
        ConcatFront(buckets, slot);
      }
      ConcatSplit(old(buckets), slot);
      ConcatFront(old(buckets), slot);
      assert buckets[..slot] == old(buckets)[..slot];
      assert buckets[slot + 1..] == old(buckets)[slot + 1..];
    }

    /** Clear: every bucket becomes empty, the store stays usable. */
    method Clear()
      requires Valid() && isCreated
      modifies this
      ensures Valid() && isCreated
      ensures buckets == seq(threadIndexCount, _ => [])
      ensures Length() == 0
      ensures forall slot :: 0 <= slot < threadIndexCount ==> BlockCount(slot) == 0
    {
      buckets := seq(threadIndexCount, _ => []);
      AllEmptyConcat(buckets);
    }

    /** Dispose: releases the store; a second Dispose is not allowed. */
    method Dispose()
      requires isCreated
      modifies this
      ensures !isCreated && buckets == old(buckets)
    {
      isCreated := false;
    }
  }

  /** The constructor with its checked-build argument checks. */
  method Create<T(0)>(threadIndexCount: nat, initialCapacity: int, sizeOfT: nat)
    returns (r: Result<ParallelList<T>, CreateError>)
    requires threadIndexCount >= 1
    ensures r.Ok? <==> CheckCreate(initialCapacity, sizeOfT).Pass?
    ensures r.Err? ==> r.error == CheckCreate(initialCapacity, sizeOfT).error
    ensures r.Ok? ==> fresh(r.value) && r.value.Valid() && r.value.isCreated
    ensures r.Ok? ==> r.value.threadIndexCount == threadIndexCount && r.value.Length() == 0
  {
    var check := CheckCreate(initialCapacity, sizeOfT);
    if check.Fail? {
      return Err(check.error);
    }
    var list := new ParallelList<T>(threadIndexCount);
    AllEmptyConcat(list.buckets);
    return Ok(list);
  }

  lemma AllEmptyConcat<T>(ss: seq<seq<T>>)
    requires forall k :: 0 <= k < |ss| ==> ss[k] == []
    ensures Concat(ss) == []
  {
    if ss != [] {
      AllEmptyConcat(ss[..|ss| - 1]);
    }
  }

  /** UnsafeParallelListToArraySingleThreaded.Execute: resizes the destination
      to its old length plus Length, then copies each bucket's [0, length)
      after the previous one, in ascending slot order. */
  method CopyToListSingle<T(0)>(src: ParallelList<T>, dst: UnsafeList<T>)
    requires src.Valid() && dst.Valid()
    modifies dst, dst.data
    ensures dst.Valid()
    ensures dst.Items() == old(dst.Items()) + Concat(src.buckets)
  {
    var parallelListLength := src.Length();
    var oldListLength: nat := dst.length;
    ghost var target := old(dst.Items()) + Concat(src.buckets);
    ConcatFromSuffix(src.buckets, 0);
    assert src.buckets[0..] == src.buckets;
    dst.Resize(oldListLength + parallelListLength);
    var i := 0;
    while i < src.threadIndexCount
      invariant 0 <= i <= src.threadIndexCount
      invariant dst.Valid() && dst.length == |target|
      invariant dst.data == old(dst.data) || fresh(dst.data)
      invariant CopyInvariant(dst.data[..], oldListLength, src.buckets, i, target)
    {
      var threadList := src.buckets[i];
      ghost var before := dst.data[..];
      MemCpy(dst.data, oldListLength, threadList);
      CopyStep(before, dst.data[..], oldListLength, src.buckets, i, target);
      oldListLength := oldListLength + |threadList|;
      i := i + 1;
    }
    assert dst.data[..oldListLength] == target;
  }

  /** What the copy loop keeps: the copied prefix followed by the buckets
      still to copy is the target, and the target fits the buffer. */
  ghost predicate CopyInvariant<T>(data: seq<T>, at: nat, buckets: seq<seq<T>>, i: nat, target: seq<T>)
  {
    at + |ConcatFrom(buckets, i)| == |target| <= |data| &&
    data[..at] + ConcatFrom(buckets, i) == target
  }

  /** Copying bucket i after the prefix advances the invariant. */
  lemma CopyStep<T>(before: seq<T>, after: seq<T>, at: nat, buckets: seq<seq<T>>, i: nat, target: seq<T>)
    requires CopyInvariant(before, at, buckets, i, target) && i < |buckets|
    requires |after| == |before| && at + |buckets[i]| <= |after|
    requires after[..at + |buckets[i]|] == before[..at] + buckets[i]
    ensures CopyInvariant(after, at + |buckets[i]|, buckets, i + 1, target)
  {
    assert ConcatFrom(buckets, i) == buckets[i] + ConcatFrom(buckets, i + 1);
  }

  /** ParallelList<T>.Enumerator. `threadList` is the copied header of the
      cached bucket; `value` is Current; `zero` stands for default(T). */
  class Enumerator<T(0)> {
    const list: ParallelList<T>
    const zero: T
    var threadList: seq<T>
    var index: nat
    var thread: nat
    var value: T

    /** The cached bucket is the one at slot `thread`, or the last bucket once
        `thread` has run past the last slot. */
    ghost predicate Valid()
      reads this, list
    {
      list.Valid() && index <= |threadList| &&
      threadList == list.buckets[if thread < list.threadIndexCount then thread else list.threadIndexCount - 1]
    }

    /** The values the following true-returning MoveNext calls will yield. */
    ghost function Remaining(): seq<T>
      reads this, list
      requires Valid()
    {
      Pending(list.buckets, threadList, index, thread)
    }

    function Current(): T
      reads this
    {
      value
    }

    constructor (list: ParallelList<T>, zero: T)
      requires list.Valid()
      ensures Valid() && this.list == list && this.zero == zero
      ensures thread == 0 && index == 0 && value == zero
      ensures Remaining() == Concat(list.buckets)
    {
      this.list := list;
      this.zero := zero;
      value := zero;
      index := 0;
      thread := 0;
      threadList := list.buckets[0];
      new;
      ConcatFromSuffix(list.buckets, 0);
    }

    /** MoveNext: yields the next element of the cached bucket, or moves to
        the next non-empty bucket. Returning false leaves `thread` at the slot
        count (or one past its old value when already beyond it) and the last
        bucket cached with index 0, so that bucket is yielded again by the
        calls that follow: false is not sticky. */
    method MoveNext() returns (r: bool)
      requires Valid()
      modifies this
      ensures Valid()
      ensures r == (old(Remaining()) != [])
      ensures r ==> value == old(Remaining())[0] && Remaining() == old(Remaining())[1..]
      ensures !r ==> value == zero && index == 0
      ensures !r ==> thread == (if old(thread) < list.threadIndexCount then list.threadIndexCount else old(thread) + 1)
      ensures !r ==> Remaining() == list.buckets[list.threadIndexCount - 1]
    {
      var n := list.threadIndexCount;
      if index < |threadList| {
        PendingStep(list.buckets, threadList, index, thread);
        value := threadList[index];
        index := index + 1;
        return true;
      }
      ghost var before := ConcatFrom(list.buckets, thread + 1);
      thread := thread + 1;
      index := 0;
      while thread < n
        invariant old(thread) < thread && index == 0
        invariant old(thread) < n ==> thread <= n
        invariant old(thread) >= n ==> thread == old(thread) + 1
        invariant before == ConcatFrom(list.buckets, thread)
        invariant threadList == list.buckets[if thread <= n then thread - 1 else n - 1]
      {
        threadList := list.buckets[thread];
        if index < |threadList| {
          PendingStep(list.buckets, threadList, 0, thread);
          value := threadList[index];
          index := index + 1;
          return true;
        }
        thread := thread + 1;
      }
      value := zero;
      return false;
    }

    /** Reset: slot 0, index 0, bucket 0 reloaded; the next pass yields the
        whole concatenation again. */
    method Reset()
      requires Valid()
      modifies this
      ensures Valid() && thread == 0 && index == 0 && value == old(value)
      ensures Remaining() == Concat(list.buckets)
    {
      thread := 0;
      index := 0;
      threadList := list.buckets[0];
      ConcatFromSuffix(list.buckets, 0);
    }
  }

  /** A foreach over the enumerator: collects Current after every MoveNext
      that returns true, until one returns false. */
  method Drain<T(0)>(e: Enumerator<T>) returns (xs: seq<T>)
    requires e.Valid()
    modifies e
    ensures e.Valid()
    ensures xs == old(e.Remaining())
  {
    xs := [];
    var more := e.MoveNext();
    while more
      invariant e.Valid()
      invariant more ==> xs + [e.value] + e.Remaining() == old(e.Remaining())
      invariant !more ==> xs == old(e.Remaining())
      decreases if more then |e.Remaining()| + 1 else 0
    {
      xs := xs + [e.value];
      more := e.MoveNext();
    }
  }

  /** Deterministic flatten order: when slot s holds k consecutive values
      starting at offset + s * k, the concatenation is the contiguous range
      offset, ..., offset + n * k - 1 (each written value exactly once). */
  lemma {:induction false} FlattenContiguous(buckets: seq<seq<int>>, offset: int, k: nat)
    requires forall s :: 0 <= s < |buckets| ==> buckets[s] == Range(offset + s * k, k)
    ensures Concat(buckets) == Range(offset, |buckets| * k)
  {
    if buckets != [] {
      var n := |buckets| - 1;
      FlattenContiguous(buckets[..n], offset, k);
      var m := n * k;
      assert (n + 1) * k == m + k;
      RangeSplit(offset, m, k);
    }
  }

  /** Two adjacent ranges join into one. */
  lemma RangeSplit(start: int, a: nat, b: nat)
    ensures Range(start, a) + Range(start + a, b) == Range(start, a + b)
  {
    var joined := Range(start, a) + Range(start + a, b);
    assert forall i :: 0 <= i < a + b ==> joined[i] == start + i;
  }
}
