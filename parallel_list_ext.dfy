/** ParallelListExtensions.Enumerator<T>: the second enumerator over a
    ParallelList. It walks the buckets like ParallelList<T>.Enumerator, but its
    Reset zeroes the slot and the index without reloading the cached bucket. */
module ParallelListExtensions {
  import opened Seqs
  import opened ParallelLists

  class Enumerator<T(0)> {
    const list: ParallelList<T>
    const zero: T
    var threadList: seq<T>
    var index: nat
    var thread: nat
    var value: T
    /** The slot whose bucket `threadList` holds. */
    ghost var cached: nat

    /** The cached bucket is a real bucket; away from slot 0 it is the
        current slot's, and past the last slot it is the last one. */
    ghost predicate Valid()
      reads this, list
    {
      list.Valid() && index <= |threadList| &&
      cached < list.threadIndexCount && threadList == list.buckets[cached] &&
      (0 < thread < list.threadIndexCount ==> cached == thread) &&
      (thread >= list.threadIndexCount ==> cached == list.threadIndexCount - 1)
    }

    /** The values the following true-returning MoveNext calls will yield. */
    ghost function Remaining(): seq<T>
      reads this, list
      requires Valid()
    {
      Pending(list.buckets, threadList, index, thread)
    }

    function Current(): T
      reads this
    {
      value
    }

    /** A fresh enumerator: slot 0, index 0, bucket 0 cached; it yields the
        buckets joined in ascending slot order. */
    constructor (list: ParallelList<T>, zero: T)
      requires list.Valid()
      ensures Valid() && this.list == list && this.zero == zero
      ensures thread == 0 && index == 0 && value == zero && cached == 0
      ensures Remaining() == Concat(list.buckets)
    {
      this.list := list;
      this.zero := zero;
      index := 0;
      thread := 0;
      value := zero;
      threadList := list.buckets[0];
      cached := 0;
      new;
      ConcatFromSuffix(list.buckets, 0);
      assert list.buckets[0..] == list.buckets;
    }

    /** MoveNext: yields the next element of the cached bucket, or loads the
        following buckets until a non-empty one is found. On false, Current is
        default(T), the index is 0, and the cached bucket is left in place. */
    method MoveNext() returns (r: bool)
      requires Valid()
      modifies this
      ensures Valid()
      ensures r == (old(Remaining()) != [])
      ensures r ==> value == old(Remaining())[0] && Remaining() == old(Remaining())[1..]
      ensures !r ==> value == zero && index == 0
      ensures !r ==> thread == (if old(thread) < list.threadIndexCount then list.threadIndexCount else old(thread) + 1)
      ensures !r ==> cached == list.threadIndexCount - 1
      ensures !r ==> Remaining() == threadList
    {
      var n := list.threadIndexCount;
      if index < |threadList| {
        PendingStep(list.buckets, threadList, index, thread);
        value := threadList[index];
        index := index + 1;
        return true;
      }
      ghost var before := ConcatFrom(list.buckets, thread + 1);
      thread := thread + 1;
      index := 0;
      while thread < n
        invariant old(thread) < thread && index == 0
        invariant old(thread) < n ==> thread <= n
        invariant old(thread) >= n ==> thread == old(thread) + 1
        invariant before == ConcatFrom(list.buckets, thread)
        invariant cached < n && threadList == list.buckets[cached]
        invariant 1 < thread <= n ==> cached == thread - 1
        invariant thread > n ==> cached == n - 1
      {
        threadList := list.buckets[thread];
        cached := thread;
        if index < |threadList| {
          PendingStep(list.buckets, threadList, 0, thread);
          value := threadList[index];
          index := index + 1;
          return true;
        }
        thread := thread + 1;
        index := 0;
      }
      value := zero;
      return false;
    }

    /** Reset: only the slot and the index go back to 0. The cached bucket is
        kept, so the next pass yields it in place of bucket 0 and then
        buckets 1, 2, ... */
    method Reset()
      requires Valid()
      modifies this
      ensures Valid() && thread == 0 && index == 0
      ensures threadList == old(threadList) && cached == old(cached) && value == old(value)
      ensures Remaining() == old(threadList) + ConcatFrom(list.buckets, 1)
    {
      thread := 0;
      index := 0;
    }
  }

  /** After a pass that ran to the end, Reset replays the last bucket in
      place of bucket 0: the re-enumeration is bucket n-1 followed by
      buckets 1 .. n-1, so bucket n-1 appears twice and bucket 0 not at all. */
  lemma {:induction false} ReplayAfterFullPass<T>(buckets: seq<seq<T>>)
    requires |buckets| >= 2
    ensures Pending(buckets, buckets[|buckets| - 1], 0, 0)
         == buckets[|buckets| - 1] + Concat(buckets[1..])
  {
    ConcatFromSuffix(buckets, 1);
  }

  /** Two slots holding [1] and [2]: the first pass yields [1, 2], the pass
      after Reset yields [2, 2]. */
  lemma ReplayCounterexample()
    ensures Concat([[1], [2]]) == [1, 2]
    ensures Pending([[1], [2]], [2], 0, 0) == [2, 2]
  {
    var b := [[1], [2]];
    assert b[..1] == [[1]];
    assert [[1]][..0] == [];
    assert ConcatFrom(b, 2) == [];
  }
}
