/** Sequence vocabulary shared by the collection models: concatenation of
    buckets, swap-back removal, reversal and integer ranges. */
module Seqs {

  /** The buckets of `ss` joined in ascending index order. */
  function Concat<T>(ss: seq<seq<T>>): seq<T>
  {
    if ss == [] then [] else Concat(ss[..|ss| - 1]) + ss[|ss| - 1]
  }

  /** The buckets of `ss` from index k on, joined in ascending order. */
  function ConcatFrom<T>(ss: seq<seq<T>>, k: nat): seq<T>
    decreases |ss| - k
  {
    if k >= |ss| then [] else ss[k] + ConcatFrom(ss, k + 1)
  }

  /** Joining from index k is joining the suffix that starts at k. */
  lemma {:induction false} ConcatFromSuffix<T>(ss: seq<seq<T>>, k: nat)
    requires k <= |ss|
    ensures ConcatFrom(ss, k) == Concat(ss[k..])
    decreases |ss| - k
  {
    if k < |ss| {
      ConcatFromSuffix(ss, k + 1);
      ConcatFront(ss, k);
    } else {
      assert ss[k..] == [];
    }
  }

  /** Sum of the bucket lengths. */
  function TotalLength<T>(ss: seq<seq<T>>): nat
  {
    if ss == [] then 0 else TotalLength(ss[..|ss| - 1]) + |ss[|ss| - 1]|
  }

  /** The sum of multisets of the buckets. */
  function MultisetOf<T>(ss: seq<seq<T>>): multiset<T>
  {
    if ss == [] then multiset{} else MultisetOf(ss[..|ss| - 1]) + multiset(ss[|ss| - 1])
  }

  /** Concatenation distributes over appending bucket lists. */
  lemma {:induction false} ConcatAppend<T>(a: seq<seq<T>>, b: seq<seq<T>>)
    ensures Concat(a + b) == Concat(a) + Concat(b)
  {
    if b == [] {
      assert a + b == a;
    } else {
      var b' := b[..|b| - 1];
      assert (a + b)[..|a + b| - 1] == a + b';
      ConcatAppend(a, b');
    }
  }

  /** Splitting off the first bucket of a suffix. */
  lemma ConcatFront<T>(ss: seq<seq<T>>, k: nat)
    requires k < |ss|
    ensures Concat(ss[k..]) == ss[k] + Concat(ss[k + 1..])
  {
    assert ss[k..] == [ss[k]] + ss[k + 1..];
    ConcatAppend([ss[k]], ss[k + 1..]);
    assert [ss[k]][..0] == [];
  }

  /** Splitting the whole concatenation at bucket boundary k. */
  lemma ConcatSplit<T>(ss: seq<seq<T>>, k: nat)
    requires k <= |ss|
    ensures Concat(ss) == Concat(ss[..k]) + Concat(ss[k..])
  {
    assert ss == ss[..k] + ss[k..];
    ConcatAppend(ss[..k], ss[k..]);
  }

  /** No element is lost or duplicated: length and multiset of the
      concatenation are the sums over the buckets. */
  lemma {:induction false} ConcatCounts<T>(ss: seq<seq<T>>)
    ensures |Concat(ss)| == TotalLength(ss)
    ensures multiset(Concat(ss)) == MultisetOf(ss)
  {
    if ss != [] {
      ConcatCounts(ss[..|ss| - 1]);
    }
  }

  /** Removal of index i by moving the last element into the hole. */
  function SwapBack<T>(s: seq<T>, i: nat): (r: seq<T>)
    requires i < |s|
    ensures |r| == |s| - 1
    ensures i < |r| ==> r[i] == s[|s| - 1]
    ensures forall j :: 0 <= j < |r| && j != i ==> r[j] == s[j]
  {
    if i == |s| - 1 then s[..i] else s[..|s| - 1][i := s[|s| - 1]]
  }

  /** Swap-back removal loses exactly one copy of the removed element. */
  lemma SwapBackMultiset<T>(s: seq<T>, i: nat)
    requires i < |s|
    ensures multiset(SwapBack(s, i)) == multiset(s) - multiset{s[i]}
    ensures multiset(SwapBack(s, i)) + multiset{s[i]} == multiset(s)
  {
    var n := |s| - 1;
    assert s == s[..n] + [s[n]];
    if i < n {
      var t := s[..n];
      assert t == t[..i] + [s[i]] + t[i + 1..];
      assert SwapBack(s, i) == t[..i] + [s[n]] + t[i + 1..];
    }
  }

  /** The sequence read back to front. */
  function Reverse<T>(s: seq<T>): (r: seq<T>)
    ensures |r| == |s|
    ensures forall k :: 0 <= k < |s| ==> r[k] == s[|s| - 1 - k]
  {
    seq(|s|, k requires 0 <= k < |s| => s[|s| - 1 - k])
  }

  /** Reversal is an involution. */
  lemma ReverseReverse<T>(s: seq<T>)
    ensures Reverse(Reverse(s)) == s
  {
  }

  /** The integers start, start + 1, ..., start + count - 1. */
  function Range(start: int, count: nat): (r: seq<int>)
    ensures |r| == count
    ensures forall k :: 0 <= k < count ==> r[k] == start + k
  {
    seq(count, k => start + k)
  }

  /** The first index whose element `equals` accepts against `e`, or -1
      when there is none; `equals` stands for a user-defined Equals. */
  function IndexOfBy<T>(s: seq<T>, e: T, equals: (T, T) -> bool): (r: int)
    ensures r == -1 <==> forall j :: 0 <= j < |s| ==> !equals(s[j], e)
    ensures r != -1 ==> 0 <= r < |s| && equals(s[r], e)
    ensures r != -1 ==> forall j :: 0 <= j < r ==> !equals(s[j], e)
  {
    if s == [] then -1
    else if equals(s[0], e) then 0
    else
      var k := IndexOfBy(s[1..], e, equals);
      assert forall j :: 1 <= j < |s| ==> s[j] == s[1..][j - 1];
      if k == -1 then -1 else k + 1
  }

  /** The elements of `s` that satisfy `keep`, in their original order. */
  function Filter<T>(s: seq<T>, keep: T -> bool): (r: seq<T>)
    ensures |r| <= |s|
    ensures forall x :: x in r ==> x in s && keep(x)
  {
    if s == [] then []
    else (if keep(s[0]) then [s[0]] else []) + Filter(s[1..], keep)
  }

  /** An element survives exactly when it occurs and passes the test. */
  lemma {:induction false} FilterMembership<T>(s: seq<T>, keep: T -> bool, x: T)
    ensures x in Filter(s, keep) <==> x in s && keep(x)
  {
    if s != [] {
      FilterMembership(s[1..], keep, x);
      assert s == [s[0]] + s[1..];
    }
  }

  /** Filtering distributes over concatenation. */
  lemma {:induction false} FilterAppend<T>(a: seq<T>, b: seq<T>, keep: T -> bool)
    ensures Filter(a + b, keep) == Filter(a, keep) + Filter(b, keep)
  {
    if a != [] {
      assert (a + b)[1..] == a[1..] + b;
      FilterAppend(a[1..], b, keep);
    } else {
      assert a + b == b;
    }
  }

  /** Dropping an element the filter rejects does not change the filter. */
  lemma {:induction false} FilterSkip<T>(a: seq<T>, x: T, b: seq<T>, keep: T -> bool)
    requires !keep(x)
    ensures Filter(a + [x] + b, keep) == Filter(a + b, keep)
  {
    FilterAppend(a + [x], b, keep);
    FilterAppend(a, [x], keep);
    FilterAppend(a, b, keep);
    assert [x][1..] == [];
  }

  /** Nothing is dropped exactly when every element is kept. */
  lemma {:induction false} FilterKeepsAll<T>(s: seq<T>, keep: T -> bool)
    ensures |Filter(s, keep)| == |s| <==> forall x :: x in s ==> keep(x)
    ensures (forall x :: x in s ==> keep(x)) ==> Filter(s, keep) == s
  {
    if s != [] {
      FilterKeepsAll(s[1..], keep);
      assert forall x :: x in s[1..] ==> x in s;
      assert s == [s[0]] + s[1..];
    }
  }

  /** Filtering twice with the same test is filtering once. */
  lemma FilterIdempotent<T>(s: seq<T>, keep: T -> bool)
    ensures Filter(Filter(s, keep), keep) == Filter(s, keep)
  {
    FilterKeepsAll(Filter(s, keep), keep);
  }
}
