/** RandomUtils.SelectRandomIndices: up to maxSelectedCount distinct indices
    drawn without replacement from 0 .. indicesCount - 1. The random number
    generator is an oracle: roll(k, n) is the answer of the k-th
    NextInt(0, n) call, which lies in [0, n). */
module RandomUtils {
  import opened Seqs

  /** A well-behaved generator answers NextInt(0, n) inside [0, n). */
  ghost predicate InRange(roll: (nat, nat) -> nat)
  {
    forall k: nat, n: nat :: 0 < n ==> roll(k, n) < n
  }

  predicate Distinct(s: seq<int>)
  {
    forall i, j :: 0 <= i < j < |s| ==> s[i] != s[j]
  }

  function Max0(x: int): nat
  {
    if x < 0 then 0 else x
  }

  function Min(a: nat, b: nat): nat
  {
    if a < b then a else b
  }

  /** The picks made from `pool` when `want` more are wanted and `k` draws
      have been made: draw j, take pool[j], swap the last pool element into
      slot j, repeat until enough are taken or the pool is empty. */
  function Picks(pool: seq<int>, want: int, roll: (nat, nat) -> nat, k: nat): seq<int>
    requires InRange(roll)
    decreases |pool|
  {
    if want <= 0 || pool == [] then []
    else
      var j := roll(k, |pool|);
      [pool[j]] + Picks(SwapBack(pool, j), want - 1, roll, k + 1)
  }

  /** The pool left over after those picks. */
  function Leftover(pool: seq<int>, want: int, roll: (nat, nat) -> nat, k: nat): seq<int>
    requires InRange(roll)
    decreases |pool|
  {
    if want <= 0 || pool == [] then pool
    else
      var j := roll(k, |pool|);
      Leftover(SwapBack(pool, j), want - 1, roll, k + 1)
  }

  /** As many picks as wanted, or as the pool holds. */
  lemma {:induction false} PicksLength(pool: seq<int>, want: int, roll: (nat, nat) -> nat, k: nat)
    requires InRange(roll)
    ensures |Picks(pool, want, roll, k)| == Min(Max0(want), |pool|)
    decreases |pool|
  {
    if want > 0 && pool != [] {
      PicksLength(SwapBack(pool, roll(k, |pool|)), want - 1, roll, k + 1);
    }
  }

  /** Picks and leftover split a pool without repeats: neither repeats
      an index, every index of the pool is in exactly one of them. */
  lemma {:induction false} PicksPartition(pool: seq<int>, want: int, roll: (nat, nat) -> nat, k: nat)
    requires InRange(roll) && Distinct(pool)
    ensures Distinct(Picks(pool, want, roll, k)) && Distinct(Leftover(pool, want, roll, k))
    ensures forall x :: x in pool <==> x in Picks(pool, want, roll, k) || x in Leftover(pool, want, roll, k)
    ensures forall x :: x in Picks(pool, want, roll, k) ==> x !in Leftover(pool, want, roll, k)
    decreases |pool|
  {
    if want > 0 && pool != [] {
      var j := roll(k, |pool|);
      var rest := SwapBack(pool, j);
      SwapBackMembers(pool, j);
      PicksPartition(rest, want - 1, roll, k + 1);
      var tail := Picks(rest, want - 1, roll, k + 1);
      var r := [pool[j]] + tail;
      forall a, b | 0 <= a < b < |r|
        ensures r[a] != r[b]
      {
        assert r[b] == tail[b - 1] && tail[b - 1] in tail;
        if a > 0 {
          assert r[a] == tail[a - 1];
        }
      }
    }
  }

  /** SelectRandomIndices. Both lists are local to the call and are kept
      as sequences: the pool starts as 0 .. indicesCount - 1, and every
      pick is appended to the result and removed from the pool by
      swap-back. */
  method SelectRandomIndices(roll: (nat, nat) -> nat, indicesCount: int, maxSelectedCount: int)
    returns (selectedIndices: seq<int>)
    requires InRange(roll)
    ensures selectedIndices == Picks(Range(0, Max0(indicesCount)), maxSelectedCount, roll, 0)
    ensures |selectedIndices| == Min(Max0(maxSelectedCount), Max0(indicesCount))
    ensures forall x :: x in selectedIndices ==> 0 <= x < indicesCount
    ensures Distinct(selectedIndices)
  {
    var possibleIndices := Indices(indicesCount);
    selectedIndices := Draw(possibleIndices, maxSelectedCount, roll);
    SelectionFacts(roll, indicesCount, maxSelectedCount);
  }

  /** What the selection loop keeps: the pool has no repeats, selected
      and pool never share an index and together hold the starting pool,
      and the selected list followed by the picks still to come is the
      whole selection. */
  ghost predicate DrawInvariant(start: seq<int>, maxSelectedCount: int, roll: (nat, nat) -> nat,
                                selected: seq<int>, pool: seq<int>)
  {
    InRange(roll) &&
    Distinct(pool) &&
    (forall x :: x in start <==> x in selected || x in pool) &&
    (forall x :: x in selected ==> x !in pool) &&
    selected + Picks(pool, maxSelectedCount - |selected|, roll, |selected|) == Picks(start, maxSelectedCount, roll, 0)
  }

  /** One turn of the loop keeps the invariant. */
  lemma DrawStep(start: seq<int>, maxSelectedCount: int, roll: (nat, nat) -> nat,
                 selected: seq<int>, pool: seq<int>)
    requires DrawInvariant(start, maxSelectedCount, roll, selected, pool)
    requires |selected| < maxSelectedCount && pool != []
    ensures var j := roll(|selected|, |pool|);
      DrawInvariant(start, maxSelectedCount, roll, selected + [pool[j]], SwapBack(pool, j))
  {
    var j := roll(|selected|, |pool|);
    SwapBackMembers(pool, j);
    PicksStep(selected, pool, maxSelectedCount, roll);
  }

  /** The selection loop: while fewer than maxSelectedCount are selected
      and the pool is not empty, draw a pool slot, append its index and
      swap-back remove it. */
  method Draw(pool: seq<int>, maxSelectedCount: int, roll: (nat, nat) -> nat) returns (selectedIndices: seq<int>)
    requires InRange(roll) && Distinct(pool)
    ensures selectedIndices == Picks(pool, maxSelectedCount, roll, 0)
  {
    var possibleIndices := pool;
    selectedIndices := [];
    while |selectedIndices| < maxSelectedCount && possibleIndices != []
      invariant DrawInvariant(pool, maxSelectedCount, roll, selectedIndices, possibleIndices)
      decreases |possibleIndices|
    {
      var selectedIndex := roll(|selectedIndices|, |possibleIndices|);
      DrawStep(pool, maxSelectedCount, roll, selectedIndices, possibleIndices);
      selectedIndices := selectedIndices + [possibleIndices[selectedIndex]];
      possibleIndices := SwapBack(possibleIndices, selectedIndex);
    }
    assert Picks(possibleIndices, maxSelectedCount - |selectedIndices|, roll, |selectedIndices|) == [];
    assert selectedIndices + [] == selectedIndices;
  }

  /** The selection from 0 .. indicesCount - 1: as many indices as wanted
      and available, each in range, none twice. */
  lemma SelectionFacts(roll: (nat, nat) -> nat, indicesCount: int, maxSelectedCount: int)
    requires InRange(roll)
    ensures var r := Picks(Range(0, Max0(indicesCount)), maxSelectedCount, roll, 0);
      |r| == Min(Max0(maxSelectedCount), Max0(indicesCount)) &&
      (forall x :: x in r ==> 0 <= x < indicesCount) &&
      Distinct(r)
  {
    var all := Range(0, Max0(indicesCount));
    assert Distinct(all) by {
      forall a, b | 0 <= a < b < |all|
        ensures all[a] != all[b]
      {
        assert all[a] == a && all[b] == b;
      }
    }
    PicksLength(all, maxSelectedCount, roll, 0);
    PicksPartition(all, maxSelectedCount, roll, 0);
  }

  /** One turn of the selection loop moves one pick from the pending
      picks to the selected list. */
  lemma PicksStep(selected: seq<int>, pool: seq<int>, maxSelectedCount: int, roll: (nat, nat) -> nat)
    requires InRange(roll) && |selected| < maxSelectedCount && pool != []
    ensures var j := roll(|selected|, |pool|);
      selected + Picks(pool, maxSelectedCount - |selected|, roll, |selected|)
      == (selected + [pool[j]]) + Picks(SwapBack(pool, j), maxSelectedCount - |selected + [pool[j]]|, roll, |selected + [pool[j]]|)
  {
  }

  /** Swap-back removal keeps a sequence free of repeats, drops the
      removed element and keeps every other one. */
  lemma SwapBackMembers(s: seq<int>, j: nat)
    requires j < |s| && Distinct(s)
    ensures Distinct(SwapBack(s, j))
    ensures forall x :: x in SwapBack(s, j) <==> x in s && x != s[j]
  {
    var rest := SwapBack(s, j);
    forall a, b | 0 <= a < b < |rest|
      ensures rest[a] != rest[b]
    {
      if a == j {
        assert rest[a] == s[|s| - 1] && rest[b] == s[b];
      } else if b == j {
        assert rest[b] == s[|s| - 1] && rest[a] == s[a];
      } else {
        assert rest[a] == s[a] && rest[b] == s[b];
      }
    }
    forall x | x in rest
      ensures x in s && x != s[j]
    {
      var a :| 0 <= a < |rest| && rest[a] == x;
      if a == j {
        assert x == s[|s| - 1];
      } else {
        assert x == s[a];
      }
    }
    forall x | x in s && x != s[j]
      ensures x in rest
    {
      var a :| 0 <= a < |s| && s[a] == x;
      if a == |s| - 1 {
        assert rest[j] == x;
      } else {
        assert rest[a] == x;
      }
    }
  }

  /** The pool 0 .. n - 1, built one Add at a time. */
  method Indices(indicesCount: int) returns (possibleIndices: seq<int>)
    ensures possibleIndices == Range(0, Max0(indicesCount))
    ensures Distinct(possibleIndices)
  {
    possibleIndices := [];
    var i := 0;
    while i < indicesCount
      invariant i == |possibleIndices| <= Max0(indicesCount)
      invariant possibleIndices == Range(0, i)
      invariant forall x :: x in possibleIndices ==> x < i
      invariant Distinct(possibleIndices)
    {
      possibleIndices := possibleIndices + [i];
      i := i + 1;
    }
  }
}
