/** UnsafeExtensions.CopyToUnsafe: a checked element copy between buffers
    of two element types of the same size. The bytes are copied unchanged;
    the reading of a T2's bytes as a T1 is the parameter `reinterpret`. */
module UnsafeExtensions {
  import opened Wrappers
  import opened Lists

  datatype CopyError = StrideMismatch | SourceTooSmall | DestinationTooSmall | IndexOutOfRange

  /** The three argument checks, in the order they run: equal element
      sizes, then enough source elements, then enough destination room. */
  function CheckCopy(sizeOfT1: nat, sizeOfT2: nat, sourceLength: int, sourceNeeded: int,
                     destinationLength: int, destinationNeeded: int): (r: Outcome<CopyError>)
    ensures r.Pass? <==> sizeOfT1 == sizeOfT2 && sourceLength >= sourceNeeded && destinationLength >= destinationNeeded
    ensures sizeOfT1 != sizeOfT2 ==> r == Fail(StrideMismatch)
    ensures sizeOfT1 == sizeOfT2 && sourceLength < sourceNeeded ==> r == Fail(SourceTooSmall)
    ensures sizeOfT1 == sizeOfT2 && sourceLength >= sourceNeeded && destinationLength < destinationNeeded ==>
              r == Fail(DestinationTooSmall)
  {
    if sizeOfT1 != sizeOfT2 then Fail(StrideMismatch)
    else if sourceLength < sourceNeeded then Fail(SourceTooSmall)
    else if destinationLength < destinationNeeded then Fail(DestinationTooSmall)
    else Pass
  }

  /** `count` source elements from `offset`, each read as a T1. */
  function Reinterpreted<T1, T2>(src: seq<T2>, offset: nat, count: nat, reinterpret: T2 -> T1): (r: seq<T1>)
    requires offset + count <= |src|
    ensures |r| == count
    ensures forall k :: 0 <= k < count ==> r[k] == reinterpret(src[offset..][k])
  {
    seq(count, k requires 0 <= k < count => reinterpret(src[offset + k]))
  }

  lemma ReinterpretedStep<T1, T2>(src: seq<T2>, offset: nat, count: nat, reinterpret: T2 -> T1)
    requires offset + count < |src|
    ensures Reinterpreted(src, offset, count + 1, reinterpret)
         == Reinterpreted(src, offset, count, reinterpret) + [reinterpret(src[offset + count])]
  {
    assert src[offset..][count] == src[offset + count];
  }

  /** The destination after `count` elements of `src` from `srcOffset` are
      copied to `dst` at `dstOffset`. */
  function Copied<T1, T2>(dst: seq<T1>, dstOffset: nat, src: seq<T2>, srcOffset: nat, count: nat,
                          reinterpret: T2 -> T1): seq<T1>
    requires srcOffset + count <= |src| && dstOffset + count <= |dst|
  {
    dst[..dstOffset] + Reinterpreted(src, srcOffset, count, reinterpret) + dst[dstOffset + count..]
  }

  /** Exactly the destination window changes, and it receives the source
      window element by element. */
  lemma CopiedWindow<T1, T2>(dst: seq<T1>, dstOffset: nat, src: seq<T2>, srcOffset: nat, count: nat,
                             reinterpret: T2 -> T1)
    requires srcOffset + count <= |src| && dstOffset + count <= |dst|
    ensures |Copied(dst, dstOffset, src, srcOffset, count, reinterpret)| == |dst|
    ensures Copied(dst, dstOffset, src, srcOffset, count, reinterpret)[dstOffset..dstOffset + count]
         == Reinterpreted(src, srcOffset, count, reinterpret)
    ensures forall j :: 0 <= j < |dst| && !(dstOffset <= j < dstOffset + count) ==>
              Copied(dst, dstOffset, src, srcOffset, count, reinterpret)[j] == dst[j]
  {
  }

  /** The private CopyToUnsafe(void*, void*, ...) and CopyToUnsafe(ref T,
      ...): a memcpy of `count` elements, offsets in elements. */
  method CopyRange<T1, T2>(destination: array<T1>, source: array<T2>, count: nat,
                           sourceOffset: nat, destinationOffset: nat, reinterpret: T2 -> T1)
    requires sourceOffset + count <= source.Length && destinationOffset + count <= destination.Length
    requires (source as object) != (destination as object)
    modifies destination
    ensures destination[..] == Copied(old(destination[..]), destinationOffset, source[..], sourceOffset, count, reinterpret)
  {
    for k := 0 to count
      invariant destination[..destinationOffset] == old(destination[..destinationOffset])
      invariant destination[destinationOffset..destinationOffset + k] == Reinterpreted(source[..], sourceOffset, k, reinterpret)
      invariant destination[destinationOffset + k..] == old(destination[destinationOffset + k..])
    {
      destination[destinationOffset + k] := reinterpret(source[sourceOffset + k]);
      ReinterpretedStep(source[..], sourceOffset, k, reinterpret);
      assert destination[destinationOffset..destinationOffset + k + 1]
          == destination[destinationOffset..destinationOffset + k] + [destination[destinationOffset + k]];
    }
    assert destination[..] == destination[..destinationOffset]
      + destination[destinationOffset..destinationOffset + count] + destination[destinationOffset + count..];
  }

  /** CopyToUnsafe(NativeList<T2>, T1[], count): after the checks, the copy
      goes through `ref destination[0]`, which throws for an empty
      destination even when there is nothing to copy. A negative count is
      not checked and is excluded. The list's native buffer and the managed
      array are distinct memory. */
  method CopyListToArray<T1, T2(0)>(source: UnsafeList<T2>, destination: array<T1>, count: nat,
                                    sizeOfT1: nat, sizeOfT2: nat, reinterpret: T2 -> T1)
    returns (r: Outcome<CopyError>)
    requires source.Valid() && (source.data as object) != (destination as object)
    modifies destination
    ensures var check := CheckCopy(sizeOfT1, sizeOfT2, source.length, count, destination.Length, count);
            r == if check.Fail? then check
                 else if destination.Length == 0 then Fail(IndexOutOfRange)
                 else Pass
    ensures r.Fail? ==> destination[..] == old(destination[..])
    ensures r.Pass? ==> destination[..] == Copied(old(destination[..]), 0, source.Items(), 0, count, reinterpret)
  {
    var check := CheckCopy(sizeOfT1, sizeOfT2, source.length, count, destination.Length, count);
    if check.Fail? {
      return check;
    }
    if destination.Length == 0 {
      return Fail(IndexOutOfRange);
    }
    CopyRange(destination, source.data, count, 0, 0, reinterpret);
    assert source.data[..][..count] == source.Items()[..count];
    r := Pass;
  }

  /** CopyToUnsafe(NativeArray<T2>, T1[], count): the same checks and the
      same `ref destination[0]` as the list overload. */
  method CopyArrayToArray<T1, T2>(source: NativeArray<T2>, destination: array<T1>, count: nat,
                                  sizeOfT1: nat, sizeOfT2: nat, reinterpret: T2 -> T1)
    returns (r: Outcome<CopyError>)
    requires source.Valid() && (source.data as object) != (destination as object)
    modifies destination
    ensures var check := CheckCopy(sizeOfT1, sizeOfT2, source.length, count, destination.Length, count);
            r == if check.Fail? then check
                 else if destination.Length == 0 then Fail(IndexOutOfRange)
                 else Pass
    ensures r.Fail? ==> destination[..] == old(destination[..])
    ensures r.Pass? ==> destination[..] == Copied(old(destination[..]), 0, source.Elements(), 0, count, reinterpret)
  {
    var check := CheckCopy(sizeOfT1, sizeOfT2, source.length, count, destination.Length, count);
    if check.Fail? {
      return check;
    }
    if destination.Length == 0 {
      return Fail(IndexOutOfRange);
    }
    CopyRange(destination, source.data, count, 0, 0, reinterpret);
    r := Pass;
  }

  /** CopyToUnsafe(NativeArray<T2>, NativeArray<T1>, count, sourceOffset,
      destinationOffset): the checks cover offset + count; negative
      offsets and counts are not checked and are excluded. Source and
      destination are distinct allocations. */
  method CopyArrayToArrayAt<T1, T2>(source: NativeArray<T2>, destination: NativeArray<T1>, count: nat,
                                    sourceOffset: nat, destinationOffset: nat,
                                    sizeOfT1: nat, sizeOfT2: nat, reinterpret: T2 -> T1)
    returns (r: Outcome<CopyError>)
    requires source.Valid() && destination.Valid()
    requires (source.data as object) != (destination.data as object)
    modifies destination.data
    ensures r == CheckCopy(sizeOfT1, sizeOfT2, source.length, sourceOffset + count,
                           destination.length, destinationOffset + count)
    ensures r.Fail? ==> destination.data[..] == old(destination.data[..])
    ensures r.Pass? ==> destination.data[..] == Copied(old(destination.data[..]), destinationOffset,
                                                       source.data[..], sourceOffset, count, reinterpret)
    ensures source.data[..] == old(source.data[..])
  {
    r := CheckCopy(sizeOfT1, sizeOfT2, source.length, sourceOffset + count,
                   destination.length, destinationOffset + count);
    if r.Fail? {
      return;
    }
    CopyRange(destination.data, source.data, count, sourceOffset, destinationOffset, reinterpret);
  }
}
