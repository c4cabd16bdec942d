/** UnsafeArrayExtensions: text rendering, views, element references, and
    whole-array fills of an UnsafeArray<T>, a pointer with a fixed length,
    modelled as a Dafny array. */
module UnsafeArrayExtensions {
  import opened Wrappers
  import opened Allocators
  import opened Lists

  /** The text ToArrayString builds: every element's text followed by ", ". */
  function ArrayString<T>(s: seq<T>, show: T -> string): string
  {
    if s == [] then "" else ArrayString(s[..|s| - 1], show) + show(s[|s| - 1]) + ", "
  }

  /** The rendering of a concatenation is the concatenation of renderings. */
  lemma {:induction false} ArrayStringAppend<T>(a: seq<T>, b: seq<T>, show: T -> string)
    ensures ArrayString(a + b, show) == ArrayString(a, show) + ArrayString(b, show)
    decreases |b|
  {
    if b != [] {
      assert (a + b)[..|a + b| - 1] == a + b[..|b| - 1];
      ArrayStringAppend(a, b[..|b| - 1], show);
    } else {
      assert a + b == a;
    }
  }

  /** The rendering of one element, and the length of a rendering: each
      element adds its own text and two characters. */
  lemma {:induction false} ArrayStringLength<T>(s: seq<T>, show: T -> string)
    ensures |s| == 1 ==> ArrayString(s, show) == show(s[0]) + ", "
    ensures |ArrayString(s, show)| >= 2 * |s|
    ensures s == [] <==> ArrayString(s, show) == ""
  {
    if s != [] {
      ArrayStringLength(s[..|s| - 1], show);
    }
  }

  /** ToArrayString: `s += value + ", "` for every element in order. */
  method ToArrayString<T>(list: array<T>, show: T -> string) returns (s: string)
    ensures s == ArrayString(list[..], show)
  {
    s := "";
    for i := 0 to list.Length
      invariant s == ArrayString(list[..i], show)
    {
      assert list[..i + 1][..i] == list[..i];
      s := s + show(list[i]) + ", ";
    }
    assert list[..list.Length] == list[..];
  }

  /** AsNativeArray: a view over the array's memory; it owns nothing. */
  function AsNativeArray<T>(unsafeArray: array<T>): (v: NativeArray<T>)
    ensures v.data == unsafeArray && v.length == unsafeArray.Length && v.allocator == AllocatorNone
  {
    NativeArray(unsafeArray, unsafeArray.Length, AllocatorNone)
  }

  /** Through the view the array's elements are seen, in order. */
  lemma AsNativeArrayElements<T>(unsafeArray: array<T>)
    ensures AsNativeArray(unsafeArray).Valid()
    ensures AsNativeArray(unsafeArray).Elements() == unsafeArray[..]
  {
  }

  /** A `ref T` into an array: the array and the position. */
  datatype ElementRef<T> = ElementRef(data: array<T>, index: nat)

  datatype ElementError = IndexOutOfRange

  /** ElementAt: asserts 0 <= index < Length and refers to that element. */
  function ElementAt<T>(unsafeArray: array<T>, index: int): (r: Result<ElementRef<T>, ElementError>)
    ensures r.Ok? <==> 0 <= index < unsafeArray.Length
    ensures r.Ok? ==> r.value.data == unsafeArray && r.value.index == index
  {
    if 0 <= index < unsafeArray.Length then Ok(ElementRef(unsafeArray, index)) else Err(IndexOutOfRange)
  }

  /** Assigning through the reference writes the array element it refers to. */
  method Write<T>(ref: ElementRef<T>, value: T)
    requires ref.index < ref.data.Length
    modifies ref.data
    ensures ref.data[..] == old(ref.data[..])[ref.index := value]
  {
    ref.data[ref.index] := value;
  }

  /** Clear: MemClear sets every byte to 0, so every element is default(T).
      Callers pass default(T) as `zero`; the model does not relate `zero`
      to an all-zero bit pattern. */
  method Clear<T>(unsafeArray: array<T>, zero: T)
    modifies unsafeArray
    ensures forall k :: 0 <= k < unsafeArray.Length ==> unsafeArray[k] == zero
  {
    forall k | 0 <= k < unsafeArray.Length {
      unsafeArray[k] := zero;
    }
  }

  /** Set: MemCpyReplicate copies `value` into every element. */
  method Set<T>(unsafeArray: array<T>, value: T)
    modifies unsafeArray
    ensures forall k :: 0 <= k < unsafeArray.Length ==> unsafeArray[k] == value
  {
    forall k | 0 <= k < unsafeArray.Length {
      unsafeArray[k] := value;
    }
  }
}
