/** ArrayExtensions: growing a managed array by one element at the end and
    shrinking it by removing one position. Both build a new array and leave
    their input alone. */
module ArrayExtensions {
  import opened Wrappers

  datatype ShrinkError = EmptyArray | IndexOutOfRange

  /** ExpandAdd: a new array one longer, holding the old elements and then
      the item. */
  method ExpandAdd<T(0)>(source: array<T>, item: T) returns (newArray: array<T>)
    ensures fresh(newArray) && newArray.Length == source.Length + 1
    ensures newArray[..] == source[..] + [item]
  {
    newArray := new T[source.Length + 1];
    forall k | 0 <= k < source.Length {
      newArray[k] := source[k];
    }
    newArray[source.Length] := item;
  }

  /** ShrinkRemoveAt: an empty array fails the assertion (and cannot give a
      new array of length -1). An index outside the array never sets
      `excluded`, so the last element is written one past the end of the new
      array, which throws. */
  method ShrinkRemoveAt<T(0)>(source: array<T>, index: int) returns (r: Result<array<T>, ShrinkError>)
    ensures r.Ok? <==> 0 <= index < source.Length
    ensures source.Length == 0 ==> r == Err(EmptyArray)
    ensures source.Length > 0 && !(0 <= index < source.Length) ==> r == Err(IndexOutOfRange)
    ensures r.Ok? ==> fresh(r.value) && r.value[..] == source[..index] + source[index + 1..]
  {
    if source.Length - 1 < 0 {
      return Err(EmptyArray);
    }
    var excluded := false;
    var newArray := new T[source.Length - 1];
    for i := 0 to source.Length
      invariant excluded <==> 0 <= index < i
      invariant !excluded ==> i <= newArray.Length && newArray[..i] == source[..i]
      invariant excluded ==> newArray[..i - 1] == source[..index] + source[index + 1..i]
    {
      if !excluded {
        if i != index {
          if i >= newArray.Length {
            return Err(IndexOutOfRange);
          }
          newArray[i] := source[i];
        } else {
          excluded := true;
        }
      } else {
        newArray[i - 1] := source[i];
      }
    }
    r := Ok(newArray);
  }

  /** Round trip: removing the last position of an expanded array gives the
      original elements back. */
  method ExpandThenShrink<T(0)>(source: array<T>, item: T) returns (back: seq<T>)
    ensures back == source[..]
  {
    var grown := ExpandAdd(source, item);
    var r := ShrinkRemoveAt(grown, source.Length);
    back := r.value[..];
  }
}
