/** DynamicBufferExtensions.First: despite its name, a search from the end
    of the buffer that returns the LAST index holding an element equal to
    the argument, or -1. */
module DynamicBufferExtensions {

  /** The largest index whose element satisfies `p`, or -1. */
  function LastIndexWhere<T>(s: seq<T>, p: T -> bool): (r: int)
    ensures -1 <= r < |s|
    ensures r == -1 <==> forall k :: 0 <= k < |s| ==> !p(s[k])
    ensures r >= 0 ==> p(s[r]) && forall k :: r < k < |s| ==> !p(s[k])
  {
    if s == [] then -1
    else if p(s[|s| - 1]) then |s| - 1
    else LastIndexWhere(s[..|s| - 1], p)
  }

  /** The test First applies: equal hash codes, then Equals. */
  function Matching<T>(equals: (T, T) -> bool, hash: T -> int, element: T): T -> bool
  {
    x => hash(x) == hash(element) && equals(x, element)
  }

  /** Equals alone. */
  function EqualTo<T>(equals: (T, T) -> bool, element: T): T -> bool
  {
    x => equals(x, element)
  }

  /** First: scans from the last element down to 0 and returns the first
      hit, that is the largest matching index. The buffer is only read. */
  method First<T>(list: array<T>, element: T, equals: (T, T) -> bool, hash: T -> int) returns (r: int)
    ensures r == LastIndexWhere(list[..], Matching(equals, hash, element))
  {
    var i := list.Length - 1;
    while i >= 0
      invariant -1 <= i < list.Length
      invariant LastIndexWhere(list[..i + 1], Matching(equals, hash, element))
             == LastIndexWhere(list[..], Matching(equals, hash, element))
      decreases i
    {
      assert list[..i + 1][..i] == list[..i];
      if hash(list[i]) == hash(element) && equals(list[i], element) {
        return i;
      }
      i := i - 1;
    }
    r := -1;
  }

  /** When equal elements have equal hash codes, the hash pre-check never
      changes the answer: First finds the last element Equals accepts. */
  lemma {:induction false} HashPrecheckIrrelevant<T>(s: seq<T>, element: T, equals: (T, T) -> bool, hash: T -> int)
    requires forall a, b :: equals(a, b) ==> hash(a) == hash(b)
    ensures LastIndexWhere(s, Matching(equals, hash, element)) == LastIndexWhere(s, EqualTo(equals, element))
  {
    if s != [] {
      HashPrecheckIrrelevant(s[..|s| - 1], element, equals, hash);
    }
  }
}
