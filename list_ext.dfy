/** ListExtensions.RefreshWith: a managed List<T> is cleared and then
    refilled from an enumerable. The enumerable is read only after the clear,
    so one that is computed from the list itself sees the emptied list. */
module ListExtensions {

  /** The `items` argument: either values independent of the list, or a
      lazy enumerable whose contents are computed from the list when it is
      enumerated (the list itself is the identity view). */
  datatype Items<!T> = Values(values: seq<T>) | ViewOfList(view: seq<T> -> seq<T>)

  /** The contents of `items` when enumerated while the list holds `current`. */
  function Enumerate<T>(items: Items<T>, current: seq<T>): seq<T>
  {
    match items
    case Values(values) => values
    case ViewOfList(view) => view(current)
  }

  /** System.Collections.Generic.List<T>, as far as RefreshWith uses it. */
  class List<T> {
    var elements: seq<T>

    constructor (elements: seq<T>)
      ensures this.elements == elements
    {
      this.elements := elements;
    }

    method Clear()
      modifies this
      ensures elements == []
    {
      elements := [];
    }

    /** AddRange enumerates `items` against the list as it is now. */
    method AddRange(items: Items<T>)
      modifies this
      ensures elements == old(elements) + Enumerate(items, old(elements))
    {
      elements := elements + Enumerate(items, elements);
    }
  }

  /** The list after RefreshWith: `items` as seen by an empty list. */
  function Refreshed<T>(items: Items<T>): (r: seq<T>)
    ensures items.Values? ==> r == items.values
  {
    Enumerate(items, [])
  }

  /** RefreshWith: Clear, then AddRange. The result does not depend on
      what the list held, so no earlier element survives unless `items`
      yields it again, and a second refresh with the same items changes
      nothing. */
  method RefreshWith<T>(list: List<T>, items: Items<T>)
    modifies list
    ensures list.elements == Refreshed(items)
  {
    list.Clear();
    list.AddRange(items);
  }

  /** Refreshing a list with itself empties it. */
  lemma RefreshWithItselfEmpties<T>()
    ensures Refreshed(ViewOfList((s: seq<T>) => s)) == []
  {
  }
}
