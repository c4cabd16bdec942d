/** PlayerLoopUtils: editing Unity's player-loop tree. A PlayerLoopSystem
    has a type, an update delegate and a possibly-null array of
    sub-systems. Types and delegates are compared by identity and are
    modelled as integers. */
module PlayerLoop {
  import Seqs

  type TypeId = int
  type DelegateId = int

  datatype LoopSystem = LoopSystem(kind: TypeId, update: DelegateId, subSystems: SubSystemList)

  /** The subSystemList array: null, or an array of systems. */
  datatype SubSystemList = Null | Systems(items: seq<LoopSystem>)

  /** The direct children, a null list read as empty. */
  function Children(loop: LoopSystem): seq<LoopSystem>
  {
    if loop.subSystems.Systems? then loop.subSystems.items else []
  }

  /** The number of nodes of a tree. */
  function Size(loop: LoopSystem): nat
    decreases loop, 1
  {
    1 + SizeAll(loop, |Children(loop)|)
  }

  /** The number of nodes under the first k children of `parent`. */
  function SizeAll(parent: LoopSystem, k: nat): nat
    requires k <= |Children(parent)|
    decreases parent, 0, k
  {
    if k == 0 then 0
    else
      var c := parent.subSystems.items[k - 1];
      assert c in parent.subSystems.items;
      SizeAll(parent, k - 1) + Size(c)
  }

  /** The number of nodes of a forest. */
  function SizeOf(forest: seq<LoopSystem>): nat
  {
    if forest == [] then 0 else SizeOf(forest[..|forest| - 1]) + Size(forest[|forest| - 1])
  }

  lemma {:induction false} SizeAllIsSizeOf(parent: LoopSystem, k: nat)
    requires k <= |Children(parent)|
    ensures SizeAll(parent, k) == SizeOf(Children(parent)[..k])
  {
    if k > 0 {
      SizeAllIsSizeOf(parent, k - 1);
      assert Children(parent)[..k][..k - 1] == Children(parent)[..k - 1];
    }
  }

  /** Size of a node in terms of its children. */
  lemma SizeNode(loop: LoopSystem)
    ensures Size(loop) == 1 + SizeOf(Children(loop))
  {
    SizeAllIsSizeOf(loop, |Children(loop)|);
    assert Children(loop)[..|Children(loop)|] == Children(loop);
  }

  lemma {:induction false} SizeOfAppend(a: seq<LoopSystem>, b: seq<LoopSystem>)
    ensures SizeOf(a + b) == SizeOf(a) + SizeOf(b)
    decreases |b|
  {
    if b == [] {
      assert a + b == a;
    } else {
      assert (a + b)[..|a + b| - 1] == a + b[..|b| - 1];
      SizeOfAppend(a, b[..|b| - 1]);
    }
  }

  lemma SizeOfSingle(x: LoopSystem)
    ensures SizeOf([x]) == Size(x)
  {
    assert [x][..0] == [];
  }

  /** Does the tree hold a node of type t? */
  predicate Contains(loop: LoopSystem, t: TypeId)
    decreases loop
  {
    loop.kind == t || (loop.subSystems.Systems? && exists c :: c in loop.subSystems.items && Contains(c, t))
  }

  // ---------------------------------------------------------------- insert

  datatype InsertOutcome = NotFound | Inserted(tree: LoopSystem) | IndexOutOfRange

  /** InsertSystem<T> as a function: at a node of type t the system goes in
      at `index` among its children (a null list counts as empty; an index
      outside [0, count] makes List.Insert throw); elsewhere the children
      are tried in order and the first that accepts wins. */
  function Insert(loop: LoopSystem, t: TypeId, system: LoopSystem, index: int): InsertOutcome
    decreases loop, 1
  {
    if loop.kind != t then InsertAmong(loop, 0, t, system, index)
    else
      var children := Children(loop);
      if 0 <= index <= |children| then
        Inserted(loop.(subSystems := Systems(children[..index] + [system] + children[index..])))
      else IndexOutOfRange
  }

  /** HandleSubSystemLoop from child i on. */
  function InsertAmong(parent: LoopSystem, i: nat, t: TypeId, system: LoopSystem, index: int): InsertOutcome
    decreases parent, 0, |Children(parent)| - i
  {
    if parent.subSystems.Null? || i >= |parent.subSystems.items| then NotFound
    else
      var children := parent.subSystems.items;
      var child := children[i];
      assert child in children;
      match Insert(child, t, system, index)
      case NotFound => InsertAmong(parent, i + 1, t, system, index)
      case Inserted(c) => Inserted(parent.(subSystems := Systems(children[i := c])))
      case IndexOutOfRange => IndexOutOfRange
  }

  /** The first child from position i on whose subtree holds a node of
      type t, or |s| when there is none. */
  function FirstContaining(s: seq<LoopSystem>, i: nat, t: TypeId): (k: nat)
    requires i <= |s|
    ensures i <= k <= |s|
    ensures forall j :: i <= j < k ==> !Contains(s[j], t)
    ensures k < |s| ==> Contains(s[k], t)
    decreases |s| - i
  {
    if i == |s| || Contains(s[i], t) then i else FirstContaining(s, i + 1, t)
  }

  /** InsertSystem returns false exactly when no node has type t. A node of
      type t takes the system among its own children at `index`. Any other
      node hands the insertion to its first child whose subtree holds type
      t, that is, to the first node of type t in pre-order: that one child
      is replaced by its inserted form and nothing else changes. The tree
      grows by exactly the inserted system. */
  lemma {:induction false} InsertFacts(loop: LoopSystem, t: TypeId, system: LoopSystem, index: int)
    ensures Insert(loop, t, system, index).NotFound? <==> !Contains(loop, t)
    ensures loop.kind == t ==>
              (Insert(loop, t, system, index).Inserted? <==> 0 <= index <= |Children(loop)|)
    ensures loop.kind == t && Insert(loop, t, system, index).Inserted? ==>
              Insert(loop, t, system, index).tree ==
              loop.(subSystems := Systems(Children(loop)[..index] + [system] + Children(loop)[index..]))
    ensures loop.kind != t ==>
              var k := FirstContaining(Children(loop), 0, t);
              k < |Children(loop)| ==>
                var inner := Insert(Children(loop)[k], t, system, index);
                (inner.IndexOutOfRange? ==> Insert(loop, t, system, index).IndexOutOfRange?) &&
                (inner.Inserted? ==>
                   (Insert(loop, t, system, index) ==
                    Inserted(loop.(subSystems := Systems(Children(loop)[k := inner.tree])))))
    ensures Insert(loop, t, system, index).Inserted? ==>
              Size(Insert(loop, t, system, index).tree) == Size(loop) + Size(system)
    ensures Insert(loop, t, system, index).Inserted? ==>
              Insert(loop, t, system, index).tree.kind == loop.kind &&
              Insert(loop, t, system, index).tree.update == loop.update
    decreases loop, 1
  {
    if loop.kind != t {
      InsertAmongFacts(loop, 0, t, system, index);
    } else if 0 <= index <= |Children(loop)| {
      var children := Children(loop);
      var r := loop.(subSystems := Systems(children[..index] + [system] + children[index..]));
      SizeNode(loop);
      SizeNode(r);
      assert children == children[..index] + children[index..];
      SizeOfAppend(children[..index], children[index..]);
      SizeOfAppend(children[..index] + [system], children[index..]);
      SizeOfAppend(children[..index], [system]);
      SizeOfSingle(system);
    }
  }

  lemma {:induction false} InsertAmongFacts(parent: LoopSystem, i: nat, t: TypeId, system: LoopSystem, index: int)
    requires i <= |Children(parent)|
    ensures InsertAmong(parent, i, t, system, index).NotFound? <==>
              forall c :: c in Children(parent)[i..] ==> !Contains(c, t)
    ensures InsertAmong(parent, i, t, system, index).Inserted? ==>
              Size(InsertAmong(parent, i, t, system, index).tree) == Size(parent) + Size(system)
    ensures InsertAmong(parent, i, t, system, index).Inserted? ==>
              InsertAmong(parent, i, t, system, index).tree.kind == parent.kind &&
              InsertAmong(parent, i, t, system, index).tree.update == parent.update
    ensures var k := FirstContaining(Children(parent), i, t);
            k < |Children(parent)| ==>
              var inner := Insert(Children(parent)[k], t, system, index);
              (inner.IndexOutOfRange? ==> InsertAmong(parent, i, t, system, index).IndexOutOfRange?) &&
              (inner.Inserted? ==>
                 (InsertAmong(parent, i, t, system, index) ==
                  Inserted(parent.(subSystems := Systems(Children(parent)[k := inner.tree])))))
    decreases parent, 0, |Children(parent)| - i
  {
    var children := Children(parent);
    if i < |children| {
      assert children[i..] == [children[i]] + children[i + 1..];
      assert children[i] in parent.subSystems.items;
      InsertFacts(children[i], t, system, index);
      match Insert(children[i], t, system, index)
      case NotFound =>
        assert FirstContaining(children, i, t) == FirstContaining(children, i + 1, t);
        InsertAmongFacts(parent, i + 1, t, system, index);
      case Inserted(c) =>
        ReplaceChildSize(parent, i, c);
      case IndexOutOfRange =>
    } else {
      assert children[i..] == [];
    }
  }

  /** Replacing child i by c changes the size by the difference. */
  lemma {:induction false} ReplaceChildSize(parent: LoopSystem, i: nat, c: LoopSystem)
    requires parent.subSystems.Systems? && i < |parent.subSystems.items|
    ensures Size(parent.(subSystems := Systems(parent.subSystems.items[i := c]))) + Size(parent.subSystems.items[i])
         == Size(parent) + Size(c)
  {
    var children := parent.subSystems.items;
    var updated := children[i := c];
    var r := parent.(subSystems := Systems(updated));
    SizeNode(parent);
    SizeNode(r);
    assert children == children[..i] + [children[i]] + children[i + 1..];
    assert updated == children[..i] + [c] + children[i + 1..];
    SizeOfAppend(children[..i] + [children[i]], children[i + 1..]);
    SizeOfAppend(children[..i], [children[i]]);
    SizeOfAppend(children[..i] + [c], children[i + 1..]);
    SizeOfAppend(children[..i], [c]);
    SizeOfSingle(children[i]);
    SizeOfSingle(c);
  }

  /** A tree holds type t exactly when its root is t or a child holds it. */
  lemma ContainsChildren(loop: LoopSystem, t: TypeId)
    ensures Contains(loop, t) <==> loop.kind == t || exists c :: c in Children(loop)[0..] && Contains(c, t)
  {
    assert Children(loop)[0..] == Children(loop);
  }

  /** InsertSystem<T>(ref loop, system, index), with the tree returned. */
  method InsertSystem(loop: LoopSystem, t: TypeId, system: LoopSystem, index: int) returns (r: InsertOutcome)
    ensures r == Insert(loop, t, system, index)
    decreases loop, 1
  {
    if loop.kind != t {
      r := HandleSubSystemLoop(loop, t, system, index);
      return;
    }
    var playerLoopSystemList: seq<LoopSystem> := [];
    if loop.subSystems.Systems? {
      playerLoopSystemList := playerLoopSystemList + loop.subSystems.items;
    }
    assert playerLoopSystemList == Children(loop);
    if !(0 <= index <= |playerLoopSystemList|) {
      return IndexOutOfRange;
    }
    playerLoopSystemList := playerLoopSystemList[..index] + [system] + playerLoopSystemList[index..];
    r := Inserted(loop.(subSystems := Systems(playerLoopSystemList)));
  }

  /** HandleSubSystemLoop: tries the children in order; the first child
      that accepts the system is replaced by its updated version. */
  method HandleSubSystemLoop(loop: LoopSystem, t: TypeId, system: LoopSystem, index: int) returns (r: InsertOutcome)
    requires loop.kind != t
    ensures r == Insert(loop, t, system, index)
    decreases loop, 0
  {
    if loop.subSystems.Null? {
      return NotFound;
    }
    var children := loop.subSystems.items;
    var i := 0;
    while i < |children|
      invariant 0 <= i <= |children|
      invariant InsertAmong(loop, i, t, system, index) == InsertAmong(loop, 0, t, system, index)
    {
      assert children[i] in loop.subSystems.items;
      var child := InsertSystem(children[i], t, system, index);
      if child.Inserted? {
        return Inserted(loop.(subSystems := Systems(children[i := child.tree])));
      }
      if child.IndexOutOfRange? {
        return IndexOutOfRange;
      }
      i := i + 1;
    }
    r := NotFound;
  }

  // ---------------------------------------------------------------- remove

  /** RemoveSystem's test: same type and same update delegate. */
  predicate SameSystem(a: LoopSystem, b: LoopSystem)
  {
    a.kind == b.kind && a.update == b.update
  }

  /** The removal loop over one child list as written: after RemoveAt(i)
      the index still advances, so the element that moved into slot i is
      never looked at. */
  function RemoveLevel(list: seq<LoopSystem>, i: nat, target: LoopSystem): (r: seq<LoopSystem>)
    ensures |r| <= |list|
    ensures forall x :: x in r ==> x in list
    ensures multiset(r) <= multiset(list)
    decreases |list| - i
  {
    if i >= |list| then list
    else if SameSystem(list[i], target) then
      var shorter := list[..i] + list[i + 1..];
      assert list == list[..i] + [list[i]] + list[i + 1..];
      RemoveLevel(shorter, i + 1, target)
    else RemoveLevel(list, i + 1, target)
  }

  /** The survivors' test of the intended removal. */
  function Differs(target: LoopSystem): LoopSystem -> bool
  {
    x => !SameSystem(x, target)
  }

  /** The as-written loop drops only matching children: the children that
      differ from the target all survive, in their original order. */
  lemma {:induction false} RemoveLevelKeepsOthers(list: seq<LoopSystem>, i: nat, target: LoopSystem)
    ensures Seqs.Filter(RemoveLevel(list, i, target), Differs(target)) == Seqs.Filter(list, Differs(target))
    decreases |list| - i
  {
    if i < |list| {
      if SameSystem(list[i], target) {
        var shorter := list[..i] + list[i + 1..];
        assert list == list[..i] + [list[i]] + list[i + 1..];
        Seqs.FilterSkip(list[..i], list[i], list[i + 1..], Differs(target));
        RemoveLevelKeepsOthers(shorter, i + 1, target);
      } else {
        RemoveLevelKeepsOthers(list, i + 1, target);
      }
    }
  }

  /** The intended removal from one child list: every matching child goes,
      every other child stays, in order. */
  function RemoveAllMatching(list: seq<LoopSystem>, target: LoopSystem): (r: seq<LoopSystem>)
    ensures forall x :: x in r ==> x in list && !SameSystem(x, target)
  {
    Seqs.Filter(list, Differs(target))
  }

  /** No matching child survives the intended removal, and no other child
      is lost; the as-written loop meets this whenever no two matching
      children are adjacent. */
  lemma RemoveAllMatchingExact(list: seq<LoopSystem>, target: LoopSystem, x: LoopSystem)
    ensures x in RemoveAllMatching(list, target) <==> x in list && !SameSystem(x, target)
    ensures |RemoveAllMatching(list, target)| == |list| <==> forall y :: y in list ==> !SameSystem(y, target)
  {
    Seqs.FilterMembership(list, Differs(target), x);
    Seqs.FilterKeepsAll(list, Differs(target));
  }

  /** On the two-matching-children input the as-written loop keeps one of
      them and the intended removal keeps none. */
  lemma RemoveLevelDiffersFromIntended(target: LoopSystem)
    ensures RemoveLevel([target, target], 0, target) != RemoveAllMatching([target, target], target)
  {
    RemoveLevelSkipsNeighbour(target);
    RemoveAllMatchingExact([target, target], target, target);
  }

  /** RemoveSystem<T> as a function: a null child list means no change;
      otherwise the matching direct children are removed (as written, with
      the skip), and then every remaining child is processed the same way. */
  function Removed(loop: LoopSystem, target: LoopSystem): (r: LoopSystem)
    ensures r.kind == loop.kind && r.update == loop.update
    ensures loop.subSystems.Null? <==> r.subSystems.Null?
    ensures loop.subSystems.Null? ==> r == loop
    decreases loop, 1
  {
    if loop.subSystems.Null? then loop
    else
      var kept := RemoveLevel(loop.subSystems.items, 0, target);
      loop.(subSystems := Systems(RemovedAll(kept, loop, target)))
  }

  /** Removed applied to each element of `list`, whose elements all come
      from the children of `parent`. */
  function RemovedAll(list: seq<LoopSystem>, parent: LoopSystem, target: LoopSystem): (r: seq<LoopSystem>)
    requires parent.subSystems.Systems? && forall x :: x in list ==> x in parent.subSystems.items
    ensures |r| == |list|
    decreases parent, 0, |list|
  {
    if list == [] then []
    else
      var last := list[|list| - 1];
      assert last in parent.subSystems.items;
      RemovedAll(list[..|list| - 1], parent, target) + [Removed(last, target)]
  }

  /** Each element of the list is processed on its own, in place. */
  lemma {:induction false} RemovedAllPointwise(list: seq<LoopSystem>, parent: LoopSystem, target: LoopSystem)
    requires parent.subSystems.Systems? && forall x :: x in list ==> x in parent.subSystems.items
    ensures forall k :: 0 <= k < |list| ==> RemovedAll(list, parent, target)[k] == Removed(list[k], target)
    decreases |list|
  {
    if list != [] {
      var init := list[..|list| - 1];
      RemovedAllPointwise(init, parent, target);
      assert forall k :: 0 <= k < |init| ==> init[k] == list[k];
    }
  }

  /** At a node with a child list, RemoveSystem keeps every child that
      differs from the target, in order, and replaces each kept child by
      its own processed form, position by position. */
  lemma RemovedChildren(loop: LoopSystem, target: LoopSystem)
    requires loop.subSystems.Systems?
    ensures var kept := RemoveLevel(loop.subSystems.items, 0, target);
            Seqs.Filter(kept, Differs(target)) == Seqs.Filter(loop.subSystems.items, Differs(target)) &&
            Removed(loop, target).subSystems.Systems? &&
            |Removed(loop, target).subSystems.items| == |kept| &&
            forall k :: 0 <= k < |kept| ==> Removed(loop, target).subSystems.items[k] == Removed(kept[k], target)
  {
    var kept := RemoveLevel(loop.subSystems.items, 0, target);
    RemoveLevelKeepsOthers(loop.subSystems.items, 0, target);
    RemovedAllPointwise(kept, loop, target);
  }

  /** RemoveSystem never adds nodes. */
  lemma {:induction false} RemoveNeverGrows(loop: LoopSystem, target: LoopSystem)
    ensures Size(Removed(loop, target)) <= Size(loop)
    decreases loop, 1
  {
    if loop.subSystems.Systems? {
      var children := loop.subSystems.items;
      var kept := RemoveLevel(children, 0, target);
      var r := Removed(loop, target);
      SizeNode(loop);
      SizeNode(r);
      RemovedAllSize(kept, loop, target);
      RemoveLevelSize(children, 0, target);
    }
  }

  lemma {:induction false} RemovedAllSize(list: seq<LoopSystem>, parent: LoopSystem, target: LoopSystem)
    requires parent.subSystems.Systems? && forall x :: x in list ==> x in parent.subSystems.items
    ensures SizeOf(RemovedAll(list, parent, target)) <= SizeOf(list)
    decreases parent, 0, |list|
  {
    if list != [] {
      var last := list[|list| - 1];
      assert last in parent.subSystems.items;
      RemovedAllSize(list[..|list| - 1], parent, target);
      RemoveNeverGrows(last, target);
      assert RemovedAll(list, parent, target)[..|list| - 1] == RemovedAll(list[..|list| - 1], parent, target);
    }
  }

  /** Dropping children never adds nodes. */
  lemma {:induction false} RemoveLevelSize(list: seq<LoopSystem>, i: nat, target: LoopSystem)
    ensures SizeOf(RemoveLevel(list, i, target)) <= SizeOf(list)
    decreases |list| - i
  {
    if i < |list| {
      if SameSystem(list[i], target) {
        RemoveLevelSize(list[..i] + list[i + 1..], i + 1, target);
        SizeOfWithout(list, i);
      } else {
        RemoveLevelSize(list, i + 1, target);
      }
    }
  }

  /** Dropping one child never adds nodes. */
  lemma {:induction false} SizeOfWithout(list: seq<LoopSystem>, i: nat)
    requires i < |list|
    ensures SizeOf(list[..i] + list[i + 1..]) <= SizeOf(list)
  {
    var pre := list[..i];
    var post := list[i + 1..];
    var rest := list[i..];
    assert rest == [list[i]] + post;
    assert list == pre + rest;
    SizeOfMiddle(pre, list[i], post);
  }

  /** One element in the middle of a forest adds its own size. */
  lemma {:induction false} SizeOfMiddle(a: seq<LoopSystem>, x: LoopSystem, b: seq<LoopSystem>)
    ensures SizeOf(a + ([x] + b)) == SizeOf(a + b) + Size(x)
  {
    assert a + ([x] + b) == (a + [x]) + b;
    SizeOfAppend(a + [x], b);
    SizeOfAppend(a, [x]);
    SizeOfSingle(x);
    SizeOfAppend(a, b);
  }

  /** The skip: two adjacent matching children lose only the first. */
  lemma RemoveLevelSkipsNeighbour(target: LoopSystem)
    ensures RemoveLevel([target, target], 0, target) == [target]
  {
    assert [target, target][..0] + [target, target][1..] == [target];
  }

  /** What RemoveSystem is for: no node of the tree keeps a direct child
      that matches `target`. */
  predicate Clean(loop: LoopSystem, target: LoopSystem)
    decreases loop
  {
    loop.subSystems.Null? ||
    forall c :: c in loop.subSystems.items ==> !SameSystem(c, target) && Clean(c, target)
  }

  /** As written, RemoveSystem can leave a matching child behind: a root
      whose two children both match keeps one of them. */
  lemma RemoveSystemLeavesMatch(target: LoopSystem)
    ensures !Clean(Removed(LoopSystem(0, 0, Systems([target, target])), target), target)
  {
    var root := LoopSystem(0, 0, Systems([target, target]));
    RemoveLevelSkipsNeighbour(target);
    var items := Removed(root, target).subSystems.items;
    assert items == RemovedAll([target], root, target);
    assert items[0] == Removed(target, target);
    assert items[0] in items && SameSystem(items[0], target);
  }

  /** RemoveSystem with the intended level removal: every matching child is
      dropped, then the survivors are processed the same way. */
  function RemovedIntended(loop: LoopSystem, target: LoopSystem): (r: LoopSystem)
    ensures r.kind == loop.kind && r.update == loop.update
    ensures loop.subSystems.Null? ==> r == loop
    decreases loop, 1
  {
    if loop.subSystems.Null? then loop
    else
      var kept := RemoveAllMatching(loop.subSystems.items, target);
      loop.(subSystems := Systems(RemovedIntendedAll(kept, loop, target)))
  }

  /** RemovedIntended applied to each element of `list`, whose elements
      all come from the children of `parent`. */
  function RemovedIntendedAll(list: seq<LoopSystem>, parent: LoopSystem, target: LoopSystem): (r: seq<LoopSystem>)
    requires parent.subSystems.Systems? && forall x :: x in list ==> x in parent.subSystems.items
    ensures |r| == |list|
    decreases parent, 0, |list|
  {
    if list == [] then []
    else
      var last := list[|list| - 1];
      assert last in parent.subSystems.items;
      RemovedIntendedAll(list[..|list| - 1], parent, target) + [RemovedIntended(last, target)]
  }

  /** The corrected removal leaves no matching child anywhere in the tree. */
  lemma {:induction false} RemovedIntendedClean(loop: LoopSystem, target: LoopSystem)
    ensures Clean(RemovedIntended(loop, target), target)
    decreases loop, 1
  {
    if loop.subSystems.Systems? {
      var kept := RemoveAllMatching(loop.subSystems.items, target);
      RemovedIntendedAllClean(kept, loop, target);
    }
  }

  /** Processing children that do not match yields children that do not
      match and are clean. */
  lemma {:induction false} RemovedIntendedAllClean(list: seq<LoopSystem>, parent: LoopSystem, target: LoopSystem)
    requires parent.subSystems.Systems? && forall x :: x in list ==> x in parent.subSystems.items
    requires forall x :: x in list ==> !SameSystem(x, target)
    ensures forall c :: c in RemovedIntendedAll(list, parent, target) ==> !SameSystem(c, target) && Clean(c, target)
    decreases parent, 0, |list|
  {
    if list != [] {
      var init := list[..|list| - 1];
      var last := list[|list| - 1];
      assert last in parent.subSystems.items;
      RemovedIntendedAllClean(init, parent, target);
      RemovedIntendedClean(last, target);
      assert RemovedIntendedAll(list, parent, target)
          == RemovedIntendedAll(init, parent, target) + [RemovedIntended(last, target)];
    }
  }

  /** RemoveSystem<T>(ref loop, system), with the tree returned. */
  method RemoveSystem(loop: LoopSystem, target: LoopSystem) returns (r: LoopSystem)
    ensures r == Removed(loop, target)
    decreases loop, 1
  {
    if loop.subSystems.Null? {
      return loop;
    }
    var playerLoopSystemList := loop.subSystems.items;
    r := loop;
    var i := 0;
    while i < |playerLoopSystemList|
      invariant RemoveLevel(playerLoopSystemList, i, target) == RemoveLevel(loop.subSystems.items, 0, target)
      invariant r == loop.(subSystems := Systems(playerLoopSystemList))
      decreases |playerLoopSystemList| - i
    {
      if SameSystem(playerLoopSystemList[i], target) {
        playerLoopSystemList := playerLoopSystemList[..i] + playerLoopSystemList[i + 1..];
        r := loop.(subSystems := Systems(playerLoopSystemList));
      }
      i := i + 1;
    }
    r := HandleSubSystemLoopForRemoval(r, loop, target);
  }

  /** HandleSubSystemLoopForRemoval: RemoveSystem on every child in place;
      `original` is the tree RemoveSystem was called on. */
  method HandleSubSystemLoopForRemoval(loop: LoopSystem, original: LoopSystem, target: LoopSystem)
    returns (r: LoopSystem)
    requires loop.subSystems.Systems? && original.subSystems.Systems?
    requires forall x :: x in loop.subSystems.items ==> x in original.subSystems.items
    ensures r == loop.(subSystems := Systems(RemovedAll(loop.subSystems.items, original, target)))
    decreases original, 0
  {
    var items := loop.subSystems.items;
    var children := items;
    var i := 0;
    while i < |children|
      invariant 0 <= i <= |children| == |items|
      invariant children[..i] == RemovedAll(items[..i], original, target)
      invariant children[i..] == items[i..]
    {
      assert children[i] == children[i..][0] == items[i];
      assert items[i] in original.subSystems.items;
      var child := RemoveSystem(children[i], target);
      assert items[..i + 1][..i] == items[..i];
      children := children[i := child];
      i := i + 1;
    }
    assert items[..|items|] == items;
    assert children[..|children|] == children;
    r := loop.(subSystems := Systems(children));
  }
}
