# KrasCore collections and utilities in Dafny

This project models the data-structure and utility core of KrasCore, a set of
Unity DOTS helpers, and proves properties of that model:

- **Per-thread lists.** `ParallelList<T>` keeps one bucket per worker thread.
  The model covers Add, Clear, Dispose, copying into a single list, and both
  enumerators. One enumerator is the list's own. The other is the copy in
  `ParallelListExtensions`, whose Reset differs (see Findings).
- **Fixed-capacity lists in one buffer.** `UnsafeParallelArrayOfLists<T>`
  stores many fixed-capacity lists in a single buffer. The model covers the
  argument checks, AddNoResize, Remove with swap-back, the enumerator and
  Dispose.
- **Extension methods.** On managed arrays, `List<T>`, `DynamicBuffer<T>`,
  `NativeList<T>`, `UnsafeList<T>` and `UnsafeArray<T>`. This includes
  `CopyToUnsafe` between buffers whose element types have the same size.
- **Player loop editing.** `PlayerLoopUtils` inserts a system under the first
  system of a given type, and removes a system from every level of the tree.
- **Random selection.** `RandomUtils.SelectRandomIndices` picks distinct
  indices without replacement.
- **Small utilities.** `StringUtils.RemoveAllWhitespace`,
  `HashUtils.Simple` and `BlittableBool`.
- **Timer.** `UniTimer` is a timer advanced by the caller's delta times.
- **Runtime material cache.** `RuntimeMaterialSystem` clones a material per
  (material, texture, sprite) key. It registers the clone with the entities
  graphics system and hands it to the entities that ask for it.

Each module follows one source file:

- **Pure helpers** become functions and lemmas. These are the hash, the string
  filter, the player-loop tree and the material cache's decision logic.
- **Code that mutates in place** becomes classes with `modifies` clauses, or
  methods over arrays. Each such method carries the loop invariants that prove
  it against a specification function.

Shared pieces:

- `Lists` holds the Unity container types the source builds on:
  `NativeArray`, and `UnsafeList` with its capacity, length and `RemoveAt`.
- `Seqs` holds sequence helpers: concatenation, swap-back, reversal and
  filtering.
- `Wrappers` holds `Option`, `Result` and `Outcome`. An exception the source
  throws becomes a `Fail`/`Err` value naming the check that threw.

## Model

| member | source | states |
|---|---|---|
| `ArrayExtensions.ExpandAdd` | Runtime/Extensions/Collections/ArrayExtensions.cs:7-13 | The new array is one longer: the old elements in order, then the item. The source array is left alone. |
| `ArrayExtensions.ShrinkRemoveAt` | Runtime/Extensions/Collections/ArrayExtensions.cs:15-36 | Succeeds exactly when the index is in range. An empty array and an out-of-range index are distinct errors. On success the new array is the source without that one element. |
| `ArrayExtensions.ExpandThenShrink` | Runtime/Extensions/Collections/ArrayExtensions.cs:7-36 | Removing the element that ExpandAdd appended gives back the original contents. |
| `BlittableBools.FromBool` | Runtime/Data/BlittableBool.cs:9-22 | Converting a bool stores 0 or 1, and reading it back as a bool gives the same bool. |
| `BlittableBools.ToBool` | Runtime/Data/BlittableBool.cs:14-17 | Any nonzero byte reads as true; only the zero byte reads as false. |
| `BlittableBools.Equals` | Runtime/Data/BlittableBool.cs:24-27 | Equal exactly when the stored bytes are equal. |
| `BlittableBools.EqualsObject` | Runtime/Data/BlittableBool.cs:29-32 | True exactly for a boxed BlittableBool with the same byte. Null and other types are never equal. |
| `BlittableBools.GetHashCode` | Runtime/Data/BlittableBool.cs:34-37 | The hash is the stored byte: in 0..255, and 0 for false. |
| `BlittableBools.Eq` | Runtime/Data/BlittableBool.cs:39-42 | `==` holds exactly when the values are equal. |
| `BlittableBools.Neq` | Runtime/Data/BlittableBool.cs:44-47 | `!=` holds exactly when the values differ. |
| `BlittableBools.RoundTrip` | Runtime/Data/BlittableBool.cs:9-22 | bool to BlittableBool to bool is the identity. The stored form is canonical. |
| `BlittableBools.EqualsMatchesBool` | Runtime/Data/BlittableBool.cs:24-37 | Converted bools are Equal exactly when the bools are equal. Equal values hash alike. |
| `BlittableBools.OperatorsAgree` | Runtime/Data/BlittableBool.cs:29-47 | `!=` negates `==`. Equals(object) on a boxed value agrees with Equals. Nothing equals null. |
| `BlittableBools.NonCanonicalTrue` | Runtime/Data/BlittableBool.cs:14-27 | A byte of 2 and the converted `true` both read as true but are not Equal. Equality compares bytes, not truth values. |
| `DynamicBufferExtensions.LastIndexWhere` | Runtime/Extensions/Collections/DynamicBufferExtensions.cs:11-18 | -1 exactly when no element matches. Otherwise the result matches and every later index does not, so it is the largest match. |
| `DynamicBufferExtensions.First` | Runtime/Extensions/Collections/DynamicBufferExtensions.cs:8-19 | The backward scan returns the last index whose element has the element's hash and Equals it, or -1. |
| `DynamicBufferExtensions.HashPrecheckIrrelevant` | Runtime/Extensions/Collections/DynamicBufferExtensions.cs:13 | When Equals implies equal hashes, the hash pre-check never changes the answer. |
| `HashUtils.Combined` | Runtime/Utils/HashUtils.cs:13 | The 64-bit key holds pos.y in its low word and pos.x in its high word. |
| `HashUtils.Finish` | Runtime/Utils/HashUtils.cs:23 | The final `+ 1` wraps to 0 exactly when the mixed hash is 0xFFFFFFFF. |
| `HashUtils.SimpleWords` | Runtime/Utils/HashUtils.cs:10-24 | Simple mixes the seed with the low word (y), then the high word (x), then adds one. It yields 0 exactly when the mix is all ones. |
| `ListExtensions.List.Clear` | Runtime/Extensions/Collections/ListExtensions.cs:9 | The list becomes empty. |
| `ListExtensions.List.AddRange` | Runtime/Extensions/Collections/ListExtensions.cs:10 | The list becomes its old contents followed by the enumerated items. |
| `ListExtensions.Refreshed` | Runtime/Extensions/Collections/ListExtensions.cs:7-11 | Refreshing with an independent sequence leaves exactly that sequence. |
| `ListExtensions.RefreshWith` | Runtime/Extensions/Collections/ListExtensions.cs:7-11 | Whatever the list held before, it ends holding Refreshed(items). |
| `ListExtensions.RefreshWithItselfEmpties` | Runtime/Extensions/Collections/ListExtensions.cs:7-11 | Refreshing a list with a view of itself empties it, because Clear runs before the items are read. |
| `NativeListExtensions.RemoveAtSwapBack` | Runtime/Extensions/Collections/NativeListExtensions.cs:10-18 | The length drops by one. An index below the new length gets the old last element (a swap-back). Any other index changes no storage. |
| `NativeListExtensions.FilterStep` | Runtime/Extensions/Collections/NativeListExtensions.cs:23-29 | One step of the backward scan keeps the prefix and extends the filtered suffix by element i exactly when it is kept. |
| `NativeListExtensions.Remove` | Runtime/Extensions/Collections/NativeListExtensions.cs:20-30 | The list ends holding, in order, exactly the old elements whose hash code differs from the element's. |
| `NativeListExtensions.EnsureCapacity` | Runtime/Extensions/Collections/NativeListExtensions.cs:32-45 | The capacity is the old one doubled until it reaches minCapacity, and never shrinks. Without setLengthNoClear the items are kept. With it the length becomes minCapacity and the old items stay as its prefix. |
| `NativeListExtensions.SetLengthNoClear` | Runtime/Extensions/Collections/NativeListExtensions.cs:47-51 | The length is set. Within the capacity the storage is untouched: shrinking keeps a prefix, and growing exposes the old slots without clearing them. Beyond the capacity the Length setter resizes into fresh storage that holds the old items as its prefix. |
| `NativeListExtensions.Reverse` | Runtime/Extensions/Collections/NativeListExtensions.cs:53-64 | The items are reversed in place. Slots past the length are unchanged. |
| `NativeListExtensions.ToManagedArray` | Runtime/Extensions/Collections/NativeListExtensions.cs:66-75 | A fresh array holding exactly the list's items. |
| `UnsafeListExtensions.DoubledCapacityIsLeast` | Runtime/Extensions/Collections/UnsafeListExtensions.cs:19-27 | Doubling ends at capacity times a power of two that reaches both minCapacity and the old capacity. It is the least such power: zero doublings exactly when the capacity already sufficed, and one doubling fewer falls short. |
| `UnsafeListExtensions.EnsureCapacity` | Runtime/Extensions/Collections/UnsafeListExtensions.cs:19-27 | The capacity becomes DoubledCapacity(old capacity, minCapacity). Length and items are kept. The buffer is kept when it was already large enough. |
| `UnsafeListExtensions.AsNativeArray` | Runtime/Extensions/Collections/UnsafeListExtensions.cs:9-17 | The view shares the list's buffer, has the list's length and owns no allocator. |
| `UnsafeListExtensions.AsNativeArrayElements` | Runtime/Extensions/Collections/UnsafeListExtensions.cs:9-17 | The view's elements are exactly the list's items. |
| `UnsafeArrayExtensions.ArrayStringAppend` | Runtime/Extensions/Collections/UnsafeArrayExtensions.cs:11-20 | The rendering of a concatenation is the concatenation of the renderings. |
| `UnsafeArrayExtensions.ArrayStringLength` | Runtime/Extensions/Collections/UnsafeArrayExtensions.cs:11-20 | Each element contributes its text and ", ". The text is empty exactly for an empty array. |
| `UnsafeArrayExtensions.ToArrayString` | Runtime/Extensions/Collections/UnsafeArrayExtensions.cs:11-20 | The loop builds exactly ArrayString of the array's elements. |
| `UnsafeArrayExtensions.AsNativeArray` | Runtime/Extensions/Collections/UnsafeArrayExtensions.cs:22-30 | The view shares the buffer, has the array's length and owns no allocator. |
| `UnsafeArrayExtensions.AsNativeArrayElements` | Runtime/Extensions/Collections/UnsafeArrayExtensions.cs:22-30 | The view is valid and shows exactly the array's elements. |
| `UnsafeArrayExtensions.ElementAt` | Runtime/Extensions/Collections/UnsafeArrayExtensions.cs:32-37 | A reference is returned exactly for an index in range, and it points at that slot of that array. |
| `UnsafeArrayExtensions.Write` | Runtime/Extensions/Collections/UnsafeArrayExtensions.cs:32-37 | Writing through the reference changes that one slot only. |
| `UnsafeArrayExtensions.Clear` | Runtime/Extensions/Collections/UnsafeArrayExtensions.cs:39-43 | Every slot holds the zero value, which callers give as default(T). |
| `UnsafeArrayExtensions.Set` | Runtime/Extensions/Collections/UnsafeArrayExtensions.cs:45-50 | Every slot holds the given value. |
| `UnsafeExtensions.CheckCopy` | Runtime/Extensions/UnsafeExtensions.cs:47-51 | The checks pass exactly when the strides match and both sides are long enough. On failure the first failing check (stride, source, destination) is reported. |
| `UnsafeExtensions.Reinterpreted` | Runtime/Extensions/UnsafeExtensions.cs:63-72 | The copied window has count elements, each the reinterpretation of the source element at the same offset. |
| `UnsafeExtensions.ReinterpretedStep` | Runtime/Extensions/UnsafeExtensions.cs:63-72 | The window of count + 1 is the window of count plus one more element. |
| `UnsafeExtensions.CopiedWindow` | Runtime/Extensions/UnsafeExtensions.cs:63-72 | After the copy, the destination window holds the reinterpreted source window and every slot outside it is unchanged. |
| `UnsafeExtensions.CopyRange` | Runtime/Extensions/UnsafeExtensions.cs:63-72 | The element-wise copy leaves the destination equal to Copied(old destination, ...). |
| `UnsafeExtensions.CopyListToArray` | Runtime/Extensions/UnsafeExtensions.cs:22-31 | Outcome: CheckCopy's error, else IndexOutOfRange for an empty destination, else success. Failure leaves the destination untouched; success copies the first count items. |
| `UnsafeExtensions.CopyArrayToArray` | Runtime/Extensions/UnsafeExtensions.cs:33-42 | The same outcome and effect as the list overload, for a NativeArray source. |
| `UnsafeExtensions.CopyArrayToArrayAt` | Runtime/Extensions/UnsafeExtensions.cs:44-54 | The checks include the offsets. Failure leaves the destination untouched. Success copies the source window at sourceOffset into the destination at destinationOffset, and the source never changes. |
| `ArraysOfLists.CheckAllocateArguments` | Runtime/Data/Collections/UnsafeParallelArrayOfLists.cs:132-148 | Passes exactly for a built-in allocator and a non-negative length. The three errors follow the source's order of checks. |
| `ArraysOfLists.ListStartIsProduct` | Runtime/Data/Collections/UnsafeParallelArrayOfLists.cs:229-237 | List i starts at i * capacity in the shared buffer. |
| `ArraysOfLists.RegionsDisjoint` | Runtime/Data/Collections/UnsafeParallelArrayOfLists.cs:229-237 | The regions of two different lists do not overlap. |
| `ArraysOfLists.RegionsFit` | Runtime/Data/Collections/UnsafeParallelArrayOfLists.cs:69-99 | Every region below list n ends at or before list n's start, so listsCount regions fit in listsCount * capacity slots. |
| `ArraysOfLists.SliceUnaffected` | Runtime/Data/Collections/UnsafeParallelArrayOfLists.cs:229-237 | A write outside a region leaves that region's slice unchanged. |
| `ArraysOfLists.ListOf` | Runtime/Data/Collections/UnsafeParallelArrayOfLists.cs:101-104 | List i has lengths[i] elements, read from its region of the buffer. |
| `ArraysOfLists.AddIsolated` | Runtime/Data/Collections/UnsafeParallelArrayOfLists.cs:229-237 | Appending to list i keeps the layout well formed, appends to list i, and leaves every other list unchanged. |
| `ArraysOfLists.RemoveIsolated` | Runtime/Data/Collections/UnsafeParallelArrayOfLists.cs:288-299 | Swap-back removal in list i keeps the layout well formed, swap-back-removes from list i, and leaves every other list unchanged. |
| `ArraysOfLists.UnsafeParallelArrayOfLists.constructor` | Runtime/Data/Collections/UnsafeParallelArrayOfLists.cs:43-56 | Every list is empty. With clearMemory the whole buffer is zeroed. |
| `ArraysOfLists.UnsafeParallelArrayOfLists.AddNoResize` | Runtime/Data/Collections/UnsafeParallelArrayOfLists.cs:229-237 | The length is always incremented. The add succeeds exactly when the list had room, and then appends the value to list i only. On overflow the capacity check fails after the increment. |
| `ArraysOfLists.UnsafeParallelArrayOfLists.Remove` | Runtime/Data/Collections/UnsafeParallelArrayOfLists.cs:266-305 | Removes from list i, by swap-back, the first element that the element type's Equals accepts against the argument, or changes nothing when there is none. Other lists are unchanged. |
| `ArraysOfLists.UnsafeParallelArrayOfLists.RemoveAtSwapBack` | Runtime/Data/Collections/UnsafeParallelArrayOfLists.cs:288-299 | List i loses element k, and its last element takes k's place. Other lists are unchanged. |
| `ArraysOfLists.UnsafeParallelArrayOfLists.Find` | Runtime/Data/Collections/UnsafeParallelArrayOfLists.cs:276-286 | The scan returns the first index in list i whose item Equals accepts against the element, or -1. |
| `ArraysOfLists.UnsafeParallelArrayOfLists.Dispose` | Runtime/Data/Collections/UnsafeParallelArrayOfLists.cs:107-129 | A second Dispose fails as ObjectDisposed, and an invalid allocator fails. Both failures change nothing. Otherwise the buffer is released. |
| `ArraysOfLists.Create` | Runtime/Data/Collections/UnsafeParallelArrayOfLists.cs:69-99 | Fails exactly when CheckAllocateArguments(listsCount * capacity) fails, with its error. Otherwise it gives a fresh valid store of empty lists, zeroed when asked. |
| `ArraysOfLists.Enumerator.constructor` | Runtime/Data/Collections/UnsafeParallelArrayOfLists.cs:176-181 | Starts before the first element of the chosen list's region, with that list's length as its count. |
| `ArraysOfLists.Enumerator.MoveNext` | Runtime/Data/Collections/UnsafeParallelArrayOfLists.cs:185-189 | Advances the index and reports whether it is still below the count. |
| `ArraysOfLists.Enumerator.Reset` | Runtime/Data/Collections/UnsafeParallelArrayOfLists.cs:191-194 | Moves back before the first element. |
| `Seqs.IndexOfBy` | Runtime/Data/Collections/UnsafeParallelArrayOfLists.cs:276-286 | The result is -1 exactly when Equals accepts no item. Otherwise it is an index whose item Equals accepts, and no earlier item is accepted. |
| `ArraysOfLists.RemoveMultiset` | Runtime/Data/Collections/UnsafeParallelArrayOfLists.cs:266-305 | When Equals accepts some item, removal takes exactly one copy of the first such item out of the list's multiset. |
| `ArraysOfLists.EnumerateList` | Runtime/Data/Collections/UnsafeParallelArrayOfLists.cs:170-201 | Enumerating list i yields exactly its items, in order. |
| `ParallelLists.CheckCreate` | Runtime/Data/Collections/ParallelList/ParallelList.cs:126-141 | Passes exactly for a non-negative capacity whose total size fits in an int. Each failure is reported by name. |
| `ParallelLists.PendingStep` | Runtime/Data/Collections/ParallelList/ParallelList.cs:472-479 | While the cached bucket has elements, the next one yielded is the one at the index, and the rest follow. |
| `ParallelLists.ParallelList.Length` | Runtime/Data/Collections/ParallelList/ParallelList.cs:35 | Length is the total number of elements over all buckets. |
| `ParallelLists.ParallelList.constructor` | Runtime/Data/Collections/ParallelList/ParallelList.cs:37-69 | The list is created with one empty bucket per thread. |
| `ParallelLists.ParallelList.Add` | Runtime/Data/Collections/ParallelList/ParallelList.cs:337-340 | The value is appended to the calling thread's bucket only. Length grows by one. |
| `ParallelLists.ParallelList.Clear` | Runtime/Data/Collections/ParallelList/ParallelList.cs:119-122 | Every bucket is empty and Length is 0. The list stays usable. |
| `ParallelLists.ParallelList.Dispose` | Runtime/Data/Collections/ParallelList/ParallelList.cs:143-150 | The list is no longer created. |
| `ParallelLists.Create` | Runtime/Data/Collections/ParallelList/ParallelList.cs:37-69 | Fails exactly when CheckCreate fails, with its error. Otherwise it gives a fresh, created, empty list. |
| `ParallelLists.AllEmptyConcat` | Runtime/Data/Collections/ParallelList/ParallelList.cs:119-122 | All-empty buckets concatenate to nothing. |
| `ParallelLists.CopyToListSingle` | Runtime/Data/Collections/ParallelList/ParallelList.cs:403-442 | The destination ends holding its old items followed by every bucket's elements, in thread order. |
| `ParallelLists.CopyStep` | Runtime/Data/Collections/ParallelList/ParallelList.cs:434-441 | Copying bucket i at the running offset extends the copied prefix by that bucket. |
| `ParallelLists.Enumerator.constructor` | Runtime/Data/Collections/ParallelList/ParallelList.cs:462-469 | The elements still to come are all buckets concatenated. |
| `ParallelLists.Enumerator.MoveNext` | Runtime/Data/Collections/ParallelList/ParallelList.cs:472-500 | True exactly when elements remain. Then Current is the next one and one element fewer remains. Otherwise Current is the default value. |
| `ParallelLists.Enumerator.Reset` | Runtime/Data/Collections/ParallelList/ParallelList.cs:502-507 | After Reset, all buckets concatenated remain again. |
| `ParallelLists.Drain` | Runtime/Data/Collections/ParallelList/ParallelList.cs:472-500 | Calling MoveNext until false yields exactly the remaining elements. |
| `ParallelLists.FlattenContiguous` | Tests/Editor/ParallelListTests.cs:16-47 | When thread s adds k consecutive values from offset + s*k, the buckets concatenate to one consecutive range. |
| `ParallelLists.RangeSplit` | Tests/Editor/ParallelListTests.cs:35-40 | Two adjacent ranges concatenate to one range. |
| `ParallelListExtensions.Enumerator.constructor` | Runtime/Extensions/Collections/ParallelListExtensions.cs:32-39 | The elements still to come are all buckets concatenated. |
| `ParallelListExtensions.Enumerator.MoveNext` | Runtime/Extensions/Collections/ParallelListExtensions.cs:42-71 | The same stepping as the list's own enumerator. At the end the last bucket stays cached. |
| `ParallelListExtensions.Enumerator.Reset` | Runtime/Extensions/Collections/ParallelListExtensions.cs:73-77 | Reset keeps the cached bucket. What remains is that bucket followed by buckets 1 onward. |
| `ParallelListExtensions.ReplayAfterFullPass` | Runtime/Extensions/Collections/ParallelListExtensions.cs:73-77 | After a full pass and a Reset, the last bucket replays where bucket 0 should be. |
| `ParallelListExtensions.ReplayCounterexample` | Runtime/Extensions/Collections/ParallelListExtensions.cs:73-77 | For buckets [[1],[2]], the first pass yields [1,2] and the pass after Reset yields [2,2]. |
| `PlayerLoop.SizeNode` | Runtime/Utils/PlayerLoopUtils.cs:62-73 | A node's size is one plus the size of its children. |
| `PlayerLoop.SizeOfAppend` | Runtime/Utils/PlayerLoopUtils.cs:62-73 | The size of a concatenation of sibling lists is the sum of their sizes. |
| `PlayerLoop.SizeAllIsSizeOf` | Runtime/Utils/PlayerLoopUtils.cs:62-73 | The children-prefix measure equals the size of that prefix. |
| `PlayerLoop.SizeOfSingle` | Runtime/Utils/PlayerLoopUtils.cs:62-73 | A one-element sibling list has that element's size. |
| `PlayerLoop.ContainsChildren` | Runtime/Utils/PlayerLoopUtils.cs:51-73 | A tree contains a type exactly when its root has it or some child's subtree does. |
| `PlayerLoop.FirstContaining` | Runtime/Utils/PlayerLoopUtils.cs:66-70 | The position of the first child from i on whose subtree holds the type (or the end): no earlier child holds it. |
| `PlayerLoop.InsertFacts` | Runtime/Utils/PlayerLoopUtils.cs:51-73 | Insertion fails as not found exactly when no node has the type. A node of the type succeeds exactly for an index in [0, count] and then holds the children with the system spliced in at the index. Any other node hands the insertion to its first child whose subtree holds the type: on success that child alone is replaced by its inserted form, and an index error there is the result. The tree grows by the system's size, and the node keeps its type and delegate. |
| `PlayerLoop.InsertAmongFacts` | Runtime/Utils/PlayerLoopUtils.cs:62-73 | The loop over children fails exactly when no child from i onward contains the type. Otherwise the first child from i on that contains it decides: on success the result replaces that child, and only it, by its inserted form; an index error there is the result. |
| `PlayerLoop.ReplaceChildSize` | Runtime/Utils/PlayerLoopUtils.cs:66-70 | Replacing one child changes the parent's size by the children's difference. |
| `PlayerLoop.InsertSystem` | Runtime/Utils/PlayerLoopUtils.cs:51-60 | The method returns Insert(loop, type, system, index): a node of the type gets the system inserted into its list, otherwise the search moves to the children. |
| `PlayerLoop.HandleSubSystemLoop` | Runtime/Utils/PlayerLoopUtils.cs:62-73 | For a root of another type, the result is Insert: null children give not found, otherwise the first child that accepts the insert is replaced. |
| `PlayerLoop.RemoveLevel` | Runtime/Utils/PlayerLoopUtils.cs:21-28 | The as-written scan never grows the list and keeps only old members (as a sub-multiset). |
| `PlayerLoop.RemoveLevelKeepsOthers` | Runtime/Utils/PlayerLoopUtils.cs:21-28 | The as-written scan drops only matching children: the children that differ from the target survive, all of them and in their original order. |
| `PlayerLoop.RemoveAllMatching` | Runtime/Utils/PlayerLoopUtils.cs:21-28 | Every remaining system is an old one that does not match the target's type and delegate. |
| `PlayerLoop.RemoveAllMatchingExact` | Runtime/Utils/PlayerLoopUtils.cs:21-28 | A system remains exactly when it was present and does not match. Nothing is removed exactly when nothing matches. |
| `PlayerLoop.RemoveLevelDiffersFromIntended` | Runtime/Utils/PlayerLoopUtils.cs:21-28 | On [target, target], the as-written scan and the intended removal give different results. |
| `PlayerLoop.RemoveLevelSkipsNeighbour` | Runtime/Utils/PlayerLoopUtils.cs:21-28 | On [target, target], the as-written scan leaves one target behind. |
| `PlayerLoop.Removed` | Runtime/Utils/PlayerLoopUtils.cs:16-41 | Removal keeps the node's own type and delegate. A null child list stays null and leaves the node unchanged. |
| `PlayerLoop.RemovedChildren` | Runtime/Utils/PlayerLoopUtils.cs:16-41 | At a node with children, the as-written scan keeps every non-matching child in order, and the new children are the kept ones, each processed by RemoveSystem in its own position. |
| `PlayerLoop.RemovedAll` | Runtime/Utils/PlayerLoopUtils.cs:37-40 | Recursing over the children keeps their number. |
| `PlayerLoop.RemovedAllPointwise` | Runtime/Utils/PlayerLoopUtils.cs:37-40 | Each child is replaced by its own removal. |
| `PlayerLoop.RemoveNeverGrows` | Runtime/Utils/PlayerLoopUtils.cs:16-41 | Removal never increases the size of the tree. |
| `PlayerLoop.RemovedAllSize` | Runtime/Utils/PlayerLoopUtils.cs:37-40 | The recursion over children never increases their total size. |
| `PlayerLoop.RemoveLevelSize` | Runtime/Utils/PlayerLoopUtils.cs:21-28 | The as-written scan never increases the total size of a level. |
| `PlayerLoop.SizeOfWithout` | Runtime/Utils/PlayerLoopUtils.cs:25 | Dropping one element never increases a sibling list's size. |
| `PlayerLoop.RemoveSystem` | Runtime/Utils/PlayerLoopUtils.cs:16-31 | The method's result is Removed(loop, target). |
| `PlayerLoop.RemoveSystemLeavesMatch` | Runtime/Utils/PlayerLoopUtils.cs:16-31 | As written, removing from a root whose two children both match leaves a matching child in the tree. |
| `PlayerLoop.RemovedIntended` | Runtime/Utils/PlayerLoopUtils.cs:16-41 | The corrected removal keeps each node's type and delegate, and leaves a node with a null child list unchanged. |
| `PlayerLoop.RemovedIntendedAll` | Runtime/Utils/PlayerLoopUtils.cs:37-40 | The corrected recursion over children keeps their number. |
| `PlayerLoop.RemovedIntendedClean` | Runtime/Utils/PlayerLoopUtils.cs:16-41 | After the corrected removal, no node anywhere in the tree has a direct child matching the removed system. |
| `PlayerLoop.RemovedIntendedAllClean` | Runtime/Utils/PlayerLoopUtils.cs:33-41 | Processing non-matching children yields non-matching, clean children. |
| `PlayerLoop.HandleSubSystemLoopForRemoval` | Runtime/Utils/PlayerLoopUtils.cs:33-41 | Each child is replaced by its removal, and nothing else changes. |
| `RandomUtils.PicksLength` | Runtime/Utils/RandomUtils.cs:86-91 | The draw takes min(max(want, 0), pool size) elements. |
| `RandomUtils.PicksPartition` | Runtime/Utils/RandomUtils.cs:86-91 | From a duplicate-free pool, the picks and the leftovers are each duplicate-free, disjoint, and together exactly the pool. |
| `RandomUtils.SwapBackMembers` | Runtime/Utils/RandomUtils.cs:90 | Swap-back removal of element j keeps the rest duplicate-free and removes exactly that element. |
| `RandomUtils.PicksStep` | Runtime/Utils/RandomUtils.cs:86-91 | One loop iteration takes the rolled element and swap-back-removes it from the pool. |
| `RandomUtils.DrawStep` | Runtime/Utils/RandomUtils.cs:86-91 | One iteration keeps the draw invariant. |
| `RandomUtils.Draw` | Runtime/Utils/RandomUtils.cs:85-91 | The while loop's selection equals Picks for the same rolls. |
| `RandomUtils.Indices` | Runtime/Utils/RandomUtils.cs:79-83 | The pool is 0..indicesCount-1 (empty for a non-positive count), without duplicates. |
| `RandomUtils.SelectionFacts` | Runtime/Utils/RandomUtils.cs:77-95 | The selection has min(maxSelectedCount, indicesCount) elements (negatives as 0), all distinct, all in 0..indicesCount-1. |
| `RandomUtils.SelectRandomIndices` | Runtime/Utils/RandomUtils.cs:77-95 | For any in-range random oracle, the result is that many distinct indices in range, equal to the specified draw. |
| `StringUtils.Stripped` | Runtime/Utils/StringUtils.cs:5-20 | Null stays null. Otherwise the result is no longer than the input and holds only non-whitespace characters of the input. |
| `StringUtils.StrippedMembers` | Runtime/Utils/StringUtils.cs:13-17 | A character occurs in the result exactly when it occurs in the input and is not whitespace. |
| `StringUtils.StrippedLength` | Runtime/Utils/StringUtils.cs:5-20 | The length is unchanged exactly when the input has no whitespace, and then the string is returned as is. |
| `StringUtils.StrippedIdempotent` | Runtime/Utils/StringUtils.cs:5-20 | Stripping twice is the same as stripping once. |
| `StringUtils.RemoveAllWhitespace` | Runtime/Utils/StringUtils.cs:5-20 | The buffer loop's result is Stripped(input). |
| `UniTimers.Started` | Runtime/Data/UniTimer.cs:14-19 | Start leaves the timer running, with the given duration and zero elapsed time. |
| `UniTimers.Stopped` | Runtime/Data/UniTimer.cs:21-30 | Stop and Pause leave the timer not running and change nothing else. |
| `UniTimers.Resumed` | Runtime/Data/UniTimer.cs:29 | Resume leaves the timer running and changes nothing else. |
| `UniTimers.Reset` | Runtime/Data/UniTimer.cs:32 | Elapsed time becomes zero. Current time, running state and duration are kept. |
| `UniTimers.Progress` | Runtime/Data/UniTimer.cs:33 | Undefined exactly for a zero duration. Otherwise progress times duration is the elapsed time. |
| `UniTimers.Tick` | Runtime/Data/UniTimer.cs:40-52 | Reports true exactly for a running timer at or past its duration. A finished or stopped timer does not move. Otherwise time advances by the delta. The running state is never changed. |
| `UniTimers.TickUntilFinished` | Runtime/Data/UniTimer.cs:59-71 | Reports true exactly for a running timer at or past its duration, and then stops it. A stopped timer does not move. Otherwise time advances by the delta. |
| `UniTimers.CompletionReportedOnce` | Runtime/Data/UniTimer.cs:59-71 | Any run of TickUntilFinished calls reports completion at most once, and after the report the timer is stopped. |
| `UniTimers.TickStaysFinished` | Runtime/Data/UniTimer.cs:40-52 | After Tick reports true, later Ticks keep reporting true without advancing time. |
| `UniTimers.TimerLaws` | Runtime/Data/UniTimer.cs:14-71 | Stop is idempotent. Start gives progress 0 for a nonzero duration. A stopped timer ignores both kinds of tick. |
| `UniTimers.TickUntilFinishedTerminates` | Runtime/Data/UniTimer.cs:59-71 | Over real time, with a positive delta, a running timer reports completion within (duration - elapsed)/delta + 1 calls. |
| `UniTimers.UniTimer.constructor` | Runtime/Data/UniTimer.cs:8-12 | The default timer has every field zero or false. |
| `UniTimers.UniTimer.Start` | Runtime/Data/UniTimer.cs:14-19 | The fields become Started(old state, duration). |
| `UniTimers.UniTimer.Stop` | Runtime/Data/UniTimer.cs:21-27 | The fields become Stopped(old state). |
| `UniTimers.UniTimer.Resume` | Runtime/Data/UniTimer.cs:29 | The fields become Resumed(old state). |
| `UniTimers.UniTimer.Pause` | Runtime/Data/UniTimer.cs:30 | The fields become Stopped(old state). |
| `UniTimers.UniTimer.ResetTime` | Runtime/Data/UniTimer.cs:32 | The fields become Reset(old state). |
| `UniTimers.UniTimer.TickBy` | Runtime/Data/UniTimer.cs:40-52 | The new fields and the return value are Tick(old state, delta). |
| `UniTimers.UniTimer.TickUntilFinishedBy` | Runtime/Data/UniTimer.cs:59-71 | The new fields and the return value are TickUntilFinished(old state, delta). |
| `RuntimeMaterials.GetBatchMaterial` | Runtime/Rendering/RuntimeMaterialSystem.cs:51-68 | A cached key returns its entry and changes nothing. A new key gets a fresh clone of the source material carrying the lookup's texture, is cached, and never displaces another entry. The ID is nonzero exactly when registration was asked for, and then it is the next registered ID. The cache invariant is kept. |
| `RuntimeMaterials.Visit` | Runtime/Rendering/RuntimeMaterialSystem.cs:32-48 | A matching, enabled entity gets its batch material and is disabled, with its key cached. Any other entity and the cache are unchanged. |
| `RuntimeMaterials.PassOver` | Runtime/Rendering/RuntimeMaterialSystem.cs:32-48 | A pass keeps the number of entities. |
| `RuntimeMaterials.PassOverCache` | Runtime/Rendering/RuntimeMaterialSystem.cs:32-48 | A pass only adds entries: exactly the lookups of the entities it matches. |
| `RuntimeMaterials.PassOverEntities` | Runtime/Rendering/RuntimeMaterialSystem.cs:32-48 | Each matching entity is assigned the final cache's entry for its lookup. Every other entity is unchanged. |
| `RuntimeMaterials.PassOverFacts` | Runtime/Rendering/RuntimeMaterialSystem.cs:32-48 | Both of the above together. |
| `RuntimeMaterials.PassOverValid` | Runtime/Rendering/RuntimeMaterialSystem.cs:32-48 | A pass keeps the cache invariant: distinct materials per key and distinct nonzero IDs. |
| `RuntimeMaterials.UpdateFacts` | Runtime/Rendering/RuntimeMaterialSystem.cs:28-49 | OnUpdate keeps the number of entities, only adds cache entries and keeps the invariant. An entity stays enabled exactly when it was enabled and had neither component. |
| `RuntimeMaterials.SameLookupSameMaterial` | Runtime/Rendering/RuntimeMaterialSystem.cs:51-68 | Two entities with the same lookup receive the same material in a pass. |
| `RuntimeMaterials.DistinctLookupsDistinctMaterials` | Runtime/Rendering/RuntimeMaterialSystem.cs:51-68 | Different lookups receive different materials. |
| `RuntimeMaterials.UnregisteredStaysDefault` | Runtime/Rendering/RuntimeMaterialSystem.cs:41-48 | A material first created by the runtime pass (unregistered) keeps the default ID when the mesh pass later asks for it. |
| `RuntimeMaterials.BothComponentsOnlyMeshPass` | Runtime/Rendering/RuntimeMaterialSystem.cs:32-48 | An entity with both components is handled by the mesh pass only, because that pass disables it. |
| `RuntimeMaterials.DisabledSkipped` | Tests/Editor/RuntimeMaterialSystemTests.cs:84-111 | A disabled entity is left untouched by OnUpdate. |
| `RuntimeMaterials.EntitiesGraphicsSystem.RegisterMaterial` | Runtime/Rendering/RuntimeMaterialSystem.cs:62 | Each registration returns the next ID, counting from one. |
| `RuntimeMaterials.RuntimeMaterialSystem.GetBatchMaterialFor` | Runtime/Rendering/RuntimeMaterialSystem.cs:51-68 | The dictionary, token counter and registry move exactly as GetBatchMaterial says. |
| `RuntimeMaterials.RuntimeMaterialSystem.RunPass` | Runtime/Rendering/RuntimeMaterialSystem.cs:32-39 | The foreach over the entity array leaves the cache and entities equal to PassOver. |
| `RuntimeMaterials.RuntimeMaterialSystem.OnUpdate` | Runtime/Rendering/RuntimeMaterialSystem.cs:28-49 | The mesh pass then the runtime pass: the cache and entities end as Update says. |
| `RuntimeMaterials.RuntimeMaterialSystem.OnDestroy` | Runtime/Rendering/RuntimeMaterialSystem.cs:70-81 | Exactly the cached materials are destroyed, one destroy per cache entry. |

## Left out

- **Concurrency is not modelled.** Interlocked operations, SpinLock, job
  scheduling and safety handles are left out: every operation is modelled as
  running alone.
- **Thread readers are not modelled.** The ParallelList chunk and thread
  readers and writers, SetChunkCount and the other methods that only forward
  to a bucket are left out. Add is modelled as writing to the bucket of the
  given thread slot.
- **Unity's own containers are simplified.**
  - The capacity setter of Unity's lists is modelled as setting exactly the
    requested capacity; Unity's rounding is not modelled.
  - Unity's `Assert` and safety checks that only run in checked builds are
    left out, except the checks this code makes itself.
- **Memory layout is not modelled.** UnsafeParallelArrayOfLists.Allocate lays
  out the lengths, the buffer and the header in one raw allocation; the model
  keeps them as separate arrays. Views such as AsNativeArray share the
  `array` but do not model pointer aliasing beyond that.
- **32-bit integer overflow is not modelled, with one exception.** Sizes and
  lengths are unbounded; only HashUtils works on explicit 32-bit words.
- ArraysOfLists.Create: requires that listsCount and capacity are not both
  negative. In that case the product is positive and passes the source's
  length check, and what the allocation does next is not modelled.
- **Builds without collection checks are not modelled.** AddNoResize, like
  the other checks marked `Conditional`, follows builds with the checks on. A
  full list then throws after its length was incremented. Without the checks
  the source writes past the list's region; that case is not modelled.
- **UnsafeExtensions.CopyToUnsafe negative arguments are excluded.** A negative
  count or offset is not checked by the source, and the model excludes it
  through `nat` parameters.
- `GetTempPtr` in UnsafeExtensions.cs is left out. It allocates temporary
  memory for a pointer and has no observable contract beyond the allocator.
- **Randomness is a parameter.** RandomUtils's Random is a parameter: any
  function returning an index in range. The pooled list is a local sequence;
  its pooling is not modelled.
- The float helpers of RandomUtils.cs, such as `NextVariant`, are left out
  (floating point).
- **Hash uniqueness is not proved.** The comment on `Simple` in HashUtils.cs
  claims the hash is unique per position. That cannot hold: it maps a
  64-bit position to a 32-bit hash. Only the word layout and the zero case
  are stated.
- `PrintPlayerLoop` in PlayerLoopUtils.cs is left out (console output only).
- `ToString` of BlittableBool is left out (formatting of `bool`).
- The TimeData overloads of UniTimer's Tick and TickUntilFinished are not
  modelled separately. They only pass `DeltaTime` on to the float
  overloads.
- **UniTimer times are reals.** Float rounding is not modelled. Progress with
  a zero duration, where float division gives an infinity or NaN, is modelled
  as no value.
- **RuntimeMaterialSystem is reduced to what the cache decides.**
  - Unity object creation and the graphics registry become counters: a new
    token per clone and the next ID per registration.
  - The editor's DestroyImmediate and the player's Destroy are not
    distinguished.
  - The sprite is part of the key but is never applied to the clone; the
    source sets only `mainTexture`.
  - `MaterialLookup` is also declared in RuntimeMaterial.cs. The
    RuntimeMaterialLookup.cs declaration is the one modelled.
- NativeListExtensions.EnsureCapacity and UnsafeListExtensions.EnsureCapacity:
  require a positive capacity or one that already suffices. With capacity 0
  and a larger minCapacity the source's doubling loop never ends.
- NativeListExtensions.RemoveAtSwapBack: requires a non-empty list. On an
  empty list the source decrements the length to -1.
- NativeListExtensions.RemoveAtSwapBack: takes the index as a `nat`. A
  negative index reads and writes outside the buffer in the source, which is
  undefined behaviour.
- NativeListExtensions.EnsureCapacity: requires minCapacity >= 0 when
  setLengthNoClear is set. The source would store a negative length, which is
  undefined behaviour for the list.
- NativeListExtensions.SetLengthNoClear: takes the length as a `nat`. The
  source stores a negative length as it is, which leaves the list invalid.
- UnsafeExtensions.CopyArrayToArrayAt: requires distinct source and
  destination arrays. The source copies with MemCpy, whose result on
  overlapping memory is undefined.
- UnsafeArrayExtensions.Clear: takes the zero value as a parameter. MemClear
  writes all-zero bytes, and the model does not relate them to default(T).
- UniTimers.TickUntilFinishedTerminates: is proved over real time only. With
  floats, a delta small enough to be rounded away stalls the timer.

## Findings

| source | as written | input that shows it | evidently intended | confidence | as-written member | corrected member |
|---|---|---|---|---|---|---|
| Runtime/Extensions/Collections/ParallelListExtensions.cs:73-77 | Reset sets the thread and the index to 0 but keeps the cached thread list, so the next pass starts with the last bucket read instead of bucket 0 | buckets [[1],[2]]: enumerate to the end (1, 2), Reset, enumerate again: 2, 2 | Reset reloads bucket 0, as ParallelList.Enumerator.Reset does at Runtime/Data/Collections/ParallelList/ParallelList.cs:502-507, so a second pass yields the same elements | not executed | `ParallelListExtensions.ReplayCounterexample` | `ParallelLists.Enumerator.Reset` |
| Runtime/Utils/PlayerLoopUtils.cs:21-28 | after RemoveAt(i) the loop still does ++i, so the element moved into slot i is never examined | a root whose children are [s, s], both matching the system to remove: the result still has child s | every matching system at the level is removed | not executed | `PlayerLoop.RemoveSystemLeavesMatch` | `PlayerLoop.RemovedIntendedClean` |
