# Event-raising collections: a Dafny model

This project models the veto-able mutation protocol of the CSF.Collections event-raising
collections. A decorator wraps a plain collection (a generic collection, a list or a set)
and handles every mutating call in four steps:

1. It raises a cancellable *before* record (BeforeAdd or BeforeRemove) carrying the item.
2. It consults the record's cancel flag.
3. It touches the underlying storage only when no handler cancelled.
4. Only when the storage change happened, it raises the *after* record (AfterAdd or
   AfterRemove) and, in the newer generation, a collection-changed notification.

The list adds Insert, RemoveAt and an indexer. The set adds a boolean Add, the bulk
operations AddAll and RemoveAll, and set algebra built from Add and Remove. A wrapper owns
a replaceable source collection. It rebuilds an inner event-raising collection whenever
the source is replaced, with a cancellable before-replace record and an after-replace
record around the swap. It also re-publishes the inner collection's four item-level events
to its own handlers. The older generation (`CSF.Collections.EventHandling`) has the same
protocol without changed notifications, and its wrapper stores the inner collection into
the wrong field.

How the model is built:

- **Records.** Every record raised is an `Events.Event` value. Each collection's
  `CollectionEvents` object appends every record to `trace`.
- **Handlers.** The handlers attached to a collection are a `Subscribers` object. Its
  `cancels` oracle says whether some before-handler calls Cancel on a record, and
  `received` holds every item-level record handed to them.
- **Wrapper attachment.** A wrapper attaches its re-publishers to an inner collection by
  making its own `Subscribers` the inner collection's subscribers. A re-publisher passes
  the very same record object on, so a wrapper handler's Cancel cancels the inner
  operation.
- **Storage.** List storage is a `seq` in a `Storage.ListSource` object. Set storage is a
  `set` in a `Storage.SetSource` object.
- **Operations.** Each operation is an imperative method proved against a pure step
  function (`Lists.InsertStep`, `Lists.SetItemStep`, `Sets.AddStep`, `Sets.AddAllStep`,
  …). What the source promises is then proved as lemmas about those functions.

The generic collection `EventRaisingCollection` only supplies record factories, so it is
folded into `Lists.EventRaisingList`. The base class's Add, Remove, Clear, Count, Contains
and CopyTo are modelled there over list storage. The two copies of the set class are the
single class `Sets.EventRaisingSet`, told apart by `notifiesAdd`: the public set's Add
raises a changed notification, and the copy the set wrapper builds does not.

Two behaviours of the code worth stating:

- The list's Add is the inherited generic Add: it appends and raises index-less records.
  The list-index record classes (CSF.Collections.EventRaising/AfterModifyListEventArgs.cs:8,
  CSF.Collections.EventRaising/BeforeModifyListEventArgs.cs:8) are defined, but no list
  operation builds one, so the model has none.
- The generic Add (and the set's Add reached through the collection interface,
  `Sets.EventRaisingSet.AddThroughCollection`) raises the after-add record whether or not
  the storage add changed anything. The storage add's result is never consulted.

## Model

| member | source | states |
|---|---|---|
| EventArgs.NewAfterModifyRecord | CSF.Collections.EventRaising/AfterModifyEventArgs.cs:55-59 | a null collection is rejected with an argument-null error and nothing else is; the record holds exactly the collection and item given, a null item included |
| EventArgs.BeforeModifyEventArgs.constructor | CSF.Collections.EventRaising/BeforeModifyEventArgs.cs:54-57 | a fresh before-modify record holds the collection and item given and is not cancelled |
| EventArgs.BeforeModifyEventArgs.Cancel | CSF.Collections.EventRaising/BeforeModifyEventArgs.cs:41-46 | Cancel sets the flag to true, and again true on a second call; nothing else writes the flag, so it never returns to false |
| EventArgs.NewBeforeModifyEventArgs | CSF.Collections.EventRaising/BeforeModifyEventArgs.cs:54-57 | building a before-modify record fails exactly for a null collection; otherwise the record is fresh, holds its arguments and is not cancelled |
| EventArgs.BeforeReplaceEventArgs.constructor | CSF.Collections.EventRaising/BeforeReplaceEventArgs.cs:51-54 | a fresh before-replace record holds the original and the replacement given, either of which may be null, and is not cancelled |
| EventArgs.BeforeReplaceEventArgs.Cancel | CSF.Collections.EventRaising/BeforeReplaceEventArgs.cs:39-44 | Cancel sets the flag to true, idempotently; the flag is one-way |
| CollectionEvents.CollectionEvents.RaiseBefore | CSF.Collections.EventRaising/EventRaisingCollectionBase.cs:189-195 | the before-record is appended to the trace and handed to the attached handlers; the call proceeds exactly when the record is not cancellable or no handler cancelled it |
| CollectionEvents.CollectionEvents.Raise | CSF.Collections.EventRaising/EventRaisingCollectionBase.cs:201-205 | an after-record or changed notification is appended to the trace; handlers receive it only when it is one of the four item-level events |
| Events.AttemptItemEvents | CSF.Collections.EventRaising/EventRaisingCollectionWrapperBase.cs:122-143 | what the handlers of the four item-level events receive of one add or remove attempt is the before-record, then the after-record exactly when the change happened, and never the changed notification |
| Events.ClearRecordsPairs | CSF.Collections.EventRaising/EventRaisingCollectionBase.cs:94-99 | with no veto, Clear's records hold exactly one before-remove and one after-remove per item removed, in removal order, and its length is two (three with changed notifications) records per item |
| Events.ItemEventsAppend | CSF.Collections.EventRaising/EventRaisingCollectionWrapperBase.cs:122-143 | what the handlers receive over two consecutive stretches of records is what they receive of each, concatenated |
| Storage.IndexOfFirst | CSF.Collections.EventRaising/EventRaisingList.cs:92-95 | the result is -1 exactly when the item is absent; otherwise it is a position holding the item with no earlier occurrence |
| Storage.ListSource.CopyTo | CSF.Collections.EventRaising/EventRaisingCollectionBase.cs:118 | a null array, a negative index and too little room each fail with their own error and write nothing; otherwise the items land at the index in order and no other slot changes |
| Lists.EventRaisingList.constructor | CSF.Collections.EventRaising/EventRaisingCollectionBase.cs:276-279 | a new collection wraps the given source, cancellable records, no handlers and an empty trace |
| Lists.NewEventRaisingList | CSF.Collections.EventRaising/EventRaisingCollectionBase.cs:276-279 | construction fails with an argument-null error exactly when the source is null |
| Lists.EventRaisingList.Count | CSF.Collections.EventRaising/EventRaisingCollectionBase.cs:58 | the number of items of the source; nothing is raised (a function reads state only) |
| Lists.EventRaisingList.Contains | CSF.Collections.EventRaising/EventRaisingCollectionBase.cs:107 | true exactly when some position of the source holds the item; nothing is raised |
| Lists.EventRaisingList.IndexOf | CSF.Collections.EventRaising/EventRaisingList.cs:92-95 | -1 exactly when the item is absent, else the position of its first occurrence; nothing is raised |
| Lists.EventRaisingList.Get | CSF.Collections.EventRaising/EventRaisingList.cs:43-45 | the item at the index, or an out-of-range error exactly when the index is outside the list; nothing is raised |
| Lists.EventRaisingList.Add | CSF.Collections.EventRaising/EventRaisingCollectionBase.cs:82-89 | a cancelled add leaves the items as they were and raises only the before-add record; otherwise the item is appended and the after-add record and the changed notification follow |
| Lists.EventRaisingList.Remove | CSF.Collections.EventRaising/EventRaisingCollectionBase.cs:126-140 | returns true exactly when not cancelled and the item is present; then its first occurrence goes and after-remove and changed follow; a cancelled or absent removal raises only the before-remove record and changes nothing |
| Lists.EventRaisingList.Clear | CSF.Collections.EventRaising/EventRaisingCollectionBase.cs:94-99 | with no removal of an item present cancelled, the list ends empty and exactly the removal records of its items, front to back, are raised and received |
| Lists.EventRaisingList.Insert | CSF.Collections.EventRaising/EventRaisingList.cs:106-113 | a cancelled insert changes nothing; otherwise the item goes in before the index with after-add and changed following, and an index outside 0..Count fails after the before-add record with the list unchanged |
| Lists.EventRaisingList.RemoveAt | CSF.Collections.EventRaising/EventRaisingList.cs:72-81 | an index outside the list fails before anything is raised; otherwise the item at the index is read, and unless cancelled its FIRST occurrence is removed, with after-remove and changed following |
| Lists.EventRaisingList.RemoveForReplacement | CSF.Collections.EventRaising/EventRaisingList.cs:49-58 | for an index inside the list, the item there is raised for removal; the setter goes on exactly when no handler cancelled, and then that item's first occurrence is gone and after-remove and changed follow |
| Lists.EventRaisingList.SetItem | CSF.Collections.EventRaising/EventRaisingList.cs:46-63 | the indexer's setter does exactly what SetItemStep describes: a cancelled removal abandons the call, an accepted one removes by value and then inserts at the index |
| Lists.EventRaisingList.CopyTo | CSF.Collections.EventRaising/EventRaisingCollectionBase.cs:118 | the source's CopyTo, with its argument errors; nothing is raised and only the copied slots change |
| Lists.ClearRounds | CSF.Collections.EventRaising/EventRaisingCollectionBase.cs:96-97 | after any number of rounds of Clear's loop, what is left is a suffix of the list |
| Lists.RemoveFirstAt | CSF.Collections.EventRaising/EventRaisingList.cs:76 | removing by value removes the item at position i whenever its value does not occur before i |
| Lists.SetItemReplaces | CSF.Collections.EventRaising/EventRaisingList.cs:46-63 | with the old item not occurring earlier and nothing cancelled, the item at i is replaced by the new value, and exactly before-remove, after-remove, changed, before-add, after-add, changed are raised |
| Lists.SetItemCancelled | CSF.Collections.EventRaising/EventRaisingList.cs:51-61 | a cancelled removal leaves the list and raises only before-remove; an accepted removal followed by a cancelled insert leaves the list one shorter, less one copy of the old item |
| Lists.SetItemPastEnd | CSF.Collections.EventRaising/EventRaisingList.cs:49-61 | an index at or past the end skips the removal and is a plain Insert; at the end exactly it appends, past it it fails with an out-of-range error |
| Lists.ClearEmpties | CSF.Collections.EventRaising/EventRaisingCollectionBase.cs:94-99 | Clear's loop empties the list within Count rounds if and only if no item present has its removal cancelled |
| Lists.ClearStalls | CSF.Collections.EventRaising/EventRaisingCollectionBase.cs:96-97 | once an item whose removal is cancelled is present, no number of rounds empties the list: the loop never ends |
| Lists.RemoveAtDuplicateCounterexample | CSF.Collections.EventRaising/EventRaisingList.cs:74-76 | on [1, 2, 1] at index 2, RemoveAt as written leaves [2, 1] where removing position 2 gives [1, 2] |
| Lists.EventRaisingList.RemoveAtPosition | CSF.Collections.EventRaising/EventRaisingList.cs:72-81 | the corrected RemoveAt: unless cancelled, the item at the index itself goes, whatever occurs before it |
| Lists.SetItemDuplicateCounterexample | CSF.Collections.EventRaising/EventRaisingList.cs:50-61 | on [1, 2, 1], setting index 2 to 3 with nothing cancelled gives [2, 1, 3] as written, where [1, 2, 3] is meant |
| Lists.SetItemAtPositionReplaces | CSF.Collections.EventRaising/EventRaisingList.cs:46-63 | the corrected indexer replaces the item at i in every list, duplicates or not, and agrees with the code as written when the old item does not occur earlier |
| Sets.ExceptInOrder | CSF.Collections.EventRaising/EventRaisingSet.cs:199-203 | the items of a LINQ Except query are the items of the first sequence not in the second, each exactly once |
| Sets.EnumerationOf | CSF.Collections.EventRaising/EventRaisingSet.cs:132 | a set is enumerated as a sequence holding each of its elements exactly once, as the Except query of IntersectWith (line 132) and the Intersect query of SymmetricExceptWith (line 182) are |
| Sets.EventRaisingSet.constructor | CSF.Collections.EventRaising/Impl/EventRaisingSet.cs:266 | a new set wraps the given source, with cancellable records, no handlers and an empty trace, and raises changed on add as chosen |
| Sets.NewEventRaisingSet | CSF.Collections.EventRaising/EventRaisingCollectionBase.cs:276-279 | construction fails with an argument-null error exactly when the source is null |
| Sets.EventRaisingSet.Add | CSF.Collections.EventRaising/EventRaisingSet.cs:47-61 | a cancelled add returns false and changes nothing; an item already present returns false with only before-add raised; a new item is added, returns true and raises after-add and (public set only) changed |
| Sets.EventRaisingSet.AddThroughCollection | CSF.Collections.EventRaising/EventRaisingCollectionBase.cs:82-89 | the inherited Add reached through the collection interface raises after-add and changed on every uncancelled add, even for an item already present |
| Sets.EventRaisingSet.Remove | CSF.Collections.EventRaising/EventRaisingCollectionBase.cs:126-140 | returns true exactly when not cancelled and present; only then does the element go, with after-remove and changed following (in both set copies) |
| Sets.EventRaisingSet.Clear | CSF.Collections.EventRaising/EventRaisingCollectionBase.cs:94-99 | with no removal cancelled, the set ends empty and exactly one removal per element, in enumeration order, is raised and received |
| Sets.EventRaisingSet.AddAll | CSF.Collections.EventRaising/EventRaisingSet.cs:73-86 | a null argument fails before anything is raised; otherwise every item is tried through Add, in order, and the result is the or of their results |
| Sets.EventRaisingSet.RemoveAll | CSF.Collections.EventRaising/EventRaisingSet.cs:98-111 | a null argument fails before anything is raised; otherwise every item is tried through Remove, in order, and the result is the or of their results |
| Sets.EventRaisingSet.ExceptWith | CSF.Collections.EventRaising/EventRaisingSet.cs:117-122 | a null argument fails; otherwise RemoveAll over the items of the argument |
| Sets.EventRaisingSet.IntersectWith | CSF.Collections.EventRaising/EventRaisingSet.cs:128-133 | a null argument fails; otherwise exactly the elements outside the argument are tried for removal, each once |
| Sets.EventRaisingSet.UnionWith | CSF.Collections.EventRaising/EventRaisingSet.cs:194-206 | a null argument fails; otherwise exactly the items of the argument not yet in the set are tried through Add, each once, in the argument's order |
| Sets.EventRaisingSet.SymmetricExceptWith | CSF.Collections.EventRaising/EventRaisingSet.cs:176-187 | a null argument fails; otherwise the common elements are tried for removal, and then the items to add are looked up against the set the removals left |
| Sets.EventRaisingSet.Count | CSF.Collections.EventRaising/EventRaisingCollectionBase.cs:58 | the number of elements; nothing is raised |
| Sets.EventRaisingSet.Contains | CSF.Collections.EventRaising/EventRaisingCollectionBase.cs:107 | membership in the source set, which holds exactly when adding the item would not grow the set; nothing is raised |
| Sets.EventRaisingSet.IsSubsetOf | CSF.Collections.EventRaising/EventRaisingSet.cs:151 | a null argument fails; otherwise true exactly when every element is among the argument's items |
| Sets.EventRaisingSet.IsProperSubsetOf | CSF.Collections.EventRaising/EventRaisingSet.cs:139 | a null argument fails; otherwise true exactly when every element is an item and some item is not an element |
| Sets.EventRaisingSet.IsSupersetOf | CSF.Collections.EventRaising/EventRaisingSet.cs:157 | a null argument fails; otherwise true exactly when every item is an element |
| Sets.EventRaisingSet.IsProperSupersetOf | CSF.Collections.EventRaising/EventRaisingSet.cs:145 | a null argument fails; otherwise true exactly when every item is an element and some element is not an item |
| Sets.EventRaisingSet.Overlaps | CSF.Collections.EventRaising/EventRaisingSet.cs:163 | a null argument fails; otherwise true exactly when some item is an element |
| Sets.EventRaisingSet.SetEquals | CSF.Collections.EventRaising/EventRaisingSet.cs:169 | a null argument fails; otherwise true exactly when the elements are exactly the items |
| Sets.AddAllAttempts | CSF.Collections.EventRaising/EventRaisingSet.cs:79-85 | AddAll tries every item in order, whatever the handlers decide: the or-accumulator does not short-circuit |
| Sets.AddAllBounds | CSF.Collections.EventRaising/EventRaisingSet.cs:73-86 | AddAll only grows the set, only by its items, and returns true exactly when the set grew |
| Sets.AddAllUnion | CSF.Collections.EventRaising/EventRaisingSet.cs:73-86 | with no add cancelled, AddAll leaves the union of the set and the items |
| Sets.RemoveAllAttempts | CSF.Collections.EventRaising/EventRaisingSet.cs:104-110 | RemoveAll tries every item in order, whatever the handlers decide |
| Sets.RemoveAllBounds | CSF.Collections.EventRaising/EventRaisingSet.cs:98-111 | RemoveAll only shrinks the set, only by its items, and returns true exactly when the set shrank |
| Sets.RemoveAllDifference | CSF.Collections.EventRaising/EventRaisingSet.cs:98-111 | with no removal cancelled, RemoveAll leaves the set less the items, so ExceptWith leaves the difference |
| Sets.IntersectWithMeaning | CSF.Collections.EventRaising/EventRaisingSet.cs:128-133 | with no removal cancelled, IntersectWith leaves the intersection, and the removals tried are exactly the elements outside the argument |
| Sets.UnionWithMeaning | CSF.Collections.EventRaising/EventRaisingSet.cs:194-206 | with no add cancelled, UnionWith leaves the union, trying each new item exactly once |
| Sets.UnionWithNothingNew | CSF.Collections.EventRaising/EventRaisingSet.cs:199-205 | a union with nothing new, such as with the set's own elements, raises nothing and changes nothing |
| Sets.SymmetricExceptWithAsWritten | CSF.Collections.EventRaising/EventRaisingSet.cs:176-187 | as written, with nothing cancelled, the common elements are removed and then added back, so the set ends as the union |
| Sets.SymmetricExceptWithCounterexample | CSF.Collections.EventRaising/EventRaisingSet.cs:183-186 | on the set {1} with the items [1], the code as written leaves {1} where the symmetric difference is empty |
| Sets.EventRaisingSet.SymmetricExceptWithSnapshot | CSF.Collections.EventRaising/EventRaisingSet.cs:176-187 | the corrected operation: the items to add are fixed before any removal |
| Sets.SymmetricExceptWithSnapshotMeaning | CSF.Collections.EventRaising/EventRaisingSet.cs:176-187 | with nothing cancelled, the corrected operation leaves the symmetric difference |
| Sets.SymmetricExceptWithSnapshotTwice | CSF.Collections.EventRaising/EventRaisingSet.cs:176-187 | with nothing cancelled, two calls of the corrected operation with the same items give the set back, whatever the enumeration orders |
| Sets.SymmetricExceptWithTwiceAsWritten | CSF.Collections.EventRaising/EventRaisingSet.cs:176-187 | with nothing cancelled, two calls of the operation as written leave the union of the set and the items, so it does not undo itself |
| Sets.SymmetricExceptWithRoundTripCounterexample | CSF.Collections.EventRaising/EventRaisingSet.cs:183-186 | on the disjoint pair {1} and [2], two calls as written leave {1, 2}, where the corrected operation gives {1} back |
| SetWrapper.EventRaisingSetWrapper.constructor | CSF.Collections.EventRaising/EventRaisingCollectionWrapperBase.cs:213-223 | a new wrapper holds the given source (possibly null), an inner set over it exactly when it is non-null, attached to the wrapper's handlers, and raises no replace record |
| SetWrapper.EventRaisingSetWrapper.SetWrappedCollection | CSF.Collections.EventRaising/EventRaisingCollectionWrapperBase.cs:178-201 | the current inner set is detached before a fresh one over a non-null source is built and attached; a null source leaves no inner set; the old inner set's records stay as they were; only the current inner set is ever attached |
| SetWrapper.EventRaisingSetWrapper.SetSourceCollection | CSF.Collections.EventRaising/EventRaisingCollectionWrapperBase.cs:56-66 | a before-replace record for (current source, replacement) is always raised; the old inner set's records stay as they were; if cancelled nothing else changes, otherwise the source is replaced, a fresh inner set is built and the after-replace record follows, even when the source assigned is the current one |
| SetWrapper.EventRaisingSetWrapper.InnerVetoIsWrapperVeto | CSF.Collections.EventRaising/EventRaisingCollectionWrapperBase.cs:122-143 | the current inner set cancels exactly what the wrapper's handlers cancel |
| SetWrapper.EventRaisingSetWrapper.AddThroughCollection | CSF.Collections.EventRaising/EventRaisingCollectionWrapperBase.cs:122-131 | an add through the current inner set is decided by the wrapper's handlers; the inner set logs exactly the step's records and the handlers receive its item-level ones |
| SetWrapper.EventRaisingSetWrapper.RemoveThroughCollection | CSF.Collections.EventRaising/EventRaisingCollectionWrapperBase.cs:133-143 | a removal through the current inner set is decided by the wrapper's handlers; the inner set logs exactly the step's records and the handlers receive its item-level ones |
| SetWrapper.ReplaceThenAdd | CSF.Collections.EventRaising/EventRaisingCollectionWrapperBase.cs:56-66 | after an accepted replacement, an add through the new inner set reaches the same handlers, and the previous inner set is detached |
| Handling.EventHandlingCollection.constructor | CSF.Collections.EventHandling/Impl/EventHandlingCollectionBase.cs:269-277 | a new older-generation collection wraps the given source, with the concrete class's choice of cancellable records |
| Handling.NewEventHandlingCollection | CSF.Collections.EventHandling/Impl/EventHandlingCollectionBase.cs:269-277 | construction fails with an argument-null error exactly when the source is null |
| Handling.EventHandlingCollection.Count | CSF.Collections.EventHandling/Impl/EventHandlingCollectionBase.cs:64-69 | the number of items; nothing is raised |
| Handling.EventHandlingCollection.Contains | CSF.Collections.EventHandling/Impl/EventHandlingCollectionBase.cs:127-130 | true exactly when the source holds the item; nothing is raised |
| Handling.EventHandlingCollection.Add | CSF.Collections.EventHandling/Impl/EventHandlingCollectionBase.cs:101-108 | a cancelled add changes nothing; otherwise the source adds and only the after-add record follows, with no changed notification; a non-cancellable record is never cancelled |
| Handling.EventHandlingCollection.Remove | CSF.Collections.EventHandling/Impl/EventHandlingCollectionBase.cs:152-167 | cancelled: false; absent: false with no after-remove; present: true, first occurrence removed, after-remove follows; a non-cancellable record is never cancelled |
| Handling.EventHandlingCollection.Clear | CSF.Collections.EventHandling/Impl/EventHandlingCollectionBase.cs:113-119 | with no removal cancelled, the collection ends empty with one before/after pair per item, front to back |
| Handling.EventHandlingCollection.CopyTo | CSF.Collections.EventHandling/Impl/EventHandlingCollectionBase.cs:141-144 | the source's CopyTo with its argument errors; nothing is raised |
| Handling.EventHandlingCollectionWrapper.constructor | CSF.Collections.EventHandling/EventHandlingCollectionWrapperBase.cs:228-232 | after construction the source collection is the one given (the constructor overwrites what SetWrappedCollection stored), Collection is null, and an inner collection is built and attached exactly when the source is non-null |
| Handling.EventHandlingCollectionWrapper.SetWrappedCollection | CSF.Collections.EventHandling/EventHandlingCollectionWrapperBase.cs:193-220 | the detach branch is dead; a non-null source gets a fresh inner collection, attached and stored into the source-collection field, never into Collection |
| Handling.EventHandlingCollectionWrapper.SetSourceCollection | CSF.Collections.EventHandling/EventHandlingCollectionWrapperBase.cs:70-81 | a before-replace record for (current source collection, replacement) is raised; if cancelled nothing changes; otherwise the source collection ends as the replacement, one more inner collection stays attached, Collection stays null, and the after-replace record follows |
| Handling.ReplaceTwiceLeaks | CSF.Collections.EventHandling/EventHandlingCollectionWrapperBase.cs:193-220 | after two accepted replacements Collection is still null and both inner collections built stay attached to the wrapper's handlers |

## Left out

- Handlers are a single stateless oracle per event source plus a log of what they
  received. Multicast invocation order is not modelled. Neither are handlers that re-enter
  the collection, change state or decide differently on a second call.
- Each collection has a single subscriber slot. A handler attached directly to a wrapper's
  inner Collection, beside the wrapper's re-publishers, is not modelled.
- The collection-changed event's own subscribers are not modelled. Changed notifications
  are only appended to the collection's trace; the wrappers do not re-publish them.
- Enumerators, SyncRoot, IsSynchronized, IsReadOnly (taken as false), the non-generic
  `CopyTo(Array, int)`, the deserialization callback and the subscription extension
  methods are left out. They raise nothing and change nothing the protocol depends on.
- The hashing and resizing of .NET's List and HashSet are left out. The enumeration order
  of a set is left open: `Sets.EnumerationOf` picks some order, and every statement about
  Clear, IntersectWith and SymmetricExceptWith holds for whichever order the set uses.
- An argument aliasing the set's own source (for example `s.ExceptWith(source)`, which
  .NET would reject for modifying a collection while enumerating it) is not modelled. The
  bulk operations take their arguments as sequence values.
- Lists.EventRaisingList.Clear, Sets.EventRaisingSet.Clear, Handling.EventHandlingCollection.Clear:
  these require that no removal of an item present is cancelled. Under a cancelled removal
  the source loops for ever. Lists.ClearStalls and Lists.ClearEmpties prove that about
  the loop instead of the method running without end.
- Handling.EventHandlingCollection: the older generation's concrete set,
  `EventHandlingSet`, is not part of this model. The older collection and wrapper are
  modelled over list storage, the generic source collection of their base class.
- Handling.EventHandlingCollectionWrapper: the source-collection field holds either a
  source collection or an inner collection. It is a `Held` value, not an untyped
  reference, and the replace records carry that value.
- List-index event records are left out: no list operation builds them.
- Sets.EventRaisingSet: the inherited CopyTo pass-through
  (CSF.Collections.EventRaising/EventRaisingCollectionBase.cs:118) is modelled only on the
  list (`Lists.EventRaisingList.CopyTo`). A set's copy would follow its enumeration order,
  which the model leaves open.

## Findings

| source | as written | input that shows it | evidently intended | confidence | as-written member | corrected member |
|---|---|---|---|---|---|---|
| CSF.Collections.EventRaising/EventRaisingList.cs:74-76 | RemoveAt reads the item at the index, then removes it by value, which removes its first occurrence | [1, 2, 1], RemoveAt(2), nothing cancelled: leaves [2, 1] | remove the item at the index: [1, 2] | high, not executed | Lists.RemoveAtDuplicateCounterexample | Lists.EventRaisingList.RemoveAtPosition |
| CSF.Collections.EventRaising/EventRaisingList.cs:50-61 | the indexer's setter removes the old item by value, then inserts at the index | [1, 2, 1], this[2] = 3, nothing cancelled: gives [2, 1, 3] | replace the item at the index: [1, 2, 3] | high, not executed | Lists.SetItemDuplicateCounterexample | Lists.SetItemAtPositionReplaces |
| CSF.Collections.EventRaising/EventRaisingSet.cs:183-186 | the items to add are a deferred query over the set, enumerated only after the common elements were removed, so they are added back | set {1}, SymmetricExceptWith([1]), nothing cancelled: leaves {1} (the same at CSF.Collections.EventRaising/Impl/EventRaisingSet.cs:215-218) | the symmetric difference: {} | high, not executed | Sets.SymmetricExceptWithCounterexample | Sets.SymmetricExceptWithSnapshotMeaning |
| CSF.Collections.EventHandling/EventHandlingCollectionWrapperBase.cs:214 | the inner collection built is stored into the field behind SourceCollection (then overwritten), never into the one behind Collection | any wrapper over a non-null source: Collection is null and the inner collection stays attached for ever | Collection is the inner collection over the source, and the previous one is detached on replacement | high, not executed | Handling.ReplaceTwiceLeaks | SetWrapper.EventRaisingSetWrapper.SetSourceCollection |
