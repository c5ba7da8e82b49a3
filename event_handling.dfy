/** The older generation of the decorator and its replaceable-source wrapper. The
    decorator follows the same veto-able protocol as the newer one but raises no changed
    notification, and it leaves to the concrete class whether its before-records can be
    cancelled at all. The wrapper stores the inner collection it builds into the field
    that backs its source-collection property, never into the one behind its Collection
    property, so Collection stays null and every inner collection it builds stays
    attached to its handlers. */
module Handling {
  import opened Events
  import opened EventArgs
  import opened Storage
  import opened CollectionEvents

  /** An older-generation event-handling collection over a generic source collection.
      `events.cancelable` is the concrete class's choice of before-record: when it is
      false no handler can cancel anything. */
  class EventHandlingCollection<T(==)> {
    const source: ListSource<T>
    const events: CollectionEvents<T>

    constructor (source: ListSource<T>, cancelable: bool)
      ensures this.source == source && fresh(events)
      ensures events.collection == source && events.cancelable == cancelable
      ensures events.subscribers == null && events.trace == []
    {
      this.source := source;
      events := new CollectionEvents(source, cancelable);
    }

    /** The number of items; raises nothing. */
    function Count(): (n: nat)
      reads this, source
      ensures n == |source.items|
    {
      |source.items|
    }

    /** Whether the collection holds `x`; raises nothing. */
    function Contains(x: T): (b: bool)
      reads this, source
      ensures b <==> exists k :: 0 <= k < |source.items| && source.items[k] == x
    {
      x in source.items
    }

    /** Add: unless the before-add record is cancelled, the source adds `x` and the
        after-add record follows; there is no changed notification. */
    method Add(x: T)
      modifies source, events, events.subscribers
      ensures var proceed := !old(events.Veto())(BeforeAdd(x));
              && source.items == (if proceed then old(source.items) + [x] else old(source.items))
              && events.Raised(AddRecords(x, proceed, false))
      ensures !events.cancelable ==> source.items == old(source.items) + [x]
    {
      var proceed := events.RaiseBefore(BeforeAdd(x));
      if proceed {
        source.Add(x);
        events.Raise(AfterAdd(x));
      }
    }

    /** Remove: a cancelled removal returns false; otherwise the source removes the first
        occurrence of `x`, and only an actual removal raises the after-remove record. */
    method Remove(x: T) returns (removed: bool)
      modifies source, events, events.subscribers
      ensures var proceed := !old(events.Veto())(BeforeRemove(x));
              && removed == (proceed && x in old(source.items))
              && source.items == (if removed then RemoveFirst(old(source.items), x) else old(source.items))
              && events.Raised(RemoveRecords(x, removed, false))
      ensures !events.cancelable ==> removed == (x in old(source.items))
    {
      var proceed := events.RaiseBefore(BeforeRemove(x));
      removed := false;
      if proceed {
        removed := source.Remove(x);
        if removed {
          events.Raise(AfterRemove(x));
        }
      }
    }

    /** Clear: removes the first item, through Remove, until the collection is empty;
        with no removal cancelled it raises one before/after pair per item, front to back.
        A cancelled removal of an item present would make the loop go on for ever, as
        Lists.ClearStalls shows for the same loop. */
    method Clear()
      requires forall k :: 0 <= k < |source.items| ==> !events.Veto()(BeforeRemove(source.items[k]))
      modifies source, events, events.subscribers
      ensures source.items == []
      ensures events.Raised(ClearRecords(old(source.items), false))
    {
      ghost var s0 := source.items;
      ghost var veto := events.Veto();
      ghost var done := 0;
      while |source.items| > 0
        invariant events.subscribers == old(events.subscribers) && events.Veto() == veto
        invariant 0 <= done <= |s0| && source.items == s0[done..]
        invariant forall k :: 0 <= k < |source.items| ==> !veto(BeforeRemove(source.items[k]))
        invariant events.trace + ClearRecords(source.items, false) == old(events.trace) + ClearRecords(s0, false)
        invariant events.subscribers != null ==>
          events.subscribers.received + ItemEvents(ClearRecords(source.items, false))
          == old(events.subscribers.received) + ItemEvents(ClearRecords(s0, false))
        decreases |source.items|
      {
        ghost var before := source.items;
        ghost var trace0 := events.trace;
        ghost var received0 := if events.subscribers != null then events.subscribers.received else [];
        var removed := Remove(source.items[0]);
        assert removed && source.items == before[1..];
        assert s0[done..][1..] == s0[done + 1..];
        done := done + 1;
        ClearRound(before, false, trace0, events.trace);
        if events.subscribers != null {
          ClearRound(before, false, received0, events.subscribers.received);
        }
      }
    }

    /** CopyTo: the source's own copy, with its argument checks; raises nothing. */
    method CopyTo(target: array?<T>, arrayIndex: int) returns (o: Outcome)
      modifies target
      ensures o == Done <==> target != null && 0 <= arrayIndex && arrayIndex + |source.items| <= target.Length
      ensures target == null ==> o == Fail(ArgumentNull)
      ensures target != null && arrayIndex < 0 ==> o == Fail(ArgumentOutOfRange)
      ensures target != null && 0 <= arrayIndex && target.Length - arrayIndex < |source.items| ==>
                o == Fail(InsufficientSpace)
      ensures o.Fail? ==> target == null || target[..] == old(target[..])
      ensures o == Done ==>
                && target[arrayIndex..arrayIndex + |source.items|] == source.items
                && target[..arrayIndex] == old(target[..arrayIndex])
                && target[arrayIndex + |source.items|..] == old(target[arrayIndex + |source.items|..])
    {
      o := source.CopyTo(target, arrayIndex);
    }
  }

  /** Building an older-generation collection: a null source is rejected. */
  method NewEventHandlingCollection<T(==)>(source: ListSource?<T>, cancelable: bool)
    returns (r: Result<EventHandlingCollection<T>>)
    ensures r.Err? <==> source == null
    ensures r.Err? ==> r.error == ArgumentNull
    ensures r.Ok? ==> fresh(r.value) && r.value.source == source && r.value.events.cancelable == cancelable
                      && r.value.events.subscribers == null && r.value.events.trace == []
  {
    if source == null {
      return Err(ArgumentNull);
    }
    var created := new EventHandlingCollection(source, cancelable);
    r := Ok(created);
  }

  /** What the field behind the older wrapper's SourceCollection property can hold: no
      collection, a source collection, or an inner collection the wrapper built. */
  datatype Held<T> = NoCollection | SourceCollection(source: ListSource<T>) | InnerCollection(inner: EventHandlingCollection<T>)

  /** A possibly-null source collection as a value of that field. */
  function HeldSource<T>(source: ListSource?<T>): (h: Held<T>)
    ensures h.NoCollection? <==> source == null
    ensures h.SourceCollection? ==> h.source == source
  {
    if source == null then NoCollection else SourceCollection(source)
  }

  /** The older-generation wrapper.
      - `wrapped`: the field behind the Collection property.
      - `unwrapped`: the field behind the SourceCollection property. It holds a source
        collection or, for a moment inside a replacement, the inner collection just
        built.
      - `handlers`: the wrapper's own handlers for the four item-level events; an inner
        collection whose re-publishers are attached hands its records to them.
      - `innerCancelable`: whether the inner collections this wrapper builds raise
        cancellable before-records.
      - `cancelsReplace` and `replaceTrace`: the wrapper's before-replace handlers'
        decision and the replace records raised.
      - `inners`: every inner collection built, in order. */
  class EventHandlingCollectionWrapper<T(==)> {
    var wrapped: EventHandlingCollection?<T>
    var unwrapped: Held<T>
    const handlers: Subscribers<T>
    const innerCancelable: bool
    const cancelsReplace: ReplaceEvent<Held<T>> -> bool
    var replaceTrace: seq<ReplaceEvent<Held<T>>>
    ghost var inners: seq<EventHandlingCollection<T>>

    /** The event halves of the inner collections built so far. */
    ghost function InnerEvents(): set<CollectionEvents<T>>
      reads this
    {
      set k | 0 <= k < |inners| :: inners[k].events
    }

    /** What holds in every reachable state: Collection is null, and every inner
        collection ever built is still attached to the wrapper's handlers. */
    ghost predicate Valid()
      reads this, InnerEvents()
    {
      && wrapped == null
      && forall k :: 0 <= k < |inners| ==> inners[k].events.subscribers == handlers
    }

    /** Builds a wrapper over `source`, which may be null; SourceCollection ends as
        `source`, overwriting the inner collection that SetWrappedCollection stored. */
    constructor (source: ListSource?<T>, cancels: Event<T> -> bool, innerCancelable: bool,
                 cancelsReplace: ReplaceEvent<Held<T>> -> bool)
      ensures Valid()
      ensures unwrapped == HeldSource(source) && replaceTrace == []
      ensures fresh(handlers) && handlers.cancels == cancels && handlers.received == []
      ensures this.innerCancelable == innerCancelable && this.cancelsReplace == cancelsReplace
      ensures source == null ==> inners == []
      ensures source != null ==> |inners| == 1 && fresh(inners[0]) && inners[0].source == source
    {
      handlers := new Subscribers(cancels);
      this.innerCancelable := innerCancelable;
      this.cancelsReplace := cancelsReplace;
      wrapped := null;
      unwrapped := NoCollection;
      replaceTrace := [];
      inners := [];
      new;
      SetWrappedCollection(source);
      unwrapped := HeldSource(source);
    }

    /** As written: the current Collection (always null) would be detached; a new inner
        collection over a non-null `sourceCollection` is built, attached and stored into
        the SourceCollection field; a null one sets Collection to null. */
    method SetWrappedCollection(sourceCollection: ListSource?<T>)
      requires Valid()
      modifies this
      ensures Valid()
      ensures replaceTrace == old(replaceTrace)
      ensures sourceCollection == null ==> inners == old(inners) && unwrapped == old(unwrapped)
      ensures sourceCollection != null ==>
                && |inners| == |old(inners)| + 1 && inners[..|old(inners)|] == old(inners)
                && var inner := inners[|old(inners)|];
                   && fresh(inner) && fresh(inner.events) && inner.source == sourceCollection
                   && inner.events.cancelable == innerCancelable && inner.events.trace == []
                   && unwrapped == InnerCollection(inner)
    {
      var original := wrapped;
      if original != null {
        // The detach branch is dead: nothing ever stores a collection into `wrapped`.
        assert false;
      }
      if sourceCollection != null {
        var replacement := new EventHandlingCollection(sourceCollection, innerCancelable);
        replacement.events.Subscribe(handlers);
        unwrapped := InnerCollection(replacement);
        inners := inners + [replacement];
      } else {
        wrapped := null;
      }
    }

    /** The source collection's setter: raises a cancellable before-replace record for
        (current SourceCollection, replacement); unless a handler cancels it, rebuilds the
        inner collection, sets SourceCollection to the replacement and raises the
        after-replace record. Collection stays null throughout. */
    method SetSourceCollection(replacement: ListSource?<T>)
      requires Valid()
      modifies this
      ensures Valid()
      ensures var r := HeldSource(replacement);
              var before := BeforeReplace(old(unwrapped), r);
              var proceed := !cancelsReplace(before);
              && replaceTrace == old(replaceTrace) + [before]
                                 + (if proceed then [AfterReplace(old(unwrapped), r)] else [])
              && (!proceed ==> unwrapped == old(unwrapped) && inners == old(inners))
              && (proceed ==> unwrapped == r)
              && (proceed && replacement == null ==> inners == old(inners))
              && (proceed && replacement != null ==>
                    && |inners| == |old(inners)| + 1 && inners[..|old(inners)|] == old(inners)
                    && fresh(inners[|old(inners)|]) && inners[|old(inners)|].source == replacement)
    {
      var r := HeldSource(replacement);
      var args := new BeforeReplaceEventArgs(unwrapped, r);
      replaceTrace := replaceTrace + [BeforeReplace(unwrapped, r)];
      if cancelsReplace(BeforeReplace(unwrapped, r)) {
        args.Cancel();
      }
      if !args.isCancelled {
        var source := unwrapped;
        SetWrappedCollection(replacement);
        unwrapped := r;
        replaceTrace := replaceTrace + [AfterReplace(source, r)];
      }
    }
  }

  /** Two accepted replacements by non-null sources: SourceCollection is the second,
      Collection is still null, and both inner collections built stay attached to the
      wrapper's handlers, neither reachable through Collection. */
  method ReplaceTwiceLeaks<T(==)>(w: EventHandlingCollectionWrapper<T>, first: ListSource<T>, second: ListSource<T>)
    requires w.Valid()
    requires forall r :: !w.cancelsReplace(r)
    modifies w
    ensures w.Valid() && w.wrapped == null && w.unwrapped == SourceCollection(second)
    ensures |w.inners| == |old(w.inners)| + 2
    ensures w.inners[|old(w.inners)|].source == first && w.inners[|old(w.inners)| + 1].source == second
    ensures w.inners[|old(w.inners)|].events.subscribers == w.handlers
    ensures w.inners[|old(w.inners)| + 1].events.subscribers == w.handlers
  {
    w.SetSourceCollection(first);
    w.SetSourceCollection(second);
  }
}
