/** The replaceable-source wrapper over a set: it owns an event-raising set built over its
    current source collection, re-publishes that inner set's four item-level events to its
    own handlers, and raises a cancellable before-replace record and an after-replace
    record around every change of source. */
module SetWrapper {
  import opened Events
  import opened EventArgs
  import opened Storage
  import opened CollectionEvents
  import opened Sets

  /** The wrapper.
      - `unwrapped`: the source collection as last assigned (null when there is none).
      - `collection`: the inner event-raising set built over it (null when there is none).
      - `handlers`: the wrapper's own handlers for the four item-level events. Attaching
        the wrapper's re-publishers to an inner set is modelled by making these the inner
        set's subscribers: a re-publisher hands the very record it got to these handlers,
        so their Cancel is the inner set's cancel.
      - `cancelsReplace`: what the wrapper's before-replace handlers decide for a record.
      - `replaceTrace`: the replace records raised, in order.
      - `inners`: every inner set the wrapper has built. */
  class EventRaisingSetWrapper<T(==)> {
    var unwrapped: SetSource?<T>
    var collection: EventRaisingSet?<T>
    const handlers: Subscribers<T>
    const cancelsReplace: ReplaceEvent<SetSource?<T>> -> bool
    var replaceTrace: seq<ReplaceEvent<SetSource?<T>>>
    ghost var inners: set<EventRaisingSet<T>>

    /** The event halves of the inner sets built so far. */
    ghost function InnerEvents(): set<CollectionEvents<T>>
      reads this
    {
      set c | c in inners :: c.events
    }

    /** The re-publishers are attached to the current inner set and to no other: of all
        the inner sets built, exactly the current one hands its records to the wrapper's
        handlers. */
    ghost predicate Subscriptions()
      reads this, InnerEvents()
    {
      && (collection != null ==> collection in inners && collection.events.cancelable)
      && forall c :: c in inners ==> (c.events.subscribers == handlers <==> c == collection)
    }

    /** The wrapper's invariant: an inner set exists exactly when a source does, it is a
        set of the wrapper's own kind built over that source, and only it is attached. */
    ghost predicate Valid()
      reads this, InnerEvents()
    {
      && Subscriptions()
      && (collection == null <==> unwrapped == null)
      && (collection != null ==> collection.source == unwrapped && !collection.notifiesAdd)
    }

    /** Builds a wrapper over `source`, which may be null: it builds and attaches an inner
        set when there is a source, and raises no replace record. */
    constructor (source: SetSource?<T>, cancels: Event<T> -> bool, cancelsReplace: ReplaceEvent<SetSource?<T>> -> bool)
      ensures Valid()
      ensures unwrapped == source && replaceTrace == []
      ensures fresh(handlers) && handlers.cancels == cancels && handlers.received == []
      ensures this.cancelsReplace == cancelsReplace
      ensures source != null ==> fresh(collection) && fresh(collection.events) && collection.events.trace == []
    {
      handlers := new Subscribers(cancels);
      this.cancelsReplace := cancelsReplace;
      unwrapped := null;
      collection := null;
      replaceTrace := [];
      inners := {};
      new;
      SetWrappedCollection(source);
      unwrapped := source;
    }

    /** Detaches the re-publishers from the current inner set, if any, then builds and
        attaches a new inner set over `sourceCollection`, or leaves none when it is null. */
    method SetWrappedCollection(sourceCollection: SetSource?<T>)
      requires Subscriptions()
      modifies this, if collection != null then {collection.events} else {}
      ensures Subscriptions()
      ensures unwrapped == old(unwrapped) && replaceTrace == old(replaceTrace)
      ensures old(collection) != null ==> old(collection).events.subscribers == null
                                          && old(collection).events.trace == old(collection.events.trace)
      ensures sourceCollection == null ==> collection == null && inners == old(inners)
      ensures sourceCollection != null ==>
                && fresh(collection) && fresh(collection.events)
                && collection.source == sourceCollection && !collection.notifiesAdd
                && collection.events.trace == [] && collection.events.subscribers == handlers
                && inners == old(inners) + {collection}
    {
      var original := collection;
      if original != null {
        original.events.Unsubscribe();
      }
      if sourceCollection != null {
        var replacement := new EventRaisingSet(sourceCollection, false);
        replacement.events.Subscribe(handlers);
        collection := replacement;
        inners := inners + {replacement};
      } else {
        collection := null;
      }
    }

    /** The source collection's setter: raises a cancellable before-replace record for
        (current source, replacement); unless a handler cancels it, swaps the inner set
        and the source and raises the after-replace record. Assigning the current source
        again is not short-circuited. */
    method SetSourceCollection(replacement: SetSource?<T>)
      requires Valid()
      modifies this, if collection != null then {collection.events} else {}
      ensures Valid()
      ensures old(collection) != null ==> old(collection).events.trace == old(collection.events.trace)
      ensures var before := BeforeReplace(old(unwrapped), replacement);
              var proceed := !cancelsReplace(before);
              && replaceTrace == old(replaceTrace) + [before]
                                 + (if proceed then [AfterReplace(old(unwrapped), replacement)] else [])
              && (proceed ==> unwrapped == replacement
                              && (old(collection) != null ==> old(collection).events.subscribers == null)
                              && (replacement != null ==> fresh(collection) && fresh(collection.events)
                                                          && collection.events.trace == []))
              && (!proceed ==> unwrapped == old(unwrapped) && collection == old(collection) && inners == old(inners))
    {
      var args := new BeforeReplaceEventArgs(unwrapped, replacement);
      replaceTrace := replaceTrace + [BeforeReplace(unwrapped, replacement)];
      if cancelsReplace(BeforeReplace(unwrapped, replacement)) {
        args.Cancel();
      }
      if !args.isCancelled {
        var source := unwrapped;
        SetWrappedCollection(replacement);
        unwrapped := replacement;
        replaceTrace := replaceTrace + [AfterReplace(source, replacement)];
      }
    }

    /** The inner set, when there is one, decides its before-records exactly as the
        wrapper's handlers do: a wrapper handler's Cancel cancels the inner operation. */
    lemma InnerVetoIsWrapperVeto()
      requires Valid() && collection != null
      ensures collection.events.Veto() == handlers.cancels
    {
    }

    /** An add made through the current inner set, whichever source it was built over:
        the wrapper's handlers decide it and receive its item-level records. */
    method AddThroughCollection(x: T) returns (added: bool)
      requires Valid() && collection != null
      modifies collection.source, collection.events, handlers
      ensures Valid()
      ensures var st := AddStep(old(collection.source.elems), x, handlers.cancels, false);
              && collection.source.elems == st.elems
              && collection.events.trace == old(collection.events.trace) + st.records && added == st.result
              && handlers.received == old(handlers.received) + ItemEvents(st.records)
    {
      added := collection.Add(x);
    }

    /** A removal made through the current inner set, as for an add. */
    method RemoveThroughCollection(x: T) returns (removed: bool)
      requires Valid() && collection != null
      modifies collection.source, collection.events, handlers
      ensures Valid()
      ensures var st := RemoveStep(old(collection.source.elems), x, handlers.cancels);
              && collection.source.elems == st.elems
              && collection.events.trace == old(collection.events.trace) + st.records && removed == st.result
              && handlers.received == old(handlers.received) + ItemEvents(st.records)
    {
      removed := collection.Remove(x);
    }
  }

  /** Replacing the source, with nothing cancelled, then adding through the new inner
      set: the add reaches the same handlers the wrapper had before, and the inner set
      that was current before the replacement no longer hands them anything. */
  method ReplaceThenAdd<T(==)>(w: EventRaisingSetWrapper<T>, replacement: SetSource<T>, x: T)
    requires w.Valid()
    requires !w.cancelsReplace(BeforeReplace(w.unwrapped, replacement))
    requires !w.handlers.cancels(BeforeAdd(x)) && x !in replacement.elems
    modifies w, w.handlers, replacement
    modifies if w.collection != null then {w.collection.events} else {}
    ensures w.Valid() && w.unwrapped == replacement
    ensures w.handlers.received == old(w.handlers.received) + [BeforeAdd(x), AfterAdd(x)]
    ensures replacement.elems == old(replacement.elems) + {x}
    ensures old(w.collection) != null ==> old(w.collection).events.subscribers == null
  {
    w.SetSourceCollection(replacement);
    var _ := w.AddThroughCollection(x);
    AttemptItemEvents(x, true, false);
  }
}
