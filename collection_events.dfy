/** The event-raising half of a collection: its BeforeAdd, AfterAdd, BeforeRemove and
    AfterRemove events and its collection-changed notification, with the protocol for
    raising a cancellable before-record and checking its flag. The collections of both
    generations hold one of these for their source collection. */
module CollectionEvents {
  import opened Events
  import opened EventArgs

  /** The events of one collection.
      - `collection`: the source collection that the records name.
      - `cancelable`: whether the before-records this collection builds expose Cancel; the
        newer generation's always do, the older generation leaves it to the concrete class.
      - `subscribers`: the handlers attached to the four item-level events, or null when no
        handler is attached (inside a wrapper these are the wrapper's re-publishers, which
        hand the same record to the wrapper's own handlers).
      - `trace`: every record raised, changed notifications included, in order. */
  class CollectionEvents<T> {
    const collection: object
    const cancelable: bool
    var subscribers: Subscribers?<T>
    var trace: seq<Event<T>>

    constructor (collection: object, cancelable: bool)
      ensures this.collection == collection && this.cancelable == cancelable
      ensures subscribers == null && trace == []
    {
      this.collection := collection;
      this.cancelable := cancelable;
      subscribers := null;
      trace := [];
    }

    /** Whether a before-record is cancelled once every attached handler has run: only a
        cancellable record can be, and only by an attached handler. */
    function Veto(): (v: Event<T> -> bool)
      reads this`subscribers
    {
      if cancelable && subscribers != null then subscribers.cancels else (e => false)
    }

    /** What the attached handlers have received, or nothing when none is attached. */
    ghost function Received(): seq<Event<T>>
      reads this, subscribers
    {
      if subscribers != null then subscribers.received else []
    }

    /** Between the two states exactly the records `es` were raised: appended to the trace
        and, for the item-level ones, handed to the attached handlers, which stay attached. */
    twostate predicate Raised(new es: seq<Event<T>>)
      reads this, subscribers
    {
      && subscribers == old(subscribers)
      && trace == old(trace) + es
      && (subscribers != null ==> subscribers.received == old(subscribers.received) + ItemEvents(es))
    }

    /** Raises a before-add or before-remove record: builds a fresh cancellable record for
        the source collection and the item, runs the handlers, then reads the flag. */
    method RaiseBefore(e: Event<T>) returns (proceed: bool)
      requires e.BeforeAdd? || e.BeforeRemove?
      modifies this, subscribers
      ensures Raised([e])
      ensures proceed == !Veto()(e)
    {
      var args := new BeforeModifyEventArgs(collection, e.item);
      trace := trace + [e];
      if subscribers != null {
        subscribers.Receive(e);
        if cancelable && subscribers.cancels(e) {
          args.Cancel();
        }
      }
      proceed := !(cancelable && args.isCancelled);
    }

    /** Raises an after-record or a changed notification; nothing reads a result. */
    method Raise(e: Event<T>)
      requires !(e.BeforeAdd? || e.BeforeRemove?)
      modifies this, subscribers
      ensures Raised([e])
    {
      trace := trace + [e];
      if subscribers != null && e.IsItemEvent() {
        subscribers.Receive(e);
      }
    }

    /** Attaches handlers to the four item-level events. */
    method Subscribe(s: Subscribers<T>)
      modifies this
      ensures subscribers == s && trace == old(trace)
    {
      subscribers := s;
    }

    /** Detaches the handlers from the four item-level events. */
    method Unsubscribe()
      modifies this
      ensures subscribers == null && trace == old(trace)
    {
      subscribers := null;
    }
  }
}
