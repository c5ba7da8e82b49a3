/** The records that the event-raising collections raise, the outcome of a call that
    can fail with an argument error, and the handlers that receive item-level events. */
module Events {

  /** The action carried by a collection-changed notification. */
  datatype ChangeAction = Added | Removed

  /** One event raised by a collection: the four item-level events (before/after an add or
      a remove), each carrying the affected item, and the collection-changed notification,
      carrying its action and item. */
  datatype Event<T> =
    | BeforeAdd(item: T)
    | AfterAdd(item: T)
    | BeforeRemove(item: T)
    | AfterRemove(item: T)
    | Changed(action: ChangeAction, item: T)
  {
    /** The item-level events are the ones a wrapper re-publishes; the changed
        notification is not one of them. */
    predicate IsItemEvent() { !Changed? }
  }

  /** An event raised by a wrapper when its source collection is (to be) replaced. */
  datatype ReplaceEvent<C> =
    | BeforeReplace(original: C, replacement: C)
    | AfterReplace(original: C, replacement: C)

  /** The argument exceptions the modelled operations throw. */
  datatype Failure =
    | ArgumentNull           // a required reference argument was null
    | ArgumentOutOfRange     // an index outside the list
    | InsufficientSpace      // a copy target array too small for the contents

  /** The result of an operation returning a value or throwing an argument exception. */
  datatype Result<T> = Ok(value: T) | Err(error: Failure)

  /** The result of an operation returning nothing or throwing an argument exception. */
  datatype Outcome = Done | Fail(error: Failure)

  /** A possibly-null argument. */
  datatype Option<T> = None | Some(value: T)

  /** The records of `es` a subscriber to the four item-level events receives, in order. */
  function ItemEvents<T>(es: seq<Event<T>>): (r: seq<Event<T>>)
    ensures |r| <= |es|
  {
    if es == [] then []
    else (if es[0].IsItemEvent() then [es[0]] else []) + ItemEvents(es[1..])
  }

  /** Filtering distributes over concatenation, so the records received over two calls are
      the records of the two calls' events. */
  lemma {:induction false} ItemEventsAppend<T>(a: seq<Event<T>>, b: seq<Event<T>>)
    ensures ItemEvents(a + b) == ItemEvents(a) + ItemEvents(b)
  {
    if a == [] {
      assert a + b == b;
    } else {
      var head := if a[0].IsItemEvent() then [a[0]] else [];
      assert (a + b)[1..] == a[1..] + b;
      ItemEventsAppend(a[1..], b);
      calc {
        ItemEvents(a + b);
        head + ItemEvents(a[1..] + b);
        head + (ItemEvents(a[1..]) + ItemEvents(b));
        (head + ItemEvents(a[1..])) + ItemEvents(b);
        ItemEvents(a) + ItemEvents(b);
      }
    }
  }

  /** Two stretches of records appended one after the other. */
  lemma LogsCompose<E>(l0: seq<E>, a: seq<E>, l1: seq<E>, b: seq<E>, l2: seq<E>)
    requires l1 == l0 + a && l2 == l1 + b
    ensures l2 == l0 + (a + b)
  {
  }

  /** The records raised by an add attempt: the before-record, then, when the storage add
      happened, the after-record and (when the collection raises one) the changed
      notification. */
  function AddRecords<T>(x: T, done: bool, notify: bool): seq<Event<T>>
  {
    [BeforeAdd(x)] + (if done then [AfterAdd(x)] + (if notify then [Changed(Added, x)] else []) else [])
  }

  /** The records raised by a remove attempt, shaped as for an add. */
  function RemoveRecords<T>(x: T, done: bool, notify: bool): seq<Event<T>>
  {
    [BeforeRemove(x)] + (if done then [AfterRemove(x)] + (if notify then [Changed(Removed, x)] else []) else [])
  }

  /** What the handlers receive of an add attempt or a remove attempt: the before-record
      and, when the change happened, the after-record; never the changed notification. */
  lemma AttemptItemEvents<T>(x: T, done: bool, notify: bool)
    ensures ItemEvents(AddRecords(x, done, notify)) == [BeforeAdd(x)] + (if done then [AfterAdd(x)] else [])
    ensures ItemEvents(RemoveRecords(x, done, notify)) == [BeforeRemove(x)] + (if done then [AfterRemove(x)] else [])
  {
    var tailA: seq<Event<T>> := if notify then [Changed(Added, x)] else [];
    var tailR: seq<Event<T>> := if notify then [Changed(Removed, x)] else [];
    assert ItemEvents(tailA) == [] && ItemEvents(tailR) == [] by {
      if notify { assert tailA[1..] == [] && tailR[1..] == []; }
    }
    if done {
      var a := AddRecords(x, done, notify);
      assert a[1..] == [AfterAdd(x)] + tailA && a[1..][1..] == tailA;
      var r := RemoveRecords(x, done, notify);
      assert r[1..] == [AfterRemove(x)] + tailR && r[1..][1..] == tailR;
    } else {
      assert AddRecords(x, done, notify)[1..] == [];
      assert RemoveRecords(x, done, notify)[1..] == [];
    }
  }

  /** The records raised by a Clear that removes the items of `order`, one at a time and
      in that order, none of them vetoed. */
  function ClearRecords<T>(order: seq<T>, notify: bool): seq<Event<T>>
  {
    if order == [] then [] else RemoveRecords(order[0], true, notify) + ClearRecords(order[1..], notify)
  }

  /** The items of the before-records in `es`, in order: every add or remove attempted. */
  function Attempts<T>(es: seq<Event<T>>): (r: seq<T>)
    ensures |r| <= |es|
  {
    if es == [] then []
    else (if es[0].BeforeAdd? || es[0].BeforeRemove? then [es[0].item] else []) + Attempts(es[1..])
  }

  /** The items of the after-records in `es`, in order: every add or remove that happened. */
  function Completions<T>(es: seq<Event<T>>): (r: seq<T>)
    ensures |r| <= |es|
  {
    if es == [] then []
    else (if es[0].AfterAdd? || es[0].AfterRemove? then [es[0].item] else []) + Completions(es[1..])
  }

  /** Attempts and completions of two consecutive stretches of records concatenate. */
  lemma {:induction false} ProjectionsAppend<T>(a: seq<Event<T>>, b: seq<Event<T>>)
    ensures Attempts(a + b) == Attempts(a) + Attempts(b)
    ensures Completions(a + b) == Completions(a) + Completions(b)
  {
    if a == [] {
      assert a + b == b;
    } else {
      var e := a[0];
      var attempt := if e.BeforeAdd? || e.BeforeRemove? then [e.item] else [];
      var completion := if e.AfterAdd? || e.AfterRemove? then [e.item] else [];
      assert (a + b)[0] == e && (a + b)[1..] == a[1..] + b;
      ProjectionsAppend(a[1..], b);
      calc {
        Attempts(a + b);
        attempt + Attempts(a[1..] + b);
        attempt + (Attempts(a[1..]) + Attempts(b));
        (attempt + Attempts(a[1..])) + Attempts(b);
      }
      calc {
        Completions(a + b);
        completion + Completions(a[1..] + b);
        completion + (Completions(a[1..]) + Completions(b));
        (completion + Completions(a[1..])) + Completions(b);
      }
    }
  }

  /** An add attempt or a remove attempt is one attempt of its item, and one completion
      exactly when the change happened. */
  lemma AttemptProjections<T>(x: T, done: bool, notify: bool)
    ensures Attempts(AddRecords(x, done, notify)) == [x]
    ensures Attempts(RemoveRecords(x, done, notify)) == [x]
    ensures Completions(AddRecords(x, done, notify)) == (if done then [x] else [])
    ensures Completions(RemoveRecords(x, done, notify)) == (if done then [x] else [])
  {
    var tailA: seq<Event<T>> := if notify then [Changed(Added, x)] else [];
    var tailR: seq<Event<T>> := if notify then [Changed(Removed, x)] else [];
    assert Attempts(tailA) == [] && Completions(tailA) == [] by {
      if notify { assert tailA[1..] == []; }
    }
    assert Attempts(tailR) == [] && Completions(tailR) == [] by {
      if notify { assert tailR[1..] == []; }
    }
    var a := AddRecords(x, done, notify);
    var r := RemoveRecords(x, done, notify);
    if done {
      assert a[1..] == [AfterAdd(x)] + tailA && a[1..][1..] == tailA;
      assert r[1..] == [AfterRemove(x)] + tailR && r[1..][1..] == tailR;
    } else {
      assert a[1..] == [] && r[1..] == [];
    }
  }

  /** Clear's records for one more item removed at the end. */
  lemma {:induction false} ClearRecordsSnoc<T>(order: seq<T>, x: T, notify: bool)
    ensures ClearRecords(order + [x], notify) == ClearRecords(order, notify) + RemoveRecords(x, true, notify)
  {
    if order == [] {
      assert [x][1..] == [];
    } else {
      assert (order + [x])[1..] == order[1..] + [x];
      ClearRecordsSnoc(order[1..], x, notify);
    }
  }

  /** A log that held Clear's records for `order` and then received one more removal
      holds Clear's records for `order + [x]`, both unfiltered and filtered. */
  lemma ClearLogSnoc<T>(l0: seq<Event<T>>, order: seq<T>, x: T, notify: bool, l1: seq<Event<T>>, l2: seq<Event<T>>)
    ensures l1 == l0 + ClearRecords(order, notify) && l2 == l1 + RemoveRecords(x, true, notify) ==>
              l2 == l0 + ClearRecords(order + [x], notify)
    ensures l1 == l0 + ItemEvents(ClearRecords(order, notify)) && l2 == l1 + ItemEvents(RemoveRecords(x, true, notify)) ==>
              l2 == l0 + ItemEvents(ClearRecords(order + [x], notify))
  {
    ClearRecordsSnoc(order, x, notify);
    ItemEventsAppend(ClearRecords(order, notify), RemoveRecords(x, true, notify));
  }

  /** One round of Clear's loop: the records still to come after removing the first item,
      appended to what the round raised, are the records that were to come before it. It
      holds for the trace and, filtered, for what the handlers receive. */
  lemma ClearRound<T>(before: seq<T>, notify: bool, log0: seq<Event<T>>, log1: seq<Event<T>>)
    requires before != []
    ensures log1 == log0 + RemoveRecords(before[0], true, notify) ==>
              log1 + ClearRecords(before[1..], notify) == log0 + ClearRecords(before, notify)
    ensures log1 == log0 + ItemEvents(RemoveRecords(before[0], true, notify)) ==>
              log1 + ItemEvents(ClearRecords(before[1..], notify)) == log0 + ItemEvents(ClearRecords(before, notify))
  {
    var head := RemoveRecords(before[0], true, notify);
    var rest := ClearRecords(before[1..], notify);
    assert ClearRecords(before, notify) == head + rest;
    ItemEventsAppend(head, rest);
    if log1 == log0 + head {
      LogsCompose(log0, head, log1, rest, log1 + rest);
    }
    if log1 == log0 + ItemEvents(head) {
      LogsCompose(log0, ItemEvents(head), log1, ItemEvents(rest), log1 + ItemEvents(rest));
    }
  }

  /** A Clear with no veto raises exactly one before-remove and one after-remove per item,
      in the order the items were removed, and nothing else but changed notifications. */
  lemma {:induction false} ClearRecordsPairs<T>(order: seq<T>, notify: bool)
    ensures Attempts(ClearRecords(order, notify)) == order
    ensures Completions(ClearRecords(order, notify)) == order
    ensures |ClearRecords(order, notify)| == (if notify then 3 else 2) * |order|
  {
    if order != [] {
      var head := RemoveRecords(order[0], true, notify);
      var rest := ClearRecords(order[1..], notify);
      assert ClearRecords(order, notify) == head + rest;
      ProjectionsAppend(head, rest);
      ClearRecordsPairs(order[1..], notify);
      AttemptProjections(order[0], true, notify);
      assert |head| == (if notify then 3 else 2);
      assert order == [order[0]] + order[1..];
    }
  }

  /** The handlers subscribed to the four item-level events of an event source (a collection
      or a wrapper). `cancels` is what the before-handlers, run together, decide for a
      cancellable record: true when one of them calls Cancel. `received` is every item-level
      record they have been handed, in order. */
  class Subscribers<T> {
    const cancels: Event<T> -> bool
    var received: seq<Event<T>>

    constructor (cancels: Event<T> -> bool)
      ensures this.cancels == cancels && received == []
    {
      this.cancels := cancels;
      received := [];
    }

    /** Invokes the handlers with one record. */
    method Receive(e: Event<T>)
      modifies this
      ensures received == old(received) + [e]
    {
      received := received + [e];
    }
  }
}
