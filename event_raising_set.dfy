/** The event-raising decorator over a set-shaped source. Both copies of the set class
    are one class here, told apart by whether a successful Add raises a changed
    notification: the public set does, the copy that the set wrapper builds does not. The
    bulk operations and the set algebra are built from Add and Remove, so every item they
    touch goes through the same cancellable protocol. */
module Sets {
  import opened Events
  import opened Storage
  import opened CollectionEvents

  /** What one set operation does, as a value: the set left, the records raised and the
      boolean returned. */
  datatype SetStep<T> = SetStep(elems: set<T>, records: seq<Event<T>>, result: bool)

  /** Two steps run one after the other; the results are or-ed, as the bulk operations'
      accumulator does, without short-circuiting the second step. */
  function Then<T>(a: SetStep<T>, b: SetStep<T>): SetStep<T>
  {
    SetStep(b.elems, a.records + b.records, a.result || b.result)
  }

  /** The set's own Add: a cancelled add returns false; otherwise the source adds, and only
      an item that was new raises the after-add record (and, when `notify`, the changed
      notification) and returns true. */
  function AddStep<T>(s: set<T>, x: T, veto: Event<T> -> bool, notify: bool): SetStep<T>
  {
    if veto(BeforeAdd(x)) || x in s then SetStep(s, [BeforeAdd(x)], false)
    else SetStep(s + {x}, AddRecords(x, true, notify), true)
  }

  /** The inherited Remove: a cancelled removal returns false; otherwise the source
      removes, and only an item that was present raises the after-remove record and the
      changed notification and returns true. */
  function RemoveStep<T>(s: set<T>, x: T, veto: Event<T> -> bool): SetStep<T>
  {
    if veto(BeforeRemove(x)) || x !in s then SetStep(s, [BeforeRemove(x)], false)
    else SetStep(s - {x}, RemoveRecords(x, true, true), true)
  }

  /** AddAll: Add for every item of `items`, in order. */
  function AddAllStep<T>(s: set<T>, items: seq<T>, veto: Event<T> -> bool, notify: bool): SetStep<T>
  {
    if items == [] then SetStep(s, [], false)
    else
      var prev := AddAllStep(s, items[..|items| - 1], veto, notify);
      Then(prev, AddStep(prev.elems, items[|items| - 1], veto, notify))
  }

  /** RemoveAll: Remove for every item of `items`, in order. */
  function RemoveAllStep<T>(s: set<T>, items: seq<T>, veto: Event<T> -> bool): SetStep<T>
  {
    if items == [] then SetStep(s, [], false)
    else
      var prev := RemoveAllStep(s, items[..|items| - 1], veto);
      Then(prev, RemoveStep(prev.elems, items[|items| - 1], veto))
  }

  /** The sequence a query `first.Except(second)` enumerates: the items of `first` that are
      not in `second`, each once, in the order of their first occurrence. */
  function ExceptInOrder<T>(first: seq<T>, second: set<T>): (r: seq<T>)
    ensures Elements(r) == Elements(first) - second
    ensures Distinct(r)
  {
    if first == [] then []
    else if first[0] in second then ExceptInOrder(first[1..], second)
    else
      var rest := ExceptInOrder(first[1..], second + {first[0]});
      assert Elements(first) == {first[0]} + Elements(first[1..]);
      [first[0]] + rest
  }

  /** A sequence holding every element of `s` once, in the set's enumeration order, which
      the model leaves open. */
  method EnumerationOf<T(==)>(s: set<T>) returns (order: seq<T>)
    ensures Elements(order) == s && Distinct(order)
  {
    order := [];
    var rest := s;
    while rest != {}
      invariant Elements(order) + rest == s && Elements(order) !! rest
      invariant Distinct(order)
      decreases |rest|
    {
      var x :| x in rest;
      EnumerationStep(s, rest, order, x);
      order := order + [x];
      rest := rest - {x};
    }
  }

  /** A set-shaped collection that raises events around every change to its source.
      `notifiesAdd` is whether its own Add raises a changed notification (true for the
      public set, false for the copy inside the set wrapper). */
  class EventRaisingSet<T(==)> {
    const source: SetSource<T>
    const events: CollectionEvents<T>
    const notifiesAdd: bool

    constructor (source: SetSource<T>, notifiesAdd: bool)
      ensures this.source == source && this.notifiesAdd == notifiesAdd && fresh(events)
      ensures events.collection == source && events.cancelable
      ensures events.subscribers == null && events.trace == []
    {
      this.source := source;
      this.notifiesAdd := notifiesAdd;
      events := new CollectionEvents(source, true);
    }

    /** Add (see AddStep). */
    method Add(x: T) returns (added: bool)
      modifies source, events, events.subscribers
      ensures var st := AddStep(old(source.elems), x, old(events.Veto()), notifiesAdd);
              source.elems == st.elems && events.Raised(st.records) && added == st.result
    {
      var proceed := events.RaiseBefore(BeforeAdd(x));
      added := false;
      if proceed {
        added := source.Add(x);
        if added {
          events.Raise(AfterAdd(x));
          if notifiesAdd {
            events.Raise(Changed(Added, x));
          }
        }
      }
    }

    /** The inherited Add, reached through the collection interface: the source's own
        result is not consulted, so an item already present still raises the after-add
        record and the changed notification. */
    method AddThroughCollection(x: T)
      modifies source, events, events.subscribers
      ensures var proceed := !old(events.Veto())(BeforeAdd(x));
              && source.elems == (if proceed then old(source.elems) + {x} else old(source.elems))
              && events.Raised(AddRecords(x, proceed, true))
    {
      var proceed := events.RaiseBefore(BeforeAdd(x));
      if proceed {
        var _ := source.Add(x);
        events.Raise(AfterAdd(x));
        events.Raise(Changed(Added, x));
      }
    }

    /** Remove (see RemoveStep). */
    method Remove(x: T) returns (removed: bool)
      modifies source, events, events.subscribers
      ensures var st := RemoveStep(old(source.elems), x, old(events.Veto()));
              source.elems == st.elems && events.Raised(st.records) && removed == st.result
    {
      var proceed := events.RaiseBefore(BeforeRemove(x));
      removed := false;
      if proceed {
        removed := source.Remove(x);
        if removed {
          events.Raise(AfterRemove(x));
          events.Raise(Changed(Removed, x));
        }
      }
    }

    /** The inherited Clear: removes some element, through Remove, until the set is empty;
        `order` is the order the elements went in. It ends only when no handler cancels the
        removal of an element present. */
    method Clear() returns (ghost order: seq<T>)
      requires forall x :: x in source.elems ==> !events.Veto()(BeforeRemove(x))
      modifies source, events, events.subscribers
      ensures source.elems == {}
      ensures Distinct(order) && Elements(order) == old(source.elems)
      ensures events.Raised(ClearRecords(order, true))
    {
      ghost var veto, t0, r0 := events.Veto(), events.trace, events.Received();
      order := [];
      while source.elems != {}
        invariant events.subscribers == old(events.subscribers) && events.Veto() == veto
        invariant source.elems + Elements(order) == old(source.elems) && source.elems !! Elements(order)
        invariant Distinct(order)
        invariant forall x :: x in old(source.elems) ==> !veto(BeforeRemove(x))
        invariant events.trace == t0 + ClearRecords(order, true)
        invariant events.subscribers != null ==> events.Received() == r0 + ItemEvents(ClearRecords(order, true))
        decreases |source.elems|
      {
        var x :| x in source.elems;
        ghost var t1, r1 := events.trace, events.Received();
        EnumerationStep(old(source.elems), source.elems, order, x);
        var removed := Remove(x);
        ClearLogSnoc(t0, order, x, true, t1, events.trace);
        ClearLogSnoc(r0, order, x, true, r1, events.Received());
        order := order + [x];
      }
    }

    /** AddAll: a null argument throws before anything is raised; otherwise Add for every
        item, returning whether any of them added. */
    method AddAll(c: Option<seq<T>>) returns (r: Result<bool>)
      modifies source, events, events.subscribers
      ensures c.None? ==> r == Err(ArgumentNull) && source.elems == old(source.elems) && events.Raised([])
      ensures c.Some? ==>
                var st := AddAllStep(old(source.elems), c.value, old(events.Veto()), notifiesAdd);
                source.elems == st.elems && events.Raised(st.records) && r == Ok(st.result)
    {
      if c.None? {
        return Err(ArgumentNull);
      }
      var items := c.value;
      ghost var s0, veto, t0, r0 := source.elems, events.Veto(), events.trace, events.Received();
      var output := false;
      for i := 0 to |items|
        invariant events.subscribers == old(events.subscribers) && events.Veto() == veto
        invariant var st := AddAllStep(s0, items[..i], veto, notifiesAdd);
                  && source.elems == st.elems && output == st.result
                  && events.trace == t0 + st.records
                  && (events.subscribers != null ==> events.Received() == r0 + ItemEvents(st.records))
      {
        ghost var prev := AddAllStep(s0, items[..i], veto, notifiesAdd);
        ghost var t1, r1 := events.trace, events.Received();
        var added := Add(items[i]);
        output := output || added;
        ghost var step := AddStep(prev.elems, items[i], veto, notifiesAdd);
        assert items[..i + 1][..i] == items[..i];
        LogsCompose(t0, prev.records, t1, step.records, events.trace);
        if events.subscribers != null {
          ItemEventsAppend(prev.records, step.records);
          LogsCompose(r0, ItemEvents(prev.records), r1, ItemEvents(step.records), events.Received());
        }
      }
      assert items[..|items|] == items;
      r := Ok(output);
    }

    /** RemoveAll: a null argument throws before anything is raised; otherwise Remove for
        every item, returning whether any of them removed. */
    method RemoveAll(c: Option<seq<T>>) returns (r: Result<bool>)
      modifies source, events, events.subscribers
      ensures c.None? ==> r == Err(ArgumentNull) && source.elems == old(source.elems) && events.Raised([])
      ensures c.Some? ==>
                var st := RemoveAllStep(old(source.elems), c.value, old(events.Veto()));
                source.elems == st.elems && events.Raised(st.records) && r == Ok(st.result)
    {
      if c.None? {
        return Err(ArgumentNull);
      }
      var items := c.value;
      ghost var s0, veto, t0, r0 := source.elems, events.Veto(), events.trace, events.Received();
      var output := false;
      for i := 0 to |items|
        invariant events.subscribers == old(events.subscribers) && events.Veto() == veto
        invariant var st := RemoveAllStep(s0, items[..i], veto);
                  && source.elems == st.elems && output == st.result
                  && events.trace == t0 + st.records
                  && (events.subscribers != null ==> events.Received() == r0 + ItemEvents(st.records))
      {
        ghost var prev := RemoveAllStep(s0, items[..i], veto);
        ghost var t1, r1 := events.trace, events.Received();
        var removed := Remove(items[i]);
        output := output || removed;
        ghost var step := RemoveStep(prev.elems, items[i], veto);
        assert items[..i + 1][..i] == items[..i];
        LogsCompose(t0, prev.records, t1, step.records, events.trace);
        if events.subscribers != null {
          ItemEventsAppend(prev.records, step.records);
          LogsCompose(r0, ItemEvents(prev.records), r1, ItemEvents(step.records), events.Received());
        }
      }
      assert items[..|items|] == items;
      r := Ok(output);
    }

    /** ExceptWith: a null argument throws; otherwise RemoveAll over a snapshot of `other`. */
    method ExceptWith(other: Option<seq<T>>) returns (o: Outcome)
      modifies source, events, events.subscribers
      ensures other.None? ==> o == Fail(ArgumentNull) && source.elems == old(source.elems) && events.Raised([])
      ensures other.Some? ==>
                var st := RemoveAllStep(old(source.elems), other.value, old(events.Veto()));
                o == Done && source.elems == st.elems && events.Raised(st.records)
    {
      if other.None? {
        return Fail(ArgumentNull);
      }
      var _ := RemoveAll(other);
      o := Done;
    }

    /** IntersectWith: a null argument throws; otherwise ExceptWith over the source's
        elements that are not in `other`, taken in the set's enumeration order `order`. */
    method IntersectWith(other: Option<seq<T>>) returns (o: Outcome, ghost order: seq<T>)
      modifies source, events, events.subscribers
      ensures other.None? ==> o == Fail(ArgumentNull) && source.elems == old(source.elems) && events.Raised([])
      ensures other.Some? ==>
                && Distinct(order) && Elements(order) == old(source.elems) - Elements(other.value)
                && var st := RemoveAllStep(old(source.elems), order, old(events.Veto()));
                   o == Done && source.elems == st.elems && events.Raised(st.records)
    {
      order := [];
      if other.None? {
        o := Fail(ArgumentNull);
        return;
      }
      var outside := EnumerationOf(source.elems - Elements(other.value));
      order := outside;
      o := ExceptWith(Some(outside));
    }

    /** UnionWith: a null argument throws; otherwise AddAll over the items of `other` that
        are not yet in the source, each once, in the order of `other`. */
    method UnionWith(other: Option<seq<T>>) returns (o: Outcome)
      modifies source, events, events.subscribers
      ensures other.None? ==> o == Fail(ArgumentNull) && source.elems == old(source.elems) && events.Raised([])
      ensures other.Some? ==>
                var st := AddAllStep(old(source.elems), ExceptInOrder(other.value, old(source.elems)),
                                     old(events.Veto()), notifiesAdd);
                o == Done && source.elems == st.elems && events.Raised(st.records)
    {
      if other.None? {
        return Fail(ArgumentNull);
      }
      var toAdd := ExceptInOrder(other.value, source.elems);
      var _ := AddAll(Some(toAdd));
      o := Done;
    }

    /** SymmetricExceptWith, as written: the source's elements that are in `other` are
        removed (taken in enumeration order `order`), and only then is the query for the
        items to add enumerated, against the set as the removals left it. */
    method SymmetricExceptWith(other: Option<seq<T>>) returns (o: Outcome, ghost order: seq<T>)
      modifies source, events, events.subscribers
      ensures other.None? ==> o == Fail(ArgumentNull) && source.elems == old(source.elems) && events.Raised([])
      ensures other.Some? ==>
                && Distinct(order) && Elements(order) == old(source.elems) * Elements(other.value)
                && var removal := RemoveAllStep(old(source.elems), order, old(events.Veto()));
                   var addition := AddAllStep(removal.elems, ExceptInOrder(other.value, removal.elems),
                                              old(events.Veto()), notifiesAdd);
                   o == Done && source.elems == addition.elems
                   && events.Raised(removal.records + addition.records)
    {
      order := [];
      if other.None? {
        o := Fail(ArgumentNull);
        return;
      }
      ghost var t0, r0 := events.trace, events.Received();
      var toRemove := EnumerationOf(source.elems * Elements(other.value));
      order := toRemove;
      o := ExceptWith(Some(toRemove));
      ghost var t1, r1, trace1 := events.trace, events.Received(), events.trace[|t0|..];
      var toAdd := ExceptInOrder(other.value, source.elems);
      var _ := AddAll(Some(toAdd));
      LogsCompose(t0, trace1, t1, events.trace[|t1|..], events.trace);
      if events.subscribers != null {
        ItemEventsAppend(trace1, events.trace[|t1|..]);
        LogsCompose(r0, ItemEvents(trace1), r1, ItemEvents(events.trace[|t1|..]), events.Received());
      }
    }

    /** SymmetricExceptWith as its documentation describes it: the items to add are fixed
        before anything is removed. */
    method SymmetricExceptWithSnapshot(other: Option<seq<T>>) returns (o: Outcome, ghost order: seq<T>)
      modifies source, events, events.subscribers
      ensures other.None? ==> o == Fail(ArgumentNull) && source.elems == old(source.elems) && events.Raised([])
      ensures other.Some? ==>
                && Distinct(order) && Elements(order) == old(source.elems) * Elements(other.value)
                && var removal := RemoveAllStep(old(source.elems), order, old(events.Veto()));
                   var addition := AddAllStep(removal.elems, ExceptInOrder(other.value, old(source.elems)),
                                              old(events.Veto()), notifiesAdd);
                   o == Done && source.elems == addition.elems
                   && events.Raised(removal.records + addition.records)
    {
      order := [];
      if other.None? {
        o := Fail(ArgumentNull);
        return;
      }
      ghost var t0, r0 := events.trace, events.Received();
      var toAdd := ExceptInOrder(other.value, source.elems);
      var toRemove := EnumerationOf(source.elems * Elements(other.value));
      order := toRemove;
      o := ExceptWith(Some(toRemove));
      ghost var t1, r1, trace1 := events.trace, events.Received(), events.trace[|t0|..];
      var _ := AddAll(Some(toAdd));
      LogsCompose(t0, trace1, t1, events.trace[|t1|..], events.trace);
      if events.subscribers != null {
        ItemEventsAppend(trace1, events.trace[|t1|..]);
        LogsCompose(r0, ItemEvents(trace1), r1, ItemEvents(events.trace[|t1|..]), events.Received());
      }
    }

    /** The number of elements; raises nothing. */
    function Count(): (n: nat)
      reads this, source
      ensures n == |source.elems|
    {
      |source.elems|
    }

    /** Whether `x` is an element, that is, whether adding it would leave the set as it is;
        raises nothing. */
    function Contains(x: T): (b: bool)
      reads this, source
      ensures b <==> x in source.elems
      ensures b <==> |source.elems + {x}| == Count()
    {
      if x in source.elems then
        assert source.elems + {x} == source.elems;
        true
      else
        assert source.elems !! {x};
        false
    }

    /** Whether every element is among the items of `other`; a null argument throws. */
    function IsSubsetOf(other: Option<seq<T>>): (r: Result<bool>)
      reads this, source
      ensures r.Err? <==> other.None?
      ensures r.Ok? ==> (r.value <==> forall x :: x in source.elems ==> x in other.value)
    {
      if other.None? then Err(ArgumentNull) else Ok(source.elems <= Elements(other.value))
    }

    /** Whether every element is among the items of `other` and some item is not an
        element; a null argument throws. */
    function IsProperSubsetOf(other: Option<seq<T>>): (r: Result<bool>)
      reads this, source
      ensures r.Err? <==> other.None?
      ensures r.Ok? ==> (r.value <==> (forall x :: x in source.elems ==> x in other.value)
                                      && exists k :: 0 <= k < |other.value| && other.value[k] !in source.elems)
    {
      if other.None? then Err(ArgumentNull) else Ok(source.elems < Elements(other.value))
    }

    /** Whether every item of `other` is an element; a null argument throws. */
    function IsSupersetOf(other: Option<seq<T>>): (r: Result<bool>)
      reads this, source
      ensures r.Err? <==> other.None?
      ensures r.Ok? ==> (r.value <==> forall k :: 0 <= k < |other.value| ==> other.value[k] in source.elems)
    {
      if other.None? then Err(ArgumentNull) else Ok(Elements(other.value) <= source.elems)
    }

    /** Whether every item of `other` is an element and some element is not an item; a
        null argument throws. */
    function IsProperSupersetOf(other: Option<seq<T>>): (r: Result<bool>)
      reads this, source
      ensures r.Err? <==> other.None?
      ensures r.Ok? ==> (r.value <==> (forall k :: 0 <= k < |other.value| ==> other.value[k] in source.elems)
                                      && exists x :: x in source.elems && x !in other.value)
    {
      if other.None? then Err(ArgumentNull) else Ok(Elements(other.value) < source.elems)
    }

    /** Whether some item of `other` is an element; a null argument throws. */
    function Overlaps(other: Option<seq<T>>): (r: Result<bool>)
      reads this, source
      ensures r.Err? <==> other.None?
      ensures r.Ok? ==> (r.value <==> exists k :: 0 <= k < |other.value| && other.value[k] in source.elems)
    {
      if other.None? then Err(ArgumentNull)
      else
        var common := source.elems * Elements(other.value);
        assert common != {} ==> exists k :: 0 <= k < |other.value| && other.value[k] in source.elems by {
          if common != {} {
            var x :| x in common;
            assert x in other.value;
          }
        }
        assert (exists k :: 0 <= k < |other.value| && other.value[k] in source.elems) ==> common != {} by {
          if exists k :: 0 <= k < |other.value| && other.value[k] in source.elems {
            var k :| 0 <= k < |other.value| && other.value[k] in source.elems;
            assert other.value[k] in common;
          }
        }
        Ok(common != {})
    }

    /** Whether the elements are exactly the items of `other`; a null argument throws. */
    function SetEquals(other: Option<seq<T>>): (r: Result<bool>)
      reads this, source
      ensures r.Err? <==> other.None?
      ensures r.Ok? ==> (r.value <==> (forall x :: x in source.elems ==> x in other.value)
                                      && forall k :: 0 <= k < |other.value| ==> other.value[k] in source.elems)
    {
      if other.None? then Err(ArgumentNull) else Ok(source.elems == Elements(other.value))
    }
  }

  /** Building a set collection: a null source is rejected. `notifiesAdd` chooses the
      public set (true) or the copy the set wrapper builds (false). */
  method NewEventRaisingSet<T(==)>(source: SetSource?<T>, notifiesAdd: bool) returns (r: Result<EventRaisingSet<T>>)
    ensures r.Err? <==> source == null
    ensures r.Err? ==> r.error == ArgumentNull
    ensures r.Ok? ==> fresh(r.value) && r.value.source == source && r.value.notifiesAdd == notifiesAdd
                      && r.value.events.subscribers == null && r.value.events.trace == []
  {
    if source == null {
      return Err(ArgumentNull);
    }
    var created := new EventRaisingSet(source, notifiesAdd);
    r := Ok(created);
  }

  /** AddAll attempts every item, in order, cancelled or not: the accumulator does not
      short-circuit. */
  lemma {:induction false} AddAllAttempts<T>(s: set<T>, items: seq<T>, veto: Event<T> -> bool, notify: bool)
    ensures Attempts(AddAllStep(s, items, veto, notify).records) == items
  {
    if items != [] {
      var init, x := items[..|items| - 1], items[|items| - 1];
      AddAllAttempts(s, init, veto, notify);
      var prev := AddAllStep(s, init, veto, notify);
      var step := AddStep(prev.elems, x, veto, notify);
      ProjectionsAppend(prev.records, step.records);
      AttemptProjections(x, !(veto(BeforeAdd(x)) || x in prev.elems), notify);
      assert items == init + [x];
    }
  }

  /** Whatever the handlers decide, AddAll only grows the set, only by items of `items`,
      and returns whether it grew. */
  lemma {:induction false} AddAllBounds<T>(s: set<T>, items: seq<T>, veto: Event<T> -> bool, notify: bool)
    ensures var st := AddAllStep(s, items, veto, notify);
            && s <= st.elems <= s + Elements(items)
            && (st.result <==> st.elems != s)
  {
    if items != [] {
      var init, x := items[..|items| - 1], items[|items| - 1];
      AddAllBounds(s, init, veto, notify);
      ElementsSnoc(init, x);
      assert items == init + [x];
    }
  }

  /** With no add cancelled, AddAll leaves the union of the set and the items. */
  lemma {:induction false} AddAllUnion<T>(s: set<T>, items: seq<T>, veto: Event<T> -> bool, notify: bool)
    requires forall k :: 0 <= k < |items| ==> !veto(BeforeAdd(items[k]))
    ensures AddAllStep(s, items, veto, notify).elems == s + Elements(items)
  {
    if items != [] {
      var init, x := items[..|items| - 1], items[|items| - 1];
      assert forall k :: 0 <= k < |init| ==> init[k] == items[k];
      AddAllUnion(s, init, veto, notify);
      ElementsSnoc(init, x);
      assert items == init + [x];
    }
  }

  /** RemoveAll attempts every item, in order, cancelled or not. */
  lemma {:induction false} RemoveAllAttempts<T>(s: set<T>, items: seq<T>, veto: Event<T> -> bool)
    ensures Attempts(RemoveAllStep(s, items, veto).records) == items
  {
    if items != [] {
      var init, x := items[..|items| - 1], items[|items| - 1];
      RemoveAllAttempts(s, init, veto);
      var prev := RemoveAllStep(s, init, veto);
      var step := RemoveStep(prev.elems, x, veto);
      ProjectionsAppend(prev.records, step.records);
      AttemptProjections(x, !(veto(BeforeRemove(x)) || x !in prev.elems), true);
      assert items == init + [x];
    }
  }

  /** Whatever the handlers decide, RemoveAll only shrinks the set, only by items of
      `items`, and returns whether it shrank. */
  lemma {:induction false} RemoveAllBounds<T>(s: set<T>, items: seq<T>, veto: Event<T> -> bool)
    ensures var st := RemoveAllStep(s, items, veto);
            && s - Elements(items) <= st.elems <= s
            && (st.result <==> st.elems != s)
  {
    if items != [] {
      var init, x := items[..|items| - 1], items[|items| - 1];
      RemoveAllBounds(s, init, veto);
      ElementsSnoc(init, x);
      assert items == init + [x];
    }
  }

  /** With no removal cancelled, RemoveAll leaves the set less the items. */
  lemma {:induction false} RemoveAllDifference<T>(s: set<T>, items: seq<T>, veto: Event<T> -> bool)
    requires forall k :: 0 <= k < |items| ==> !veto(BeforeRemove(items[k]))
    ensures RemoveAllStep(s, items, veto).elems == s - Elements(items)
  {
    if items != [] {
      var init, x := items[..|items| - 1], items[|items| - 1];
      assert forall k :: 0 <= k < |init| ==> init[k] == items[k];
      RemoveAllDifference(s, init, veto);
      ElementsSnoc(init, x);
      assert items == init + [x];
    }
  }

  /** IntersectWith with no removal cancelled leaves the intersection, and the only items
      it attempts to remove are the elements outside `other`, each once. */
  lemma IntersectWithMeaning<T>(s: set<T>, other: seq<T>, order: seq<T>, veto: Event<T> -> bool)
    requires Distinct(order) && Elements(order) == s - Elements(other)
    requires forall x :: !veto(BeforeRemove(x))
    ensures RemoveAllStep(s, order, veto).elems == s * Elements(other)
    ensures Attempts(RemoveAllStep(s, order, veto).records) == order
  {
    RemoveAllDifference(s, order, veto);
    RemoveAllAttempts(s, order, veto);
  }

  /** UnionWith with no add cancelled leaves the union; the items it attempts are the
      items of `other` not already present, each once. */
  lemma UnionWithMeaning<T>(s: set<T>, other: seq<T>, veto: Event<T> -> bool, notify: bool)
    requires forall x :: !veto(BeforeAdd(x))
    ensures AddAllStep(s, ExceptInOrder(other, s), veto, notify).elems == s + Elements(other)
    ensures Distinct(ExceptInOrder(other, s)) && Elements(ExceptInOrder(other, s)) == Elements(other) - s
  {
    AddAllUnion(s, ExceptInOrder(other, s), veto, notify);
  }

  /** UnionWith with nothing new, such as the union of a set with its own elements,
      raises nothing and changes nothing, whatever the handlers would decide. */
  lemma UnionWithNothingNew<T>(s: set<T>, other: seq<T>, veto: Event<T> -> bool, notify: bool)
    requires Elements(other) <= s
    ensures AddAllStep(s, ExceptInOrder(other, s), veto, notify) == SetStep(s, [], false)
  {
  }

  /** SymmetricExceptWith as written, with nothing cancelled: the common elements are
      removed and then, since the items to add are looked up against the set the removals
      left, added back, so the set ends as the union rather than the symmetric
      difference. */
  lemma SymmetricExceptWithAsWritten<T>(s: set<T>, other: seq<T>, order: seq<T>, veto: Event<T> -> bool, notify: bool)
    requires Distinct(order) && Elements(order) == s * Elements(other)
    requires forall x :: !veto(BeforeAdd(x)) && !veto(BeforeRemove(x))
    ensures var removal := RemoveAllStep(s, order, veto);
            && removal.elems == s - Elements(other)
            && Elements(ExceptInOrder(other, removal.elems)) == Elements(other)
            && AddAllStep(removal.elems, ExceptInOrder(other, removal.elems), veto, notify).elems
               == s + Elements(other)
  {
    RemoveAllDifference(s, order, veto);
    var removal := RemoveAllStep(s, order, veto);
    AddAllUnion(removal.elems, ExceptInOrder(other, removal.elems), veto, notify);
  }

  /** SymmetricExceptWith as written on the set {1} with the items [1] and no handler
      cancelling anything: the set ends as {1}, where the symmetric difference is empty. */
  lemma SymmetricExceptWithCounterexample()
    ensures var veto: Event<int> -> bool := e => false;
            var removal := RemoveAllStep({1}, [1], veto);
            AddAllStep(removal.elems, ExceptInOrder([1], removal.elems), veto, true).elems == {1}
    ensures SymmetricDifference({1}, Elements([1])) == {}
  {
    var veto: Event<int> -> bool := e => false;
    assert Elements([1]) == {1};
    assert Distinct([1]);
    SymmetricExceptWithAsWritten({1}, [1], [1], veto, true);
  }

  /** The symmetric difference of two sets. */
  function SymmetricDifference<T>(a: set<T>, b: set<T>): set<T>
  {
    (a - b) + (b - a)
  }

  /** SymmetricExceptWith with the items to add fixed before the removals, with nothing
      cancelled, leaves the symmetric difference. */
  lemma SymmetricExceptWithSnapshotMeaning<T>(s: set<T>, other: seq<T>, order: seq<T>, veto: Event<T> -> bool, notify: bool)
    requires Distinct(order) && Elements(order) == s * Elements(other)
    requires forall x :: !veto(BeforeAdd(x)) && !veto(BeforeRemove(x))
    ensures var removal := RemoveAllStep(s, order, veto);
            AddAllStep(removal.elems, ExceptInOrder(other, s), veto, notify).elems
            == SymmetricDifference(s, Elements(other))
  {
    RemoveAllDifference(s, order, veto);
    var removal := RemoveAllStep(s, order, veto);
    AddAllUnion(removal.elems, ExceptInOrder(other, s), veto, notify);
  }

  /** The corrected SymmetricExceptWith undoes itself: with nothing cancelled, a second
      call with the same items gives the set back, whatever the enumeration orders of the
      two calls' removals. */
  lemma SymmetricExceptWithSnapshotTwice<T>(s: set<T>, other: seq<T>, order1: seq<T>, order2: seq<T>,
                                            veto: Event<T> -> bool, notify: bool)
    requires forall x :: !veto(BeforeAdd(x)) && !veto(BeforeRemove(x))
    requires Distinct(order1) && Elements(order1) == s * Elements(other)
    requires var once := AddAllStep(RemoveAllStep(s, order1, veto).elems, ExceptInOrder(other, s), veto, notify).elems;
             Distinct(order2) && Elements(order2) == once * Elements(other)
    ensures var once := AddAllStep(RemoveAllStep(s, order1, veto).elems, ExceptInOrder(other, s), veto, notify).elems;
            AddAllStep(RemoveAllStep(once, order2, veto).elems, ExceptInOrder(other, once), veto, notify).elems == s
  {
    var once := AddAllStep(RemoveAllStep(s, order1, veto).elems, ExceptInOrder(other, s), veto, notify).elems;
    SymmetricExceptWithSnapshotMeaning(s, other, order1, veto, notify);
    SymmetricExceptWithSnapshotMeaning(once, other, order2, veto, notify);
  }

  /** SymmetricExceptWith as written does not undo itself: with nothing cancelled, two
      calls with the same items leave the union of the set and the items, whatever the
      enumeration orders. */
  lemma SymmetricExceptWithTwiceAsWritten<T>(s: set<T>, other: seq<T>, order1: seq<T>, order2: seq<T>,
                                             veto: Event<T> -> bool, notify: bool)
    requires forall x :: !veto(BeforeAdd(x)) && !veto(BeforeRemove(x))
    requires Distinct(order1) && Elements(order1) == s * Elements(other)
    requires var removal := RemoveAllStep(s, order1, veto);
             var once := AddAllStep(removal.elems, ExceptInOrder(other, removal.elems), veto, notify).elems;
             Distinct(order2) && Elements(order2) == once * Elements(other)
    ensures var removal := RemoveAllStep(s, order1, veto);
            var once := AddAllStep(removal.elems, ExceptInOrder(other, removal.elems), veto, notify).elems;
            var removal2 := RemoveAllStep(once, order2, veto);
            AddAllStep(removal2.elems, ExceptInOrder(other, removal2.elems), veto, notify).elems
            == s + Elements(other)
  {
    var removal := RemoveAllStep(s, order1, veto);
    var once := AddAllStep(removal.elems, ExceptInOrder(other, removal.elems), veto, notify).elems;
    SymmetricExceptWithAsWritten(s, other, order1, veto, notify);
    SymmetricExceptWithAsWritten(once, other, order2, veto, notify);
  }

  /** The round trip failing on a disjoint pair: the set {1} and the items [2], nothing
      cancelled. The first call as written gives {1, 2}, and the second, which should give
      {1} back, leaves {1, 2}; the corrected operation does give {1} back. */
  lemma SymmetricExceptWithRoundTripCounterexample()
    ensures var veto: Event<int> -> bool := e => false;
            var removal := RemoveAllStep({1}, [], veto);
            var once := AddAllStep(removal.elems, ExceptInOrder([2], removal.elems), veto, true).elems;
            var removal2 := RemoveAllStep(once, [2], veto);
            once == {1, 2}
            && AddAllStep(removal2.elems, ExceptInOrder([2], removal2.elems), veto, true).elems == {1, 2}
    ensures var veto: Event<int> -> bool := e => false;
            var once := AddAllStep(RemoveAllStep({1}, [], veto).elems, ExceptInOrder([2], {1}), veto, true).elems;
            AddAllStep(RemoveAllStep(once, [2], veto).elems, ExceptInOrder([2], once), veto, true).elems == {1}
  {
    var veto: Event<int> -> bool := e => false;
    assert Elements([2]) == {2};
    assert Distinct([2]);
    SymmetricExceptWithAsWritten({1}, [2], [], veto, true);
    SymmetricExceptWithTwiceAsWritten({1}, [2], [], [2], veto, true);
    SymmetricExceptWithSnapshotMeaning({1}, [2], [], veto, true);
    SymmetricExceptWithSnapshotTwice({1}, [2], [], [2], veto, true);
  }
}
