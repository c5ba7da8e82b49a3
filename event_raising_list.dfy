/** The event-raising decorator over a list-shaped source: the generic collection
    operations (Add, Remove, Clear and the event-free pass-throughs), and the list
    operations (the indexer, Insert, RemoveAt, IndexOf). Every mutation first raises a
    cancellable before-record, touches the source only when no handler cancelled it, and
    raises the after-record and the changed notification only when the source changed. */
module Lists {
  import opened Events
  import opened Storage
  import opened CollectionEvents

  /** What one list operation does, as a value: the list left, the records raised and the
      outcome returned. */
  datatype ListStep<T> = ListStep(items: seq<T>, records: seq<Event<T>>, outcome: Outcome)

  /** Insert at `index`: the before-add record is raised first; when no handler cancels it
      the source inserts, throwing for an index outside 0..Count, and only a successful
      insert raises the after-add record and the changed notification. */
  function InsertStep<T>(s: seq<T>, index: int, x: T, veto: Event<T> -> bool): ListStep<T>
  {
    if veto(BeforeAdd(x)) then ListStep(s, [BeforeAdd(x)], Done)
    else if 0 <= index <= |s| then ListStep(s[..index] + [x] + s[index..], AddRecords(x, true, true), Done)
    else ListStep(s, [BeforeAdd(x)], Fail(ArgumentOutOfRange))
  }

  /** The indexer's setter, as written: a negative index throws when the item is read; an
      index inside the list removes the item found there (by value, so its first
      occurrence), and a cancelled removal abandons the call; then, unless the removal was
      cancelled, the new value is inserted at `index`. */
  function SetItemStep<T(==)>(s: seq<T>, index: int, v: T, veto: Event<T> -> bool): ListStep<T>
  {
    if index < 0 then ListStep(s, [], Fail(ArgumentOutOfRange))
    else if index < |s| then
      var x := s[index];
      if veto(BeforeRemove(x)) then ListStep(s, [BeforeRemove(x)], Done)
      else
        var ins := InsertStep(RemoveFirst(s, x), index, v, veto);
        ListStep(ins.items, RemoveRecords(x, true, true) + ins.records, ins.outcome)
    else InsertStep(s, index, v, veto)
  }

  /** The list left after `n` rounds of Clear's loop, each of which tries to remove the
      current first item; a round whose removal is cancelled leaves the list as it was. */
  function ClearRounds<T>(s: seq<T>, veto: Event<T> -> bool, n: nat): (r: seq<T>)
    ensures |r| <= |s| && r == s[|s| - |r|..]
  {
    if n == 0 || s == [] || veto(BeforeRemove(s[0])) then s else ClearRounds(s[1..], veto, n - 1)
  }

  /** A list-shaped collection that raises events around every change to its source.
      `source` is the wrapped storage, shared with whoever built this collection;
      `events` is this collection's event-raising half (its records name `source`). */
  class EventRaisingList<T(==)> {
    const source: ListSource<T>
    const events: CollectionEvents<T>

    constructor (source: ListSource<T>)
      ensures this.source == source && fresh(events)
      ensures events.collection == source && events.cancelable
      ensures events.subscribers == null && events.trace == []
    {
      this.source := source;
      events := new CollectionEvents(source, true);
    }

    /** The number of items; raises nothing. */
    function Count(): (n: nat)
      reads this, source
      ensures n == |source.items|
    {
      |source.items|
    }

    /** Whether the list holds `x`; raises nothing. */
    function Contains(x: T): (b: bool)
      reads this, source
      ensures b <==> exists k :: 0 <= k < |source.items| && source.items[k] == x
    {
      x in source.items
    }

    /** The position of the first occurrence of `x`, or -1; raises nothing. */
    function IndexOf(x: T): (i: int)
      reads this, source
      ensures -1 <= i < |source.items|
      ensures i == -1 <==> !Contains(x)
      ensures 0 <= i ==> source.items[i] == x && forall k :: 0 <= k < i ==> source.items[k] != x
    {
      IndexOfFirst(source.items, x)
    }

    /** The indexer's getter: the item at `index`, or an out-of-range error; raises nothing. */
    function Get(index: int): (r: Result<T>)
      reads this, source
      ensures r.Err? <==> !(0 <= index < |source.items|)
      ensures r.Err? ==> r.error == ArgumentOutOfRange
      ensures r.Ok? ==> r.value == source.items[index]
    {
      if 0 <= index < |source.items| then Ok(source.items[index]) else Err(ArgumentOutOfRange)
    }

    /** Add: when the before-add record is not cancelled the source appends `x`, and the
        after-add record and the changed notification follow; otherwise nothing changes. */
    method Add(x: T)
      modifies source, events, events.subscribers
      ensures var proceed := !old(events.Veto())(BeforeAdd(x));
              && source.items == (if proceed then old(source.items) + [x] else old(source.items))
              && events.Raised(AddRecords(x, proceed, true))
    {
      var proceed := events.RaiseBefore(BeforeAdd(x));
      if proceed {
        source.Add(x);
        events.Raise(AfterAdd(x));
        events.Raise(Changed(Added, x));
      }
    }

    /** Remove: returns whether an item was removed. A cancelled removal returns false and
        changes nothing; otherwise the first occurrence of `x` goes, and only an actual
        removal raises the after-remove record and the changed notification. */
    method Remove(x: T) returns (removed: bool)
      modifies source, events, events.subscribers
      ensures var proceed := !old(events.Veto())(BeforeRemove(x));
              && removed == (proceed && x in old(source.items))
              && source.items == (if removed then RemoveFirst(old(source.items), x) else old(source.items))
              && events.Raised(RemoveRecords(x, removed, true))
    {
      var proceed := events.RaiseBefore(BeforeRemove(x));
      removed := false;
      if proceed {
        removed := source.Remove(x);
        if removed {
          events.Raise(AfterRemove(x));
          events.Raise(Changed(Removed, x));
        }
      }
    }

    /** Clear: removes the first item, through Remove, until the list is empty. It ends
        only when no handler cancels the removal of any item present (see ClearStalls),
        and then raises one uncancelled removal per item, front to back. */
    method Clear()
      requires forall k :: 0 <= k < |source.items| ==> !events.Veto()(BeforeRemove(source.items[k]))
      modifies source, events, events.subscribers
      ensures source.items == []
      ensures events.Raised(ClearRecords(old(source.items), true))
    {
      ghost var s0 := source.items;
      ghost var veto := events.Veto();
      ghost var done := 0;
      while |source.items| > 0
        invariant events.subscribers == old(events.subscribers) && events.Veto() == veto
        invariant 0 <= done <= |s0| && source.items == s0[done..]
        invariant forall k :: 0 <= k < |source.items| ==> !veto(BeforeRemove(source.items[k]))
        invariant events.trace + ClearRecords(source.items, true) == old(events.trace) + ClearRecords(s0, true)
        invariant events.subscribers != null ==>
          events.subscribers.received + ItemEvents(ClearRecords(source.items, true))
          == old(events.subscribers.received) + ItemEvents(ClearRecords(s0, true))
        decreases |source.items|
      {
        ghost var before := source.items;
        ghost var trace0 := events.trace;
        ghost var received0 := if events.subscribers != null then events.subscribers.received else [];
        var removed := Remove(source.items[0]);
        assert removed && source.items == before[1..];
        assert s0[done..][1..] == s0[done + 1..];
        done := done + 1;
        ClearRound(before, true, trace0, events.trace);
        if events.subscribers != null {
          ClearRound(before, true, received0, events.subscribers.received);
        }
      }
    }

    /** Insert at `index` (see InsertStep). */
    method Insert(index: int, x: T) returns (o: Outcome)
      modifies source, events, events.subscribers
      ensures var st := InsertStep(old(source.items), index, x, old(events.Veto()));
              source.items == st.items && events.Raised(st.records) && o == st.outcome
    {
      var proceed := events.RaiseBefore(BeforeAdd(x));
      o := Done;
      if proceed {
        o := source.Insert(index, x);
        if o == Done {
          events.Raise(AfterAdd(x));
          events.Raise(Changed(Added, x));
        }
      }
    }

    /** RemoveAt, as written: the item at `index` is read before anything is raised (an
        index outside the list throws there), then removed by value, so it is the item's
        first occurrence that goes. A cancelled removal changes nothing. */
    method RemoveAt(index: int) returns (o: Outcome)
      modifies source, events, events.subscribers
      ensures !(0 <= index < |old(source.items)|) ==>
                o == Fail(ArgumentOutOfRange) && source.items == old(source.items) && events.Raised([])
      ensures 0 <= index < |old(source.items)| ==>
                var x := old(source.items)[index];
                var proceed := !old(events.Veto())(BeforeRemove(x));
                && o == Done
                && source.items == (if proceed then RemoveFirst(old(source.items), x) else old(source.items))
                && events.Raised(RemoveRecords(x, proceed, true))
    {
      if !(0 <= index < |source.items|) {
        return Fail(ArgumentOutOfRange);
      }
      var x := source.items[index];
      var proceed := events.RaiseBefore(BeforeRemove(x));
      if proceed {
        var removed := source.Remove(x);
        if removed {
          events.Raise(AfterRemove(x));
          events.Raise(Changed(Removed, x));
        }
      }
      o := Done;
    }

    /** RemoveAt as its documentation describes it: the item at position `index` goes,
        whatever occurs before it. */
    method RemoveAtPosition(index: int) returns (o: Outcome)
      modifies source, events, events.subscribers
      ensures !(0 <= index < |old(source.items)|) ==>
                o == Fail(ArgumentOutOfRange) && source.items == old(source.items) && events.Raised([])
      ensures 0 <= index < |old(source.items)| ==>
                var x := old(source.items)[index];
                var proceed := !old(events.Veto())(BeforeRemove(x));
                && o == Done
                && source.items == (if proceed then old(source.items)[..index] + old(source.items)[index + 1..] else old(source.items))
                && events.Raised(RemoveRecords(x, proceed, true))
    {
      if !(0 <= index < |source.items|) {
        return Fail(ArgumentOutOfRange);
      }
      var x := source.items[index];
      var proceed := events.RaiseBefore(BeforeRemove(x));
      if proceed {
        source.items := source.items[..index] + source.items[index + 1..];
        events.Raise(AfterRemove(x));
        events.Raise(Changed(Removed, x));
      }
      o := Done;
    }

    /** The first half of the indexer's setter, for an index inside the list: the item
        there is raised for removal and, unless a handler cancels, removed by value. */
    method RemoveForReplacement(index: int) returns (proceed: bool, ghost head: seq<Event<T>>)
      requires 0 <= index < |source.items|
      modifies source, events, events.subscribers
      ensures var x := old(source.items)[index];
              && proceed == !old(events.Veto())(BeforeRemove(x))
              && head == RemoveRecords(x, proceed, true)
              && source.items == (if proceed then RemoveFirst(old(source.items), x) else old(source.items))
              && events.Raised(head)
    {
      var x := source.items[index];
      proceed := events.RaiseBefore(BeforeRemove(x));
      if proceed {
        var removed := source.Remove(x);
        assert removed;
        events.Raise(AfterRemove(x));
        events.Raise(Changed(Removed, x));
      }
      head := RemoveRecords(x, proceed, true);
    }

    /** The indexer's setter (see SetItemStep). */
    method SetItem(index: int, v: T) returns (o: Outcome)
      modifies source, events, events.subscribers
      ensures var st := SetItemStep(old(source.items), index, v, old(events.Veto()));
              source.items == st.items && events.Raised(st.records) && o == st.outcome
    {
      ghost var veto := events.Veto();
      ghost var s0, t0, r0 := source.items, events.trace, events.Received();
      ghost var head: seq<Event<T>> := [];
      var removeDidNotCancelReplacement := true;
      if |source.items| > index {
        if index < 0 {
          return Fail(ArgumentOutOfRange);
        }
        removeDidNotCancelReplacement, head := RemoveForReplacement(index);
      }
      ghost var s1, t1, r1 := source.items, events.trace, events.Received();
      o := Done;
      if removeDidNotCancelReplacement {
        o := Insert(index, v);
        ghost var st := InsertStep(s1, index, v, veto);
        assert SetItemStep(s0, index, v, veto) == ListStep(st.items, head + st.records, st.outcome);
        LogsCompose(t0, head, t1, st.records, events.trace);
        if events.subscribers != null {
          ItemEventsAppend(head, st.records);
          LogsCompose(r0, ItemEvents(head), r1, ItemEvents(st.records), events.Received());
        }
      }
    }

    /** CopyTo: the source's copy into `target` from `arrayIndex` on, with its argument
        checks; nothing is raised and only the copied slots change. */
    method CopyTo(target: array?<T>, arrayIndex: int) returns (o: Outcome)
      modifies target
      ensures target == null ==> o == Fail(ArgumentNull)
      ensures target != null && arrayIndex < 0 ==> o == Fail(ArgumentOutOfRange)
      ensures target != null && 0 <= arrayIndex && target.Length - arrayIndex < |source.items| ==>
                o == Fail(InsufficientSpace)
      ensures o.Fail? ==> target == null || target[..] == old(target[..])
      ensures o == Done <==> target != null && 0 <= arrayIndex && arrayIndex + |source.items| <= target.Length
      ensures o == Done ==>
                && target[arrayIndex..arrayIndex + |source.items|] == source.items
                && target[..arrayIndex] == old(target[..arrayIndex])
                && target[arrayIndex + |source.items|..] == old(target[arrayIndex + |source.items|..])
    {
      o := source.CopyTo(target, arrayIndex);
    }
  }

  /** Building a list collection: a null source is rejected. */
  method NewEventRaisingList<T(==)>(source: ListSource?<T>) returns (r: Result<EventRaisingList<T>>)
    ensures r.Err? <==> source == null
    ensures r.Err? ==> r.error == ArgumentNull
    ensures r.Ok? ==> fresh(r.value) && r.value.source == source
                      && r.value.events.subscribers == null && r.value.events.trace == []
  {
    if source == null {
      return Err(ArgumentNull);
    }
    var list := new EventRaisingList(source);
    r := Ok(list);
  }

  /** Removing by value removes the item at position `i` when that value does not occur
      earlier in the list. */
  lemma RemoveFirstAt<T>(s: seq<T>, i: int)
    requires 0 <= i < |s| && s[i] !in s[..i]
    ensures RemoveFirst(s, s[i]) == s[..i] + s[i + 1..]
  {
    var j := IndexOfFirst(s, s[i]);
    assert j <= i by {
      assert s[..i + 1][i] == s[i];
    }
  }

  /** With no earlier occurrence of the old item and neither step cancelled, the indexer
      replaces the item at `i` by `v`, raising the removal's three records and then the
      insertion's three. */
  lemma {:induction false} SetItemReplaces<T>(s: seq<T>, i: int, v: T, veto: Event<T> -> bool)
    requires 0 <= i < |s| && s[i] !in s[..i]
    requires !veto(BeforeRemove(s[i])) && !veto(BeforeAdd(v))
    ensures SetItemStep(s, i, v, veto).items == s[..i] + [v] + s[i + 1..]
    ensures SetItemStep(s, i, v, veto).records
            == [BeforeRemove(s[i]), AfterRemove(s[i]), Changed(Removed, s[i]),
                BeforeAdd(v), AfterAdd(v), Changed(Added, v)]
    ensures SetItemStep(s, i, v, veto).outcome == Done
  {
    RemoveFirstAt(s, i);
    var r := s[..i] + s[i + 1..];
    assert r[..i] == s[..i];
    assert r[i..] == s[i + 1..];
    assert InsertStep(r, i, v, veto).records == AddRecords(v, true, true);
    assert RemoveRecords(s[i], true, true) == [BeforeRemove(s[i]), AfterRemove(s[i]), Changed(Removed, s[i])];
    assert AddRecords(v, true, true) == [BeforeAdd(v), AfterAdd(v), Changed(Added, v)];
  }

  /** The indexer's partial outcomes: a cancelled removal leaves the list as it was and
      inserts nothing; a removal that goes through followed by a cancelled insertion
      leaves the list one shorter, holding what it held less one copy of the old item. */
  lemma {:induction false} SetItemCancelled<T>(s: seq<T>, i: int, v: T, veto: Event<T> -> bool)
    requires 0 <= i < |s|
    ensures veto(BeforeRemove(s[i])) ==>
              SetItemStep(s, i, v, veto) == ListStep(s, [BeforeRemove(s[i])], Done)
    ensures !veto(BeforeRemove(s[i])) && veto(BeforeAdd(v)) ==>
              var st := SetItemStep(s, i, v, veto);
              && |st.items| == |s| - 1
              && multiset(st.items) == multiset(s) - multiset{s[i]}
              && st.records == RemoveRecords(s[i], true, true) + [BeforeAdd(v)]
              && st.outcome == Done
  {
    var j := IndexOfFirst(s, s[i]);
    assert s == s[..j] + [s[j]] + s[j + 1..];
  }

  /** An index at or past the end skips the removal step and is a plain Insert; at the
      end exactly, an uncancelled insertion appends. */
  lemma {:induction false} SetItemPastEnd<T>(s: seq<T>, i: int, v: T, veto: Event<T> -> bool)
    requires |s| <= i
    ensures SetItemStep(s, i, v, veto) == InsertStep(s, i, v, veto)
    ensures i == |s| && !veto(BeforeAdd(v)) ==> SetItemStep(s, i, v, veto).items == s + [v]
    ensures i > |s| && !veto(BeforeAdd(v)) ==> SetItemStep(s, i, v, veto).outcome == Fail(ArgumentOutOfRange)
  {
    assert s[..|s|] == s && s[|s|..] == [];
  }

  /** The indexer as its documentation describes it: the item at position `index` is
      replaced, whatever occurs before it. */
  function SetItemAtPositionStep<T>(s: seq<T>, index: int, v: T, veto: Event<T> -> bool): ListStep<T>
  {
    if index < 0 then ListStep(s, [], Fail(ArgumentOutOfRange))
    else if index < |s| then
      var x := s[index];
      if veto(BeforeRemove(x)) then ListStep(s, [BeforeRemove(x)], Done)
      else
        var ins := InsertStep(s[..index] + s[index + 1..], index, v, veto);
        ListStep(ins.items, RemoveRecords(x, true, true) + ins.records, ins.outcome)
    else InsertStep(s, index, v, veto)
  }

  /** With neither step cancelled, the position-based indexer replaces the item at `i`
      in every list, duplicates or not, and agrees with the indexer as written whenever
      the old item does not occur earlier. */
  lemma {:induction false} SetItemAtPositionReplaces<T>(s: seq<T>, i: int, v: T, veto: Event<T> -> bool)
    requires 0 <= i < |s|
    requires !veto(BeforeRemove(s[i])) && !veto(BeforeAdd(v))
    ensures SetItemAtPositionStep(s, i, v, veto).items == s[..i] + [v] + s[i + 1..]
    ensures s[i] !in s[..i] ==> SetItemAtPositionStep(s, i, v, veto) == SetItemStep(s, i, v, veto)
  {
    var r := s[..i] + s[i + 1..];
    assert r[..i] == s[..i];
    assert r[i..] == s[i + 1..];
    if s[i] !in s[..i] {
      RemoveFirstAt(s, i);
    }
  }

  /** RemoveAt as written, on [1, 2, 1] at index 2: it is the 1 at position 0 that goes,
      leaving [2, 1] where [1, 2] was meant. */
  lemma RemoveAtDuplicateCounterexample()
    ensures RemoveFirst([1, 2, 1], [1, 2, 1][2]) == [2, 1]
    ensures [1, 2, 1][..2] + [1, 2, 1][3..] == [1, 2]
  {
    assert IndexOfFirst([1, 2, 1], 1) == 0;
  }

  /** The indexer as written, on [1, 2, 1] setting index 2 to 3 with nothing cancelled:
      the list becomes [2, 1, 3] where [1, 2, 3] was meant. */
  lemma SetItemDuplicateCounterexample(veto: Event<int> -> bool)
    requires !veto(BeforeRemove(1)) && !veto(BeforeAdd(3))
    ensures SetItemStep([1, 2, 1], 2, 3, veto).items == [2, 1, 3]
    ensures SetItemAtPositionStep([1, 2, 1], 2, 3, veto).items == [1, 2, 3]
  {
    assert IndexOfFirst([1, 2, 1], 1) == 0;
    assert RemoveFirst([1, 2, 1], 1) == [2, 1];
    SetItemAtPositionReplaces([1, 2, 1], 2, 3, veto);
  }

  /** Clear's loop empties the list exactly when no item present has its removal
      cancelled; then it takes one round per item. */
  lemma {:induction false} ClearEmpties<T>(s: seq<T>, veto: Event<T> -> bool)
    ensures (forall k :: 0 <= k < |s| ==> !veto(BeforeRemove(s[k]))) <==> ClearRounds(s, veto, |s|) == []
  {
    if s != [] {
      ClearEmpties(s[1..], veto);
      if forall k :: 0 <= k < |s| ==> !veto(BeforeRemove(s[k])) {
        assert forall k :: 0 <= k < |s[1..]| ==> !veto(BeforeRemove(s[1..][k])) by {
          forall k | 0 <= k < |s[1..]| ensures !veto(BeforeRemove(s[1..][k])) {
            assert s[1..][k] == s[k + 1];
          }
        }
      } else {
        var k :| 0 <= k < |s| && veto(BeforeRemove(s[k]));
        ClearStalls(s, veto, k, |s|);
      }
    }
  }

  /** Once an item whose removal is cancelled is in the list, Clear's loop never empties
      it, however many rounds it runs: the loop goes on for ever. */
  lemma {:induction false} ClearStalls<T>(s: seq<T>, veto: Event<T> -> bool, k: int, n: nat)
    requires 0 <= k < |s| && veto(BeforeRemove(s[k]))
    ensures ClearRounds(s, veto, n) != []
    ensures |ClearRounds(s, veto, n)| >= |s| - k
  {
    if n != 0 && !veto(BeforeRemove(s[0])) {
      assert s[1..][k - 1] == s[k];
      ClearStalls(s[1..], veto, k - 1, n - 1);
    }
  }
}
