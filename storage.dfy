/** The un-intercepted storage that the event-raising collections wrap: a list-shaped source
    (a generic collection or list, items kept in order, duplicates allowed) and a set-shaped
    source. Both are objects, so a wrapper and the collection it builds share one. */
module Storage {
  import opened Events

  /** The position of the first occurrence of `x` in `s`, or -1 when there is none. */
  function IndexOfFirst<T(==)>(s: seq<T>, x: T): (i: int)
    ensures -1 <= i < |s|
    ensures i == -1 <==> x !in s
    ensures 0 <= i ==> s[i] == x && x !in s[..i]
  {
    if s == [] then -1
    else if s[0] == x then 0
    else
      var j := IndexOfFirst(s[1..], x);
      assert s[1..][..j + 1] == s[..j + 2][1..] by { assert 0 <= j ==> j + 2 <= |s|; }
      if j == -1 then -1 else j + 1
  }

  /** `s` without the first occurrence of `x`; `s` itself when `x` does not occur. */
  function RemoveFirst<T(==)>(s: seq<T>, x: T): seq<T>
  {
    if x in s then s[..IndexOfFirst(s, x)] + s[IndexOfFirst(s, x) + 1..] else s
  }

  /** The items of a sequence, as a set. */
  function Elements<T>(s: seq<T>): (r: set<T>)
    ensures forall k :: 0 <= k < |s| ==> s[k] in r
    ensures forall x :: x in r ==> x in s
  {
    set x | x in s
  }

  /** No item occurs twice. */
  predicate Distinct<T(==)>(s: seq<T>)
  {
    forall i, j :: 0 <= i < j < |s| ==> s[i] != s[j]
  }

  /** Appending one item adds it to the elements, and keeps a sequence distinct when it
      was not there yet. */
  lemma ElementsSnoc<T>(s: seq<T>, x: T)
    ensures Elements(s + [x]) == Elements(s) + {x}
    ensures Distinct(s) && x !in Elements(s) ==> Distinct(s + [x])
  {
    assert forall y :: y in s + [x] <==> y in s || y == x;
  }

  /** Moving one element from the rest of a set to the end of a distinct enumeration keeps
      the two a partition of the whole. */
  lemma EnumerationStep<T>(whole: set<T>, rest: set<T>, order: seq<T>, x: T)
    requires rest + Elements(order) == whole && rest !! Elements(order) && Distinct(order) && x in rest
    ensures (rest - {x}) + Elements(order + [x]) == whole && (rest - {x}) !! Elements(order + [x])
    ensures Distinct(order + [x])
  {
    ElementsSnoc(order, x);
  }

  /** A list-shaped source collection (a .NET `List<T>` behind `ICollection<T>` or
      `IList<T>`). */
  class ListSource<T(==)> {
    var items: seq<T>

    constructor (items: seq<T>)
      ensures this.items == items
    {
      this.items := items;
    }

    /** Appends an item. */
    method Add(x: T)
      modifies this
      ensures items == old(items) + [x]
    {
      items := items + [x];
    }

    /** Removes the first occurrence of `x`, reporting whether there was one. */
    method Remove(x: T) returns (removed: bool)
      modifies this
      ensures removed == (x in old(items))
      ensures items == RemoveFirst(old(items), x)
    {
      removed := x in items;
      items := RemoveFirst(items, x);
    }

    /** Copies the items into `target` from `arrayIndex` on, with the argument checks of
        .NET's CopyTo: a null array, a negative index and too little room each throw, and
        then nothing is written; otherwise only the slots copied to change. */
    method CopyTo(target: array?<T>, arrayIndex: int) returns (o: Outcome)
      modifies target
      ensures target == null ==> o == Fail(ArgumentNull)
      ensures target != null && arrayIndex < 0 ==> o == Fail(ArgumentOutOfRange)
      ensures target != null && 0 <= arrayIndex && target.Length - arrayIndex < |items| ==>
                o == Fail(InsufficientSpace)
      ensures o.Fail? ==> target == null || target[..] == old(target[..])
      ensures o == Done <==> target != null && 0 <= arrayIndex && arrayIndex + |items| <= target.Length
      ensures o == Done ==>
                && target[arrayIndex..arrayIndex + |items|] == items
                && target[..arrayIndex] == old(target[..arrayIndex])
                && target[arrayIndex + |items|..] == old(target[arrayIndex + |items|..])
    {
      if target == null {
        return Fail(ArgumentNull);
      }
      if arrayIndex < 0 {
        return Fail(ArgumentOutOfRange);
      }
      if target.Length - arrayIndex < |items| {
        return Fail(InsufficientSpace);
      }
      var n := |items|;
      forall k | arrayIndex <= k < arrayIndex + n {
        target[k] := items[k - arrayIndex];
      }
      o := Done;
    }

    /** Inserts `x` before position `index`; an index outside 0..Count throws. */
    method Insert(index: int, x: T) returns (o: Outcome)
      modifies this
      ensures 0 <= index <= |old(items)| ==> o == Done && items == old(items)[..index] + [x] + old(items)[index..]
      ensures !(0 <= index <= |old(items)|) ==> o == Fail(ArgumentOutOfRange) && items == old(items)
    {
      if 0 <= index <= |items| {
        items := items[..index] + [x] + items[index..];
        o := Done;
      } else {
        o := Fail(ArgumentOutOfRange);
      }
    }
  }

  /** A set-shaped source collection (a .NET `HashSet<T>` behind `ISet<T>`). */
  class SetSource<T(==)> {
    var elems: set<T>

    constructor (elems: set<T>)
      ensures this.elems == elems
    {
      this.elems := elems;
    }

    /** Adds `x`, reporting whether it was new. */
    method Add(x: T) returns (added: bool)
      modifies this
      ensures added == (x !in old(elems))
      ensures elems == old(elems) + {x}
    {
      added := x !in elems;
      elems := elems + {x};
    }

    /** Removes `x`, reporting whether it was present. */
    method Remove(x: T) returns (removed: bool)
      modifies this
      ensures removed == (x in old(elems))
      ensures elems == old(elems) - {x}
    {
      removed := x in elems;
      elems := elems - {x};
    }
  }
}
