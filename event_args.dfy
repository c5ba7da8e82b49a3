/** The argument records of the modification and replacement events. The before-records
    are objects with a one-way cancel flag; the after-records only hold fields. */
module EventArgs {
  import opened Events

  /** The fields of an after-modify record: the collection modified and the item. */
  datatype AfterModifyRecord<T> = AfterModifyRecord(collection: object, item: T)

  /** Building an after-modify record: a null collection is rejected with an argument
      exception, a null item (when the item type admits one) is accepted as any other. */
  function NewAfterModifyRecord<T>(collection: object?, item: T): (r: Result<AfterModifyRecord<T>>)
    ensures r.Err? <==> collection == null
    ensures r.Err? ==> r.error == ArgumentNull
    ensures r.Ok? ==> r.value.collection == collection && r.value.item == item
  {
    if collection == null then Err(ArgumentNull) else Ok(AfterModifyRecord(collection, item))
  }

  /** The cancellable record raised before an item is added or removed. */
  class BeforeModifyEventArgs<T> {
    const collection: object
    const item: T
    var isCancelled: bool

    constructor (collection: object, item: T)
      ensures this.collection == collection && this.item == item
      ensures !isCancelled
    {
      this.collection := collection;
      this.item := item;
      isCancelled := false;
    }

    /** Cancels the pending modification. Only this method writes the flag after
        construction, and it only ever writes true, so the flag never returns to false. */
    method Cancel()
      modifies this
      ensures isCancelled
    {
      isCancelled := true;
    }
  }

  /** Constructing a before-modify record, with the base record's null check on the
      collection. */
  method NewBeforeModifyEventArgs<T>(collection: object?, item: T)
    returns (r: Result<BeforeModifyEventArgs<T>>)
    ensures r.Err? <==> collection == null
    ensures r.Err? ==> r.error == ArgumentNull
    ensures r.Ok? ==> fresh(r.value) && r.value.collection == collection
                      && r.value.item == item && !r.value.isCancelled
  {
    if collection == null {
      r := Err(ArgumentNull);
    } else {
      var args := new BeforeModifyEventArgs(collection, item);
      r := Ok(args);
    }
  }

  /** The cancellable record raised before a wrapper replaces its source collection. `C`
      is the (possibly-null) collection reference type: either side may be null. */
  class BeforeReplaceEventArgs<C> {
    const original: C
    const replacement: C
    var isCancelled: bool

    constructor (original: C, replacement: C)
      ensures this.original == original && this.replacement == replacement
      ensures !isCancelled
    {
      this.original := original;
      this.replacement := replacement;
      isCancelled := false;
    }

    /** Cancels the pending replacement; as for the modify record, the flag is one-way. */
    method Cancel()
      modifies this
      ensures isCancelled
    {
      isCancelled := true;
    }
  }
}
