/**
 A table with soft deletion: inserting replaces a row and brings it back, deleting marks it. Both versions
 of the graph store keep their nodes and edges in such a table.
 */
module SoftTable {

  datatype Row<+D> = Row(data: D, deleted: bool)

  type Table<P, +D> = map<P, Row<D>>

  datatype Item<+P, +D> = Item(key: P, data: D)

  ghost predicate Live<P, D>(t: Table<P, D>, pk: P) {
    pk in t && !t[pk].deleted
  }

  /** The REPLACE statement: the row ends up present, with the new data and not deleted. */
  function InsertRow<P, D>(t: Table<P, D>, item: Item<P, D>): Table<P, D> {
    t[item.key := Row(item.data, false)]
  }

  /** The UPDATE statement that sets date_deleted on the row with this primary key, if there is one. */
  function DeleteRow<P, D>(t: Table<P, D>, pk: P): Table<P, D> {
    if pk in t then t[pk := t[pk].(deleted := true)] else t
  }

  function PutRows<P, D>(t: Table<P, D>, items: seq<Item<P, D>>): Table<P, D> {
    if items == [] then t else InsertRow(PutRows(t, items[..|items| - 1]), items[|items| - 1])
  }

  function DeleteRows<P, D>(t: Table<P, D>, items: seq<Item<P, D>>): Table<P, D> {
    if items == [] then t else DeleteRow(DeleteRows(t, items[..|items| - 1]), items[|items| - 1].key)
  }

  // ---- What a batch of writes leaves behind ----

  ghost function ItemKeys<P, D>(items: seq<Item<P, D>>): set<P> {
    set item | item in items :: item.key
  }

  /** `item` is the last one in `items` with its key. */
  ghost predicate LastOf<P, D>(items: seq<Item<P, D>>, item: Item<P, D>) {
    exists i :: 0 <= i < |items| && items[i] == item && forall j :: i < j < |items| ==> items[j].key != item.key
  }

  function DeleteKeys<P, D>(t: Table<P, D>, pks: set<P>): Table<P, D> {
    map pk | pk in t :: if pk in pks then t[pk].(deleted := true) else t[pk]
  }

  lemma ItemKeysAppend<P, D>(items: seq<Item<P, D>>, item: Item<P, D>)
    ensures ItemKeys(items + [item]) == ItemKeys(items) + {item.key}
  {
    assert (items + [item])[|items|] == item;
    assert forall x :: x in items ==> x in items + [item];
  }

  lemma LastOfAppend<P, D>(items: seq<Item<P, D>>, last: Item<P, D>, item: Item<P, D>)
    requires item == last || (LastOf(items, item) && item.key != last.key)
    ensures LastOf(items + [last], item)
  {
    if item == last {
      assert (items + [last])[|items|] == item;
    } else {
      var i :| 0 <= i < |items| && items[i] == item && forall j :: i < j < |items| ==> items[j].key != item.key;
      assert (items + [last])[i] == item;
    }
  }

  /**
   Putting a batch makes the rows of its items live, each with the data of the last item for it, and no other row
   changes.
   */
  lemma {:induction false} PutRowsAt<P, D>(t: Table<P, D>, items: seq<Item<P, D>>, pk: P)
    ensures pk in ItemKeys(items) ==>
      pk in PutRows(t, items) && !PutRows(t, items)[pk].deleted && LastOf(items, Item(pk, PutRows(t, items)[pk].data))
    ensures pk !in ItemKeys(items) ==>
      (pk in PutRows(t, items) <==> pk in t) && (pk in t ==> PutRows(t, items)[pk] == t[pk])
  {
    if items != [] {
      var front, last := items[..|items| - 1], items[|items| - 1];
      PutRowsAt(t, front, pk);
      assert items == front + [last];
      ItemKeysAppend(front, last);
      if pk in ItemKeys(items) {
        LastOfAppend(front, last, Item(pk, PutRows(t, items)[pk].data));
      }
    }
  }

  /** Deleting a batch marks exactly the rows of its items. */
  lemma {:induction false} DeleteRowsOfKeys<P, D>(t: Table<P, D>, items: seq<Item<P, D>>)
    ensures DeleteRows(t, items) == DeleteKeys(t, ItemKeys(items))
  {
    if items == [] {
      assert DeleteKeys(t, ItemKeys(items)) == t;
    } else {
      var front, last := items[..|items| - 1], items[|items| - 1];
      DeleteRowsOfKeys(t, front);
      assert items == front + [last];
      ItemKeysAppend(front, last);
    }
  }

  // ---- Batches without duplicates ----

  /** A set of items held as an index from their primary key to their data. */
  type Index<P, +D> = map<P, D>

  /** `items` lists the entries of `idx`, each once. */
  ghost predicate ListsIndex<P, D>(items: seq<Item<P, D>>, idx: Index<P, D>) {
    && (forall i, j :: 0 <= i < j < |items| ==> items[i].key != items[j].key)
    && (forall i :: 0 <= i < |items| ==> items[i].key in idx && items[i].data == idx[items[i].key])
    && (forall pk :: pk in idx ==> exists i :: 0 <= i < |items| && items[i].key == pk)
  }

  function PutIndex<P, D>(t: Table<P, D>, idx: Index<P, D>): Table<P, D> {
    map pk | pk in t.Keys + idx.Keys :: if pk in idx then Row(idx[pk], false) else t[pk]
  }

  lemma PutIndexTwice<P, D>(t: Table<P, D>, idx: Index<P, D>)
    ensures PutIndex(PutIndex(t, idx), idx) == PutIndex(t, idx)
  {
  }

  /** The index that a batch amounts to: for each key the last item with it. */
  function IndexOf<P, D>(items: seq<Item<P, D>>): Index<P, D> {
    if items == [] then map[] else IndexOf(items[..|items| - 1])[items[|items| - 1].key := items[|items| - 1].data]
  }

  /** Putting a batch leaves the same table as putting its index. */
  lemma {:induction false} PutRowsIsPutIndex<P, D>(t: Table<P, D>, items: seq<Item<P, D>>)
    ensures PutRows(t, items) == PutIndex(t, IndexOf(items))
    ensures IndexOf(items).Keys == ItemKeys(items)
  {
    if items == [] {
      assert PutIndex(t, map[]) == t;
    } else {
      PutRowsIsPutIndex(t, items[..|items| - 1]);
      ItemKeysAppend(items[..|items| - 1], items[|items| - 1]);
      assert items == items[..|items| - 1] + [items[|items| - 1]];
    }
  }

  /** Put commits an index in any order of its entries to the same table. */
  lemma PutRowsOfIndex<P(!new), D(!new)>(t: Table<P, D>, items: seq<Item<P, D>>, idx: Index<P, D>)
    requires ListsIndex(items, idx)
    ensures PutRows(t, items) == PutIndex(t, idx)
  {
    forall pk
      ensures pk in PutRows(t, items) <==> pk in PutIndex(t, idx)
      ensures pk in PutRows(t, items) ==> PutRows(t, items)[pk] == PutIndex(t, idx)[pk]
    {
      PutRowsAt(t, items, pk);
    }
  }
}
