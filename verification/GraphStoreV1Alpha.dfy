/**
 The v1alpha graph store: one table of nodes and edges with soft deletion.

 Node keys are SHA-256 digests of a tuple of strings. They are modelled by the tuple itself, that is,
 as injective, with the tuples of different kinds of node told apart. JSON bodies are modelled by the
 message they encode.
 */
module GraphStoreV1Alpha {
  import opened Collections
  import opened SoftTable

  datatype Key = NoKey | SourceKey(url: string) | ModuleKey(language: string, organization: string, mod: string)

  datatype ItemType = SourceType | ManagesType | ModuleType | DependsType

  datatype Message =
    | Source(url: string, kind: string, ref: string)
    | Manages(language: string, system: string, version: string)
    | Module(language: string, organization: string, mod: string, name: string)
    | Depends(language: string, versionConstraint: string, scopes: seq<string>, ref: string)

  datatype PrimaryKey = PrimaryKey(itemType: ItemType, k1: Key, k2: Key, k3: Key)

  type GraphItem = Item<PrimaryKey, Message>

  type GraphTable = Table<PrimaryKey, Message>

  type ItemIndex = Index<PrimaryKey, Message>

  datatype Pair = Pair(node: GraphItem, edge: GraphItem)

  /** The condition of the upstream join, with g1 the node row and g2 the edge row: ON g1.k1 = g2.k2 WHERE ... */
  predicate UpstreamMatch(t: GraphTable, keys: set<Key>, edgeType: ItemType, nodeType: ItemType, g1: PrimaryKey,
                      g2: PrimaryKey)
    requires g1 in t && g2 in t
  {
    && g1.k1 == g2.k2
    && g2.k1 in keys
    && g2.itemType == edgeType
    && g2.k1 != g2.k2
    && !t[g2].deleted
    && g1.itemType == nodeType
    && g1.k1 == g1.k2
    && !t[g1].deleted
  }

  /** The condition of the downstream join: ON g1.k2 = g2.k1 WHERE ... */
  predicate DownstreamMatch(t: GraphTable, keys: set<Key>, edgeType: ItemType, nodeType: ItemType, g1: PrimaryKey,
                      g2: PrimaryKey)
    requires g1 in t && g2 in t
  {
    && g1.k2 == g2.k1
    && g2.k2 in keys
    && g2.itemType == edgeType
    && g2.k1 != g2.k2
    && !t[g2].deleted
    && g1.itemType == nodeType
    && g1.k1 == g1.k2
    && !t[g1].deleted
  }

  function UpstreamRows(t: GraphTable, keys: set<Key>, edgeType: ItemType,
                      nodeType: ItemType): set<(PrimaryKey, PrimaryKey)> {
    set g1, g2 | g1 in t.Keys && g2 in t.Keys && UpstreamMatch(t, keys, edgeType, nodeType, g1, g2) :: (g1, g2)
  }

  function DownstreamRows(t: GraphTable, keys: set<Key>, edgeType: ItemType,
                      nodeType: ItemType): set<(PrimaryKey, PrimaryKey)> {
    set g1, g2 | g1 in t.Keys && g2 in t.Keys && DownstreamMatch(t, keys, edgeType, nodeType, g1, g2) :: (g1, g2)
  }

  /** The joins do not select the node's k3, so it comes back empty. */
  function NodeKey(pk: PrimaryKey): PrimaryKey {
    pk.(k3 := NoKey)
  }

  function ReadPair(t: GraphTable, row: (PrimaryKey, PrimaryKey)): Pair
    requires row.0 in t && row.1 in t
  {
    Pair(Item(NodeKey(row.0), t[row.0].data), Item(row.1, t[row.1].data))
  }

  /** `pairs` holds what the join rows `rows` read, one pair per row and in their order. */
  ghost predicate PairsRead(t: GraphTable, rows: seq<(PrimaryKey, PrimaryKey)>, pairs: seq<Pair>) {
    && |pairs| == |rows|
    && forall i :: 0 <= i < |rows| ==> rows[i].0 in t && rows[i].1 in t && pairs[i] == ReadPair(t, rows[i])
  }

  class GraphStore {
    var table: GraphTable

    constructor ()
      ensures table == map[]
    {
      table := map[];
    }

    /** One transaction that inserts the items one after the other. */
    method Put(items: seq<GraphItem>)
      modifies this
      ensures table == PutRows(old(table), items)
    {
      for i := 0 to |items|
        invariant table == PutRows(old(table), items[..i])
      {
        assert items[..i + 1][..i] == items[..i];
        table := InsertRow(table, items[i]);
      }
      assert items[..|items|] == items;
    }

    /** One transaction that soft-deletes the rows of the items one after the other. */
    method Delete(items: seq<GraphItem>)
      modifies this
      ensures table == DeleteRows(old(table), items)
    {
      for i := 0 to |items|
        invariant table == DeleteRows(old(table), items[..i])
      {
        assert items[..i + 1][..i] == items[..i];
        table := DeleteRow(table, items[i].key);
      }
      assert items[..|items|] == items;
    }

    method FindUpstream(keys: set<Key>, edgeType: ItemType, nodeType: ItemType)
      returns (pairs: seq<Pair>, ghost rows: seq<(PrimaryKey, PrimaryKey)>)
      ensures Enumerates(rows, UpstreamRows(table, keys, edgeType, nodeType))
      ensures PairsRead(table, rows, pairs)
    {
      var selected := SetToSeq(UpstreamRows(table, keys, edgeType, nodeType));
      pairs := ReadPairs(selected);
      rows := selected;
    }

    method FindDownstream(keys: set<Key>, edgeType: ItemType, nodeType: ItemType)
      returns (pairs: seq<Pair>, ghost rows: seq<(PrimaryKey, PrimaryKey)>)
      ensures Enumerates(rows, DownstreamRows(table, keys, edgeType, nodeType))
      ensures PairsRead(table, rows, pairs)
    {
      var selected := SetToSeq(DownstreamRows(table, keys, edgeType, nodeType));
      pairs := ReadPairs(selected);
      rows := selected;
    }

    method ReadPairs(selected: seq<(PrimaryKey, PrimaryKey)>) returns (pairs: seq<Pair>)
      requires forall i :: 0 <= i < |selected| ==> selected[i].0 in table && selected[i].1 in table
      ensures PairsRead(table, selected, pairs)
    {
      pairs := [];
      for i := 0 to |selected|
        invariant PairsRead(table, selected[..i], pairs)
      {
        pairs := pairs + [ReadPair(table, selected[i])];
      }
    }
  }
}
