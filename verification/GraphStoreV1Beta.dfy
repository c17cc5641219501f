/** The v1beta graph store: writing nodes and edges, and looking up the neighbours of a node. */
module GraphStoreV1Beta {
  import opened Collections
  import opened SoftTable
  import opened Transforms
  import opened NeighborGrouping

  datatype NeighborsRequest = NeighborsRequest(node: Option<Node>, to: Option<Node>, from: Option<Node>)

  type JoinRow = (PrimaryKey, PrimaryKey)

  // ---- The joins: g1 is the row taken for a node, g2 the edge row ----

  /**
   ON g1.k1 = g2.k2 WHERE ... The node row may be of any kind, so a row whose two end points are equal passes for a
   node.
   */
  predicate FromMatch(t: GraphTable, keys: set<Key>, g1: PrimaryKey, g2: PrimaryKey)
    requires g1 in t && g2 in t
  {
    && g1.k1 == g2.k2
    && g2.k1 in keys
    && g2.k1 != g2.k2
    && !t[g2].deleted
    && g1.k1 == g1.k2
    && !t[g1].deleted
  }

  /** ON g1.k2 = g2.k1 WHERE ... */
  predicate ToMatch(t: GraphTable, keys: set<Key>, g1: PrimaryKey, g2: PrimaryKey)
    requires g1 in t && g2 in t
  {
    && g1.k2 == g2.k1
    && g2.k2 in keys
    && g2.k1 != g2.k2
    && !t[g2].deleted
    && g1.k1 == g1.k2
    && !t[g1].deleted
  }

  function FromRows(t: GraphTable, keys: set<Key>): set<JoinRow> {
    set g1, g2 | g1 in t.Keys && g2 in t.Keys && FromMatch(t, keys, g1, g2) :: (g1, g2)
  }

  function ToRows(t: GraphTable, keys: set<Key>): set<JoinRow> {
    set g1, g2 | g1 in t.Keys && g2 in t.Keys && ToMatch(t, keys, g1, g2) :: (g1, g2)
  }

  function FromKey(edge: Edge): Key { edge.fromKey }

  function ToKey(edge: Edge): Key { edge.toKey }

  predicate InTable(t: GraphTable, rows: seq<JoinRow>) {
    forall i :: 0 <= i < |rows| ==> rows[i].0 in t && rows[i].1 in t
  }

  /** The rows that a query hands over: for each row of the join first the node's columns, then the edge's. */
  function Alternating(t: GraphTable, rows: seq<JoinRow>): seq<GraphData>
    requires InTable(t, rows)
  {
    if rows == [] then [] else
      var (g1, g2) := rows[|rows| - 1];
      Alternating(t, rows[..|rows| - 1]) + [Item(g1, t[g1].data), Item(g2, t[g2].data)]
  }

  // ---- Every stored row decodes ----

  ghost predicate Decodable(t: GraphTable) {
    forall pk :: pk in t ==> !ConvertGraphData(Item(pk, t[pk].data)).Undecodable?
  }

  function NodeItems(nodes: seq<Node>): seq<GraphData> {
    seq(|nodes|, i requires 0 <= i < |nodes| => ConvertNode(nodes[i], ProtocolBuffers))
  }

  function EdgeItems(edges: seq<Edge>): seq<GraphData> {
    seq(|edges|, i requires 0 <= i < |edges| => ConvertEdge(edges[i], ProtocolBuffers))
  }

  lemma {:induction false} PutRowsDecodable(t: GraphTable, items: seq<GraphData>)
    requires Decodable(t) && forall i :: 0 <= i < |items| ==> !ConvertGraphData(items[i]).Undecodable?
    ensures Decodable(PutRows(t, items))
  {
    if items != [] {
      hide ConvertGraphData;
      PutRowsDecodable(t, items[..|items| - 1]);
      assert items[|items| - 1] == Item(items[|items| - 1].key, items[|items| - 1].data);
    }
  }

  /** Whatever is put, all stored rows still decode. */
  lemma PutKeepsDecodable(t: GraphTable, nodes: seq<Node>, edges: seq<Edge>)
    requires Decodable(t)
    ensures Decodable(PutRows(t, NodeItems(nodes) + EdgeItems(edges)))
  {
    hide ConvertGraphData, ConvertNode, ConvertEdge, Decodable, PutRows;
    var items := NodeItems(nodes) + EdgeItems(edges);
    forall i | 0 <= i < |items| ensures !ConvertGraphData(items[i]).Undecodable? {
      if i < |nodes| {
        NodeComesBack(nodes[i], ProtocolBuffers);
      } else {
        EdgeComesBack(edges[i - |nodes|], ProtocolBuffers);
      }
    }
    PutRowsDecodable(t, items);
  }

  // ---- What the grouping finds in the rows of a query ----

  ghost predicate NodeBeforeEdge(rows: seq<JoinRow>, from: bool) {
    forall i :: 0 <= i < |rows| ==>
      && rows[i].0.k1 == rows[i].0.k2
      && rows[i].1.k1 != rows[i].1.k2
      && rows[i].0.k1 == if from then rows[i].1.k2 else rows[i].1.k1
  }

  function KeyFn(from: bool): Edge -> Key {
    if from then ToKey else FromKey
  }

  /** What the rows of a query convert to, two by two. */
  lemma RowsConvert(t: GraphTable, row: JoinRow, from: bool)
    requires Decodable(t) && row.0 in t && row.1 in t && NodeBeforeEdge([row], from)
    ensures ConvertGraphData(Item(row.0, t[row.0].data)).ANode?
    ensures ConvertGraphData(Item(row.0, t[row.0].data)).node.key == row.0.k1
    ensures ConvertGraphData(Item(row.1, t[row.1].data)).AnEdge?
    ensures var edge := ConvertGraphData(Item(row.1, t[row.1].data)).edge;
      PrimaryKey(edge.fromKey, edge.toKey, edge.key) == row.1 && KeyFn(from)(edge) == row.0.k1
  {
    assert [row][0] == row;
    assert !ConvertGraphData(Item(row.0, t[row.0].data)).Undecodable?;
    assert !ConvertGraphData(Item(row.1, t[row.1].data)).Undecodable?;
  }

  function ConvertedNode(t: GraphTable, row: JoinRow): Converted
    requires row.0 in t
  {
    ConvertGraphData(Item(row.0, t[row.0].data))
  }

  function ConvertedEdge(t: GraphTable, row: JoinRow): Converted
    requires row.1 in t
  {
    ConvertGraphData(Item(row.1, t[row.1].data))
  }

  lemma AlternatingConverts(t: GraphTable, rows: seq<JoinRow>)
    requires InTable(t, rows) && rows != []
    ensures ConvertAll(Alternating(t, rows))
         == ConvertAll(Alternating(t, rows[..|rows| - 1])) + [ConvertedNode(t, rows[|rows| - 1])] +
           [ConvertedEdge(t, rows[|rows| - 1])]
  {
    hide ConvertGraphData;
  }

  lemma HasKeyAppend(rows: seq<Converted>, row: Converted)
    requires row.ANode?
    ensures HasKey(NodesIn(rows + [row]), row.node.key)
  {
    assert (rows + [row])[..|rows|] == rows;
    if !HasKey(NodesIn(rows), row.node.key) {
      assert NodesIn(rows + [row])[|NodesIn(rows)|] == row.node;
    }
  }

  /** In the rows of a query on decodable rows, no look-up of an edge's neighbour misses. */
  lemma {:induction false} QueryRowsArePreceded(t: GraphTable, rows: seq<JoinRow>, from: bool)
    requires Decodable(t) && InTable(t, rows) && NodeBeforeEdge(rows, from)
    ensures Preceded(ConvertAll(Alternating(t, rows)), KeyFn(from))
  {
    if rows != [] {
      hide NodesIn, HasKey, ConvertGraphData, Preceded, Alternating;
      var front, row := rows[..|rows| - 1], rows[|rows| - 1];
      QueryRowsArePreceded(t, front, from);
      AlternatingConverts(t, rows);
      RowsConvert(t, row, from);
      var converted := ConvertAll(Alternating(t, front));
      StillPreceded(converted, KeyFn(from), ConvertedNode(t, row));
      HasKeyAppend(converted, ConvertedNode(t, row));
      StillPreceded(converted + [ConvertedNode(t, row)], KeyFn(from), ConvertedEdge(t, row));
    } else {
      assert ConvertAll(Alternating(t, rows)) == [];
    }
  }

  lemma NothingToGroup(t: GraphTable, keyFn: Edge -> Key)
    ensures Grouping(ConvertAll(Alternating(t, [])), keyFn) == []
  {
  }

  class GraphStore {
    var table: GraphTable

    constructor ()
      ensures table == map[]
    {
      table := map[];
    }

    /** Nodes are put before the edges between them. */
    method Put(nodes: seq<Node>, edges: seq<Edge>)
      modifies this
      ensures table == PutRows(old(table), NodeItems(nodes) + EdgeItems(edges))
    {
      var nodeItems := ConvertNodes(nodes);
      var edgeItems := ConvertEdges(edges);
      PutData(nodeItems + edgeItems);
    }

    /** Edges are deleted before the nodes they hang on. */
    method Delete(nodes: seq<Node>, edges: seq<Edge>)
      modifies this
      ensures table == DeleteRows(old(table), EdgeItems(edges) + NodeItems(nodes))
    {
      var edgeItems := ConvertEdges(edges);
      var nodeItems := ConvertNodes(nodes);
      DeleteData(edgeItems + nodeItems);
    }

    method ConvertNodes(nodes: seq<Node>) returns (items: seq<GraphData>)
      ensures items == NodeItems(nodes)
    {
      hide ConvertNode;
      items := [];
      for i := 0 to |nodes|
        invariant items == NodeItems(nodes[..i])
      {
        items := items + [ConvertNode(nodes[i], ProtocolBuffers)];
        assert NodeItems(nodes[..i + 1]) == NodeItems(nodes[..i]) + [ConvertNode(nodes[i], ProtocolBuffers)];
      }
      assert nodes[..|nodes|] == nodes;
    }

    method ConvertEdges(edges: seq<Edge>) returns (items: seq<GraphData>)
      ensures items == EdgeItems(edges)
    {
      hide ConvertEdge;
      items := [];
      for i := 0 to |edges|
        invariant items == EdgeItems(edges[..i])
      {
        items := items + [ConvertEdge(edges[i], ProtocolBuffers)];
        assert EdgeItems(edges[..i + 1]) == EdgeItems(edges[..i]) + [ConvertEdge(edges[i], ProtocolBuffers)];
      }
      assert edges[..|edges|] == edges;
    }

    /** One transaction of the driver. */
    method PutData(items: seq<GraphData>)
      modifies this
      ensures table == PutRows(old(table), items)
    {
      for i := 0 to |items|
        invariant table == PutRows(old(table), items[..i])
      {
        assert items[..i + 1][..i] == items[..i];
        table := InsertRow(table, items[i]);
      }
      assert items[..|items|] == items;
    }

    /** One transaction of the driver. */
    method DeleteData(items: seq<GraphData>)
      modifies this
      ensures table == DeleteRows(old(table), items)
    {
      for i := 0 to |items|
        invariant table == DeleteRows(old(table), items[..i])
      {
        assert items[..i + 1][..i] == items[..i];
        table := DeleteRow(table, items[i].key);
      }
      assert items[..|items|] == items;
    }

    /** Reads the rows of a join into a list that alternates between nodes and edges. */
    method ReadRows(selected: seq<JoinRow>) returns (data: seq<GraphData>)
      requires InTable(table, selected)
      ensures data == Alternating(table, selected)
    {
      data := [];
      for i := 0 to |selected|
        invariant data == Alternating(table, selected[..i])
      {
        assert selected[..i + 1][..i] == selected[..i];
        var (g1, g2) := selected[i];
        data := data + [Item(g1, table[g1].data), Item(g2, table[g2].data)];
      }
      assert selected[..|selected|] == selected;
    }

    /** The neighbours to and from a node, grouped. The result is None if the grouping panics. */
    method Neighbors(request: NeighborsRequest)
      returns (r: Option<seq<Neighbor>>, ghost toRows: seq<JoinRow>, ghost fromRows: seq<JoinRow>)
      ensures Enumerates(toRows, ToRows(table, KeysOf(ToNode(request)))) && InTable(table, toRows)
      ensures Enumerates(fromRows, FromRows(table, KeysOf(FromNode(request)))) && InTable(table, fromRows)
      ensures Decodable(table) ==> r == Some(
        Grouping(ConvertAll(Alternating(table, toRows)), FromKey) +
          Grouping(ConvertAll(Alternating(table, fromRows)), ToKey))
    {
      hide Grouping, ConvertAll, Alternating, Preceded, StartsWithEdge, Misfiled, Decodable;
      var toKeys, fromKeys := KeysOf(ToNode(request)), KeysOf(FromNode(request));
      var selectedTo := SetToSeq(ToRows(table, toKeys));
      var selectedFrom := SetToSeq(FromRows(table, fromKeys));
      toRows, fromRows := selectedTo, selectedFrom;
      if Decodable(table) {
        QueryRowsArePreceded(table, toRows, false);
        QueryRowsArePreceded(table, fromRows, true);
        assert KeyFn(false) == FromKey && KeyFn(true) == ToKey;
      }
      NothingToGroup(table, FromKey);
      NothingToGroup(table, ToKey);
      assert ToNode(request).None? ==> toRows == [];
      assert FromNode(request).None? ==> fromRows == [];
      var neighbors := [];
      if ToNode(request).Some? {
        var neighborData := ReadRows(selectedTo);
        var toNeighbors := ProcessNeighbors(neighborData, FromKey);
        if toNeighbors.None? { return None, toRows, fromRows; }
        neighbors := neighbors + toNeighbors.value;
      }
      if FromNode(request).Some? {
        var neighborData := ReadRows(selectedFrom);
        var fromNeighbors := ProcessNeighbors(neighborData, ToKey);
        if fromNeighbors.None? { return None, toRows, fromRows; }
        neighbors := neighbors + fromNeighbors.value;
      }
      r := Some(neighbors);
      if Decodable(table) {
        assert neighbors
            == Grouping(ConvertAll(Alternating(table, toRows)), FromKey) +
              Grouping(ConvertAll(Alternating(table, fromRows)), ToKey);
      }
    }
  }

  function ToNode(request: NeighborsRequest): Option<Node> {
    if request.node.Some? then request.node else request.to
  }

  function FromNode(request: NeighborsRequest): Option<Node> {
    if request.node.Some? then request.node else request.from
  }

  function KeysOf(node: Option<Node>): set<Key> {
    if node.Some? then {node.value.key} else {}
  }
}
