/** What the v1beta Neighbors query answers, in terms of the live edges of the store. */
module Neighborhoods {
  import opened Collections
  import opened SoftTable
  import opened Transforms
  import opened NeighborGrouping
  import opened GraphStoreV1Beta
  import opened ManifestStorage
  import opened ManifestRuns
  import opened TraverseStream

  // ---- The rows of the two joins ----

  /** The end at the node that is asked about: neighbours from it, or neighbours to it. */
  function Near(from: bool, edge: PrimaryKey): Key {
    if from then edge.k1 else edge.k2
  }

  function Far(from: bool, edge: PrimaryKey): Key {
    if from then edge.k2 else edge.k1
  }

  function RowsAt(t: GraphTable, from: bool, key: Key): set<JoinRow> {
    if from then FromRows(t, {key}) else ToRows(t, {key})
  }

  ghost predicate IsEdgeAt(t: GraphTable, from: bool, key: Key, edge: PrimaryKey) {
    Live(t, edge) && edge.k1 != edge.k2 && Near(from, edge) == key
  }

  /** The row of the node itself passes for it, and so does the row of any edge from the node to itself. */
  ghost predicate PassesFor(t: GraphTable, key: Key, row: PrimaryKey) {
    Live(t, row) && row.k1 == key && row.k2 == key
  }

  ghost function RowsPassingFor(t: GraphTable, key: Key): set<PrimaryKey> {
    set row | row in t && PassesFor(t, key, row)
  }

  /** A query reads each live edge at its node once for every row that passes for the node at the far end. */
  lemma RowsAre(t: GraphTable, from: bool, key: Key, row: JoinRow)
    ensures row in RowsAt(t, from, key) <==> IsEdgeAt(t, from, key, row.1) && PassesFor(t, Far(from, row.1), row.0)
  {
  }

  // ---- Both ends of an edge are there ----

  ghost predicate HasEnds(t: GraphTable) {
    forall pk :: Live(t, pk) && pk.k1 != pk.k2 ==> Live(t, NodeRow(pk.k1)) && Live(t, NodeRow(pk.k2))
  }

  lemma DeclaresEnds(req: StoreRequest, pk: PrimaryKey)
    requires Declares(req, pk) && pk.k1 != pk.k2
    ensures Declares(req, NodeRow(pk.k1)) && Declares(req, NodeRow(pk.k2))
  {
    DeclaredHangsOn(req, pk);
    var file :| file in req.manifestFiles && DeclaredEdge(req, file, pk);
    if pk.k1 == SourceKey(file.sourceUrl) { assert DeclaredNode(file, NodeRow(pk.k1)); }
  }

  lemma LiveAfter(m: Marshal, t: GraphTable, req: StoreRequest, pk: PrimaryKey)
    requires Sound(t)
    ensures Live(AfterPut(m, t, req), pk) <==> Live(t, pk) || Declares(req, pk)
    ensures Live(Stored(m, t, req), pk) ==> Live(AfterPut(m, t, req), pk)
    ensures pk.k1 == pk.k2 ==> (Live(Stored(m, t, req), pk) <==> Live(AfterPut(m, t, req), pk))
  {
    hide Stale, Items, Declares, Sound;
    AfterPutIs(m, t, req);
    StaleIs(m, t, req, pk);
  }

  lemma StoreKeepsEnds(m: Marshal, t: GraphTable, req: StoreRequest)
    requires Sound(t) && HasEnds(t)
    ensures HasEnds(AfterPut(m, t, req)) && HasEnds(Stored(m, t, req))
  {
    hide AfterPut, Stored, Declares, Sound, Live;
    forall pk | (Live(AfterPut(m, t, req), pk) || Live(Stored(m, t, req), pk)) && pk.k1 != pk.k2
      ensures Live(AfterPut(m, t, req), NodeRow(pk.k1)) && Live(Stored(m, t, req), NodeRow(pk.k1))
      ensures Live(AfterPut(m, t, req), NodeRow(pk.k2)) && Live(Stored(m, t, req), NodeRow(pk.k2))
    {
      LiveAfter(m, t, req, pk);
      LiveAfter(m, t, req, NodeRow(pk.k1));
      LiveAfter(m, t, req, NodeRow(pk.k2));
      if Declares(req, pk) { DeclaresEnds(req, pk); }
    }
  }

  lemma {:induction false} RunsKeepEnds(m: Marshal, runs: seq<Run>)
    ensures HasEnds(AfterRuns(m, map[], runs))
  {
    if runs != [] {
      hide AfterPut, Stored, HasEnds;
      RunsKeepEnds(m, runs[..|runs| - 1]);
      RunsKeepSound(m, runs[..|runs| - 1]);
      StoreKeepsEnds(m, AfterRuns(m, map[], runs[..|runs| - 1]), runs[|runs| - 1].req);
    }
  }

  /** Neighbours to a node are the converse of neighbours from it, in every store that Store runs produce. */
  lemma ToIsConverse(m: Marshal, runs: seq<Run>, a: Key, b: Key, edge: PrimaryKey)
    ensures var t := AfterRuns(m, map[], runs);
      (NodeRow(b), edge) in FromRows(t, {a}) <==> (NodeRow(a), edge) in ToRows(t, {b})
  {
    hide AfterRuns;
    var t := AfterRuns(m, map[], runs);
    RunsKeepEnds(m, runs);
    RowsAre(t, true, a, (NodeRow(b), edge));
    RowsAre(t, false, b, (NodeRow(a), edge));
  }

  // ---- What is listed ----

  /** The node of a neighbour is read from one of the rows that pass for it. */
  ghost predicate IsReadFrom(t: GraphTable, node: Node) {
    exists row :: PassesFor(t, node.key, row) && ConvertGraphData(Item(row, t[row].data)) == ANode(node)
  }

  ghost predicate IsReadAt(t: GraphTable, from: bool, key: Key, far: Key, edge: Edge) {
    && IsEdgeAt(t, from, key, EdgePk(edge))
    && Far(from, EdgePk(edge)) == far
    && ConvertGraphData(Item(EdgePk(edge), t[EdgePk(edge)].data)) == AnEdge(edge)
  }

  /**
   One neighbour for each node at the far end of a live edge at `key`, with the live edges between the two, each as
   often as there are rows that pass for the neighbour.
   */
  ghost predicate Lists(t: GraphTable, from: bool, key: Key, neighbors: seq<Neighbor>) {
    && (forall i, j :: 0 <= i < j < |neighbors| ==> neighbors[i].node.key != neighbors[j].node.key)
    && (forall far ::
          HasNeighbor(neighbors, far) <==> exists edge :: IsEdgeAt(t, from, key, edge) && Far(from, edge) == far)
    && (forall i :: 0 <= i < |neighbors| ==> IsReadFrom(t, neighbors[i].node))
    && (forall i, edge :: 0 <= i < |neighbors| ==>
          multiset(neighbors[i].edges)[edge]
          == if IsReadAt(t, from, key, neighbors[i].node.key, edge) then |RowsPassingFor(t, neighbors[i].node.key)|
             else 0)
  }

  ghost predicate HasNeighbor(neighbors: seq<Neighbor>, key: Key) {
    exists i :: 0 <= i < |neighbors| && neighbors[i].node.key == key
  }

  // ---- Counting the edges ----

  ghost function RowsReading(t: GraphTable, rows: seq<JoinRow>, edge: Edge): set<JoinRow>
    requires InTable(t, rows)
  {
    set row | row in rows && ConvertedEdge(t, row) == AnEdge(edge)
  }

  lemma EdgesForAppend(rows: seq<Converted>, keyFn: Edge -> Key, key: Key, row: Converted)
    ensures EdgesFor(rows + [row], keyFn, key)
         == EdgesFor(rows, keyFn, key) + if IsFor(row, keyFn, key) then [row.edge] else []
  {
    assert (rows + [row])[..|rows|] == rows;
  }

  lemma ReadingAppend(t: GraphTable, rows: seq<JoinRow>, edge: Edge)
    requires InTable(t, rows) && Distinct(rows) && rows != []
    ensures var front, row := rows[..|rows| - 1], rows[|rows| - 1];
      |RowsReading(t, rows, edge)|
      == |RowsReading(t, front, edge)| + if ConvertedEdge(t, row) == AnEdge(edge) then 1 else 0
  {
    hide ConvertGraphData;
    var front, row := rows[..|rows| - 1], rows[|rows| - 1];
    assert rows == front + [row] && row !in front;
    assert RowsReading(t, rows, edge)
      == RowsReading(t, front, edge) + if ConvertedEdge(t, row) == AnEdge(edge) then {row} else {};
  }

  lemma FrontIsJoined(t: GraphTable, from: bool, rows: seq<JoinRow>)
    requires InTable(t, rows) && NodeBeforeEdge(rows, from) && Distinct(rows) && rows != []
    ensures var front, row := rows[..|rows| - 1], rows[|rows| - 1];
      && InTable(t, front) && NodeBeforeEdge(front, from) && Distinct(front)
      && row.0 in t && row.1 in t && NodeBeforeEdge([row], from)
  {
  }

  lemma {:induction false} CountEdges(t: GraphTable, from: bool, rows: seq<JoinRow>, far: Key, edge: Edge)
    requires Decodable(t) && InTable(t, rows) && NodeBeforeEdge(rows, from) && Distinct(rows)
    ensures multiset(EdgesFor(ConvertAll(Alternating(t, rows)), KeyFn(from), far))[edge]
         == if KeyFn(from)(edge) == far then |RowsReading(t, rows, edge)| else 0
  {
    if rows == [] {
      assert ConvertAll(Alternating(t, rows)) == [];
    } else {
      hide ConvertGraphData, EdgesFor, Alternating, ConvertAll, Decodable, RowsReading, NodeBeforeEdge, Distinct;
      var front, row := rows[..|rows| - 1], rows[|rows| - 1];
      FrontIsJoined(t, from, rows);
      CountEdges(t, from, front, far, edge);
      AlternatingConverts(t, rows);
      RowsConvert(t, row, from);
      var converted := ConvertAll(Alternating(t, front));
      EdgesForAppend(converted, KeyFn(from), far, ConvertedNode(t, row));
      EdgesForAppend(converted + [ConvertedNode(t, row)], KeyFn(from), far, ConvertedEdge(t, row));
      ReadingAppend(t, rows, edge);
    }
  }

  ghost function Paired<A, B>(xs: set<A>, y: B): set<(A, B)> {
    set x | x in xs :: (x, y)
  }

  lemma {:induction false} PairedCount<A, B>(xs: set<A>, y: B)
    ensures |Paired(xs, y)| == |xs|
    decreases |xs|
  {
    if xs != {} {
      var x :| x in xs;
      PairedCount(xs - {x}, y);
      assert Paired(xs, y) == Paired(xs - {x}, y) + {(x, y)};
    } else {
      assert Paired(xs, y) == {};
    }
  }

  lemma ReadOncePerRow(t: GraphTable, from: bool, key: Key, rows: seq<JoinRow>, edge: Edge)
    requires Decodable(t) && InTable(t, rows) && Enumerates(rows, RowsAt(t, from, key))
    ensures var far := Far(from, EdgePk(edge));
      |RowsReading(t, rows, edge)|
      == if IsReadAt(t, from, key, far, edge) then |RowsPassingFor(t, far)| else 0
  {
    hide ConvertGraphData, RowsAt;
    var far, pk := Far(from, EdgePk(edge)), EdgePk(edge);
    forall row ensures row in RowsReading(t, rows, edge)
      <==> row.1 == pk && row.0 in RowsPassingFor(t, far) && IsReadAt(t, from, key, far, edge)
    {
      RowsAre(t, from, key, row);
      if row in rows { RowsConvert(t, row, from); }
    }
    PairedCount(RowsPassingFor(t, far), pk);
    if IsReadAt(t, from, key, far, edge) {
      assert RowsReading(t, rows, edge) == Paired(RowsPassingFor(t, far), pk);
    } else {
      assert RowsReading(t, rows, edge) == {};
    }
  }

  // ---- The answer ----

  lemma NodesInAppend(rows: seq<Converted>, row: Converted)
    ensures NodesIn(rows + [row])
         == NodesIn(rows) + if row.ANode? && !HasKey(NodesIn(rows), row.node.key) then [row.node] else []
  {
    assert (rows + [row])[..|rows|] == rows;
  }

  lemma {:induction false} NodeHasRow(t: GraphTable, from: bool, rows: seq<JoinRow>, node: Node) returns (row: JoinRow)
    requires Decodable(t) && InTable(t, rows) && NodeBeforeEdge(rows, from)
    requires node in NodesIn(ConvertAll(Alternating(t, rows)))
    ensures row in rows && ConvertedNode(t, row) == ANode(node)
  {
    hide ConvertGraphData, NodesIn, HasKey, Alternating, ConvertAll, Decodable;
    if rows == [] {
      NothingToGroup(t, FromKey);
      NoNodes(t);
      assert false;
    } else {
      var front, last := rows[..|rows| - 1], rows[|rows| - 1];
      var converted := ConvertAll(Alternating(t, front));
      AlternatingConverts(t, rows);
      RowsConvert(t, last, from);
      NodesInAppend(converted, ConvertedNode(t, last));
      NodesInAppend(converted + [ConvertedNode(t, last)], ConvertedEdge(t, last));
      if node in NodesIn(converted) { row := NodeHasRow(t, from, front, node); } else { row := last; }
    }
  }

  lemma NoNodes(t: GraphTable)
    ensures NodesIn(ConvertAll(Alternating(t, []))) == []
  {
  }

  lemma RowsAreJoined(t: GraphTable, from: bool, key: Key, rows: seq<JoinRow>)
    requires InTable(t, rows) && Enumerates(rows, RowsAt(t, from, key))
    ensures NodeBeforeEdge(rows, from)
    ensures forall row ::
      row in rows <==> IsEdgeAt(t, from, key, row.1) && PassesFor(t, Far(from, row.1), row.0)
  {
    forall row ensures row in rows <==> IsEdgeAt(t, from, key, row.1) && PassesFor(t, Far(from, row.1), row.0) {
      RowsAre(t, from, key, row);
    }
  }

  lemma NeighborIsFar(t: GraphTable, from: bool, key: Key, rows: seq<JoinRow>, far: Key)
    requires Decodable(t) && HasEnds(t) && InTable(t, rows) && Enumerates(rows, RowsAt(t, from, key))
    ensures HasNeighbor(Grouping(ConvertAll(Alternating(t, rows)), KeyFn(from)), far)
       <==> exists edge :: IsEdgeAt(t, from, key, edge) && Far(from, edge) == far
  {
    hide ConvertGraphData, RowsAt, NodesIn, Alternating, ConvertAll, Enumerates;
    RowsAreJoined(t, from, key, rows);
    NodesOfRows(t, rows, from);
    var nodes := NodesIn(ConvertAll(Alternating(t, rows)));
    var groups := Grouping(ConvertAll(Alternating(t, rows)), KeyFn(from));
    forall i | 0 <= i < |nodes| ensures groups[i].node == nodes[i] && nodes[i].key in KeysOfNodes(nodes) {}
    if far in KeysOfNodes(nodes) {
      var row :| row in rows && row.0.k1 == far;
      assert IsEdgeAt(t, from, key, row.1) && Far(from, row.1) == far;
      var i :| 0 <= i < |nodes| && nodes[i].key == far;
      assert groups[i].node.key == far;
    }
    if edge :| IsEdgeAt(t, from, key, edge) && Far(from, edge) == far {
      assert (NodeRow(far), edge) in rows;
    }
  }

  lemma NeighborIsRead(t: GraphTable, from: bool, key: Key, rows: seq<JoinRow>, i: nat)
    requires Decodable(t) && InTable(t, rows) && Enumerates(rows, RowsAt(t, from, key))
    requires i < |NodesIn(ConvertAll(Alternating(t, rows)))|
    ensures IsReadFrom(t, NodesIn(ConvertAll(Alternating(t, rows)))[i])
  {
    hide RowsAt, NodesIn, Alternating, ConvertAll;
    RowsAreJoined(t, from, key, rows);
    var row := NodeHasRow(t, from, rows, NodesIn(ConvertAll(Alternating(t, rows)))[i]);
    RowsConvert(t, row, from);
  }

  lemma NeighborHolds(t: GraphTable, from: bool, key: Key, rows: seq<JoinRow>, i: nat, edge: Edge)
    requires Decodable(t) && InTable(t, rows) && Enumerates(rows, RowsAt(t, from, key))
    requires i < |NodesIn(ConvertAll(Alternating(t, rows)))|
    ensures var neighbor := Grouping(ConvertAll(Alternating(t, rows)), KeyFn(from))[i];
      multiset(neighbor.edges)[edge]
      == if IsReadAt(t, from, key, neighbor.node.key, edge) then |RowsPassingFor(t, neighbor.node.key)| else 0
  {
    hide RowsAt, NodesIn, Alternating, ConvertAll, EdgesFor, RowsReading, RowsPassingFor;
    RowsAreJoined(t, from, key, rows);
    CountEdges(t, from, rows, NodesIn(ConvertAll(Alternating(t, rows)))[i].key, edge);
    ReadOncePerRow(t, from, key, rows, edge);
  }

  lemma GroupingLists(t: GraphTable, from: bool, key: Key, rows: seq<JoinRow>)
    requires Decodable(t) && HasEnds(t) && InTable(t, rows) && Enumerates(rows, RowsAt(t, from, key))
    ensures Lists(t, from, key, Grouping(ConvertAll(Alternating(t, rows)), KeyFn(from)))
  {
    hide RowsAt, NodesIn, Alternating, ConvertAll, EdgesFor, RowsReading, RowsPassingFor, HasNeighbor, IsReadAt,
      IsReadFrom, IsEdgeAt, Enumerates;
    var converted := ConvertAll(Alternating(t, rows));
    var groups := Grouping(converted, KeyFn(from));
    forall i, j | 0 <= i < j < |groups| ensures groups[i].node.key != groups[j].node.key {
      NodesHaveDistinctKeys(converted, i, j);
    }
    forall far
      ensures HasNeighbor(groups, far)
        <==> exists edge :: IsEdgeAt(t, from, key, edge) && Far(from, edge) == far
    {
      NeighborIsFar(t, from, key, rows, far);
    }
    forall i | 0 <= i < |groups| ensures IsReadFrom(t, groups[i].node) { NeighborIsRead(t, from, key, rows, i); }
    forall i, edge | 0 <= i < |groups|
      ensures multiset(groups[i].edges)[edge]
        == if IsReadAt(t, from, key, groups[i].node.key, edge) then |RowsPassingFor(t, groups[i].node.key)| else 0
    {
      NeighborHolds(t, from, key, rows, i, edge);
    }
  }

  /** The neighbours to a node, or none if it is not asked for them. */
  ghost predicate ListsFor(t: GraphTable, from: bool, node: Option<Node>, neighbors: seq<Neighbor>) {
    if node.Some? then Lists(t, from, node.value.key, neighbors) else neighbors == []
  }

  /**
   Asked about a node, the store answers with the neighbours to it and then those from it. Otherwise it answers with the
   neighbours to the one node and then with those from the other, whichever of the two are given.
   */
  lemma AnswerLists(t: GraphTable, request: NeighborsRequest, answer: seq<Neighbor>)
    returns (to: seq<Neighbor>, from: seq<Neighbor>)
    requires Decodable(t) && HasEnds(t) && IsAnswer(t, request, answer)
    ensures answer == to + from
    ensures request.node.Some? ==>
      Lists(t, false, request.node.value.key, to) && Lists(t, true, request.node.value.key, from)
    ensures request.node.None? ==> ListsFor(t, false, request.to, to) && ListsFor(t, true, request.from, from)
  {
    hide Decodable, Grouping, ConvertAll, Alternating, Lists;
    ghost var toRows, fromRows :| IsAnswerFrom(t, request, answer, toRows, fromRows);
    to, from := Grouping(ConvertAll(Alternating(t, toRows)), FromKey),
      Grouping(ConvertAll(Alternating(t, fromRows)), ToKey);
    assert KeyFn(false) == FromKey && KeyFn(true) == ToKey;
    NothingToGroup(t, FromKey);
    NothingToGroup(t, ToKey);
    if ToNode(request).Some? { GroupingLists(t, false, ToNode(request).value.key, toRows); }
    if FromNode(request).Some? { GroupingLists(t, true, FromNode(request).value.key, fromRows); }
  }

  // ---- Edges that are listed more than once ----

  /** The edges to a neighbour are listed once if and only if no live edge leads from the neighbour to itself. */
  lemma ListedOnceIff(t: GraphTable, far: Key)
    requires Sound(t) && Live(t, NodeRow(far)) && far != NoKey
    ensures |RowsPassingFor(t, far)| == 1
       <==> forall pk :: Live(t, pk) && IsDepends(pk) && pk.k1 == far ==> pk.k2 != far
  {
    var rows, node := RowsPassingFor(t, far), NodeRow(far);
    assert node in rows;
    if pk :| Live(t, pk) && IsDepends(pk) && pk.k1 == far && pk.k2 == far {
      assert {node, pk} <= rows && |{node, pk}| == 2;
      Smaller({node, pk}, rows);
    } else {
      forall pk | pk in rows ensures pk == node { assert Shape(pk); }
      assert rows == {node};
    }
  }

  lemma Smaller<T>(a: set<T>, b: set<T>)
    requires a <= b
    ensures |a| <= |b|
  {
    assert b == a + (b - a);
  }

  /** A file whose module depends on itself: the edge from its source to the module is listed more than once. */
  lemma ListedTwiceWitness(m: Marshal)
    ensures exists req, edge ::
      && IsEdgeAt(Stored(m, map[], req), true, SourceKey(req.url), edge)
      && |RowsPassingFor(Stored(m, map[], req), Far(true, edge))| != 1
  {
    hide Stored, Sound, RowsPassingFor;
    var file := ManifestFile("l", "s", "v", "u", "n", [ManifestDependency("n", "v", [])]);
    var req, mod := StoreRequest("u", "k", "r", [file]), ModuleKey("l", "n");
    var edge, self := ManagesRow(SourceKey("u"), mod), PrimaryKey(mod, mod, SourceKey("u"));
    assert file in req.manifestFiles && ManifestDependency("n", "v", []) in file.dependencies;
    assert DeclaredEdge(req, file, edge) && DeclaredEdge(req, file, self) && DeclaredNode(file, NodeRow(mod));
    EmptyIsSound();
    StoreKeepsSound(m, map[], req);
    StoreIsExact(m, map[], req, edge);
    StoreIsExact(m, map[], req, self);
    StoreIsExact(m, map[], req, NodeRow(mod));
    ListedOnceIff(Stored(m, map[], req), mod);
    assert IsEdgeAt(Stored(m, map[], req), true, SourceKey(req.url), edge) && Far(true, edge) == mod;
  }
}
