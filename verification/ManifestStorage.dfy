/** The v1beta manifest storage service: proposing, reading back over a stream, and storing. */
module ManifestStorage {
  import opened Collections
  import opened SoftTable
  import opened Transforms
  import opened NeighborGrouping
  import opened GraphStoreV1Beta
  import opened TraverseStream

  datatype Message =
    | Source(kind: string, url: string)
    | Module(language: string, name: string)
    | SourceModule(version: string, system: string)
    | ModuleDependency(ref: string, versionConstraint: string, scopes: seq<string>)

  datatype ManifestDependency = ManifestDependency(name: string, versionConstraint: string, scopes: seq<string>)

  datatype ManifestFile = ManifestFile(language: string, system: string, version: string, sourceUrl: string,
                                       name: string, dependencies: seq<ManifestDependency>)

  datatype StoreRequest = StoreRequest(url: string, kind: string, ref: string, manifestFiles: seq<ManifestFile>)

  /** How messages are marshalled is not part of this model: any function from messages to bodies. */
  type Marshal = Message -> Body

  // ---- The proposed nodes and edges ----

  function NewNode(m: Marshal, msg: Message): Node
    requires msg.Source? || msg.Module?
  {
    Node(if msg.Source? then SourceKey(msg.url) else ModuleKey(msg.language, msg.name), m(msg))
  }

  function SourceNode(m: Marshal, req: StoreRequest): Node {
    NewNode(m, Source(req.kind, req.url))
  }

  function ReportedSource(m: Marshal, file: ManifestFile): Node {
    NewNode(m, Source("repository", file.sourceUrl))
  }

  function FileModule(m: Marshal, file: ManifestFile): Node {
    NewNode(m, Module(file.language, file.name))
  }

  function DependencyModule(m: Marshal, file: ManifestFile, dep: ManifestDependency): Node {
    NewNode(m, Module(file.language, dep.name))
  }

  function ManagesEdge(m: Marshal, file: ManifestFile, source: Key): Edge {
    Edge(source, ModuleKey(file.language, file.name), NoKey, m(SourceModule(file.version, file.system)))
  }

  function DependsEdge(m: Marshal, req: StoreRequest, file: ManifestFile, dep: ManifestDependency): Edge {
    Edge(ModuleKey(file.language, file.name), ModuleKey(file.language, dep.name), SourceKey(req.url),
         m(ModuleDependency(req.ref, dep.versionConstraint, dep.scopes)))
  }

  function DependencyNodes(m: Marshal, file: ManifestFile, n: nat): seq<Node>
    requires n <= |file.dependencies|
  {
    if n == 0 then [] else DependencyNodes(m, file, n - 1) + [DependencyModule(m, file, file.dependencies[n - 1])]
  }

  function DependencyEdges(m: Marshal, req: StoreRequest, file: ManifestFile, n: nat): seq<Edge>
    requires n <= |file.dependencies|
  {
    if n == 0 then [] else DependencyEdges(m, req, file, n - 1) + [DependsEdge(m, req, file, file.dependencies[n - 1])]
  }

  function FileNodes(m: Marshal, req: StoreRequest, n: nat): seq<Node>
    requires n <= |req.manifestFiles|
  {
    if n == 0 then [] else
      var file := req.manifestFiles[n - 1];
      FileNodes(m, req, n - 1) + DependencyNodes(m, file, |file.dependencies|) +
        [ReportedSource(m, file), FileModule(m, file)]
  }

  function FileEdges(m: Marshal, req: StoreRequest, n: nat): seq<Edge>
    requires n <= |req.manifestFiles|
  {
    if n == 0 then [] else
      var file := req.manifestFiles[n - 1];
      FileEdges(m, req, n - 1) + DependencyEdges(m, req, file, |file.dependencies|) +
      [ManagesEdge(m, file, SourceKey(req.url)), ManagesEdge(m, file, SourceKey(file.sourceUrl))]
  }

  function ProposedNodes(m: Marshal, req: StoreRequest): seq<Node> {
    FileNodes(m, req, |req.manifestFiles|) + [SourceNode(m, req)]
  }

  function ProposedEdges(m: Marshal, req: StoreRequest): seq<Edge> {
    FileEdges(m, req, |req.manifestFiles|)
  }

  // ---- The stored edges ----

  function EdgePk(edge: Edge): PrimaryKey {
    PrimaryKey(edge.fromKey, edge.toKey, edge.key)
  }

  ghost function EdgePks(edges: seq<Edge>): set<PrimaryKey> {
    set edge | edge in edges :: EdgePk(edge)
  }

  /** An edge counts for a source if it has no owner or this one. */
  predicate Counts(pk: PrimaryKey, source: Key) {
    pk.k3 == NoKey || pk.k3 == source
  }

  ghost function NextKeys(t: GraphTable, keys: set<Key>): set<Key> {
    set row | row in FromRows(t, keys) :: row.0.k1
  }

  ghost function Found(t: GraphTable, source: Key, keys: set<Key>): set<PrimaryKey> {
    set row | row in FromRows(t, keys) && Counts(row.1, source) :: row.1
  }

  ghost function TierKeys(t: GraphTable, source: Key, depth: nat): set<Key> {
    if depth == 0 then {source} else NextKeys(t, TierKeys(t, source, depth - 1))
  }

  /** The edges found in the first tiers of the walk. */
  ghost function FoundUpTo(t: GraphTable, source: Key, depth: nat): set<PrimaryKey> {
    if depth == 0 then {} else FoundUpTo(t, source, depth - 1) + Found(t, source, TierKeys(t, source, depth - 1))
  }

  ghost function StoredKeys(t: GraphTable, source: Key): set<PrimaryKey> {
    FoundUpTo(t, source, 2)
  }

  // ---- The effect of a Store ----

  function Items(m: Marshal, req: StoreRequest): seq<GraphData> {
    NodeItems(ProposedNodes(m, req)) + EdgeItems(ProposedEdges(m, req))
  }

  ghost function Stale(m: Marshal, t: GraphTable, req: StoreRequest): set<PrimaryKey> {
    StoredKeys(t, SourceKey(req.url)) - EdgePks(ProposedEdges(m, req))
  }

  /** The table once the Put transaction of a Store call has committed. */
  ghost function AfterPut(m: Marshal, t: GraphTable, req: StoreRequest): GraphTable {
    PutRows(t, Items(m, req))
  }

  /** The table after a whole Store call. */
  ghost function Stored(m: Marshal, t: GraphTable, req: StoreRequest): GraphTable {
    DeleteKeys(AfterPut(m, t, req), Stale(m, t, req))
  }

  // ---- What the walk sees in the responses ----

  lemma FromRowsUnion(t: GraphTable, keys: set<Key>, key: Key)
    ensures FromRows(t, keys + {key}) == FromRows(t, keys) + FromRows(t, {key})
    ensures NextKeys(t, keys + {key}) == NextKeys(t, keys) + NextKeys(t, {key})
    ensures forall source :: Found(t, source, keys + {key}) == Found(t, source, keys) + Found(t, source, {key})
  {
    forall g1, g2
      ensures (g1, g2) in FromRows(t, keys + {key}) <==> (g1, g2) in FromRows(t, keys) || (g1, g2) in FromRows(t, {key})
    {
    }
    assert FromRows(t, keys + {key}) == FromRows(t, keys) + FromRows(t, {key});
  }

  lemma {:induction false} EdgesOfRows(t: GraphTable, rows: seq<JoinRow>)
    requires Decodable(t) && InTable(t, rows) && NodeBeforeEdge(rows, true)
    ensures EdgePks(EdgesIn(ConvertAll(Alternating(t, rows)))) == set row | row in rows :: row.1
  {
    if rows == [] {
      assert ConvertAll(Alternating(t, rows)) == [];
    } else {
      hide ConvertGraphData, EdgesIn, Alternating, ConvertAll;
      var front, row := rows[..|rows| - 1], rows[|rows| - 1];
      EdgesOfRows(t, front);
      AlternatingConverts(t, rows);
      RowsConvert(t, row, true);
      var converted := ConvertAll(Alternating(t, front));
      EdgesInStep(converted, ConvertedNode(t, row));
      EdgesInStep(converted + [ConvertedNode(t, row)], ConvertedEdge(t, row));
      EdgePksAppend(EdgesIn(converted), ConvertedEdge(t, row).edge);
      assert EdgesIn(converted) + [] == EdgesIn(converted);
      assert rows == front + [row];
    }
  }

  lemma EdgesInStep(rows: seq<Converted>, row: Converted)
    ensures EdgesIn(rows + [row]) == EdgesIn(rows) + if row.AnEdge? then [row.edge] else []
  {
    assert (rows + [row])[..|rows|] == rows;
  }

  lemma EdgePksAppend(edges: seq<Edge>, edge: Edge)
    ensures EdgePks(edges + [edge]) == EdgePks(edges) + {EdgePk(edge)}
  {
    assert forall e :: e in edges + [edge] <==> e in edges || e == edge;
  }

  ghost function KeysOfNodes(nodes: seq<Node>): set<Key> {
    set node | node in nodes :: node.key
  }

  lemma NodesInStep(rows: seq<Converted>, row: Converted)
    ensures KeysOfNodes(NodesIn(rows + [row])) == KeysOfNodes(NodesIn(rows)) + if row.ANode? then {row.node.key} else {}
  {
    var nodes := NodesIn(rows);
    assert (rows + [row])[..|rows|] == rows;
    if row.ANode? {
      assert forall node :: node in nodes + [row.node] <==> node in nodes || node == row.node;
    }
  }

  ghost function NodeKeysOf(rows: seq<JoinRow>): set<Key> {
    set row | row in rows :: row.0.k1
  }

  lemma NodeKeysOfStep(rows: seq<JoinRow>)
    requires rows != []
    ensures NodeKeysOf(rows) == NodeKeysOf(rows[..|rows| - 1]) + {rows[|rows| - 1].0.k1}
  {
    var front, last := rows[..|rows| - 1], rows[|rows| - 1];
    assert rows == front + [last];
    assert forall row :: row in rows <==> row in front || row == last;
  }

  lemma {:induction false} NodesOfRows(t: GraphTable, rows: seq<JoinRow>, from: bool)
    requires Decodable(t) && InTable(t, rows) && NodeBeforeEdge(rows, from)
    ensures KeysOfNodes(NodesIn(ConvertAll(Alternating(t, rows)))) == NodeKeysOf(rows)
  {
    if rows == [] {
      assert ConvertAll(Alternating(t, rows)) == [];
    } else {
      hide ConvertGraphData, NodesIn, Alternating, ConvertAll, NodeKeysOf;
      var front, row := rows[..|rows| - 1], rows[|rows| - 1];
      NodesOfRows(t, front, from);
      AlternatingConverts(t, rows);
      RowsConvert(t, row, from);
      var converted := ConvertAll(Alternating(t, front));
      NodesInStep(converted, ConvertedNode(t, row));
      NodesInStep(converted + [ConvertedNode(t, row)], ConvertedEdge(t, row));
      NodeKeysOfStep(rows);
    }
  }

  ghost function NeighborKeys(neighbors: seq<Neighbor>): set<Key> {
    set neighbor | neighbor in neighbors :: neighbor.node.key
  }

  function Counted(edges: seq<Edge>, source: Key): seq<Edge> {
    if edges == [] then [] else
      var last := edges[|edges| - 1];
      Counted(edges[..|edges| - 1], source) + if Counts(EdgePk(last), source) then [last] else []
  }

  lemma {:induction false} CountedAre(edges: seq<Edge>, source: Key)
    ensures EdgePks(Counted(edges, source)) == set pk | pk in EdgePks(edges) && Counts(pk, source)
  {
    if edges != [] {
      var front, last := edges[..|edges| - 1], edges[|edges| - 1];
      CountedAre(front, source);
      EdgePksAppend(front, last);
      EdgePksAppend(Counted(front, source), last);
      assert edges == front + [last];
      assert Counted(front, source) + [] == Counted(front, source);
    }
  }

  /** The response for one node: the keys of its neighbours, and the edges that count. */
  lemma ResponseIs(t: GraphTable, key: Key, rows: seq<JoinRow>, source: Key)
    requires Decodable(t) && InTable(t, rows) && Enumerates(rows, FromRows(t, {key}))
    ensures NeighborKeys(Grouping(ConvertAll(Alternating(t, rows)), ToKey)) == NextKeys(t, {key})
    ensures EdgePks(Counted(EdgesOf(Grouping(ConvertAll(Alternating(t, rows)), ToKey)), source))
      == Found(t, source, {key})
  {
    assert forall row :: row in rows <==> row in FromRows(t, {key});
    assert NodeBeforeEdge(rows, true);
    QueryRowsArePreceded(t, rows, true);
    assert KeyFn(true) == ToKey;
    NodesOfRows(t, rows, true);
    assert NodeKeysOf(rows) == NextKeys(t, {key});
    EdgesOfRows(t, rows);
    hide Alternating, ConvertAll;
    var converted := ConvertAll(Alternating(t, rows));
    NothingLost(converted, ToKey);
    GroupingKeys(converted);
    CountedAre(EdgesOf(Grouping(converted, ToKey)), source);
    SameEdges(EdgesOf(Grouping(converted, ToKey)), EdgesIn(converted));
  }

  lemma SameEdges(a: seq<Edge>, b: seq<Edge>)
    requires multiset(a) == multiset(b)
    ensures EdgePks(a) == EdgePks(b)
  {
    assert forall e :: e in a <==> e in multiset(a);
    assert forall e :: e in b <==> e in multiset(b);
  }

  lemma GroupingKeys(rows: seq<Converted>)
    ensures NeighborKeys(Grouping(rows, ToKey)) == KeysOfNodes(NodesIn(rows))
  {
    var groups, nodes := Grouping(rows, ToKey), NodesIn(rows);
    forall i | 0 <= i < |nodes| ensures nodes[i].key in NeighborKeys(groups) {
      assert groups[i] in groups;
    }
  }

  // ---- The requests of the walk ----

  function From(node: Node): NeighborsRequest {
    NeighborsRequest(None, None, Some(node))
  }

  /** The response to a request for the neighbours from a node groups the rows of one join. */
  lemma AnswerFrom(t: GraphTable, node: Node, answer: seq<Neighbor>) returns (rows: seq<JoinRow>)
    requires Decodable(t) && IsAnswer(t, From(node), answer)
    ensures Enumerates(rows, FromRows(t, {node.key})) && InTable(t, rows)
    ensures answer == Grouping(ConvertAll(Alternating(t, rows)), ToKey)
  {
    hide Decodable, Grouping, ConvertAll, Alternating;
    ghost var toRows;
    toRows, rows :| IsAnswerFrom(t, From(node), answer, toRows, rows);
    assert toRows == [];
    NothingToGroup(t, FromKey);
    assert Grouping(ConvertAll(Alternating(t, toRows)), FromKey) + answer == answer;
  }

  // ---- The service ----

  class Service {
    const gs: GraphStore
    const m: Marshal

    constructor (gs: GraphStore, m: Marshal)
      ensures this.gs == gs && this.m == m
    {
      this.gs := gs;
      this.m := m;
    }

    method GetProposed(req: StoreRequest) returns (nodes: seq<Node>, edges: seq<Edge>)
      ensures nodes == ProposedNodes(m, req) && edges == ProposedEdges(m, req)
    {
      hide ManagesEdge, ReportedSource, FileModule, SourceNode;
      nodes, edges := [], [];
      for i := 0 to |req.manifestFiles|
        invariant nodes == FileNodes(m, req, i) && edges == FileEdges(m, req, i)
      {
        var file := req.manifestFiles[i];
        var reportedSource := ReportedSource(m, file);
        var fileModule := FileModule(m, file);
        var sourceModule := ManagesEdge(m, file, SourceKey(req.url));
        var reportedSourceModule := ManagesEdge(m, file, SourceKey(file.sourceUrl));
        var dependencyNodes, dependencyEdges := ProposeDependencies(req, file);
        nodes := nodes + dependencyNodes + [reportedSource, fileModule];
        edges := edges + dependencyEdges + [sourceModule, reportedSourceModule];
      }
      nodes := nodes + [SourceNode(m, req)];
    }

    method ProposeDependencies(req: StoreRequest, file: ManifestFile) returns (nodes: seq<Node>, edges: seq<Edge>)
      ensures nodes == DependencyNodes(m, file, |file.dependencies|)
      ensures edges == DependencyEdges(m, req, file, |file.dependencies|)
    {
      nodes, edges := [], [];
      for j := 0 to |file.dependencies|
        invariant nodes == DependencyNodes(m, file, j) && edges == DependencyEdges(m, req, file, j)
      {
        nodes := nodes + [DependencyModule(m, file, file.dependencies[j])];
        edges := edges + [DependsEdge(m, req, file, file.dependencies[j])];
      }
    }

    /** The edges within two tiers of the source: all requests of a tier are sent before the first response is read. */
    method GetStored(source: Node) returns (r: Option<seq<Edge>>)
      ensures Decodable(gs.table) ==> r.Some? && EdgePks(r.value) == StoredKeys(gs.table, source.key)
    {
      hide Decodable, Found, NextKeys;
      var call := new Stream(gs);
      var tier := map[source.key := source];
      var edges := [];
      for depth := 0 to 2
        invariant IsIdle(call) && NodesAreKeyed(tier)
        invariant Decodable(gs.table) ==>
          tier.Keys == TierKeys(gs.table, source.key, depth) && EdgePks(edges) == FoundUpTo(gs.table, source.key, depth)
      {
        var sent := SendTier(call, tier);
        if !sent { call.Cancel(); return None; }
        var next, found := ReceiveTier(call, tier, source);
        if next.None? { call.Cancel(); return None; }
        EdgePksConcat(edges, found);
        edges := edges + found;
        tier := next.value;
      }
      call.Cancel();
      r := Some(edges);
    }

    /** The call is open and nothing is in flight. */
    ghost predicate IsIdle(call: Stream)
      reads call, gs
    {
      call.gs == gs && call.Valid() && call.Open() && call.Waiting() == []
    }

    /** The call is open, and exactly one request for each of these keys is in flight. */
    ghost predicate Awaits(call: Stream, keys: set<Key>, n: nat)
      reads call, gs
    {
      && call.gs == gs && call.Valid() && call.Open()
      && |call.Waiting()| == n && AreFrom(call.Waiting()) && RequestedKeys(call.Waiting()) == keys
    }

    method SendTier(call: Stream, tier: map<Key, Node>) returns (ok: bool)
      requires IsIdle(call) && NodesAreKeyed(tier)
      modifies call
      ensures call.Valid() && (Decodable(gs.table) ==> ok)
      ensures ok ==> Awaits(call, tier.Keys, |tier|)
    {
      hide Decodable, Stream.Valid;
      var order := SetToSeq(tier.Keys);
      for i := 0 to |order|
        invariant Awaits(call, (set key | key in order[..i]), i)
      {
        RequestedKeysAppend(call.Waiting(), tier[order[i]]);
        assert order[..i + 1] == order[..i] + [order[i]];
        var sent := call.Send(From(tier[order[i]]));
        if !sent { return false; }
      }
      assert order[..|order|] == order;
      ok := true;
    }

    /** Reads one response for each node of the tier. */
    method ReceiveTier(call: Stream, tier: map<Key, Node>, source: Node)
      returns (next: Option<map<Key, Node>>, edges: seq<Edge>)
      requires Awaits(call, tier.Keys, |tier|)
      modifies call
      ensures call.Valid() && (next.Some? ==> IsIdle(call) && NodesAreKeyed(next.value))
      ensures Decodable(gs.table) ==>
        next.Some? && next.value.Keys == NextKeys(gs.table, tier.Keys)
          && EdgePks(edges) == Found(gs.table, source.key, tier.Keys)
    {
      hide Decodable, TierSoFar, Grouping, ConvertAll, Alternating, FromRows, EdgesOf, Counted, NeighborKeys,
           Stream.Valid, NextKeys, Found, EdgePks, InTable, Enumerates, RequestedKeys, AreFrom;
      var keyed: map<Key, Node> := map[];
      edges := [];
      ghost var done: set<Key>, left := {}, tier.Keys;
      TierStart(gs.table, source.key);
      assert keyed.Keys == {};
      for i := 0 to |tier|
        invariant Awaits(call, left, |tier| - i) && done + left == tier.Keys
        invariant NodesAreKeyed(keyed)
        invariant Decodable(gs.table) ==> TierSoFar(gs.table, source.key, done, keyed.Keys, edges)
      {
        ghost var keys, before := keyed.Keys, edges;
        var response, key, rest, rows := ReceiveResponse(call, left, |tier| - i);
        if response.None? { return None, edges; }
        if Decodable(gs.table) { TierStep(gs.table, source.key, done, keys, before, key, rows); }
        keyed, edges := ReadNeighbors(keyed, edges, response.value, source.key);
        done, left := done + {key}, rest;
      }
      NothingRequested(call.Waiting());
      next := Some(keyed);
      if Decodable(gs.table) { TierEnd(gs.table, source.key, tier.Keys, keyed.Keys, edges); }
    }

    /** Reads the response for one of the keys. */
    method ReceiveResponse(call: Stream, ghost keys: set<Key>, ghost n: nat)
      returns (response: Option<seq<Neighbor>>, ghost key: Key, ghost rest: set<Key>, ghost rows: seq<JoinRow>)
      requires Awaits(call, keys, n) && n > 0
      modifies call
      ensures call.Valid() && keys == {key} + rest && (response.Some? ==> Awaits(call, rest, n - 1))
      ensures Decodable(gs.table) ==>
        && response.Some? && InTable(gs.table, rows) && Enumerates(rows, FromRows(gs.table, {key}))
        && response.value == Grouping(ConvertAll(Alternating(gs.table, rows)), ToKey)
    {
      hide Decodable, Grouping, ConvertAll, Alternating, FromRows, Stream.Valid, IsAnswer;
      ghost var node := call.Waiting()[0].from.value;
      key, rest := node.key, RequestedKeys(call.Waiting()[1..]);
      RequestedKeysFirst(call.Waiting());
      response := call.Recv();
      rows := [];
      if Decodable(gs.table) { rows := AnswerFrom(gs.table, node, response.value); }
    }

    method ReadNeighbors(next: map<Key, Node>, edges: seq<Edge>, neighbors: seq<Neighbor>, source: Key)
      returns (next': map<Key, Node>, edges': seq<Edge>)
      requires NodesAreKeyed(next)
      ensures NodesAreKeyed(next') && next'.Keys == next.Keys + NeighborKeys(neighbors)
      ensures edges' == edges + Counted(EdgesOf(neighbors), source)
    {
      hide Counted, Counts, NeighborKeys, EdgesOf;
      next', edges' := next, edges;
      NothingCounted(source);
      for i := 0 to |neighbors|
        invariant NodesAreKeyed(next') && next'.Keys == next.Keys + NeighborKeys(neighbors[..i])
        invariant edges' == edges + Counted(EdgesOf(neighbors[..i]), source)
      {
        var neighbor := neighbors[i];
        assert neighbors[..i + 1] == neighbors[..i] + [neighbor];
        OneMoreNeighbor(neighbors[..i], neighbor, edges, source);
        next' := next'[neighbor.node.key := neighbor.node];
        edges' := AppendCounted(edges', neighbor.edges, source);
      }
      assert neighbors[..|neighbors|] == neighbors;
    }

    method AppendCounted(edges: seq<Edge>, more: seq<Edge>, source: Key) returns (edges': seq<Edge>)
      ensures edges' == edges + Counted(more, source)
    {
      edges' := edges;
      for j := 0 to |more|
        invariant edges' == edges + Counted(more[..j], source)
      {
        var edge := more[j];
        CountedStep(more[..j], edge, source);
        assert more[..j + 1] == more[..j] + [edge];
        if Counts(EdgePk(edge), source) {
          edges' := edges' + [edge];
        }
      }
      assert more[..|more|] == more;
    }

    /** Puts what the request declares, then deletes what was stored for its source and is no longer declared. */
    method Store(req: StoreRequest) returns (ok: bool)
      modifies gs
      ensures Decodable(old(gs.table)) ==> ok && gs.table == Stored(m, old(gs.table), req)
      ensures !ok ==> gs.table == old(gs.table)
    {
      hide Decodable;
      var nodes, edges := GetProposed(req);
      var source := nodes[|nodes| - 1];
      var storedEdges := GetStored(source);
      if storedEdges.None? { return false; }
      var edgesToDelete := Outdated(edges, storedEdges.value);
      gs.Put(nodes, edges);
      gs.Delete([], edgesToDelete);
      DeleteRowsOfKeys(AfterPut(m, old(gs.table), req), EdgeItems(edgesToDelete) + NodeItems([]));
      EdgeItemKeys(edgesToDelete);
      assert EdgeItems(edgesToDelete) + NodeItems([]) == EdgeItems(edgesToDelete);
      ok := true;
    }

    /** The stored edges whose key no proposed edge has. */
    method Outdated(proposed: seq<Edge>, stored: seq<Edge>) returns (outdated: seq<Edge>)
      ensures EdgePks(outdated) == EdgePks(stored) - EdgePks(proposed)
    {
      var edgeIndex: map<PrimaryKey, Edge> := map[];
      for i := 0 to |proposed|
        invariant edgeIndex.Keys == EdgePks(proposed[..i])
      {
        assert proposed[..i + 1] == proposed[..i] + [proposed[i]];
        EdgePksAppend(proposed[..i], proposed[i]);
        edgeIndex := edgeIndex[EdgePk(proposed[i]) := proposed[i]];
      }
      assert proposed[..|proposed|] == proposed;
      outdated := [];
      for i := 0 to |stored|
        invariant EdgePks(outdated) == EdgePks(stored[..i]) - EdgePks(proposed)
      {
        assert stored[..i + 1] == stored[..i] + [stored[i]];
        EdgePksAppend(stored[..i], stored[i]);
        if EdgePk(stored[i]) !in edgeIndex {
          EdgePksAppend(outdated, stored[i]);
          outdated := outdated + [stored[i]];
        }
      }
      assert stored[..|stored|] == stored;
    }
  }

  // ---- Small facts about the loops ----

  predicate NodesAreKeyed(tier: map<Key, Node>) {
    forall key :: key in tier ==> tier[key].key == key
  }

  ghost predicate AreFrom(requests: seq<NeighborsRequest>) {
    forall i :: 0 <= i < |requests| ==> requests[i].from.Some? && requests[i] == From(requests[i].from.value)
  }

  ghost function RequestedKeys(requests: seq<NeighborsRequest>): set<Key>
    requires AreFrom(requests)
  {
    set i | 0 <= i < |requests| :: requests[i].from.value.key
  }

  lemma RequestedKeysAppend(requests: seq<NeighborsRequest>, node: Node)
    requires AreFrom(requests)
    ensures AreFrom(requests + [From(node)])
      && RequestedKeys(requests + [From(node)]) == RequestedKeys(requests) + {node.key}
  {
    var more := requests + [From(node)];
    assert forall i :: 0 <= i < |requests| ==> more[i] == requests[i];
    assert more[|requests|] == From(node);
    assert RequestedKeys(more) == RequestedKeys(requests) + {node.key};
  }

  lemma RequestedKeysFirst(requests: seq<NeighborsRequest>)
    requires AreFrom(requests) && requests != []
    ensures AreFrom(requests[1..])
    ensures RequestedKeys(requests) == {requests[0].from.value.key} + RequestedKeys(requests[1..])
  {
    var rest := requests[1..];
    forall i | 0 <= i < |rest| ensures rest[i] == requests[i + 1] {}
    forall i | 0 < i < |requests| ensures requests[i] == rest[i - 1] {}
    assert RequestedKeys(requests) == {requests[0].from.value.key} + RequestedKeys(rest);
  }

  lemma NothingRequested(requests: seq<NeighborsRequest>)
    requires requests == []
    ensures RequestedKeys(requests) == {}
  {
  }

  /** What has been read once the nodes with the given keys are answered. */
  ghost predicate TierSoFar(t: GraphTable, source: Key, done: set<Key>, keys: set<Key>, edges: seq<Edge>) {
    keys == NextKeys(t, done) && EdgePks(edges) == Found(t, source, done)
  }

  lemma TierStart(t: GraphTable, source: Key)
    ensures TierSoFar(t, source, {}, {}, [])
  {
  }

  lemma TierStep(t: GraphTable, source: Key, done: set<Key>, keys: set<Key>, edges: seq<Edge>, key: Key,
                 rows: seq<JoinRow>)
    requires Decodable(t) && InTable(t, rows) && Enumerates(rows, FromRows(t, {key}))
      && TierSoFar(t, source, done, keys, edges)
    ensures var response := Grouping(ConvertAll(Alternating(t, rows)), ToKey);
      TierSoFar(t, source, done + {key}, keys + NeighborKeys(response), edges + Counted(EdgesOf(response), source))
  {
    hide NextKeys, Found, EdgePks, Grouping, ConvertAll, Alternating;
    var response := Grouping(ConvertAll(Alternating(t, rows)), ToKey);
    FromRowsUnion(t, done, key);
    ResponseIs(t, key, rows, source);
    EdgePksConcat(edges, Counted(EdgesOf(response), source));
  }

  lemma TierEnd(t: GraphTable, source: Key, done: set<Key>, keys: set<Key>, edges: seq<Edge>)
    requires TierSoFar(t, source, done, keys, edges)
    ensures keys == NextKeys(t, done) && EdgePks(edges) == Found(t, source, done)
  {
  }

  lemma EdgePksConcat(a: seq<Edge>, b: seq<Edge>)
    ensures EdgePks(a + b) == EdgePks(a) + EdgePks(b)
  {
    assert forall e :: e in a + b <==> e in a || e in b;
  }

  lemma CountedStep(edges: seq<Edge>, edge: Edge, source: Key)
    ensures Counted(edges + [edge], source) ==
      Counted(edges, source) + if Counts(EdgePk(edge), source) then [edge] else []
  {
    assert (edges + [edge])[..|edges|] == edges;
  }

  lemma OneMoreNeighbor(neighbors: seq<Neighbor>, neighbor: Neighbor, edges: seq<Edge>, source: Key)
    ensures NeighborKeys(neighbors + [neighbor]) == NeighborKeys(neighbors) + {neighbor.node.key}
    ensures edges + Counted(EdgesOf(neighbors), source) + Counted(neighbor.edges, source)
         == edges + Counted(EdgesOf(neighbors + [neighbor]), source)
  {
    hide Counted, EdgesOf;
    EdgesOfStep(neighbors, neighbor);
    CountedConcat(EdgesOf(neighbors), neighbor.edges, source);
    Associative(edges, Counted(EdgesOf(neighbors), source), Counted(neighbor.edges, source));
    assert forall n :: n in neighbors + [neighbor] <==> n in neighbors || n == neighbor;
  }

  lemma EdgesOfStep(neighbors: seq<Neighbor>, neighbor: Neighbor)
    ensures EdgesOf(neighbors + [neighbor]) == EdgesOf(neighbors) + neighbor.edges
  {
    assert (neighbors + [neighbor])[..|neighbors|] == neighbors;
  }

  lemma Associative(a: seq<Edge>, b: seq<Edge>, c: seq<Edge>)
    ensures a + b + c == a + (b + c)
  {
  }

  lemma NothingCounted(source: Key)
    ensures Counted(EdgesOf([]), source) == [] && NeighborKeys([]) == {}
  {
  }

  lemma {:induction false} CountedConcat(a: seq<Edge>, b: seq<Edge>, source: Key)
    ensures Counted(a + b, source) == Counted(a, source) + Counted(b, source)
  {
    if b == [] {
      assert a + b == a;
    } else {
      var front, last := b[..|b| - 1], b[|b| - 1];
      CountedConcat(a, front, source);
      assert a + b == (a + front) + [last];
      CountedStep(a + front, last, source);
    }
  }

  lemma EdgeItemKeys(edges: seq<Edge>)
    ensures ItemKeys(EdgeItems(edges)) == EdgePks(edges)
  {
    var items := EdgeItems(edges);
    forall pk ensures pk in ItemKeys(items) <==> pk in EdgePks(edges) {
      if pk in ItemKeys(items) {
        var i :| 0 <= i < |items| && items[i].key == pk;
        assert edges[i] in edges;
      }
      if pk in EdgePks(edges) {
        var i :| 0 <= i < |edges| && EdgePk(edges[i]) == pk;
        assert items[i] in items;
      }
    }
  }
}
