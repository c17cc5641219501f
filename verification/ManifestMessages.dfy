/** What a v1beta Store call leaves in the rows it puts: the messages that the request states last, field by field. */
module ManifestMessages {
  import opened SoftTable
  import opened Places
  import opened Transforms
  import opened GraphStoreV1Beta
  import opened ManifestStorage
  import opened ManifestRuns

  // ---- What a request states about edges ----

  /** A file states its dependencies in order, and then, at the place after them, who manages its module. */
  predicate IsPlace(req: StoreRequest, p: Place) {
    0 <= p.file < |req.manifestFiles| && 0 <= p.pos <= |req.manifestFiles[p.file].dependencies|
  }

  predicate Mentions(req: StoreRequest, p: Place, pk: PrimaryKey)
    requires IsPlace(req, p)
  {
    var file := req.manifestFiles[p.file];
    var mod := ModuleKey(file.language, file.name);
    if p.pos == |file.dependencies| then
      (pk.k1 == SourceKey(req.url) || pk.k1 == SourceKey(file.sourceUrl)) && pk.k2 == mod && pk.k3 == NoKey
    else
      pk == PrimaryKey(mod, ModuleKey(file.language, file.dependencies[p.pos].name), SourceKey(req.url))
  }

  function MessageAt(req: StoreRequest, p: Place): Message
    requires IsPlace(req, p)
  {
    var file := req.manifestFiles[p.file];
    if p.pos == |file.dependencies| then
      SourceModule(file.version, file.system)
    else
      var dep := file.dependencies[p.pos];
      ModuleDependency(req.ref, dep.versionConstraint, dep.scopes)
  }

  /** Of all that the request states about this edge, `msg` is what it states last. */
  ghost predicate StatesLast(req: StoreRequest, pk: PrimaryKey, msg: Message) {
    exists p :: IsPlace(req, p) && Mentions(req, p, pk) && msg == MessageAt(req, p) && IsLastMention(req, p, pk)
  }

  ghost predicate IsLastMention(req: StoreRequest, p: Place, pk: PrimaryKey) {
    forall q :: IsPlace(req, q) && Before(p, q) ==> !Mentions(req, q, pk)
  }

  /** What the request states about a node: a module is named, and only its own source has another kind. */
  function NodeMessage(req: StoreRequest, key: Key): Message
    requires key != NoKey
  {
    match key
    case ModuleKey(language, name) => Module(language, name)
    case SourceKey(url) => Source(if url == req.url then req.kind else "repository", url)
  }

  // ---- The edges that are put ----

  ghost function EdgeData(m: Marshal, pk: PrimaryKey, msg: Message): Data {
    ConvertEdge(Edge(pk.k1, pk.k2, pk.k3, m(msg)), ProtocolBuffers).data
  }

  ghost function Statements(m: Marshal, req: StoreRequest): Saying<PrimaryKey, Data> {
    (p, pk, data) => States(m, req, p, pk, data)
  }

  ghost predicate States(m: Marshal, req: StoreRequest, p: Place, pk: PrimaryKey, data: Data) {
    IsPlace(req, p) && Mentions(req, p, pk) && data == EdgeData(m, pk, MessageAt(req, p))
  }

  function EdgeIndex(edges: seq<Edge>): Index<PrimaryKey, Data> {
    IndexOf(EdgeItems(edges))
  }

  lemma EdgeIndexStep(edges: seq<Edge>, edge: Edge)
    ensures EdgeIndex(edges + [edge]) == EdgeIndex(edges)[EdgePk(edge) := ConvertEdge(edge, ProtocolBuffers).data]
  {
    var items := EdgeItems(edges + [edge]);
    assert items[..|items| - 1] == EdgeItems(edges);
  }

  lemma DependencyStated(m: Marshal, req: StoreRequest, i: nat, j: nat)
    requires i < |req.manifestFiles| && j < |req.manifestFiles[i].dependencies|
    ensures var edge := DependsEdge(m, req, req.manifestFiles[i], req.manifestFiles[i].dependencies[j]);
      HoldsAt(map[EdgePk(edge) := ConvertEdge(edge, ProtocolBuffers).data], Statements(m, req), Place(i, j))
  {
  }

  lemma {:induction false} DependenciesStated(m: Marshal, req: StoreRequest, i: nat, n: nat, edges: seq<Edge>)
    requires i < |req.manifestFiles| && n <= |req.manifestFiles[i].dependencies|
    requires Holds(EdgeIndex(edges), Statements(m, req), Place(i, 0))
    ensures Holds(EdgeIndex(edges + DependencyEdges(m, req, req.manifestFiles[i], n)), Statements(m, req), Place(i, n))
  {
    hide Holds, HoldsAt, EdgeIndex, Statements, ConvertEdge, DependsEdge;
    if n == 0 {
      assert edges + [] == edges;
    } else {
      var file := req.manifestFiles[i];
      var front, edge :=
        edges + DependencyEdges(m, req, file, n - 1), DependsEdge(m, req, file, file.dependencies[n - 1]);
      DependenciesStated(m, req, i, n - 1, edges);
      DependencyStated(m, req, i, n - 1);
      var said := map[EdgePk(edge) := ConvertEdge(edge, ProtocolBuffers).data];
      Step(EdgeIndex(front), Statements(m, req), Place(i, n - 1), said);
      EdgeIndexStep(front, edge);
      assert EdgeIndex(front) + said == EdgeIndex(front)[EdgePk(edge) := ConvertEdge(edge, ProtocolBuffers).data];
      assert front + [edge] == edges + DependencyEdges(m, req, file, n);
    }
  }

  function ManagesIndex(m: Marshal, req: StoreRequest, file: ManifestFile): Index<PrimaryKey, Data> {
    var own, reported := ManagesEdge(m, file, SourceKey(req.url)), ManagesEdge(m, file, SourceKey(file.sourceUrl));
    map[EdgePk(own) := ConvertEdge(own, ProtocolBuffers).data]
       [EdgePk(reported) := ConvertEdge(reported, ProtocolBuffers).data]
  }

  lemma ManagesStated(m: Marshal, req: StoreRequest, i: nat)
    requires i < |req.manifestFiles|
    ensures HoldsAt(ManagesIndex(m, req, req.manifestFiles[i]), Statements(m, req),
                    Place(i, |req.manifestFiles[i].dependencies|))
  {
  }

  lemma FileStated(m: Marshal, req: StoreRequest, i: nat, edges: seq<Edge>)
    requires i < |req.manifestFiles|
    requires Holds(EdgeIndex(edges), Statements(m, req), Place(i, |req.manifestFiles[i].dependencies|))
    ensures var file := req.manifestFiles[i];
      var own, reported := ManagesEdge(m, file, SourceKey(req.url)), ManagesEdge(m, file, SourceKey(file.sourceUrl));
      Holds(EdgeIndex(edges + [own, reported]), Statements(m, req), Place(i + 1, 0))
  {
    hide Holds, HoldsAt, EdgeIndex, ConvertEdge, ManagesEdge, Statements;
    var file := req.manifestFiles[i];
    var own, reported := ManagesEdge(m, file, SourceKey(req.url)), ManagesEdge(m, file, SourceKey(file.sourceUrl));
    var end := Place(i, |file.dependencies|);
    ManagesStated(m, req, i);
    Step(EdgeIndex(edges), Statements(m, req), end, ManagesIndex(m, req, file));
    EdgeIndexStep(edges, own);
    EdgeIndexStep(edges + [own], reported);
    assert edges + [own] + [reported] == edges + [own, reported];
    assert EdgeIndex(edges) + ManagesIndex(m, req, file) == EdgeIndex(edges + [own, reported]);
    NothingBetween(m, req, i);
    Skip(EdgeIndex(edges + [own, reported]), Statements(m, req), end.(pos := end.pos + 1), Place(i + 1, 0));
  }

  lemma NothingBetween(m: Marshal, req: StoreRequest, i: nat)
    requires i < |req.manifestFiles|
    ensures Silent(Statements(m, req), Place(i, |req.manifestFiles[i].dependencies| + 1), Place(i + 1, 0))
  {
  }

  lemma NothingStated(m: Marshal, req: StoreRequest)
    ensures Holds(EdgeIndex([]), Statements(m, req), Place(0, 0))
  {
    NothingSaid(Statements(m, req), Place(0, 0));
    assert EdgeItems([]) == [];
  }

  lemma {:induction false} FilesStated(m: Marshal, req: StoreRequest, n: nat)
    requires n <= |req.manifestFiles|
    ensures Holds(EdgeIndex(FileEdges(m, req, n)), Statements(m, req), Place(n, 0))
  {
    hide Holds, EdgeIndex, ManagesEdge, DependencyEdges, Statements;
    if n == 0 {
      NothingStated(m, req);
    } else {
      var file, edges := req.manifestFiles[n - 1], FileEdges(m, req, n - 1);
      FilesStated(m, req, n - 1);
      DependenciesStated(m, req, n - 1, |file.dependencies|, edges);
      FileStated(m, req, n - 1, edges + DependencyEdges(m, req, file, |file.dependencies|));
    }
  }

  lemma EdgesAreStated(m: Marshal, req: StoreRequest, pk: PrimaryKey)
    ensures pk in EdgeIndex(ProposedEdges(m, req))
        ==> exists msg :: StatesLast(req, pk, msg) && EdgeIndex(ProposedEdges(m, req))[pk] == EdgeData(m, pk, msg)
  {
    hide EdgeIndex, EdgeData, Mentions, MessageAt;
    var says, end, idx := Statements(m, req), Place(|req.manifestFiles|, 0), EdgeIndex(ProposedEdges(m, req));
    FilesStated(m, req, |req.manifestFiles|);
    if pk in idx {
      assert LastUpTo(says, end, pk, idx[pk]);
      var p :| IsLast(says, end, pk, idx[pk], p);
      assert says(p, pk, idx[pk]);
      forall q | IsPlace(req, q) && Before(p, q) ensures !Mentions(req, q, pk) {
        assert !says(q, pk, EdgeData(m, pk, MessageAt(req, q)));
      }
      assert StatesLast(req, pk, MessageAt(req, p));
    }
  }

  // ---- The nodes that are put ----

  ghost predicate IsStated(m: Marshal, req: StoreRequest, node: Node) {
    node.key != NoKey && (node.key != SourceKey(req.url) ==> node.body == m(NodeMessage(req, node.key)))
  }

  lemma {:induction false} DependencyNodesStated(m: Marshal, req: StoreRequest, file: ManifestFile, n: nat, node: Node)
    requires n <= |file.dependencies| && node in DependencyNodes(m, file, n)
    ensures IsStated(m, req, node)
  {
    if node in DependencyNodes(m, file, n - 1) { DependencyNodesStated(m, req, file, n - 1, node); }
  }

  lemma {:induction false} FileNodesStated(m: Marshal, req: StoreRequest, n: nat, node: Node)
    requires n <= |req.manifestFiles| && node in FileNodes(m, req, n)
    ensures IsStated(m, req, node)
  {
    var file := req.manifestFiles[n - 1];
    if node in FileNodes(m, req, n - 1) {
      FileNodesStated(m, req, n - 1, node);
    } else if node in DependencyNodes(m, file, |file.dependencies|) {
      DependencyNodesStated(m, req, file, |file.dependencies|, node);
    }
  }

  lemma {:induction false} NodeIndexFrom(nodes: seq<Node>, pk: PrimaryKey) returns (node: Node)
    requires pk in IndexOf(NodeItems(nodes))
    ensures node in nodes && pk == NodeRow(node.key)
    ensures IndexOf(NodeItems(nodes))[pk] == ConvertNode(node, ProtocolBuffers).data
  {
    var items, last := NodeItems(nodes), nodes[|nodes| - 1];
    assert items[..|items| - 1] == NodeItems(nodes[..|nodes| - 1]);
    if pk == NodeRow(last.key) {
      node := last;
    } else {
      node := NodeIndexFrom(nodes[..|nodes| - 1], pk);
    }
  }

  lemma NodesAreStated(m: Marshal, req: StoreRequest, pk: PrimaryKey)
    requires pk in IndexOf(NodeItems(ProposedNodes(m, req)))
    ensures pk.k1 != NoKey && IndexOf(NodeItems(ProposedNodes(m, req)))[pk]
         == ConvertNode(Node(pk.k1, m(NodeMessage(req, pk.k1))), ProtocolBuffers).data
  {
    var nodes := ProposedNodes(m, req);
    var node := NodeIndexFrom(nodes, pk);
    if pk == NodeRow(SourceKey(req.url)) {
      var items := NodeItems(nodes);
      assert items[|items| - 1] == ConvertNode(SourceNode(m, req), ProtocolBuffers);
    } else if node in FileNodes(m, req, |req.manifestFiles|) {
      FileNodesStated(m, req, |req.manifestFiles|, node);
    }
  }

  // ---- What a run leaves ----

  lemma {:induction false} IndexOfConcat(a: seq<GraphData>, b: seq<GraphData>)
    ensures IndexOf(a + b) == IndexOf(a) + IndexOf(b)
  {
    if b == [] {
      assert a + b == a;
    } else {
      var front, last := b[..|b| - 1], b[|b| - 1];
      IndexOfConcat(a, front);
      assert (a + b)[..|a + b| - 1] == a + front;
    }
  }

  lemma StoredData(m: Marshal, t: GraphTable, req: StoreRequest, pk: PrimaryKey)
    requires Declares(req, pk)
    ensures var nodes, edges := IndexOf(NodeItems(ProposedNodes(m, req))), EdgeIndex(ProposedEdges(m, req));
      && (pk in edges <==> DeclaresEdge(req, pk)) && (!DeclaresEdge(req, pk) ==> pk in nodes)
      && pk in Stored(m, t, req)
      && Stored(m, t, req)[pk].data == if DeclaresEdge(req, pk) then edges[pk] else nodes[pk]
  {
    hide Declares, DeclaresEdge, Stale, ProposedNodes, ProposedEdges, NodeItems, EdgeItems;
    var nodes, edges := NodeItems(ProposedNodes(m, req)), EdgeItems(ProposedEdges(m, req));
    AfterPutIs(m, t, req);
    IndexOfConcat(nodes, edges);
    ProposedAre(m, req, pk);
    EdgeItemKeys(ProposedEdges(m, req));
    PutRowsIsPutIndex(t, edges);
  }

  /**
   What is stored for all that a request declares. A node's row reads back as the node with its message. An edge's row
   reads back as the edge with the message that the request states last, or, if its end points are equal, as a node.
   */
  lemma StoredMessages(m: Marshal, t: GraphTable, req: StoreRequest, pk: PrimaryKey)
    requires Declares(req, pk)
    ensures pk in Stored(m, t, req)
    ensures !DeclaresEdge(req, pk) ==>
      && pk.k1 != NoKey
      && ConvertGraphData(Item(pk, Stored(m, t, req)[pk].data)) == ANode(Node(pk.k1, m(NodeMessage(req, pk.k1))))
    ensures DeclaresEdge(req, pk) ==> exists msg ::
      && StatesLast(req, pk, msg)
      && ConvertGraphData(Item(pk, Stored(m, t, req)[pk].data))
         == if pk.k1 == pk.k2 then ANode(Node(pk.k1, m(msg))) else AnEdge(Edge(pk.k1, pk.k2, pk.k3, m(msg)))
  {
    hide Declares, DeclaresEdge, Stored, ConvertGraphData, StatesLast;
    StoredData(m, t, req, pk);
    DeclaredHangsOn(req, pk);
    if DeclaresEdge(req, pk) {
      EdgesAreStated(m, req, pk);
      var msg :| StatesLast(req, pk, msg) && EdgeIndex(ProposedEdges(m, req))[pk] == EdgeData(m, pk, msg);
      EdgeComesBack(Edge(pk.k1, pk.k2, pk.k3, m(msg)), ProtocolBuffers);
      assert ConvertEdge(Edge(pk.k1, pk.k2, pk.k3, m(msg)), ProtocolBuffers) == Item(pk, Stored(m, t, req)[pk].data);
    } else {
      NodesAreStated(m, req, pk);
      NodeComesBack(Node(pk.k1, m(NodeMessage(req, pk.k1))), ProtocolBuffers);
    }
  }
}
