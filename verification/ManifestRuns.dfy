/** What Store runs keep, and what one of them achieves. */
module ManifestRuns {
  import opened SoftTable
  import opened Transforms
  import opened GraphStoreV1Beta
  import opened ManifestStorage

  // ---- What a request declares ----

  function NodeRow(key: Key): PrimaryKey {
    PrimaryKey(key, key, NoKey)
  }

  function ManagesRow(source: Key, mod: Key): PrimaryKey {
    PrimaryKey(source, mod, NoKey)
  }

  predicate DeclaredNode(file: ManifestFile, pk: PrimaryKey) {
    || pk == NodeRow(SourceKey(file.sourceUrl))
    || pk == NodeRow(ModuleKey(file.language, file.name))
    || exists dep :: dep in file.dependencies && pk == NodeRow(ModuleKey(file.language, dep.name))
  }

  predicate DeclaredEdge(req: StoreRequest, file: ManifestFile, pk: PrimaryKey) {
    || pk == ManagesRow(SourceKey(req.url), ModuleKey(file.language, file.name))
    || pk == ManagesRow(SourceKey(file.sourceUrl), ModuleKey(file.language, file.name))
    || exists dep :: dep in file.dependencies
         && pk == PrimaryKey(ModuleKey(file.language, file.name), ModuleKey(file.language, dep.name),
              SourceKey(req.url))
  }

  predicate DeclaresNode(req: StoreRequest, pk: PrimaryKey) {
    pk == NodeRow(SourceKey(req.url)) || exists file :: file in req.manifestFiles && DeclaredNode(file, pk)
  }

  predicate DeclaresEdge(req: StoreRequest, pk: PrimaryKey) {
    exists file :: file in req.manifestFiles && DeclaredEdge(req, file, pk)
  }

  predicate Declares(req: StoreRequest, pk: PrimaryKey) {
    DeclaresNode(req, pk) || DeclaresEdge(req, pk)
  }

  ghost function NodePks(nodes: seq<Node>): set<PrimaryKey> {
    set node | node in nodes :: NodeRow(node.key)
  }

  lemma NodePksConcat(a: seq<Node>, b: seq<Node>)
    ensures NodePks(a + b) == NodePks(a) + NodePks(b)
  {
    assert forall n :: n in a + b <==> n in a || n in b;
  }

  lemma {:induction false} DependencyNodePks(m: Marshal, file: ManifestFile, n: nat)
    requires n <= |file.dependencies|
    ensures NodePks(DependencyNodes(m, file, n)) == set dep | dep in file.dependencies[..n] ::
      NodeRow(ModuleKey(file.language, dep.name))
  {
    hide NodePks;
    if n == 0 {
      NoPks();
    } else {
      var dep := file.dependencies[n - 1];
      DependencyNodePks(m, file, n - 1);
      NodePksConcat(DependencyNodes(m, file, n - 1), [DependencyModule(m, file, dep)]);
      OneNode(DependencyModule(m, file, dep));
      assert file.dependencies[..n] == file.dependencies[..n - 1] + [dep];
    }
  }

  lemma {:induction false} DependencyEdgePks(m: Marshal, req: StoreRequest, file: ManifestFile, n: nat)
    requires n <= |file.dependencies|
    ensures EdgePks(DependencyEdges(m, req, file, n))
         == set dep | dep in file.dependencies[..n] :: EdgePk(DependsEdge(m, req, file, dep))
  {
    hide EdgePks, EdgePk;
    if n == 0 {
      NoPks();
    } else {
      var dep := file.dependencies[n - 1];
      DependencyEdgePks(m, req, file, n - 1);
      EdgePksConcat(DependencyEdges(m, req, file, n - 1), [DependsEdge(m, req, file, dep)]);
      OneEdge(DependsEdge(m, req, file, dep));
      assert file.dependencies[..n] == file.dependencies[..n - 1] + [dep];
    }
  }

  lemma NoPks()
    ensures NodePks([]) == {} && EdgePks([]) == {}
  {
  }

  lemma FileNodePks(m: Marshal, req: StoreRequest, n: nat, pk: PrimaryKey)
    requires n < |req.manifestFiles|
    ensures pk in NodePks(FileNodes(m, req, n + 1))
      <==> pk in NodePks(FileNodes(m, req, n)) || DeclaredNode(req.manifestFiles[n], pk)
  {
    hide NodePks, DependencyNodes;
    var file := req.manifestFiles[n];
    var reported, mod := ReportedSource(m, file), FileModule(m, file);
    var nodes, depNodes := FileNodes(m, req, n), DependencyNodes(m, file, |file.dependencies|);
    DependencyNodePks(m, file, |file.dependencies|);
    assert file.dependencies[..|file.dependencies|] == file.dependencies;
    NodePksConcat(nodes, depNodes);
    NodePksConcat(nodes + depNodes, [reported, mod]);
    assert [reported, mod] == [reported] + [mod];
    NodePksConcat([reported], [mod]);
    OneNode(reported);
    OneNode(mod);
  }

  lemma FileEdgePks(m: Marshal, req: StoreRequest, n: nat, pk: PrimaryKey)
    requires n < |req.manifestFiles|
    ensures pk in EdgePks(FileEdges(m, req, n + 1))
      <==> pk in EdgePks(FileEdges(m, req, n)) || DeclaredEdge(req, req.manifestFiles[n], pk)
  {
    hide EdgePks, DependencyEdges;
    var file := req.manifestFiles[n];
    var own, reported := ManagesEdge(m, file, SourceKey(req.url)), ManagesEdge(m, file, SourceKey(file.sourceUrl));
    var edges, depEdges := FileEdges(m, req, n), DependencyEdges(m, req, file, |file.dependencies|);
    DependencyEdgePks(m, req, file, |file.dependencies|);
    assert file.dependencies[..|file.dependencies|] == file.dependencies;
    EdgePksConcat(edges, depEdges);
    EdgePksConcat(edges + depEdges, [own, reported]);
    assert [own, reported] == [own] + [reported];
    EdgePksConcat([own], [reported]);
    OneEdge(own);
    OneEdge(reported);
  }

  lemma OneNode(node: Node)
    ensures NodePks([node]) == {NodeRow(node.key)}
  {
    assert [node][0] in [node];
  }

  lemma OneEdge(edge: Edge)
    ensures EdgePks([edge]) == {EdgePk(edge)}
  {
    assert [edge][0] in [edge];
  }

  lemma {:induction false} FilesNodePks(m: Marshal, req: StoreRequest, n: nat, pk: PrimaryKey)
    requires n <= |req.manifestFiles|
    ensures pk in NodePks(FileNodes(m, req, n))
      <==> exists file :: file in req.manifestFiles[..n] && DeclaredNode(file, pk)
  {
    hide DeclaredNode, NodePks;
    if n == 0 {
      NoPks();
    } else {
      var file, before, files := req.manifestFiles[n - 1], req.manifestFiles[..n - 1], req.manifestFiles[..n];
      FilesNodePks(m, req, n - 1, pk);
      FileNodePks(m, req, n - 1, pk);
      assert files == before + [file];
      assert forall f :: f in files <==> f in before || f == file;
    }
  }

  lemma {:induction false} FilesEdgePks(m: Marshal, req: StoreRequest, n: nat, pk: PrimaryKey)
    requires n <= |req.manifestFiles|
    ensures pk in EdgePks(FileEdges(m, req, n))
      <==> exists file :: file in req.manifestFiles[..n] && DeclaredEdge(req, file, pk)
  {
    hide DeclaredEdge, EdgePks;
    if n == 0 {
      NoPks();
    } else {
      var file, before, files := req.manifestFiles[n - 1], req.manifestFiles[..n - 1], req.manifestFiles[..n];
      FilesEdgePks(m, req, n - 1, pk);
      FileEdgePks(m, req, n - 1, pk);
      assert files == before + [file];
      assert forall f :: f in files <==> f in before || f == file;
    }
  }

  lemma NodeItemKeys(nodes: seq<Node>)
    ensures ItemKeys(NodeItems(nodes)) == NodePks(nodes)
  {
    var items := NodeItems(nodes);
    forall pk ensures pk in ItemKeys(items) <==> pk in NodePks(nodes) {
      if pk in ItemKeys(items) {
        var i :| 0 <= i < |items| && items[i].key == pk;
        assert nodes[i] in nodes;
      }
      if pk in NodePks(nodes) {
        var i :| 0 <= i < |nodes| && NodeRow(nodes[i].key) == pk;
        assert items[i] in items;
      }
    }
  }

  lemma ItemPks(nodes: seq<Node>, edges: seq<Edge>)
    ensures ItemKeys(NodeItems(nodes) + EdgeItems(edges)) == NodePks(nodes) + EdgePks(edges)
  {
    hide NodeItems, EdgeItems, NodePks, EdgePks;
    NodeItemKeys(nodes);
    EdgeItemKeys(edges);
    assert forall item ::
        item in NodeItems(nodes) + EdgeItems(edges) <==> item in NodeItems(nodes) || item in EdgeItems(edges);
  }

  /** GetProposed builds exactly what the request declares. */
  lemma ProposedAre(m: Marshal, req: StoreRequest, pk: PrimaryKey)
    ensures pk in ItemKeys(Items(m, req)) <==> Declares(req, pk)
    ensures pk in EdgePks(ProposedEdges(m, req)) <==> DeclaresEdge(req, pk)
  {
    hide DeclaredNode, DeclaredEdge, FileNodes, FileEdges, NodePks, EdgePks;
    FilesNodePks(m, req, |req.manifestFiles|, pk);
    FilesEdgePks(m, req, |req.manifestFiles|, pk);
    OneNode(SourceNode(m, req));
    assert req.manifestFiles[..|req.manifestFiles|] == req.manifestFiles;
    NodePksConcat(FileNodes(m, req, |req.manifestFiles|), [SourceNode(m, req)]);
    ItemPks(ProposedNodes(m, req), ProposedEdges(m, req));
  }

  // ---- Shapes ----

  predicate IsNode(pk: PrimaryKey) {
    pk.k1 == pk.k2 && pk.k3 == NoKey && pk.k1 != NoKey
  }

  predicate IsManages(pk: PrimaryKey) {
    pk.k1.SourceKey? && pk.k2.ModuleKey? && pk.k3 == NoKey
  }

  predicate IsDepends(pk: PrimaryKey) {
    pk.k1.ModuleKey? && pk.k2.ModuleKey? && pk.k3.SourceKey?
  }

  predicate Shape(pk: PrimaryKey) {
    IsNode(pk) || IsManages(pk) || IsDepends(pk)
  }

  /** The edges a source is responsible for and can see. */
  predicate Owns(source: Key, pk: PrimaryKey) {
    (IsManages(pk) && pk.k1 == source) || (IsDepends(pk) && pk.k3 == source && pk.k1 != pk.k2)
  }

  /** A declared edge has the shape of an edge, and everything it hangs on is declared too. */
  lemma DeclaredHangsOn(req: StoreRequest, pk: PrimaryKey)
    requires Declares(req, pk)
    ensures Shape(pk) && (DeclaresEdge(req, pk) <==> !IsNode(pk))
    ensures IsManages(pk) ==> DeclaresNode(req, NodeRow(pk.k2))
    ensures IsDepends(pk) ==>
      && pk.k3 == SourceKey(req.url)
      && DeclaresEdge(req, ManagesRow(pk.k3, pk.k1))
      && DeclaresNode(req, NodeRow(pk.k1))
      && DeclaresNode(req, NodeRow(pk.k2))
  {
    if DeclaresEdge(req, pk) {
      var file :| file in req.manifestFiles && DeclaredEdge(req, file, pk);
      assert DeclaredNode(file, NodeRow(ModuleKey(file.language, file.name)));
      assert DeclaredEdge(req, file, ManagesRow(SourceKey(req.url), ModuleKey(file.language, file.name)));
      if IsDepends(pk) {
        var dep :| dep in file.dependencies
          && pk == PrimaryKey(ModuleKey(file.language, file.name), ModuleKey(file.language, dep.name),
               SourceKey(req.url));
        assert DeclaredNode(file, NodeRow(ModuleKey(file.language, dep.name)));
      }
    }
  }

  // ---- The invariant ----

  /** Rows decode and are well formed, node rows are never deleted, and every live edge hangs on live rows. */
  ghost predicate Sound(t: GraphTable) {
    && Decodable(t)
    && (forall pk :: pk in t ==> Shape(pk))
    && (forall pk :: pk in t && IsNode(pk) ==> !t[pk].deleted)
    && (forall pk :: Live(t, pk) && IsManages(pk) ==> NodeRow(pk.k2) in t)
    && (forall pk :: Live(t, pk) && IsDepends(pk) && pk.k1 != pk.k2 ==>
          Live(t, ManagesRow(pk.k3, pk.k1)) && NodeRow(pk.k1) in t && NodeRow(pk.k2) in t)
  }

  lemma EmptyIsSound()
    ensures Sound(map[])
  {
  }

  lemma FromSource(t: GraphTable, source: Key, row: JoinRow)
    requires Sound(t) && source.SourceKey? && row in FromRows(t, {source})
    ensures Live(t, row.1) && IsManages(row.1) && row.1.k1 == source && row.0.k1 == row.1.k2
  {
  }

  lemma FromModule(t: GraphTable, mods: set<Key>, row: JoinRow)
    requires Sound(t) && row in FromRows(t, mods) && forall mod :: mod in mods ==> mod.ModuleKey?
    ensures Live(t, row.1) && IsDepends(row.1) && row.1.k1 in mods && row.1.k1 != row.1.k2
  {
  }

  lemma TierOne(t: GraphTable, source: Key, mod: Key)
    requires Sound(t) && source.SourceKey?
    ensures mod in NextKeys(t, {source}) <==> mod.ModuleKey? && Live(t, ManagesRow(source, mod))
  {
    forall row | row in FromRows(t, {source})
      ensures row.0.k1 == row.1.k2 && Live(t, row.1) && row.1 == ManagesRow(source, row.1.k2) && row.1.k2.ModuleKey?
    {
      FromSource(t, source, row);
    }
    if mod.ModuleKey? && Live(t, ManagesRow(source, mod)) {
      assert (NodeRow(mod), ManagesRow(source, mod)) in FromRows(t, {source});
    }
  }

  /** Within its two tiers the walk finds exactly the live edges its source owns: none is out of reach. */
  lemma StoredAre(t: GraphTable, source: Key, pk: PrimaryKey)
    requires Sound(t) && source.SourceKey?
    ensures pk in StoredKeys(t, source) <==> Live(t, pk) && Owns(source, pk)
  {
    hide Sound;
    var mods := NextKeys(t, {source});
    StoredInTiers(t, source);
    forall mod ensures mod in mods <==> mod.ModuleKey? && Live(t, ManagesRow(source, mod)) { TierOne(t, source, mod); }
    FoundFromSource(t, source, pk);
    FoundFromModules(t, source, mods, pk);
    if Live(t, pk) && Owns(source, pk) && IsDepends(pk) { OwnedIsManaged(t, pk); }
  }

  lemma StoredInTiers(t: GraphTable, source: Key)
    ensures StoredKeys(t, source) == Found(t, source, {source}) + Found(t, source, NextKeys(t, {source}))
  {
    assert TierKeys(t, source, 1) == NextKeys(t, {source});
    assert FoundUpTo(t, source, 1) == Found(t, source, {source});
  }

  lemma OwnedIsManaged(t: GraphTable, pk: PrimaryKey)
    requires Sound(t) && Live(t, pk) && IsDepends(pk) && pk.k1 != pk.k2
    ensures Live(t, ManagesRow(pk.k3, pk.k1))
  {
  }

  lemma FoundFromSource(t: GraphTable, source: Key, pk: PrimaryKey)
    requires Sound(t) && source.SourceKey?
    ensures pk in Found(t, source, {source}) <==> Live(t, pk) && IsManages(pk) && pk.k1 == source
  {
    forall row | row in FromRows(t, {source}) ensures Live(t, row.1) && IsManages(row.1) && row.1.k1 == source {
      FromSource(t, source, row);
    }
    if Live(t, pk) && IsManages(pk) && pk.k1 == source {
      assert (NodeRow(pk.k2), pk) in FromRows(t, {source});
    }
  }

  lemma FoundFromModules(t: GraphTable, source: Key, mods: set<Key>, pk: PrimaryKey)
    requires Sound(t) && source.SourceKey? && forall mod :: mod in mods ==> mod.ModuleKey?
    ensures pk in Found(t, source, mods)
      <==> Live(t, pk) && IsDepends(pk) && pk.k3 == source && pk.k1 in mods && pk.k1 != pk.k2
  {
    forall row | row in FromRows(t, mods)
      ensures Live(t, row.1) && IsDepends(row.1) && row.1.k1 in mods && row.1.k1 != row.1.k2
    {
      FromModule(t, mods, row);
    }
    if Live(t, pk) && IsDepends(pk) && pk.k3 == source && pk.k1 in mods && pk.k1 != pk.k2 {
      assert (NodeRow(pk.k2), pk) in FromRows(t, mods);
    }
  }

  /** A run deletes exactly the visible edges of its source that are no longer declared, so nothing it has put. */
  lemma StaleIs(m: Marshal, t: GraphTable, req: StoreRequest, pk: PrimaryKey)
    requires Sound(t)
    ensures pk in Stale(m, t, req) <==> Live(t, pk) && Owns(SourceKey(req.url), pk) && !Declares(req, pk)
  {
    hide Sound, StoredKeys;
    StoredAre(t, SourceKey(req.url), pk);
    ProposedAre(m, req, pk);
    if Declares(req, pk) { DeclaredHangsOn(req, pk); }
  }

  lemma AfterPutIs(m: Marshal, t: GraphTable, req: StoreRequest)
    ensures AfterPut(m, t, req) == PutIndex(t, IndexOf(Items(m, req)))
    ensures forall pk :: pk in IndexOf(Items(m, req)) <==> Declares(req, pk)
  {
    PutRowsIsPutIndex(t, Items(m, req));
    forall pk ensures pk in ItemKeys(Items(m, req)) <==> Declares(req, pk) { ProposedAre(m, req, pk); }
  }

  lemma PutKeepsSound(m: Marshal, t: GraphTable, req: StoreRequest)
    requires Sound(t)
    ensures Sound(AfterPut(m, t, req))
  {
    hide Items, ProposedNodes, ProposedEdges, Declares, DeclaresNode, DeclaresEdge, Decodable, AfterPut;
    var t' := AfterPut(m, t, req);
    AfterPutIs(m, t, req);
    PutDecodable(m, t, req);
    forall pk | Declares(req, pk)
      ensures Shape(pk)
      ensures IsManages(pk) ==> NodeRow(pk.k2) in t'
      ensures IsDepends(pk) ==> Live(t', ManagesRow(pk.k3, pk.k1)) && NodeRow(pk.k1) in t' && NodeRow(pk.k2) in t'
    {
      DeclaredHangsOn(req, pk);
      DeclaresParts(req);
    }
    assert forall pk :: Live(t', pk) && !Declares(req, pk) ==> Live(t, pk);
    assert forall pk :: Live(t, pk) ==> Live(t', pk);
  }

  lemma DeclaresParts(req: StoreRequest)
    ensures forall pk :: DeclaresNode(req, pk) || DeclaresEdge(req, pk) ==> Declares(req, pk)
  {
  }

  lemma PutDecodable(m: Marshal, t: GraphTable, req: StoreRequest)
    requires Decodable(t)
    ensures Decodable(AfterPut(m, t, req))
  {
    PutKeepsDecodable(t, ProposedNodes(m, req), ProposedEdges(m, req));
  }

  lemma DeleteKeepsDecodable(t: GraphTable, pks: set<PrimaryKey>)
    requires Decodable(t)
    ensures Decodable(DeleteKeys(t, pks))
  {
    hide ConvertGraphData;
  }

  lemma DeleteKeepsSound(m: Marshal, t: GraphTable, t0: GraphTable, req: StoreRequest)
    requires Sound(t) && Sound(t0)
    requires forall pk :: Live(t, pk) && Owns(SourceKey(req.url), pk) && !Declares(req, pk) ==> Live(t0, pk)
    ensures Sound(DeleteKeys(t, Stale(m, t0, req)))
  {
    hide Stale, Declares, Decodable;
    var t' := DeleteKeys(t, Stale(m, t0, req));
    assert Decodable(t') by { DeleteKeepsDecodable(t, Stale(m, t0, req)); }
    forall pk ensures pk in Stale(m, t0, req) ==> !IsNode(pk) { StaleIs(m, t0, req, pk); }
    forall pk | Live(t', pk) && IsDepends(pk) && pk.k1 != pk.k2 ensures Live(t', ManagesRow(pk.k3, pk.k1)) {
      StaleIs(m, t0, req, pk);
      StaleIs(m, t0, req, ManagesRow(pk.k3, pk.k1));
      if Declares(req, pk) { DeclaredHangsOn(req, pk); DeclaresParts(req); }
    }
  }

  lemma StoreKeepsSound(m: Marshal, t: GraphTable, req: StoreRequest)
    requires Sound(t)
    ensures Sound(AfterPut(m, t, req)) && Sound(Stored(m, t, req))
  {
    hide Sound, Declares, Items, Stale, Owns;
    PutKeepsSound(m, t, req);
    AfterPutIs(m, t, req);
    DeleteKeepsSound(m, AfterPut(m, t, req), t, req);
  }

  // ---- All runs ----

  /** A Store call either completes, or stops after its Put transaction and before its Delete transaction. */
  datatype Run = Completed(req: StoreRequest) | Stopped(req: StoreRequest)

  ghost function AfterRun(m: Marshal, t: GraphTable, run: Run): GraphTable {
    match run
    case Completed(req) => Stored(m, t, req)
    case Stopped(req) => AfterPut(m, t, req)
  }

  ghost function AfterRuns(m: Marshal, t: GraphTable, runs: seq<Run>): GraphTable {
    if runs == [] then t else AfterRun(m, AfterRuns(m, t, runs[..|runs| - 1]), runs[|runs| - 1])
  }

  /** Every store that Store calls produce from an empty one is sound, stopped calls included. */
  lemma {:induction false} RunsKeepSound(m: Marshal, runs: seq<Run>)
    ensures Sound(AfterRuns(m, map[], runs))
  {
    if runs == [] {
      EmptyIsSound();
    } else {
      RunsKeepSound(m, runs[..|runs| - 1]);
      StoreKeepsSound(m, AfterRuns(m, map[], runs[..|runs| - 1]), runs[|runs| - 1].req);
    }
  }

  // ---- One run ----

  /**
   After a run, the visible edges of its source are exactly the declared ones, everything declared is live with
   the data of its last declaration, and nothing that is not the source's own edge went away or changed undeclared.
   */
  lemma StoreIsExact(m: Marshal, t: GraphTable, req: StoreRequest, pk: PrimaryKey)
    requires Sound(t)
    ensures Owns(SourceKey(req.url), pk) ==> (Live(Stored(m, t, req), pk) <==> Declares(req, pk))
    ensures Declares(req, pk) ==>
      Live(Stored(m, t, req), pk) && LastOf(Items(m, req), Item(pk, Stored(m, t, req)[pk].data))
    ensures Live(t, pk) && !Owns(SourceKey(req.url), pk) ==> Live(Stored(m, t, req), pk)
    ensures !Declares(req, pk) && (pk in t || pk in Stored(m, t, req)) && !Owns(SourceKey(req.url), pk)
        ==> pk in t && pk in Stored(m, t, req) && Stored(m, t, req)[pk] == t[pk]
  {
    hide Sound, Items, Declares, Owns, Stale;
    StaleIs(m, t, req, pk);
    AfterPutIs(m, t, req);
    PutRowsAt(t, Items(m, req), pk);
    ProposedAre(m, req, pk);
  }

  /** Deleting before putting would leave the same table: no edge to delete is one that was put. */
  lemma DeletesAreDisjoint(m: Marshal, t: GraphTable, req: StoreRequest)
    requires Sound(t)
    ensures Stored(m, t, req) == PutRows(DeleteKeys(t, Stale(m, t, req)), Items(m, req))
  {
    hide Sound, Items, Declares, Owns, Stale;
    AfterPutIs(m, t, req);
    PutRowsIsPutIndex(DeleteKeys(t, Stale(m, t, req)), Items(m, req));
    forall pk | Declares(req, pk) ensures pk !in Stale(m, t, req) { StaleIs(m, t, req, pk); }
  }

  /** A run stopped between its transactions is made good by repeating it. */
  lemma RerunCompletes(m: Marshal, t: GraphTable, req: StoreRequest)
    requires Sound(t)
    ensures Stored(m, AfterPut(m, t, req), req) == Stored(m, t, req)
  {
    hide Sound, Items, Declares, Owns, Stale;
    PutKeepsSound(m, t, req);
    AfterPutIs(m, t, req);
    AfterPutIs(m, AfterPut(m, t, req), req);
    PutIndexTwice(t, IndexOf(Items(m, req)));
    forall pk ensures pk in Stale(m, AfterPut(m, t, req), req) <==> pk in Stale(m, t, req) {
      StaleIs(m, t, req, pk);
      StaleIs(m, AfterPut(m, t, req), req, pk);
    }
  }

  /** Repeating a completed run changes nothing. */
  lemma RerunIsNeutral(m: Marshal, t: GraphTable, req: StoreRequest)
    requires Sound(t)
    ensures Stored(m, Stored(m, t, req), req) == Stored(m, t, req)
  {
    hide Sound, Items, Declares, Owns, Stale;
    var t' := Stored(m, t, req);
    StoreKeepsSound(m, t, req);
    AfterPutIs(m, t, req);
    AfterPutIs(m, t', req);
    forall pk ensures pk !in Stale(m, t', req) {
      StaleIs(m, t', req, pk);
      StoreIsExact(m, t, req, pk);
    }
    forall pk | Declares(req, pk) ensures pk !in Stale(m, t, req) { StaleIs(m, t, req, pk); }
  }

  /**
   No run deletes a self-dependency: its row passes for a node. So all live dependencies of a source are declared ones
   after its run if and only if every self-dependency it had before is declared again.
   */
  lemma SelfDependenciesStay(m: Marshal, t: GraphTable, req: StoreRequest)
    requires Sound(t)
    ensures (forall pk ::
               Live(Stored(m, t, req), pk) && IsDepends(pk) && pk.k3 == SourceKey(req.url) ==> Declares(req, pk))
       <==> (forall pk :: Live(t, pk) && SelfDependency(SourceKey(req.url), pk) ==> Declares(req, pk))
  {
    hide Sound, Items, Declares, Stale;
    forall pk
      ensures IsDepends(pk) && pk.k1 == pk.k2 && !Declares(req, pk) ==> (Live(Stored(m, t, req), pk) <==> Live(t, pk))
      ensures Owns(SourceKey(req.url), pk) && Live(Stored(m, t, req), pk) ==> Declares(req, pk)
    {
      StoreIsExact(m, t, req, pk);
    }
  }

  predicate SelfDependency(source: Key, pk: PrimaryKey) {
    IsDepends(pk) && pk.k3 == source && pk.k1 == pk.k2
  }

  lemma DroppedSelfDependency(m: Marshal, t: GraphTable, first: StoreRequest, second: StoreRequest, pk: PrimaryKey)
    requires Sound(t) && Declares(first, pk) && SelfDependency(SourceKey(first.url), pk) && !Declares(second, pk)
    ensures Live(Stored(m, Stored(m, t, first), second), pk)
  {
    hide Sound, Declares, Stored;
    StoreKeepsSound(m, t, first);
    StoreIsExact(m, t, first, pk);
    StoreIsExact(m, Stored(m, t, first), second, pk);
  }

  /** A module that depends on itself, stored and then dropped from the source's files, keeps its edge. */
  lemma SelfDependencyWitness(m: Marshal)
    ensures exists first: StoreRequest, second: StoreRequest, pk ::
      && first.url == second.url
      && SelfDependency(SourceKey(second.url), pk)
      && !Declares(second, pk)
      && Live(Stored(m, Stored(m, map[], first), second), pk)
  {
    hide Stored;
    var dep := ManifestDependency("n", "v", []);
    var file := ManifestFile("l", "s", "v", "u", "n", [dep]);
    var first, second := StoreRequest("u", "k", "r", [file]), StoreRequest("u", "k", "r", []);
    var pk := PrimaryKey(ModuleKey("l", "n"), ModuleKey("l", "n"), SourceKey("u"));
    assert dep in file.dependencies && file in first.manifestFiles;
    assert DeclaredEdge(first, file, pk);
    assert !Declares(second, pk);
    EmptyIsSound();
    DroppedSelfDependency(m, map[], first, second, pk);
    assert first.url == second.url && SelfDependency(SourceKey(second.url), pk);
  }
}
