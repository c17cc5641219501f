/** What Track runs keep, and what one of them achieves. */
module Reconciliation {
  import opened SoftTable
  import opened Places
  import opened GraphStoreV1Alpha
  import opened SourceService
  import opened Declarations

  // ---- Shapes ----

  predicate Shape(pk: PrimaryKey) {
    match pk.itemType
    case SourceType => pk.k1.SourceKey? && pk.k2 == pk.k1 && pk.k3 == NoKey
    case ModuleType => pk.k1.ModuleKey? && pk.k2 == pk.k1 && pk.k3 == NoKey
    case ManagesType => pk.k1.SourceKey? && pk.k2.ModuleKey? && pk.k3 == NoKey
    case DependsType => pk.k1.ModuleKey? && pk.k2.ModuleKey? && pk.k3.SourceKey?
  }

  /** The message has the kind of the row, and a node's message has the fields its key was made from. */
  predicate Fits(pk: PrimaryKey, data: Message) {
    match pk.itemType
    case SourceType => data.Source? && pk.k1 == SourceKey(data.url)
    case ModuleType => data.Module? && pk.k1 == ModuleKey(data.language, data.organization, data.mod)
    case ManagesType => data.Manages?
    case DependsType => data.Depends?
  }

  predicate IsEdge(pk: PrimaryKey) {
    pk.itemType == ManagesType || pk.itemType == DependsType
  }

  function ModuleRow(mod: Key): PrimaryKey {
    PrimaryKey(ModuleType, mod, mod, NoKey)
  }

  function ManagesRow(source: Key, mod: Key): PrimaryKey {
    PrimaryKey(ManagesType, source, mod, NoKey)
  }

  /** The edges a source is responsible for and can see: self-dependencies are invisible to every join. */
  predicate Owns(source: Key, pk: PrimaryKey) {
    || (pk.itemType == ManagesType && pk.k1 == source)
    || (pk.itemType == DependsType && pk.k3 == source && pk.k1 != pk.k2)
  }

  lemma SaidFits(req: SourceRequest, p: Place, pk: PrimaryKey, data: Message)
    requires Says(req, p, pk, data)
    ensures Shape(pk) && Fits(pk, data)
  {
  }

  lemma ProposedFits(req: SourceRequest, pk: PrimaryKey)
    requires pk in Proposed(req)
    ensures Shape(pk) && Fits(pk, Proposed(req)[pk])
  {
    hide Says, Proposed;
    ProposedSays(req, pk, Proposed(req)[pk]);
    var p :| Says(req, p, pk, Proposed(req)[pk]);
    SaidFits(req, p, pk, Proposed(req)[pk]);
  }

  /** A proposed manages edge comes with its module, and belongs to the request's source or to one its files name. */
  lemma ProposedManages(req: SourceRequest, pk: PrimaryKey)
    requires pk in Proposed(req) && pk.itemType == ManagesType
    ensures ModuleRow(pk.k2) in Proposed(req)
    ensures pk.k1 != SourceKey(req.url)
        ==> exists file :: file in req.files && file.sourceUrl != "" && pk.k1 == SourceKey(file.sourceUrl)
  {
    hide Proposed;
    ProposedKeys(req, pk);
    ProposedKeys(req, ModuleRow(pk.k2));
    var p, data :| Says(req, p, pk, data);
    var file := req.files[p.file];
    assert file in req.files;
    assert Says(req, p, ModuleRow(pk.k2), Module(file.language, file.organization, file.mod, file.name));
  }

  /** A proposed depends edge belongs to the request's source, and comes with both modules and a manages edge. */
  lemma ProposedDepends(req: SourceRequest, pk: PrimaryKey)
    requires pk in Proposed(req) && pk.itemType == DependsType
    ensures pk.k3 == SourceKey(req.url) && ManagesRow(pk.k3, pk.k1) in Proposed(req)
    ensures ModuleRow(pk.k1) in Proposed(req) && ModuleRow(pk.k2) in Proposed(req)
  {
    hide Proposed;
    ProposedKeys(req, pk);
    ProposedKeys(req, ModuleRow(pk.k1));
    ProposedKeys(req, ModuleRow(pk.k2));
    ProposedKeys(req, ManagesRow(pk.k3, pk.k1));
    var p, data :| Says(req, p, pk, data);
    var file := req.files[p.file];
    var dep := file.dependencies[p.pos];
    assert Says(req, p, ModuleRow(pk.k2), Module(file.language, dep.organization, dep.mod, dep.name));
    var own := Place(p.file, -1);
    assert Says(req, own, ModuleRow(pk.k1), Module(file.language, file.organization, file.mod, file.name));
    assert Says(req, own, ManagesRow(pk.k3, pk.k1), Manages(file.language, file.system, file.version));
  }

  lemma ProposedEdges(req: SourceRequest, pk: PrimaryKey)
    requires pk in Proposed(req)
    ensures Shape(pk) && Fits(pk, Proposed(req)[pk])
    ensures pk.itemType == ManagesType ==> ModuleRow(pk.k2) in Proposed(req)
    ensures pk.itemType == DependsType ==> ManagesRow(pk.k3, pk.k1) in Proposed(req)
    ensures pk.itemType == DependsType ==> ModuleRow(pk.k1) in Proposed(req) && ModuleRow(pk.k2) in Proposed(req)
  {
    ProposedFits(req, pk);
    if pk.itemType == ManagesType { ProposedManages(req, pk); }
    if pk.itemType == DependsType { ProposedDepends(req, pk); }
  }

  lemma SourceIsProposed(req: SourceRequest)
    ensures PrimaryKey(SourceType, SourceKey(req.url), SourceKey(req.url), NoKey) in Proposed(req)
  {
    var pk := PrimaryKey(SourceType, SourceKey(req.url), SourceKey(req.url), NoKey);
    ProposedKeys(req, pk);
    DeclaredByFiles(req, pk);
  }

  // ---- The invariant ----

  /**
   Rows are well formed, node rows are never deleted, and every live edge hangs on live rows: a manages edge on its
   module, and a depends edge of an owner on both modules and on a live manages edge from that owner.
   */
  ghost predicate Sound(t: GraphTable) {
    && (forall pk :: pk in t ==> Shape(pk) && Fits(pk, t[pk].data))
    && (forall pk :: pk in t && !IsEdge(pk) ==> !t[pk].deleted)
    && (forall pk :: Live(t, pk) && pk.itemType == ManagesType ==> ModuleRow(pk.k2) in t)
    && (forall pk :: Live(t, pk) && pk.itemType == DependsType && pk.k1 != pk.k2 ==>
          Live(t, ManagesRow(pk.k3, pk.k1)) && ModuleRow(pk.k1) in t && ModuleRow(pk.k2) in t)
  }

  lemma ManagedRowsAre(t: GraphTable, source: Key, row: (PrimaryKey, PrimaryKey))
    requires Sound(t) && source.SourceKey?
    ensures row in ManagedRows(t, source)
       <==> Live(t, row.1) && row.1.itemType == ManagesType && row.1.k1 == source && row.0 == ModuleRow(row.1.k2)
  {
  }

  lemma DependedRowsAre(t: GraphTable, mod: Key, row: (PrimaryKey, PrimaryKey))
    requires Sound(t)
    ensures row in DependedRows(t, mod)
       <==> Live(t, row.1) && row.1.itemType == DependsType && row.1.k1 == mod && row.1.k1 != row.1.k2
            && row.0 == ModuleRow(row.1.k2)
  {
  }

  lemma OwnedIsFound(t: GraphTable, source: Key, pk: PrimaryKey)
    requires Sound(t) && source.SourceKey? && Live(t, pk) && Owns(source, pk)
    ensures pk in CurrentKeys(t, source)
  {
    if pk.itemType == ManagesType {
      ManagedRowsAre(t, source, (ModuleRow(pk.k2), pk));
      assert (ModuleRow(pk.k2), pk) in ManagedRows(t, source);
    } else {
      var managed, depended := (ModuleRow(pk.k1), ManagesRow(source, pk.k1)), (ModuleRow(pk.k2), pk);
      ManagedRowsAre(t, source, managed);
      DependedRowsAre(t, pk.k1, depended);
      assert managed in ManagedRows(t, source) && depended in DependedRows(t, pk.k1);
      assert pk in DependedKeys(t, source, managed.0.k1);
    }
  }

  /** getCurrent never misses an edge its source owns, and finds no other edge. */
  lemma CurrentEdges(t: GraphTable, source: Key, pk: PrimaryKey)
    requires Sound(t) && source.SourceKey?
    ensures IsEdge(pk) ==> (pk in CurrentKeys(t, source) <==> Live(t, pk) && Owns(source, pk))
    ensures !IsEdge(pk) && pk in CurrentKeys(t, source) ==>
      pk.itemType == ModuleType || pk == PrimaryKey(SourceType, source, source, NoKey)
  {
    hide Sound, DependedKeys, ManagedRows;
    if Live(t, pk) && Owns(source, pk) { OwnedIsFound(t, source, pk); }
    forall row | row in ManagedRows(t, source) && pk in DependedKeys(t, source, row.0.k1)
      ensures pk.itemType == ModuleType || (Live(t, pk) && Owns(source, pk) && pk.itemType == DependsType)
    {
      FoundBelow(t, source, row.0.k1, pk);
    }
    forall row | row in ManagedRows(t, source)
      ensures row.0.itemType == ModuleType && Live(t, row.1) && row.1.itemType == ManagesType && row.1.k1 == source
    {
      ManagedRowsAre(t, source, row);
    }
  }

  lemma FoundBelow(t: GraphTable, source: Key, mod: Key, pk: PrimaryKey)
    requires Sound(t) && source.SourceKey? && pk in DependedKeys(t, source, mod)
    ensures pk.itemType == ModuleType || (Live(t, pk) && Owns(source, pk) && pk.itemType == DependsType)
  {
  }

  /** A run deletes exactly the visible edges of its source that are no longer declared. */
  lemma StaleIs(t: GraphTable, req: SourceRequest, pk: PrimaryKey)
    requires Sound(t)
    ensures pk in Stale(t, req) <==> Live(t, pk) && Owns(SourceKey(req.url), pk) && pk !in Proposed(req)
  {
    CurrentEdges(t, SourceKey(req.url), pk);
    SourceIsProposed(req);
  }

  lemma DeleteKeepsSound(t: GraphTable, req: SourceRequest)
    requires Sound(t)
    ensures Sound(AfterDelete(t, req))
  {
    var t' := AfterDelete(t, req);
    forall pk | pk in t' ensures pk in t && (t'[pk].deleted <==> t[pk].deleted || pk in Stale(t, req)) {}
    forall pk | pk in t && !IsEdge(pk) ensures !t'[pk].deleted { StaleIs(t, req, pk); }
    forall pk | Live(t', pk) && pk.itemType == DependsType && pk.k1 != pk.k2
      ensures Live(t', ManagesRow(pk.k3, pk.k1))
    {
      StaleIs(t, req, pk);
      StaleIs(t, req, ManagesRow(pk.k3, pk.k1));
      if pk in Proposed(req) { ProposedEdges(req, pk); }
    }
  }

  lemma PutKeepsSound(t: GraphTable, req: SourceRequest)
    requires Sound(t)
    ensures Sound(PutIndex(t, Proposed(req)))
  {
    var t' := PutIndex(t, Proposed(req));
    forall pk | pk in Proposed(req)
      ensures Shape(pk) && Fits(pk, Proposed(req)[pk])
      ensures pk.itemType == ManagesType ==> ModuleRow(pk.k2) in t'
      ensures pk.itemType == DependsType ==>
        Live(t', ManagesRow(pk.k3, pk.k1)) && ModuleRow(pk.k1) in t' && ModuleRow(pk.k2) in t'
    {
      ProposedEdges(req, pk);
    }
    forall pk | Live(t', pk) && pk.itemType == DependsType && pk.k1 != pk.k2 && pk !in Proposed(req)
      ensures Live(t', ManagesRow(pk.k3, pk.k1))
    {
      assert Live(t, pk);
    }
  }

  // ---- All runs ----

  /** A Track call either completes, or stops after its Delete transaction and before its Put transaction. */
  datatype Run = Completed(req: SourceRequest) | Stopped(req: SourceRequest)

  ghost function AfterRun(t: GraphTable, run: Run): GraphTable {
    match run
    case Completed(req) => Tracked(t, req)
    case Stopped(req) => AfterDelete(t, req)
  }

  ghost function AfterRuns(t: GraphTable, runs: seq<Run>): GraphTable {
    if runs == [] then t else AfterRun(AfterRuns(t, runs[..|runs| - 1]), runs[|runs| - 1])
  }

  /** Ownership holds in every store that Track calls produce from an empty one, stopped calls included. */
  lemma {:induction false} RunsKeepSound(runs: seq<Run>)
    ensures Sound(AfterRuns(map[], runs))
  {
    if runs != [] {
      var t, req := AfterRuns(map[], runs[..|runs| - 1]), runs[|runs| - 1].req;
      RunsKeepSound(runs[..|runs| - 1]);
      DeleteKeepsSound(t, req);
      PutKeepsSound(AfterDelete(t, req), req);
    }
  }

  // ---- One run ----

  /**
   After a run, the visible edges of its source are exactly the declared ones, everything declared is live
   with the declared data, and nothing that is not the source's own edge went away or changed undeclared.
   */
  lemma TrackIsExact(t: GraphTable, req: SourceRequest, pk: PrimaryKey)
    requires Sound(t)
    ensures Owns(SourceKey(req.url), pk) ==> (Live(Tracked(t, req), pk) <==> Declares(req, pk))
    ensures Declares(req, pk) ==>
      pk in Proposed(req) && Live(Tracked(t, req), pk) && Tracked(t, req)[pk].data == Proposed(req)[pk]
    ensures Declares(req, pk) ==> DeclaresLast(req, pk, Tracked(t, req)[pk].data)
    ensures Live(t, pk) && !Owns(SourceKey(req.url), pk) ==> Live(Tracked(t, req), pk)
    ensures !Declares(req, pk) && (pk in t || pk in Tracked(t, req)) && !Owns(SourceKey(req.url), pk)
        ==> pk in t && pk in Tracked(t, req) && Tracked(t, req)[pk] == t[pk]
  {
    hide Declares, DeclaresLast, Proposed, Stale;
    StaleIs(t, req, pk);
    ProposedKeys(req, pk);
    if pk in Proposed(req) { ProposedSays(req, pk, Proposed(req)[pk]); }
  }

  /** What a row holds after the run: what the request says last about it, or else what it held before. */
  ghost predicate IsDataOf(t: GraphTable, req: SourceRequest, pk: PrimaryKey, data: Message) {
    if Declares(req, pk) then DeclaresLast(req, pk, data) else pk in t && data == t[pk].data
  }

  lemma RowHoldsData(t: GraphTable, req: SourceRequest, pk: PrimaryKey)
    requires Sound(t) && pk in Tracked(t, req)
    ensures IsDataOf(t, req, pk, Tracked(t, req)[pk].data)
  {
    hide Sound, Declares, DeclaresLast, Proposed, Stale;
    TrackIsExact(t, req, pk);
    ProposedKeys(req, pk);
  }

  lemma NothingStale(t: GraphTable, req: SourceRequest)
    requires forall pk :: pk !in Stale(t, req)
    ensures AfterDelete(t, req) == t
  {
  }

  /** A run stopped between its transactions is made good by repeating it. */
  lemma RerunCompletes(t: GraphTable, req: SourceRequest)
    requires Sound(t)
    ensures Tracked(AfterDelete(t, req), req) == Tracked(t, req)
  {
    DeleteKeepsSound(t, req);
    forall pk ensures pk !in Stale(AfterDelete(t, req), req) {
      StaleIs(t, req, pk);
      StaleIs(AfterDelete(t, req), req, pk);
    }
    NothingStale(AfterDelete(t, req), req);
  }

  /** Repeating a completed run changes nothing. */
  lemma RerunIsNeutral(t: GraphTable, req: SourceRequest)
    requires Sound(t)
    ensures Tracked(Tracked(t, req), req) == Tracked(t, req)
  {
    DeleteKeepsSound(t, req);
    PutKeepsSound(AfterDelete(t, req), req);
    forall pk ensures pk !in Stale(Tracked(t, req), req) {
      StaleIs(Tracked(t, req), req, pk);
      TrackIsExact(t, req, pk);
      ProposedKeys(req, pk);
    }
    NothingStale(Tracked(t, req), req);
    PutIndexTwice(AfterDelete(t, req), Proposed(req));
  }

  // ---- Where reconciliation falls short ----

  predicate SelfDependency(source: Key, pk: PrimaryKey) {
    pk.itemType == DependsType && pk.k3 == source && pk.k1 == pk.k2
  }

  /**
   No run deletes a self-dependency. So all live depends edges of a source are declared ones after its run
   if and only if every self-dependency it had before is declared again.
   */
  lemma SelfDependenciesStay(t: GraphTable, req: SourceRequest)
    requires Sound(t)
    ensures (forall pk :: Live(Tracked(t, req), pk) && pk.itemType == DependsType && pk.k3 == SourceKey(req.url) ==>
      Declares(req, pk))
       <==> (forall pk :: Live(t, pk) && SelfDependency(SourceKey(req.url), pk) ==> Declares(req, pk))
  {
    forall pk
      ensures SelfDependency(SourceKey(req.url), pk) && !Declares(req, pk) ==>
        (Live(Tracked(t, req), pk) <==> Live(t, pk))
      ensures Owns(SourceKey(req.url), pk) && Live(Tracked(t, req), pk) ==> Declares(req, pk)
    {
      TrackIsExact(t, req, pk);
    }
    if forall pk :: Live(t, pk) && SelfDependency(SourceKey(req.url), pk) ==> Declares(req, pk) {
      forall pk | Live(Tracked(t, req), pk) && pk.itemType == DependsType && pk.k3 == SourceKey(req.url)
        ensures Declares(req, pk)
      {
        assert Owns(SourceKey(req.url), pk) || SelfDependency(SourceKey(req.url), pk);
      }
    }
  }

  lemma DroppedSelfDependency(t: GraphTable, first: SourceRequest, second: SourceRequest, pk: PrimaryKey)
    requires Sound(t) && Declares(first, pk) && SelfDependency(SourceKey(first.url), pk)
    ensures Live(Tracked(Tracked(t, first), second), pk)
  {
    DeleteKeepsSound(t, first);
    PutKeepsSound(AfterDelete(t, first), first);
    TrackIsExact(t, first, pk);
    TrackIsExact(Tracked(t, first), second, pk);
  }

  /** A module that depends on itself, tracked and then dropped from the source's files, keeps its edge. */
  lemma SelfDependencyWitness()
    ensures exists first: SourceRequest, second: SourceRequest, pk ::
      && first.url == second.url
      && SelfDependency(SourceKey(second.url), pk)
      && !Declares(second, pk)
      && Live(Tracked(Tracked(map[], first), second), pk)
  {
    hide Tracked, Sound;
    var dep := Dependency("o", "m", "n", "v", []);
    var file := ManagementFile("l", "s", "v", "", "o", "m", "n", [dep]);
    var first, second := SourceRequest("u", "k", "r", [file]), SourceRequest("u", "k", "r", []);
    var pk := PrimaryKey(DependsType, ModuleKey("l", "o", "m"), ModuleKey("l", "o", "m"), SourceKey("u"));
    assert Says(first, Place(0, 0), pk, Depends("l", "v", [], "r"));
    EmptyIsSound();
    DroppedSelfDependency(map[], first, second, pk);
    assert first.url == second.url && SelfDependency(SourceKey(second.url), pk) && !Declares(second, pk);
    assert Live(Tracked(Tracked(map[], first), second), pk);
  }

  lemma EmptyIsSound()
    ensures Sound(map[])
  {
  }
}
