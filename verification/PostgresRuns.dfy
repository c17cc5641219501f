/** Track runs on PostgreSQL, whose insert does not bring a deleted row back. */
module PostgresRuns {
  import opened SoftTable
  import opened GraphStoreV1Alpha
  import opened SourceService
  import opened Declarations
  import opened Reconciliation

  /** The PostgreSQL insert: on conflict it updates the data and leaves date_deleted as it is. */
  function PutIndexPostgres(t: GraphTable, idx: ItemIndex): GraphTable {
    map pk | pk in t.Keys + idx.Keys ::
      if pk in idx then Row(idx[pk], pk in t && t[pk].deleted) else t[pk]
  }

  ghost function TrackedPostgres(t: GraphTable, req: SourceRequest): GraphTable {
    PutIndexPostgres(AfterDelete(t, req), Proposed(req))
  }

  ghost function AfterRunPostgres(t: GraphTable, run: Run): GraphTable {
    match run
    case Completed(req) => TrackedPostgres(t, req)
    case Stopped(req) => AfterDelete(t, req)
  }

  ghost function AfterRunsPostgres(t: GraphTable, runs: seq<Run>): GraphTable {
    if runs == [] then t else AfterRunPostgres(AfterRunsPostgres(t, runs[..|runs| - 1]), runs[|runs| - 1])
  }

  ghost predicate Deleted(t: GraphTable, pk: PrimaryKey) {
    pk in t && t[pk].deleted
  }

  // ---- What is left of the invariant ----

  /**
   Live edges hang on module rows. That a live depends edge has a live manages edge of its owner does not stay true.
   */
  ghost predicate WellFormed(t: GraphTable) {
    && (forall pk :: pk in t ==> Shape(pk) && Fits(pk, t[pk].data))
    && (forall pk :: pk in t && !IsEdge(pk) ==> !t[pk].deleted)
    && (forall pk :: Live(t, pk) && pk.itemType == ManagesType ==> ModuleRow(pk.k2) in t)
    && (forall pk :: Live(t, pk) && pk.itemType == DependsType && pk.k1 != pk.k2 ==> ModuleRow(pk.k2) in t)
  }

  /** A live depends edge of the source that the walk does not reach: the manages edge to its module is not live. */
  ghost predicate IsOrphan(t: GraphTable, source: Key, pk: PrimaryKey) {
    Live(t, pk) && Owns(source, pk) && pk.itemType == DependsType && !Live(t, ManagesRow(source, pk.k1))
  }

  lemma ManagedRowIs(t: GraphTable, source: Key, row: (PrimaryKey, PrimaryKey))
    requires WellFormed(t) && source.SourceKey?
    ensures row in ManagedRows(t, source)
       <==> Live(t, row.1) && row.1.itemType == ManagesType && row.1.k1 == source && row.0 == ModuleRow(row.1.k2)
  {
  }

  lemma DependedRowIs(t: GraphTable, mod: Key, row: (PrimaryKey, PrimaryKey))
    requires WellFormed(t)
    ensures row in DependedRows(t, mod)
       <==> Live(t, row.1) && row.1.itemType == DependsType && row.1.k1 == mod && row.1.k1 != row.1.k2
            && row.0 == ModuleRow(row.1.k2)
  {
  }

  lemma OwnedIsReached(t: GraphTable, source: Key, pk: PrimaryKey)
    requires WellFormed(t) && source.SourceKey? && Live(t, pk) && Owns(source, pk) && !IsOrphan(t, source, pk)
    ensures pk in CurrentKeys(t, source)
  {
    hide WellFormed;
    if pk.itemType == ManagesType {
      ManagedRowIs(t, source, (ModuleRow(pk.k2), pk));
      assert (ModuleRow(pk.k2), pk) in ManagedRows(t, source);
    } else {
      var managed, depended := (ModuleRow(pk.k1), ManagesRow(source, pk.k1)), (ModuleRow(pk.k2), pk);
      ManagedRowIs(t, source, managed);
      DependedRowIs(t, pk.k1, depended);
      assert managed in ManagedRows(t, source) && depended in DependedRows(t, pk.k1);
      assert pk in DependedKeys(t, source, managed.0.k1);
    }
  }

  lemma DependedIsOwned(t: GraphTable, source: Key, mod: Key, pk: PrimaryKey)
    requires WellFormed(t) && IsEdge(pk) && pk in DependedKeys(t, source, mod)
    ensures Live(t, pk) && pk.itemType == DependsType && pk.k3 == source && pk.k1 == mod && pk.k1 != pk.k2
  {
  }

  lemma ReachedIsOwned(t: GraphTable, source: Key, pk: PrimaryKey)
    requires WellFormed(t) && source.SourceKey? && IsEdge(pk) && pk in CurrentKeys(t, source)
    ensures Live(t, pk) && Owns(source, pk) && !IsOrphan(t, source, pk)
  {
    hide WellFormed, DependedKeys, ManagedRows;
    forall row | row in ManagedRows(t, source)
      ensures Live(t, row.1) && row.1.itemType == ManagesType && row.1.k1 == source && row.0 == ModuleRow(row.1.k2)
      ensures row.1 == ManagesRow(source, row.0.k1)
    {
      ManagedRowIs(t, source, row);
      ManagesShape(t, row.1);
    }
    forall mod | pk in DependedKeys(t, source, mod)
      ensures Live(t, pk) && pk.itemType == DependsType && pk.k3 == source && pk.k1 == mod && pk.k1 != pk.k2
    {
      DependedIsOwned(t, source, mod, pk);
    }
  }

  lemma ManagesShape(t: GraphTable, pk: PrimaryKey)
    requires WellFormed(t) && Live(t, pk) && pk.itemType == ManagesType
    ensures pk == ManagesRow(pk.k1, pk.k2)
  {
  }

  lemma NodesFoundAreModules(t: GraphTable, source: Key, pk: PrimaryKey)
    requires pk in CurrentKeys(t, source) && !IsEdge(pk)
    ensures pk.itemType == ModuleType || pk == PrimaryKey(SourceType, source, source, NoKey)
  {
  }

  /** A run deletes the undeclared edges of its source, but for the orphans. */
  lemma StaleOnPostgres(t: GraphTable, req: SourceRequest, pk: PrimaryKey)
    requires WellFormed(t)
    ensures var source := SourceKey(req.url);
      pk in Stale(t, req) <==> Live(t, pk) && Owns(source, pk) && !IsOrphan(t, source, pk) && pk !in Proposed(req)
  {
    hide WellFormed, CurrentKeys, Proposed;
    var source := SourceKey(req.url);
    SourceIsProposed(req);
    if Live(t, pk) && Owns(source, pk) && !IsOrphan(t, source, pk) { OwnedIsReached(t, source, pk); }
    if pk in CurrentKeys(t, source) {
      if IsEdge(pk) { ReachedIsOwned(t, source, pk); } else { NodesFoundAreModules(t, source, pk); }
    }
  }

  lemma DeleteKeepsWellFormed(t: GraphTable, req: SourceRequest)
    requires WellFormed(t)
    ensures WellFormed(AfterDelete(t, req))
  {
    hide Stale, Proposed;
    forall pk | pk in t && !IsEdge(pk) ensures pk !in Stale(t, req) { StaleOnPostgres(t, req, pk); }
  }

  lemma PutKeepsWellFormed(t: GraphTable, req: SourceRequest)
    requires WellFormed(t)
    ensures WellFormed(PutIndexPostgres(t, Proposed(req)))
  {
    hide Proposed;
    var t' := PutIndexPostgres(t, Proposed(req));
    forall pk | pk in Proposed(req)
      ensures Shape(pk) && Fits(pk, Proposed(req)[pk])
      ensures IsEdge(pk) ==> ModuleRow(pk.k2) in t'
    {
      ProposedEdges(req, pk);
    }
  }

  /** In every store that PostgreSQL runs produce from an empty one, stopped runs included. */
  lemma {:induction false} RunsKeepWellFormed(runs: seq<Run>)
    ensures WellFormed(AfterRunsPostgres(map[], runs))
  {
    hide WellFormed, AfterDelete, Proposed;
    if runs == [] {
      assert WellFormed(map[]) by { EmptyIsWellFormed(); }
    } else {
      var t, req := AfterRunsPostgres(map[], runs[..|runs| - 1]), runs[|runs| - 1].req;
      RunsKeepWellFormed(runs[..|runs| - 1]);
      DeleteKeepsWellFormed(t, req);
      PutKeepsWellFormed(AfterDelete(t, req), req);
    }
  }

  lemma EmptyIsWellFormed()
    ensures WellFormed(map[])
  {
  }

  // ---- What runs achieve ----

  /** A row that has been deleted is deleted for ever, whatever is declared. */
  lemma {:induction false} NeverRevived(t: GraphTable, runs: seq<Run>, pk: PrimaryKey)
    requires Deleted(t, pk)
    ensures Deleted(AfterRunsPostgres(t, runs), pk)
  {
    hide Stale, Proposed;
    if runs != [] { NeverRevived(t, runs[..|runs| - 1], pk); }
  }

  lemma EdgeAfterRun(t: GraphTable, req: SourceRequest, pk: PrimaryKey)
    requires WellFormed(t)
    ensures Declares(req, pk) ==> (Live(TrackedPostgres(t, req), pk) <==> !Deleted(t, pk))
    ensures !Declares(req, pk) && Owns(SourceKey(req.url), pk) ==>
      (Live(TrackedPostgres(t, req), pk) <==> IsOrphan(t, SourceKey(req.url), pk))
  {
    hide WellFormed, Stale, Proposed, Declares, Owns;
    StaleOnPostgres(t, req, pk);
    ProposedKeys(req, pk);
  }

  /**
   After any runs, one more leaves as live edges of its source exactly the declared ones that no run has deleted, if and
   only if every orphan of the source is declared.
   */
  lemma RunIsExactIff(runs: seq<Run>, req: SourceRequest)
    ensures var t, source := AfterRunsPostgres(map[], runs), SourceKey(req.url);
      (forall pk :: Owns(source, pk) ==> (Live(TrackedPostgres(t, req), pk) <==> Declares(req, pk) && !Deleted(t, pk)))
      <==> (forall pk :: IsOrphan(t, source, pk) ==> Declares(req, pk))
  {
    hide AfterRunsPostgres, TrackedPostgres, Declares, Owns;
    var t, source := AfterRunsPostgres(map[], runs), SourceKey(req.url);
    RunsKeepWellFormed(runs);
    forall pk | Owns(source, pk)
      ensures (Live(TrackedPostgres(t, req), pk) <==> Declares(req, pk) && !Deleted(t, pk))
         <==> (IsOrphan(t, source, pk) ==> Declares(req, pk))
    {
      EdgeAfterRun(t, req, pk);
    }
  }

  /** On PostgreSQL a run makes everything it declares live if and only if none of it had been deleted before. */
  lemma PostgresRevivesNothing(t: GraphTable, req: SourceRequest)
    ensures (forall pk :: Declares(req, pk) ==> Live(TrackedPostgres(t, req), pk))
       <==> (forall pk :: Declares(req, pk) && pk in t ==> !t[pk].deleted)
  {
    forall pk
      ensures Declares(req, pk) ==> (Live(TrackedPostgres(t, req), pk) <==> pk !in t || !t[pk].deleted)
    {
      ProposedKeys(req, pk);
    }
  }

  // ---- Inputs on which it fails ----

  lemma DroppedOnPostgres(t: GraphTable, req: SourceRequest, pk: PrimaryKey)
    requires WellFormed(t) && Live(t, pk) && Owns(SourceKey(req.url), pk) && !Declares(req, pk)
    requires pk.itemType == ManagesType
    ensures Deleted(TrackedPostgres(t, req), pk)
  {
    hide WellFormed, Proposed, Stale;
    ProposedKeys(req, pk);
    StaleOnPostgres(t, req, pk);
  }

  lemma RunStep(runs: seq<Run>, req: SourceRequest)
    ensures AfterRunsPostgres(map[], runs + [Completed(req)]) == TrackedPostgres(AfterRunsPostgres(map[], runs), req)
  {
    assert (runs + [Completed(req)])[..|runs|] == runs;
  }

  function ManagedBy(req: SourceRequest, file: ManagementFile): PrimaryKey {
    ManagesRow(SourceKey(req.url), ModuleKey(file.language, file.organization, file.mod))
  }

  /** A module that is declared and dropped: from then on the edge from its source is deleted for ever. */
  lemma DeclaredAndDropped(first: SourceRequest, file: ManagementFile, second: SourceRequest)
    requires file in first.files && second.url == first.url && second.files == []
    ensures var runs := [Completed(first), Completed(second)];
      Deleted(AfterRunsPostgres(map[], runs), ManagedBy(first, file))
  {
    hide TrackedPostgres, WellFormed, AfterRunsPostgres;
    var pk := ManagedBy(first, file);
    ManagesIsDeclared(first, file);
    EmptyIsWellFormed();
    RunStep([], first);
    RunStep([Completed(first)], second);
    assert [] + [Completed(first)] == [Completed(first)];
    assert [Completed(first)] + [Completed(second)] == [Completed(first), Completed(second)];
    assert AfterRunsPostgres(map[], []) == map[] by { NoRuns(); }
    EdgeAfterRun(map[], first, pk);
    RunsKeepWellFormed([Completed(first)]);
    DroppedOnPostgres(AfterRunsPostgres(map[], [Completed(first)]), second, pk);
  }

  lemma NoRuns()
    ensures AfterRunsPostgres(map[], []) == map[]
  {
  }

  /** Declared, dropped and declared again: with the PostgreSQL insert the edge stays deleted. */
  lemma PostgresWitness()
    ensures exists first: SourceRequest, second: SourceRequest, pk ::
      && first.url == second.url
      && Declares(first, pk)
      && !Live(AfterRunsPostgres(map[], [Completed(first), Completed(second), Completed(first)]), pk)
  {
    hide TrackedPostgres, AfterRunsPostgres, Declares;
    var file := ManagementFile("l", "s", "v", "", "o", "m", "n", []);
    var first, second := SourceRequest("u", "k", "r", [file]), SourceRequest("u", "k", "r", []);
    var pk := ManagedBy(first, file);
    ManagesIsDeclared(first, file);
    DeclaredAndDropped(first, file, second);
    var runs := [Completed(first), Completed(second)];
    RunStep(runs, first);
    assert runs + [Completed(first)] == [Completed(first), Completed(second), Completed(first)];
    RunsKeepWellFormed(runs);
    EdgeAfterRun(AfterRunsPostgres(map[], runs), first, pk);
  }

  lemma {:induction false} RowsAreDeclared(runs: seq<Run>, pk: PrimaryKey)
    ensures pk in AfterRunsPostgres(map[], runs) ==> exists run :: run in runs && Declares(run.req, pk)
  {
    hide Stale, Proposed, Declares;
    if runs != [] {
      var last := runs[|runs| - 1];
      RowsAreDeclared(runs[..|runs| - 1], pk);
      ProposedKeys(last.req, pk);
      assert last in runs && forall run :: run in runs[..|runs| - 1] ==> run in runs;
    }
  }

  lemma DependsDeclared(req: SourceRequest, file: ManagementFile, dep: Dependency, without: SourceRequest)
    requires file in req.files && dep in file.dependencies
    requires forall other :: other in without.files ==> other.dependencies == []
    ensures Declares(req, DependsRow(req, file, dep)) && !Declares(without, DependsRow(req, file, dep))
  {
    DependsIsDeclared(req, file, dep);
  }

  /**
   A module declared, dropped, declared again with a dependency: the dependency is live and hangs on a deleted edge.
   Once the module is dropped again, the dependency stays, declared by nobody and never deleted.
   */
  lemma OrphanWitness()
    ensures exists runs, req: SourceRequest, pk ::
      IsOrphan(AfterRunsPostgres(map[], runs), SourceKey(req.url), pk) && !Declares(req, pk)
  {
    hide TrackedPostgres, AfterRunsPostgres, Declares, WellFormed;
    var dep := Dependency("o", "d", "", "v", []);
    var file := ManagementFile("l", "s", "v", "", "o", "m", "n", []);
    var again := file.(dependencies := [dep]);
    var first, second, third :=
      SourceRequest("u", "k", "r", [file]), SourceRequest("u", "k", "r", []), SourceRequest("u", "k", "r", [again]);
    var runs, manages, pk :=
      [Completed(first), Completed(second)], ManagedBy(first, file), DependsRow(third, again, dep);
    DeclaredAndDropped(first, file, second);
    DependsDeclared(third, again, dep, first);
    DependsDeclared(third, again, dep, second);
    RunsKeepWellFormed(runs);
    RowsAreDeclared(runs, pk);
    EdgeAfterRun(AfterRunsPostgres(map[], runs), third, pk);
    StaysDeleted(runs, third, manages);
    RunStep(runs, third);
    assert IsOrphan(AfterRunsPostgres(map[], runs + [Completed(third)]), SourceKey(second.url), pk);
  }

  lemma StaysDeleted(runs: seq<Run>, req: SourceRequest, pk: PrimaryKey)
    requires Deleted(AfterRunsPostgres(map[], runs), pk)
    ensures Deleted(TrackedPostgres(AfterRunsPostgres(map[], runs), req), pk)
  {
    hide Stale, Proposed;
  }
}
