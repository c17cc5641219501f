/** The v1alpha source service: reconciling what a source declares with what the graph store holds for it. */
module SourceService {
  import opened Collections
  import opened SoftTable
  import opened GraphStoreV1Alpha

  datatype Dependency = Dependency(organization: string, mod: string, name: string,
                                   versionConstraint: string, scopes: seq<string>)

  datatype ManagementFile = ManagementFile(language: string, system: string, version: string, sourceUrl: string,
                                           organization: string, mod: string, name: string,
                                           dependencies: seq<Dependency>)

  datatype SourceRequest = SourceRequest(url: string, kind: string, ref: string, files: seq<ManagementFile>)

  /** The graph item of a node message. Edges get their end points from the caller, see `Edge`. */
  function Node(msg: Message): GraphItem
    requires msg.Source? || msg.Module?
  {
    match msg
    case Source(url, _, _) => Item(PrimaryKey(SourceType, SourceKey(url), SourceKey(url), NoKey), msg)
    case Module(l, o, m, _) => Item(PrimaryKey(ModuleType, ModuleKey(l, o, m), ModuleKey(l, o, m), NoKey), msg)
  }

  function Edge(msg: Message, k1: Key, k2: Key, k3: Key): GraphItem
    requires msg.Manages? || msg.Depends?
  {
    Item(PrimaryKey(if msg.Manages? then ManagesType else DependsType, k1, k2, k3), msg)
  }

  function SourceItem(req: SourceRequest): GraphItem {
    Node(Source(req.url, req.kind, req.ref))
  }

  function DiscoveredSource(file: ManagementFile): GraphItem {
    Node(Source(file.sourceUrl, "repository", ""))
  }

  function ManagedModule(file: ManagementFile): GraphItem {
    Node(Module(file.language, file.organization, file.mod, file.name))
  }

  function DependedModule(file: ManagementFile, dep: Dependency): GraphItem {
    Node(Module(file.language, dep.organization, dep.mod, dep.name))
  }

  function ManagesItem(file: ManagementFile, source: Key): GraphItem {
    Edge(Manages(file.language, file.system, file.version), source, ManagedModule(file).key.k1, NoKey)
  }

  function DependsItem(req: SourceRequest, file: ManagementFile, dep: Dependency): GraphItem {
    Edge(Depends(file.language, dep.versionConstraint, dep.scopes, req.ref),
         ManagedModule(file).key.k1, DependedModule(file, dep).key.k1, SourceKey(req.url))
  }

  // ---- The proposed set ----

  function Add(idx: ItemIndex, item: GraphItem): ItemIndex {
    idx[item.key := item.data]
  }

  function AddDependencies(idx: ItemIndex, req: SourceRequest, file: ManagementFile, n: nat): ItemIndex
    requires n <= |file.dependencies|
  {
    if n == 0 then idx else
      var dep := file.dependencies[n - 1];
      Add(Add(AddDependencies(idx, req, file, n - 1), DependedModule(file, dep)), DependsItem(req, file, dep))
  }

  function AddFile(idx: ItemIndex, req: SourceRequest, file: ManagementFile): ItemIndex {
    var managed := Add(Add(idx, ManagedModule(file)), ManagesItem(file, SourceKey(req.url)));
    var discovered :=
      if file.sourceUrl == "" then managed
      else Add(Add(managed, DiscoveredSource(file)), ManagesItem(file, SourceKey(file.sourceUrl)));
    AddDependencies(discovered, req, file, |file.dependencies|)
  }

  function AddFiles(req: SourceRequest, n: nat): ItemIndex
    requires n <= |req.files|
  {
    if n == 0 then Add(map[], SourceItem(req)) else AddFile(AddFiles(req, n - 1), req, req.files[n - 1])
  }

  function Proposed(req: SourceRequest): ItemIndex {
    AddFiles(req, |req.files|)
  }

  // ---- The current set ----

  function ManagedRows(t: GraphTable, source: Key): set<(PrimaryKey, PrimaryKey)> {
    UpstreamRows(t, {source}, ManagesType, ModuleType)
  }

  function DependedRows(t: GraphTable, mod: Key): set<(PrimaryKey, PrimaryKey)> {
    UpstreamRows(t, {mod}, DependsType, ModuleType)
  }

  /** The depends edges that getCurrent attributes to the source. */
  predicate Attributed(pk: PrimaryKey, source: Key) {
    pk.k3 == NoKey || pk.k3 == source
  }

  /** The keys that the walk from the source finds below one managed module. */
  ghost function DependedKeys(t: GraphTable, source: Key, mod: Key): set<PrimaryKey> {
    (set row | row in DependedRows(t, mod) && Attributed(row.1, source) :: NodeKey(row.0)) +
    (set row | row in DependedRows(t, mod) && Attributed(row.1, source) :: row.1)
  }

  /** The keys of everything the walk from the source finds. */
  ghost function CurrentKeys(t: GraphTable, source: Key): set<PrimaryKey> {
    {PrimaryKey(SourceType, source, source, NoKey)} +
    (set row | row in ManagedRows(t, source) :: NodeKey(row.0)) +
    (set row | row in ManagedRows(t, source) :: row.1) +
    (set row, pk | row in ManagedRows(t, source) && pk in DependedKeys(t, source, row.0.k1) :: pk)
  }

  /** What a Track run deletes: found, not proposed, and not a module. */
  ghost function Stale(t: GraphTable, req: SourceRequest): set<PrimaryKey> {
    set pk | pk in CurrentKeys(t, SourceKey(req.url)) && pk !in Proposed(req) && pk.itemType != ModuleType
  }

  /** The table once the Delete transaction of a Track run has committed. */
  ghost function AfterDelete(t: GraphTable, req: SourceRequest): GraphTable {
    DeleteKeys(t, Stale(t, req))
  }

  /** The table after a whole Track run. */
  ghost function Tracked(t: GraphTable, req: SourceRequest): GraphTable {
    PutIndex(AfterDelete(t, req), Proposed(req))
  }

  class Service {
    const gs: GraphStore

    constructor (gs: GraphStore)
      ensures this.gs == gs
    {
      this.gs := gs;
    }

    /** Walks from the source over its managed modules to the depends edges it owns. */
    method GetCurrent(source: GraphItem) returns (idx: ItemIndex)
      requires source.key.itemType == SourceType && source.key.k1 == source.key.k2 && source.key.k3 == NoKey
      ensures idx.Keys == CurrentKeys(gs.table, source.key.k1)
    {
      hide WalkedKeys, CurrentKeys, DependedKeys;
      var sourceKey := source.key.k1;
      idx := map[source.key := source.data];
      WalkedKeysStart(gs.table, sourceKey);
      var manages, rows := gs.FindUpstream({sourceKey}, ManagesType, ModuleType);
      for i := 0 to |manages|
        invariant idx.Keys == WalkedKeys(gs.table, sourceKey, rows[..i])
      {
        var managed := manages[i];
        idx := idx[managed.node.key := managed.node.data][managed.edge.key := managed.edge.data];
        idx := AddDepended(idx, sourceKey, managed.node.key.k1);
        assert rows[..i + 1] == rows[..i] + [rows[i]];
        WalkedKeysStep(gs.table, sourceKey, rows[..i], rows[i]);
      }
      assert rows[..|manages|] == rows;
      WalkedKeysAll(gs.table, sourceKey, rows);
    }

    /** The inner loop of the walk: the modules one managed module depends on, for this source. */
    method AddDepended(current: ItemIndex, sourceKey: Key, mod: Key) returns (idx: ItemIndex)
      ensures idx.Keys == current.Keys + DependedKeys(gs.table, sourceKey, mod)
    {
      hide Attributed, DependedKeys, AttributedKeys, Enumerates, UpstreamRows;
      idx := current;
      var depends, rows := gs.FindUpstream({mod}, DependsType, ModuleType);
      AttributedKeysNone(sourceKey);
      for j := 0 to |depends|
        invariant idx.Keys == current.Keys + AttributedKeys(sourceKey, rows[..j])
      {
        var depended := depends[j];
        assert rows[..j + 1] == rows[..j] + [rows[j]];
        AttributedKeysStep(sourceKey, rows[..j], rows[j]);
        if Attributed(depended.edge.key, sourceKey) {
          idx := idx[depended.node.key := depended.node.data][depended.edge.key := depended.edge.data];
        }
      }
      assert rows[..|depends|] == rows;
      AttributedKeysAll(gs.table, sourceKey, mod, rows);
    }

    method GetProposed(req: SourceRequest) returns (idx: ItemIndex)
      ensures idx == Proposed(req)
    {
      var source := SourceItem(req);
      idx := map[source.key := source.data];
      for i := 0 to |req.files|
        invariant idx == AddFiles(req, i)
      {
        var file := req.files[i];
        var managedModule := ManagedModule(file);
        var manages := ManagesItem(file, source.key.k1);
        idx := idx[managedModule.key := managedModule.data];
        idx := idx[manages.key := manages.data];
        if file.sourceUrl != "" {
          var discoveredSource := DiscoveredSource(file);
          var discoveredManages := ManagesItem(file, discoveredSource.key.k1);
          idx := idx[discoveredSource.key := discoveredSource.data];
          idx := idx[discoveredManages.key := discoveredManages.data];
        }
        ghost var before := idx;
        for j := 0 to |file.dependencies|
          invariant idx == AddDependencies(before, req, file, j)
        {
          var dependedModule := DependedModule(file, file.dependencies[j]);
          var depends := DependsItem(req, file, file.dependencies[j]);
          idx := idx[dependedModule.key := dependedModule.data];
          idx := idx[depends.key := depends.data];
        }
      }
    }

    /** Reads what the source owns, deletes what it no longer declares, then puts what it declares. */
    method Track(req: SourceRequest)
      modifies gs
      ensures gs.table == Tracked(old(gs.table), req)
    {
      var currentSet := GetCurrent(SourceItem(req));
      var proposedSet := GetProposed(req);
      var toDelete := DiffItems(currentSet, proposedSet);
      var toPut := AllItems(proposedSet);
      gs.Delete(toDelete);
      gs.Put(toPut);
      DeleteRowsOfKeys(old(gs.table), toDelete);
      assert ItemKeys(toDelete) == Stale(old(gs.table), req);
      PutRowsOfIndex(AfterDelete(old(gs.table), req), toPut, proposedSet);
    }

    /** The items of the current set that are neither proposed nor modules. */
    method DiffItems(current: ItemIndex, proposed: ItemIndex) returns (items: seq<GraphItem>)
      ensures ItemKeys(items) == set pk | pk in current && pk !in proposed && pk.itemType != ModuleType
    {
      var keys := SetToSeq(current.Keys);
      items := [];
      for i := 0 to |keys|
        invariant ItemKeys(items) == set pk | pk in keys[..i] && pk !in proposed && pk.itemType != ModuleType
      {
        var pk := keys[i];
        assert keys[..i + 1] == keys[..i] + [pk];
        if pk !in proposed && pk.itemType != ModuleType {
          ItemKeysAppend(items, Item(pk, current[pk]));
          items := items + [Item(pk, current[pk])];
        }
      }
      assert keys[..|keys|] == keys;
    }

    method AllItems(idx: ItemIndex) returns (items: seq<GraphItem>)
      ensures ListsIndex(items, idx)
    {
      var keys := SetToSeq(idx.Keys);
      items := [];
      for i := 0 to |keys|
        invariant |items| == i
        invariant forall j :: 0 <= j < i ==> items[j] == Item(keys[j], idx[keys[j]])
      {
        items := items + [Item(keys[i], idx[keys[i]])];
      }
    }
  }

  // ---- The keys found after part of the walk ----

  ghost function AttributedKeys(source: Key, rows: seq<(PrimaryKey, PrimaryKey)>): set<PrimaryKey> {
    (set row | row in rows && Attributed(row.1, source) :: NodeKey(row.0)) +
    (set row | row in rows && Attributed(row.1, source) :: row.1)
  }

  lemma AttributedKeysNone(source: Key)
    ensures AttributedKeys(source, []) == {}
  {
  }

  lemma AttributedKeysStep(source: Key, rows: seq<(PrimaryKey, PrimaryKey)>, row: (PrimaryKey, PrimaryKey))
    ensures AttributedKeys(source, rows + [row])
         == AttributedKeys(source, rows) + if Attributed(row.1, source) then {NodeKey(row.0), row.1} else {}
  {
    var more := rows + [row];
    assert forall r :: r in more <==> r in rows || r == row;
  }

  lemma AttributedKeysAll(t: GraphTable, source: Key, mod: Key, rows: seq<(PrimaryKey, PrimaryKey)>)
    requires Enumerates(rows, DependedRows(t, mod))
    ensures AttributedKeys(source, rows) == DependedKeys(t, source, mod)
  {
    assert forall row :: row in rows <==> row in DependedRows(t, mod);
  }

  /** What the inner loop finds below the managed modules seen so far. */
  ghost function BelowKeys(t: GraphTable, source: Key, rows: seq<(PrimaryKey, PrimaryKey)>): set<PrimaryKey> {
    set row, pk | row in rows && pk in DependedKeys(t, source, row.0.k1) :: pk
  }

  ghost function WalkedKeys(t: GraphTable, source: Key, rows: seq<(PrimaryKey, PrimaryKey)>): set<PrimaryKey> {
    {PrimaryKey(SourceType, source, source, NoKey)} +
    (set row | row in rows :: NodeKey(row.0)) +
    (set row | row in rows :: row.1) +
    BelowKeys(t, source, rows)
  }

  lemma WalkedKeysStart(t: GraphTable, source: Key)
    ensures WalkedKeys(t, source, []) == {PrimaryKey(SourceType, source, source, NoKey)}
  {
  }

  lemma BelowKeysStep(t: GraphTable, source: Key, rows: seq<(PrimaryKey, PrimaryKey)>, row: (PrimaryKey, PrimaryKey))
    ensures BelowKeys(t, source, rows + [row]) == BelowKeys(t, source, rows) + DependedKeys(t, source, row.0.k1)
  {
    assert row in rows + [row];
    forall pk | pk in BelowKeys(t, source, rows) ensures pk in BelowKeys(t, source, rows + [row]) {
      var r :| r in rows && pk in DependedKeys(t, source, r.0.k1);
      assert r in rows + [row];
    }
  }

  lemma WalkedKeysStep(t: GraphTable, source: Key, rows: seq<(PrimaryKey, PrimaryKey)>, row: (PrimaryKey, PrimaryKey))
    ensures WalkedKeys(t, source, rows + [row])
         == WalkedKeys(t, source, rows) + {NodeKey(row.0), row.1} + DependedKeys(t, source, row.0.k1)
  {
    BelowKeysStep(t, source, rows, row);
    assert forall r :: r in rows + [row] <==> r in rows || r == row;
  }

  lemma WalkedKeysAll(t: GraphTable, source: Key, rows: seq<(PrimaryKey, PrimaryKey)>)
    requires Enumerates(rows, ManagedRows(t, source))
    ensures WalkedKeys(t, source, rows) == CurrentKeys(t, source)
  {
    assert forall row :: row in rows <==> row in ManagedRows(t, source);
  }
}
