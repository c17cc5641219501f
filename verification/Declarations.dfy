/**
 What a v1alpha request declares, written out key by key and field by field, and that getProposed builds just this:
 where a request says several things about one key, what it says last.
 */
module Declarations {
  import opened Places
  import opened GraphStoreV1Alpha
  import opened SourceService

  /** What a management file says itself: its module, who manages it, and the source it names. */
  ghost predicate FileSays(req: SourceRequest, file: ManagementFile, pk: PrimaryKey, data: Message) {
    var mod := ModuleKey(file.language, file.organization, file.mod);
    match pk.itemType
    case ModuleType =>
      && pk == PrimaryKey(ModuleType, mod, mod, NoKey)
      && data == Module(file.language, file.organization, file.mod, file.name)
    case ManagesType =>
      && (pk.k1 == SourceKey(req.url) || (file.sourceUrl != "" && pk.k1 == SourceKey(file.sourceUrl)))
      && pk == PrimaryKey(ManagesType, pk.k1, mod, NoKey)
      && data == Manages(file.language, file.system, file.version)
    case SourceType =>
      && file.sourceUrl != ""
      && pk == PrimaryKey(SourceType, SourceKey(file.sourceUrl), SourceKey(file.sourceUrl), NoKey)
      && data == Source(file.sourceUrl, "repository", "")
    case DependsType => false
  }

  /** What a dependency in a file says: the module depended on, and the edge to it from the file's module. */
  ghost predicate DependencySays(req: SourceRequest, file: ManagementFile, dep: Dependency, pk: PrimaryKey,
                                 data: Message) {
    var mod := ModuleKey(file.language, dep.organization, dep.mod);
    match pk.itemType
    case ModuleType =>
      && pk == PrimaryKey(ModuleType, mod, mod, NoKey)
      && data == Module(file.language, dep.organization, dep.mod, dep.name)
    case DependsType =>
      && pk == PrimaryKey(DependsType, ModuleKey(file.language, file.organization, file.mod), mod, SourceKey(req.url))
      && data == Depends(file.language, dep.versionConstraint, dep.scopes, req.ref)
    case _ => false
  }

  /** The request names its source before everything else, and each file comes before its dependencies. */
  ghost predicate Says(req: SourceRequest, p: Place, pk: PrimaryKey, data: Message) {
    if p == Place(-1, -1) then
      && pk == PrimaryKey(SourceType, SourceKey(req.url), SourceKey(req.url), NoKey)
      && data == Source(req.url, req.kind, req.ref)
    else
      && 0 <= p.file < |req.files|
      && (p.pos == -1 ==> FileSays(req, req.files[p.file], pk, data))
      && (p.pos != -1 ==>
            && 0 <= p.pos < |req.files[p.file].dependencies|
            && DependencySays(req, req.files[p.file], req.files[p.file].dependencies[p.pos], pk, data))
  }

  ghost function Sayings(req: SourceRequest): Saying<PrimaryKey, Message> {
    (p, pk, data) => Says(req, p, pk, data)
  }

  ghost predicate Declares(req: SourceRequest, pk: PrimaryKey) {
    exists p, data :: Says(req, p, pk, data)
  }

  /** Of all that the request says about this key, `data` is what it says last. */
  ghost predicate DeclaresLast(req: SourceRequest, pk: PrimaryKey, data: Message) {
    exists p :: Says(req, p, pk, data) && forall q, d :: Before(p, q) ==> !Says(req, q, pk, d)
  }

  /** What a file and its dependencies declare. */
  ghost predicate DeclaredBy(req: SourceRequest, file: ManagementFile, pk: PrimaryKey) {
    || (exists data :: FileSays(req, file, pk, data))
    || (exists dep, data :: dep in file.dependencies && DependencySays(req, file, dep, pk, data))
  }

  lemma DeclaredByFiles(req: SourceRequest, pk: PrimaryKey)
    ensures Declares(req, pk)
       <==> pk == PrimaryKey(SourceType, SourceKey(req.url), SourceKey(req.url), NoKey)
            || exists file :: file in req.files && DeclaredBy(req, file, pk)
  {
    hide FileSays, DependencySays;
    if Declares(req, pk) {
      var p, data :| Says(req, p, pk, data);
      if p != Place(-1, -1) { assert req.files[p.file] in req.files && DeclaredBy(req, req.files[p.file], pk); }
    }
    if pk == PrimaryKey(SourceType, SourceKey(req.url), SourceKey(req.url), NoKey) {
      assert Says(req, Place(-1, -1), pk, Source(req.url, req.kind, req.ref));
    }
    forall file | file in req.files && DeclaredBy(req, file, pk) ensures Declares(req, pk) {
      var i :| 0 <= i < |req.files| && req.files[i] == file;
      if data :| FileSays(req, file, pk, data) {
        assert Says(req, Place(i, -1), pk, data);
      } else {
        var dep, data :| dep in file.dependencies && DependencySays(req, file, dep, pk, data);
        var j :| 0 <= j < |file.dependencies| && file.dependencies[j] == dep;
        assert Says(req, Place(i, j), pk, data);
      }
    }
  }

  lemma ManagesIsDeclared(req: SourceRequest, file: ManagementFile)
    requires file in req.files
    ensures var mod := ModuleKey(file.language, file.organization, file.mod);
      Declares(req, PrimaryKey(ManagesType, SourceKey(req.url), mod, NoKey))
  {
    var mod := ModuleKey(file.language, file.organization, file.mod);
    var pk := PrimaryKey(ManagesType, SourceKey(req.url), mod, NoKey);
    assert FileSays(req, file, pk, Manages(file.language, file.system, file.version));
    DeclaredByFiles(req, pk);
  }

  /** The primary key of the edge to a dependency. */
  function DependsRow(req: SourceRequest, file: ManagementFile, dep: Dependency): PrimaryKey {
    PrimaryKey(DependsType, ModuleKey(file.language, file.organization, file.mod),
               ModuleKey(file.language, dep.organization, dep.mod), SourceKey(req.url))
  }

  lemma DependsIsDeclared(req: SourceRequest, file: ManagementFile, dep: Dependency)
    requires file in req.files && dep in file.dependencies
    ensures Declares(req, DependsRow(req, file, dep))
  {
    var data := Depends(file.language, dep.versionConstraint, dep.scopes, req.ref);
    assert DependencySays(req, file, dep, DependsRow(req, file, dep), data);
    DeclaredByFiles(req, DependsRow(req, file, dep));
  }

  // ---- getProposed ----

  lemma SourceHolds(req: SourceRequest)
    ensures Holds(AddFiles(req, 0), Sayings(req), Place(0, -1))
  {
    var says, source := Sayings(req), SourceItem(req);
    NothingSaid(says, Place(-1, -1));
    Step(map[], says, Place(-1, -1), map[source.key := source.data]);
    assert map[] + map[source.key := source.data] == AddFiles(req, 0);
    Skip(AddFiles(req, 0), says, Place(-1, 0), Place(0, -1));
  }

  /** What getProposed adds for a file itself. */
  function FileItems(req: SourceRequest, file: ManagementFile): ItemIndex {
    var managed := Add(Add(map[], ManagedModule(file)), ManagesItem(file, SourceKey(req.url)));
    if file.sourceUrl == "" then managed
    else Add(Add(managed, DiscoveredSource(file)), ManagesItem(file, SourceKey(file.sourceUrl)))
  }

  lemma FileItemsAre(req: SourceRequest, i: nat)
    requires i < |req.files|
    ensures HoldsAt(FileItems(req, req.files[i]), Sayings(req), Place(i, -1))
  {
  }

  lemma FileHolds(idx: ItemIndex, req: SourceRequest, i: nat)
    requires i < |req.files| && Holds(idx, Sayings(req), Place(i, -1))
    ensures Holds(idx + FileItems(req, req.files[i]), Sayings(req), Place(i, 0))
  {
    FileItemsAre(req, i);
    Step(idx, Sayings(req), Place(i, -1), FileItems(req, req.files[i]));
  }

  function DependencyPair(req: SourceRequest, file: ManagementFile, dep: Dependency): ItemIndex {
    Add(Add(map[], DependedModule(file, dep)), DependsItem(req, file, dep))
  }

  lemma DependencyPairIs(req: SourceRequest, i: nat, j: nat)
    requires i < |req.files| && j < |req.files[i].dependencies|
    ensures HoldsAt(DependencyPair(req, req.files[i], req.files[i].dependencies[j]), Sayings(req), Place(i, j))
  {
  }

  lemma {:induction false} DependenciesHold(idx: ItemIndex, req: SourceRequest, i: nat, n: nat)
    requires i < |req.files| && n <= |req.files[i].dependencies| && Holds(idx, Sayings(req), Place(i, 0))
    ensures Holds(AddDependencies(idx, req, req.files[i], n), Sayings(req), Place(i, n))
  {
    if n > 0 {
      hide Holds, HoldsAt, Sayings, DependedModule, DependsItem;
      var file, dep := req.files[i], req.files[i].dependencies[n - 1];
      var before := AddDependencies(idx, req, file, n - 1);
      DependenciesHold(idx, req, i, n - 1);
      DependencyPairIs(req, i, n - 1);
      Step(before, Sayings(req), Place(i, n - 1), DependencyPair(req, file, dep));
      AddPair(before, req, file, dep);
    }
  }

  lemma AddPair(idx: ItemIndex, req: SourceRequest, file: ManagementFile, dep: Dependency)
    ensures idx + DependencyPair(req, file, dep)
         == Add(Add(idx, DependedModule(file, dep)), DependsItem(req, file, dep))
  {
    hide DependedModule, DependsItem;
  }

  lemma AddFileIs(idx: ItemIndex, req: SourceRequest, file: ManagementFile)
    ensures AddFile(idx, req, file)
         == AddDependencies(idx + FileItems(req, file), req, file, |file.dependencies|)
  {
    hide AddDependencies, ManagedModule, ManagesItem, DiscoveredSource;
    var managed := Add(Add(idx, ManagedModule(file)), ManagesItem(file, SourceKey(req.url)));
    var discovered :=
      if file.sourceUrl == "" then managed
      else Add(Add(managed, DiscoveredSource(file)), ManagesItem(file, SourceKey(file.sourceUrl)));
    assert discovered == idx + FileItems(req, file);
  }

  lemma FileIsOver(idx: ItemIndex, req: SourceRequest, i: nat)
    requires i < |req.files| && Holds(idx, Sayings(req), Place(i, |req.files[i].dependencies|))
    ensures Holds(idx, Sayings(req), Place(i + 1, -1))
  {
    Skip(idx, Sayings(req), Place(i, |req.files[i].dependencies|), Place(i + 1, -1));
  }

  lemma NextFileHolds(idx: ItemIndex, req: SourceRequest, i: nat)
    requires i < |req.files| && Holds(idx, Sayings(req), Place(i, -1))
    ensures Holds(AddFile(idx, req, req.files[i]), Sayings(req), Place(i + 1, -1))
  {
    hide Holds, AddDependencies, FileItems, AddFile, Sayings;
    var file := req.files[i];
    FileHolds(idx, req, i);
    DependenciesHold(idx + FileItems(req, file), req, i, |file.dependencies|);
    AddFileIs(idx, req, file);
    FileIsOver(AddFile(idx, req, file), req, i);
  }

  lemma {:induction false} FilesHold(req: SourceRequest, n: nat)
    requires n <= |req.files|
    ensures Holds(AddFiles(req, n), Sayings(req), Place(n, -1))
  {
    if n == 0 {
      SourceHolds(req);
    } else {
      hide Holds, AddFile, Sayings, Add, SourceItem, SaidUpTo, LastUpTo;
      FilesHold(req, n - 1);
      NextFileHolds(AddFiles(req, n - 1), req, n - 1);
    }
  }

  lemma SaidIsDeclared(req: SourceRequest, pk: PrimaryKey, data: Message)
    ensures SaidUpTo(Sayings(req), Place(|req.files|, -1), pk) <==> Declares(req, pk)
    ensures LastUpTo(Sayings(req), Place(|req.files|, -1), pk, data) <==> DeclaresLast(req, pk, data)
  {
    hide FileSays, DependencySays;
    var says, end := Sayings(req), Place(|req.files|, -1);
    forall p, k, d ensures says(p, k, d) <==> Says(req, p, k, d) && Before(p, end) {}
    if Declares(req, pk) {
      var p, d :| Says(req, p, pk, d);
      assert says(p, pk, d);
    }
    if DeclaresLast(req, pk, data) {
      var p :| Says(req, p, pk, data) && forall q, d :: Before(p, q) ==> !Says(req, q, pk, d);
      assert says(p, pk, data);
      assert IsLast(says, end, pk, data, p);
    }
    if LastUpTo(says, end, pk, data) {
      var p :| IsLast(says, end, pk, data, p);
      forall q, d | Before(p, q) ensures !Says(req, q, pk, d) { assert says(q, pk, d) <==> Says(req, q, pk, d); }
      assert Says(req, p, pk, data);
    }
  }

  /** getProposed builds exactly what the request declares: for each key what is said last about it. */
  lemma ProposedSays(req: SourceRequest, pk: PrimaryKey, data: Message)
    ensures pk in Proposed(req) && Proposed(req)[pk] == data <==> DeclaresLast(req, pk, data)
    ensures pk in Proposed(req) <==> Declares(req, pk)
  {
    hide Declares, DeclaresLast, SaidUpTo, LastUpTo;
    FilesHold(req, |req.files|);
    SaidIsDeclared(req, pk, data);
  }

  lemma ProposedKeys(req: SourceRequest, pk: PrimaryKey)
    ensures pk in Proposed(req) <==> Declares(req, pk)
  {
    ProposedSays(req, pk, Source("", "", ""));
  }

  // ---- Where a request overrides itself ----

  /** Some file names the request's own source, and so says that it is a repository without a ref. */
  predicate NamesItself(req: SourceRequest) {
    req.url != "" && exists i :: 0 <= i < |req.files| && req.files[i].sourceUrl == req.url
  }

  lemma SaidOfSource(req: SourceRequest, p: Place, data: Message)
    requires Says(req, p, PrimaryKey(SourceType, SourceKey(req.url), SourceKey(req.url), NoKey), data)
    ensures p == Place(-1, -1)
      || (data == Source(req.url, "repository", "") && NamesItself(req) && p.pos == -1 && 0 <= p.file < |req.files|)
  {
  }

  /** The kind and the ref of the request are proposed if and only if no file names its source with other ones. */
  lemma SourceKeptIff(req: SourceRequest)
    ensures var pk := PrimaryKey(SourceType, SourceKey(req.url), SourceKey(req.url), NoKey);
      && pk in Proposed(req)
      && (Proposed(req)[pk] == Source(req.url, req.kind, req.ref)
          <==> !NamesItself(req) || (req.kind == "repository" && req.ref == ""))
  {
    hide Proposed;
    var pk := PrimaryKey(SourceType, SourceKey(req.url), SourceKey(req.url), NoKey);
    DeclaredByFiles(req, pk);
    ProposedKeys(req, pk);
    ProposedSays(req, pk, Proposed(req)[pk]);
    var p :| Says(req, p, pk, Proposed(req)[pk]) && forall q, d :: Before(p, q) ==> !Says(req, q, pk, d);
    SaidOfSource(req, p, Proposed(req)[pk]);
    if NamesItself(req) {
      var i :| 0 <= i < |req.files| && req.files[i].sourceUrl == req.url;
      assert Says(req, Place(i, -1), pk, Source(req.url, "repository", ""));
      assert Before(Place(-1, -1), Place(i, -1));
    }
  }
}
