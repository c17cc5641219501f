/** The v1alpha dependency service: what a module depends on, and what depends on it. */
module DependencyService {
  import opened Collections
  import opened SoftTable
  import opened GraphStoreV1Alpha
  import opened SourceService
  import opened Declarations
  import opened Reconciliation

  datatype Direction = Dependencies | Dependents

  /** A module at the far end of a depends edge, with the data of the edge. */
  datatype Entry = Entry(mod: Message, depends: Message)

  function Rows(t: GraphTable, dir: Direction, key: Key): set<(PrimaryKey, PrimaryKey)> {
    match dir
    case Dependencies => UpstreamRows(t, {key}, DependsType, ModuleType)
    case Dependents => DownstreamRows(t, {key}, DependsType, ModuleType)
  }

  /** `entries` decodes what the join rows `rows` read, one entry per row. */
  ghost predicate EntriesRead(t: GraphTable, rows: seq<(PrimaryKey, PrimaryKey)>, entries: seq<Entry>) {
    && |entries| == |rows|
    && forall i :: 0 <= i < |rows| ==>
         rows[i].0 in t && rows[i].1 in t && entries[i] == Entry(t[rows[i].0].data, t[rows[i].1].data)
  }

  /** `entries` is an answer to a query about `key`: an entry for each row of the join, in any order. */
  ghost predicate Answers(t: GraphTable, dir: Direction, key: Key, entries: seq<Entry>) {
    exists rows :: Enumerates(rows, Rows(t, dir, key)) && EntriesRead(t, rows, entries)
  }

  class Service {
    const gs: GraphStore

    constructor (gs: GraphStore)
      ensures this.gs == gs
    {
      this.gs := gs;
    }

    method ListDependencies(key: Key) returns (entries: seq<Entry>)
      ensures Answers(gs.table, Dependencies, key, entries)
    {
      var pairs, rows := gs.FindUpstream({key}, DependsType, ModuleType);
      entries := Decode(pairs);
      assert EntriesRead(gs.table, rows, entries);
    }

    method ListDependents(key: Key) returns (entries: seq<Entry>)
      ensures Answers(gs.table, Dependents, key, entries)
    {
      var pairs, rows := gs.FindDownstream({key}, DependsType, ModuleType);
      entries := Decode(pairs);
      assert EntriesRead(gs.table, rows, entries);
    }

    method Decode(pairs: seq<Pair>) returns (entries: seq<Entry>)
      ensures |entries| == |pairs|
      ensures forall i :: 0 <= i < |pairs| ==> entries[i] == Entry(pairs[i].node.data, pairs[i].edge.data)
    {
      entries := [];
      for i := 0 to |pairs|
        invariant |entries| == i
        invariant forall j :: 0 <= j < i ==> entries[j] == Entry(pairs[j].node.data, pairs[j].edge.data)
      {
        entries := entries + [Entry(pairs[i].node.data, pairs[i].edge.data)];
      }
    }
  }

  /** The far end of a depends edge, seen from the module that a query in this direction is about. */
  function FarEnd(dir: Direction, edge: PrimaryKey): Key {
    if dir == Dependencies then edge.k2 else edge.k1
  }

  function NearEnd(dir: Direction, edge: PrimaryKey): Key {
    if dir == Dependencies then edge.k1 else edge.k2
  }

  /** In a sound store a query lists exactly the live edges at its module, each with the row of the far end. */
  lemma RowsAre(t: GraphTable, dir: Direction, key: Key, row: (PrimaryKey, PrimaryKey))
    requires Sound(t)
    ensures row in Rows(t, dir, key)
       <==> (&& Live(t, row.1) && row.1.itemType == DependsType && row.1.k1 != row.1.k2
             && NearEnd(dir, row.1) == key && row.0 == ModuleRow(FarEnd(dir, row.1)))
  {
  }

  /**
   Dependents are the converse of dependencies, edge by edge and so owner by owner, in every store that
   Track runs produce, stopped ones included.
   */
  lemma DependentsAreConverse(runs: seq<Run>, m: Key, n: Key, edge: PrimaryKey)
    ensures var t := AfterRuns(map[], runs);
      (ModuleRow(n), edge) in Rows(t, Dependencies, m) <==> (ModuleRow(m), edge) in Rows(t, Dependents, n)
  {
    var t := AfterRuns(map[], runs);
    RunsKeepSound(runs);
    RowsAre(t, Dependencies, m, (ModuleRow(n), edge));
    RowsAre(t, Dependents, n, (ModuleRow(m), edge));
  }

  /**
   In any store at all, a listed dependency is listed back as a dependent if and only if the dependent's row is live.
   */
  lemma ConverseNeedsNode(t: GraphTable, m: Key, n: Key, edge: PrimaryKey)
    requires (ModuleRow(n), edge) in Rows(t, Dependencies, m)
    ensures (ModuleRow(m), edge) in Rows(t, Dependents, n) <==> Live(t, ModuleRow(m))
  {
  }

  // ---- What a query lists after a run ----

  /** After the run, this edge at the queried module is live: its source declares it, or it was there. */
  ghost predicate IsListed(t: GraphTable, req: SourceRequest, dir: Direction, key: Key, edge: PrimaryKey) {
    && edge.itemType == DependsType
    && edge.k1 != edge.k2
    && NearEnd(dir, edge) == key
    && if edge.k3 == SourceKey(req.url) then Declares(req, edge) else Live(t, edge)
  }

  lemma RowAfterRun(t: GraphTable, req: SourceRequest, dir: Direction, key: Key, row: (PrimaryKey, PrimaryKey))
    requires Sound(t)
    ensures row in Rows(Tracked(t, req), dir, key)
       <==> IsListed(t, req, dir, key, row.1) && row.0 == ModuleRow(FarEnd(dir, row.1))
    ensures row in Rows(Tracked(t, req), dir, key) ==>
      && row.0 in Tracked(t, req) && IsDataOf(t, req, row.0, Tracked(t, req)[row.0].data)
      && row.1 in Tracked(t, req) && IsDataOf(t, req, row.1, Tracked(t, req)[row.1].data)
  {
    hide Tracked, Sound, Declares, DeclaresLast, Rows, Proposed;
    DeleteKeepsSound(t, req);
    PutKeepsSound(AfterDelete(t, req), req);
    assert Sound(Tracked(t, req)) by { TrackedIs(t, req); }
    RowsAre(Tracked(t, req), dir, key, row);
    TrackIsExact(t, req, row.0);
    TrackIsExact(t, req, row.1);
    if Declares(req, row.1) && row.1.itemType == DependsType { ProposedDepends(req, row.1); }
    if row in Rows(Tracked(t, req), dir, key) { RowsAreStored(Tracked(t, req), dir, key, row); }
  }

  lemma TrackedIs(t: GraphTable, req: SourceRequest)
    ensures Tracked(t, req) == PutIndex(AfterDelete(t, req), Proposed(req))
  {
  }

  lemma RowsAreStored(t: GraphTable, dir: Direction, key: Key, row: (PrimaryKey, PrimaryKey))
    requires row in Rows(t, dir, key)
    ensures Live(t, row.0) && Live(t, row.1)
  {
  }

  function EdgesOf(rows: seq<(PrimaryKey, PrimaryKey)>): seq<PrimaryKey> {
    seq(|rows|, i requires 0 <= i < |rows| => rows[i].1)
  }

  lemma ListedEdges(t: GraphTable, req: SourceRequest, dir: Direction, key: Key, rows: seq<(PrimaryKey, PrimaryKey)>,
                    edge: PrimaryKey)
    requires Sound(t) && Enumerates(rows, Rows(Tracked(t, req), dir, key))
    ensures Distinct(EdgesOf(rows)) && (edge in EdgesOf(rows) <==> IsListed(t, req, dir, key, edge))
  {
    hide Tracked, Sound, IsListed, IsDataOf, Rows;
    var edges, row := EdgesOf(rows), (ModuleRow(FarEnd(dir, edge)), edge);
    forall i | 0 <= i < |rows|
      ensures IsListed(t, req, dir, key, edges[i]) && rows[i].0 == ModuleRow(FarEnd(dir, edges[i]))
    {
      RowAfterRun(t, req, dir, key, rows[i]);
    }
    forall i, j | 0 <= i < j < |edges| ensures edges[i] != edges[j] { assert rows[i] != rows[j]; }
    RowAfterRun(t, req, dir, key, row);
    if IsListed(t, req, dir, key, edge) {
      assert row in rows;
      var i :| 0 <= i < |rows| && rows[i] == row;
      assert edges[i] == edge;
    }
  }

  /**
   What a query lists after a run: each of the edges at its module that the source declares or that another source left
   there, with what the request says last, if it says anything, about the edge and about the module at its far end.
   */
  lemma ListedAfterRun(t: GraphTable, req: SourceRequest, dir: Direction, key: Key, entries: seq<Entry>)
    returns (edges: seq<PrimaryKey>)
    requires Sound(t) && Answers(Tracked(t, req), dir, key, entries)
    ensures Distinct(edges) && |edges| == |entries|
    ensures forall edge :: edge in edges <==> IsListed(t, req, dir, key, edge)
    ensures forall i :: 0 <= i < |edges| ==>
      && IsDataOf(t, req, edges[i], entries[i].depends)
      && IsDataOf(t, req, ModuleRow(FarEnd(dir, edges[i])), entries[i].mod)
  {
    hide Tracked, Sound, IsListed, IsDataOf, Rows, Distinct, ModuleRow;
    var rows: seq<(PrimaryKey, PrimaryKey)> :|
      Enumerates(rows, Rows(Tracked(t, req), dir, key)) && EntriesRead(Tracked(t, req), rows, entries);
    edges := EdgesOf(rows);
    forall edge ensures Distinct(edges) && (edge in edges <==> IsListed(t, req, dir, key, edge)) {
      ListedEdges(t, req, dir, key, rows, edge);
    }
    assert Distinct(edges) by { ListedEdges(t, req, dir, key, rows, PrimaryKey(DependsType, key, key, key)); }
    forall i | 0 <= i < |rows|
      ensures IsDataOf(t, req, edges[i], entries[i].depends)
      ensures IsDataOf(t, req, ModuleRow(FarEnd(dir, edges[i])), entries[i].mod)
    {
      RowAfterRun(t, req, dir, key, rows[i]);
    }
  }

  // ---- The dependency graph ----

  /** The arcs that a search in this direction follows: one per pair of modules, however many owners it has. */
  ghost function Arcs(t: GraphTable, dir: Direction): set<(Key, Key)> {
    set edge | edge in t && Live(t, edge) && edge.itemType == DependsType && edge.k1 != edge.k2
      :: (NearEnd(dir, edge), FarEnd(dir, edge))
  }

  function KeyOf(mod: Message): Key {
    if mod.Module? then ModuleKey(mod.language, mod.organization, mod.mod) else NoKey
  }

  function EntryKeys(entries: seq<Entry>): set<Key> {
    set entry | entry in entries :: KeyOf(entry.mod)
  }

  lemma EntryIs(t: GraphTable, dir: Direction, key: Key, rows: seq<(PrimaryKey, PrimaryKey)>, entries: seq<Entry>,
                i: nat)
    requires Sound(t) && Enumerates(rows, Rows(t, dir, key)) && EntriesRead(t, rows, entries) && i < |rows|
    ensures entries[i].mod.Module? && (key, KeyOf(entries[i].mod)) in Arcs(t, dir)
  {
    RowsAre(t, dir, key, rows[i]);
  }

  /** The module is just what the store holds under its fields. */
  ghost predicate StoresModule(t: GraphTable, mod: Message) {
    && mod.Module?
    && var key := ModuleKey(mod.language, mod.organization, mod.mod);
    && var pk := PrimaryKey(ModuleType, key, key, NoKey);
    && pk in t && t[pk].data == mod
  }

  /** The modules of an answer are those of the store. */
  lemma EntriesAreStored(t: GraphTable, dir: Direction, key: Key, entries: seq<Entry>, i: nat)
    requires Sound(t) && Answers(t, dir, key, entries) && i < |entries|
    ensures StoresModule(t, entries[i].mod)
  {
    var rows: seq<(PrimaryKey, PrimaryKey)> :| Enumerates(rows, Rows(t, dir, key)) && EntriesRead(t, rows, entries);
    RowsAre(t, dir, key, rows[i]);
    assert Fits(rows[i].0, t[rows[i].0].data);
  }

  lemma ArcHasRow(t: GraphTable, dir: Direction, key: Key, v: Key) returns (row: (PrimaryKey, PrimaryKey))
    requires Sound(t) && (key, v) in Arcs(t, dir)
    ensures row in Rows(t, dir, key) && row.0 == ModuleRow(v)
  {
    var edge :| edge in t && Live(t, edge) && edge.itemType == DependsType && edge.k1 != edge.k2
      && (key, v) == (NearEnd(dir, edge), FarEnd(dir, edge));
    row := (ModuleRow(v), edge);
    RowsAre(t, dir, key, row);
  }

  lemma EntriesAreHeads(t: GraphTable, dir: Direction, key: Key, entries: seq<Entry>, i: nat)
    requires Sound(t) && Answers(t, dir, key, entries) && i < |entries|
    ensures entries[i].mod.Module? && (key, KeyOf(entries[i].mod)) in Arcs(t, dir)
  {
    var rows: seq<(PrimaryKey, PrimaryKey)> :| Enumerates(rows, Rows(t, dir, key)) && EntriesRead(t, rows, entries);
    EntryIs(t, dir, key, rows, entries, i);
  }

  lemma HeadsAreEntries(t: GraphTable, dir: Direction, key: Key, entries: seq<Entry>, v: Key)
    requires Sound(t) && Answers(t, dir, key, entries) && (key, v) in Arcs(t, dir)
    ensures v in EntryKeys(entries)
  {
    var row := ArcHasRow(t, dir, key, v);
    var rows: seq<(PrimaryKey, PrimaryKey)> :| Enumerates(rows, Rows(t, dir, key)) && EntriesRead(t, rows, entries);
    assert row in rows;
    var i :| 0 <= i < |rows| && rows[i] == row;
    assert entries[i] in entries && entries[i].mod == t[ModuleRow(v)].data;
    assert Fits(ModuleRow(v), t[ModuleRow(v)].data);
  }

  /** The entries of an answer are modules, and their keys are the heads of the arcs that leave the queried module. */
  lemma AnswerKeys(t: GraphTable, dir: Direction, key: Key, entries: seq<Entry>, v: Key)
    requires Sound(t) && Answers(t, dir, key, entries)
    ensures v in EntryKeys(entries) <==> (key, v) in Arcs(t, dir)
  {
    if (key, v) in Arcs(t, dir) {
      HeadsAreEntries(t, dir, key, entries, v);
    }
    if v in EntryKeys(entries) {
      var i :| 0 <= i < |entries| && KeyOf(entries[i].mod) == v;
      EntriesAreHeads(t, dir, key, entries, i);
    }
  }
}
