/** The v1alpha module service: the sources of a module, and the modules that a source manages. */
module ModuleService {
  import opened Collections
  import opened SoftTable
  import opened GraphStoreV1Alpha
  import opened SourceService
  import opened Declarations
  import opened Reconciliation

  /** A source or a module at the far end of a manages edge, with the data of the edge. */
  datatype Managed = Managed(node: Message, manages: Message)

  function SourceRows(t: GraphTable, mod: Key): set<(PrimaryKey, PrimaryKey)> {
    DownstreamRows(t, {mod}, ManagesType, SourceType)
  }

  /** `found` decodes what the join rows `rows` read, one entry per row. */
  ghost predicate Reads(t: GraphTable, rows: seq<(PrimaryKey, PrimaryKey)>, found: seq<Managed>) {
    && |found| == |rows|
    && forall i :: 0 <= i < |rows| ==>
         rows[i].0 in t && rows[i].1 in t && found[i] == Managed(t[rows[i].0].data, t[rows[i].1].data)
  }

  /** `found` has an entry for each row of a join, in any order. */
  ghost predicate Lists(t: GraphTable, rows: set<(PrimaryKey, PrimaryKey)>, found: seq<Managed>) {
    exists order :: Enumerates(order, rows) && Reads(t, order, found)
  }

  class Service {
    const gs: GraphStore

    constructor (gs: GraphStore)
      ensures this.gs == gs
    {
      this.gs := gs;
    }

    method ListSources(mod: Key) returns (found: seq<Managed>)
      ensures Lists(gs.table, SourceRows(gs.table, mod), found)
    {
      var pairs, rows := gs.FindDownstream({mod}, ManagesType, SourceType);
      found := Decode(pairs);
      assert Reads(gs.table, rows, found);
    }

    method ListManaged(source: Key) returns (found: seq<Managed>)
      ensures Lists(gs.table, ManagedRows(gs.table, source), found)
    {
      var pairs, rows := gs.FindUpstream({source}, ManagesType, ModuleType);
      found := Decode(pairs);
      assert Reads(gs.table, rows, found);
    }

    method Decode(pairs: seq<Pair>) returns (found: seq<Managed>)
      ensures |found| == |pairs|
      ensures forall i :: 0 <= i < |pairs| ==> found[i] == Managed(pairs[i].node.data, pairs[i].edge.data)
    {
      found := [];
      for i := 0 to |pairs|
        invariant |found| == i
        invariant forall j :: 0 <= j < i ==> found[j] == Managed(pairs[j].node.data, pairs[j].edge.data)
      {
        found := found + [Managed(pairs[i].node.data, pairs[i].edge.data)];
      }
    }
  }

  // ---- The two queries show the same edges ----

  function SourceRow(key: Key): PrimaryKey {
    PrimaryKey(SourceType, key, key, NoKey)
  }

  /** Every live manages edge hangs on its source too. */
  ghost predicate HasSources(t: GraphTable) {
    forall pk :: Live(t, pk) && pk.itemType == ManagesType ==> SourceRow(pk.k1) in t
  }

  lemma ProposedSources(req: SourceRequest, pk: PrimaryKey)
    requires pk in Proposed(req) && pk.itemType == ManagesType
    ensures SourceRow(pk.k1) in Proposed(req)
  {
    ProposedKeys(req, pk);
    ProposedKeys(req, SourceRow(pk.k1));
    if pk.k1 == SourceKey(req.url) {
      SourceIsProposed(req);
    } else {
      ProposedManages(req, pk);
      var file :| file in req.files && file.sourceUrl != "" && pk.k1 == SourceKey(file.sourceUrl);
      assert FileSays(req, file, SourceRow(pk.k1), Source(file.sourceUrl, "repository", ""));
      DeclaredByFiles(req, SourceRow(pk.k1));
    }
  }

  lemma {:induction false} RunsKeepSources(runs: seq<Run>)
    ensures HasSources(AfterRuns(map[], runs))
  {
    if runs != [] {
      hide Stale, Proposed;
      var t, run := AfterRuns(map[], runs[..|runs| - 1]), runs[|runs| - 1];
      RunsKeepSources(runs[..|runs| - 1]);
      var t' := AfterRuns(map[], runs);
      forall pk | Live(t', pk) && pk.itemType == ManagesType ensures SourceRow(pk.k1) in t' {
        if run.Completed? && pk in Proposed(run.req) {
          ProposedSources(run.req, pk);
        } else {
          assert Live(t, pk);
        }
      }
    }
  }

  /**
   In every store that Track runs produce, a source is listed for a module with an edge exactly if the module is listed
   for it with that edge.
   */
  lemma SourcesAreConverse(runs: seq<Run>, source: Key, mod: Key, edge: PrimaryKey)
    ensures var t := AfterRuns(map[], runs);
      (SourceRow(source), edge) in SourceRows(t, mod) <==> (ModuleRow(mod), edge) in ManagedRows(t, source)
  {
    hide AfterRuns;
    var t := AfterRuns(map[], runs);
    RunsKeepSound(runs);
    RunsKeepSources(runs);
    if (ModuleRow(mod), edge) in ManagedRows(t, source) {
      assert Live(t, edge) && Shape(edge);
      assert SourceRow(edge.k1) in t;
    }
  }

  // ---- What the queries list after a run ----

  /** The rows for the modules of a source, or for the sources of a module. */
  function RowsOf(t: GraphTable, ofSource: bool, key: Key): set<(PrimaryKey, PrimaryKey)> {
    if ofSource then ManagedRows(t, key) else SourceRows(t, key)
  }

  function FarRow(ofSource: bool, edge: PrimaryKey): PrimaryKey {
    if ofSource then ModuleRow(edge.k2) else SourceRow(edge.k1)
  }

  /** After the run this manages edge at `key` is live: it is declared, or another source's and was there. */
  ghost predicate IsListed(t: GraphTable, req: SourceRequest, ofSource: bool, key: Key, edge: PrimaryKey) {
    && edge.itemType == ManagesType
    && (if ofSource then edge.k1 == key else edge.k2 == key)
    && (Declares(req, edge) || (edge.k1 != SourceKey(req.url) && Live(t, edge)))
  }

  lemma RowsOfAre(t: GraphTable, ofSource: bool, key: Key, row: (PrimaryKey, PrimaryKey))
    requires Sound(t) && HasSources(t) && (ofSource ==> key.SourceKey?)
    ensures row in RowsOf(t, ofSource, key)
       <==> (&& Live(t, row.1) && row.1.itemType == ManagesType
             && (if ofSource then row.1.k1 == key else row.1.k2 == key) && row.0 == FarRow(ofSource, row.1))
  {
    if ofSource { ManagedRowsAre(t, key, row); }
  }

  lemma TrackKeepsSources(t: GraphTable, req: SourceRequest)
    requires Sound(t) && HasSources(t)
    ensures Sound(Tracked(t, req)) && HasSources(Tracked(t, req))
  {
    hide Sound, Stale, Proposed;
    DeleteKeepsSound(t, req);
    PutKeepsSound(AfterDelete(t, req), req);
    forall pk | Live(Tracked(t, req), pk) && pk.itemType == ManagesType ensures SourceRow(pk.k1) in Tracked(t, req) {
      if pk in Proposed(req) { ProposedSources(req, pk); } else { assert Live(t, pk); }
    }
  }

  lemma RowAfterRun(t: GraphTable, req: SourceRequest, ofSource: bool, key: Key, row: (PrimaryKey, PrimaryKey))
    requires Sound(t) && HasSources(t) && (ofSource ==> key.SourceKey?)
    ensures row in RowsOf(Tracked(t, req), ofSource, key)
       <==> IsListed(t, req, ofSource, key, row.1) && row.0 == FarRow(ofSource, row.1)
    ensures row in RowsOf(Tracked(t, req), ofSource, key) ==>
      && row.0 in Tracked(t, req) && IsDataOf(t, req, row.0, Tracked(t, req)[row.0].data)
      && row.1 in Tracked(t, req) && IsDataOf(t, req, row.1, Tracked(t, req)[row.1].data)
  {
    hide Tracked, Sound, Declares, IsDataOf, HasSources;
    TrackKeepsSources(t, req);
    RowsOfAre(Tracked(t, req), ofSource, key, row);
    TrackIsExact(t, req, row.1);
    if row.0 in Tracked(t, req) { RowHoldsData(t, req, row.0); }
    if row.1 in Tracked(t, req) { RowHoldsData(t, req, row.1); }
  }

  function EdgesOf(rows: seq<(PrimaryKey, PrimaryKey)>): seq<PrimaryKey> {
    seq(|rows|, i requires 0 <= i < |rows| => rows[i].1)
  }

  lemma ListedEdges(t: GraphTable, req: SourceRequest, ofSource: bool, key: Key, rows: seq<(PrimaryKey, PrimaryKey)>,
                    edge: PrimaryKey)
    requires Sound(t) && HasSources(t) && (ofSource ==> key.SourceKey?)
    requires Enumerates(rows, RowsOf(Tracked(t, req), ofSource, key))
    ensures Distinct(EdgesOf(rows)) && (edge in EdgesOf(rows) <==> IsListed(t, req, ofSource, key, edge))
  {
    hide Tracked, Sound, IsListed, IsDataOf, RowsOf, HasSources;
    var edges, row := EdgesOf(rows), (FarRow(ofSource, edge), edge);
    forall i | 0 <= i < |rows|
      ensures IsListed(t, req, ofSource, key, edges[i]) && rows[i].0 == FarRow(ofSource, edges[i])
    {
      RowAfterRun(t, req, ofSource, key, rows[i]);
    }
    forall i, j | 0 <= i < j < |edges| ensures edges[i] != edges[j] { assert rows[i] != rows[j]; }
    RowAfterRun(t, req, ofSource, key, row);
    if IsListed(t, req, ofSource, key, edge) {
      assert row in rows;
      var i :| 0 <= i < |rows| && rows[i] == row;
      assert edges[i] == edge;
    }
  }

  /**
   What the two queries list after a run: each manages edge at their source or module that the request declares or that
   another source had, with what the request says last, if it says anything, about the edge and about its far end.
   */
  lemma ListedAfterRun(t: GraphTable, req: SourceRequest, ofSource: bool, key: Key, found: seq<Managed>)
    returns (edges: seq<PrimaryKey>)
    requires Sound(t) && HasSources(t) && (ofSource ==> key.SourceKey?)
    requires Lists(Tracked(t, req), RowsOf(Tracked(t, req), ofSource, key), found)
    ensures Distinct(edges) && |edges| == |found|
    ensures forall edge :: edge in edges <==> IsListed(t, req, ofSource, key, edge)
    ensures forall i :: 0 <= i < |edges| ==>
      && IsDataOf(t, req, edges[i], found[i].manages)
      && IsDataOf(t, req, FarRow(ofSource, edges[i]), found[i].node)
  {
    hide Tracked, Sound, IsListed, IsDataOf, RowsOf, Distinct, FarRow, HasSources;
    var rows: seq<(PrimaryKey, PrimaryKey)> :|
      Enumerates(rows, RowsOf(Tracked(t, req), ofSource, key)) && Reads(Tracked(t, req), rows, found);
    edges := EdgesOf(rows);
    forall edge ensures Distinct(edges) && (edge in edges <==> IsListed(t, req, ofSource, key, edge)) {
      ListedEdges(t, req, ofSource, key, rows, edge);
    }
    assert Distinct(edges) by { ListedEdges(t, req, ofSource, key, rows, SourceRow(key)); }
    forall i | 0 <= i < |rows|
      ensures IsDataOf(t, req, edges[i], found[i].manages)
      ensures IsDataOf(t, req, FarRow(ofSource, edges[i]), found[i].node)
    {
      RowAfterRun(t, req, ofSource, key, rows[i]);
    }
  }
}
