/** Track calls for different sources, run at the same time. */
module ConcurrentTracks {
  import opened Interleaving
  import opened SoftTable
  import opened Places
  import opened GraphStoreV1Alpha
  import opened SourceService
  import opened Declarations
  import opened Reconciliation

  // Each query, each Delete transaction and each Put transaction is one step, and the steps of different calls
  // interleave freely.

  /** How far one call is. `pending` are the managed modules whose dependencies it has still to query. */
  datatype Phase =
    | ReadManages
    | ReadDepends(pending: set<Key>, found: set<PrimaryKey>)
    | AboutToPut
    | Finished

  /** `puts` is a history: the calls that have put, in the order of their Put transactions. */
  datatype State = State(table: GraphTable, phases: seq<Phase>, puts: seq<int>)

  ghost predicate Init(t0: GraphTable, reqs: seq<SourceRequest>, s: State) {
    s.table == t0 && s.puts == [] && |s.phases| == |reqs| && forall i :: 0 <= i < |reqs| ==> s.phases[i] == ReadManages
  }

  ghost function ManagesFound(t: GraphTable, source: Key): Phase {
    ReadDepends(
      set row | row in ManagedRows(t, source) :: row.0.k1,
      {PrimaryKey(SourceType, source, source, NoKey)} +
      (set row | row in ManagedRows(t, source) :: NodeKey(row.0)) +
      (set row | row in ManagedRows(t, source) :: row.1))
  }

  ghost function ToDelete(found: set<PrimaryKey>, req: SourceRequest): set<PrimaryKey> {
    set pk | pk in found && pk !in Proposed(req) && pk.itemType != ModuleType
  }

  /** Call i has queried the dependencies of one more managed module. */
  ghost function AfterDepends(reqs: seq<SourceRequest>, s: State, i: nat, mod: Key): State
    requires i < |s.phases| == |reqs| && s.phases[i].ReadDepends?
  {
    var found := s.phases[i].found + DependedKeys(s.table, SourceKey(reqs[i].url), mod);
    State(s.table, s.phases[i := ReadDepends(s.phases[i].pending - {mod}, found)], s.puts)
  }

  /** Call i takes one step. */
  ghost predicate Step(reqs: seq<SourceRequest>, s: State, s': State, i: nat)
    requires i < |s.phases| == |reqs|
  {
    match s.phases[i]
    case ReadManages =>
      s' == State(s.table, s.phases[i := ManagesFound(s.table, SourceKey(reqs[i].url))], s.puts)
    case ReadDepends(pending, found) =>
      if pending == {} then
        s' == State(DeleteKeys(s.table, ToDelete(found, reqs[i])), s.phases[i := AboutToPut], s.puts)
      else
        exists mod :: mod in pending && s' == AfterDepends(reqs, s, i, mod)
    case AboutToPut =>
      s' == State(PutIndex(s.table, Proposed(reqs[i])), s.phases[i := Finished], s.puts + [i])
    case Finished => false
  }

  /** A run of all the calls: `states` from the start on, `who` the call that takes each step. */
  ghost predicate IsRun(t0: GraphTable, reqs: seq<SourceRequest>, states: seq<State>, who: seq<nat>) {
    && |states| == |who| + 1
    && Init(t0, reqs, states[0])
    && (forall k :: 0 <= k < |states| ==> |states[k].phases| == |reqs|)
    && (forall k :: 0 <= k < |who| ==> who[k] < |reqs| && Step(reqs, states[k], states[k + 1], who[k]))
  }

  /** The calls are for different sources, and none declares another's URL as the source of one of its files. */
  ghost predicate Independent(reqs: seq<SourceRequest>) {
    && (forall i, j :: 0 <= i < j < |reqs| ==> reqs[i].url != reqs[j].url)
    && (forall i, j, file ::
          0 <= i < |reqs| && 0 <= j < |reqs| && i != j && file in reqs[i].files && file.sourceUrl != "" ==>
            file.sourceUrl != reqs[j].url)
  }

  /** An edge that one of the calls declares and the source of another owns is declared by that other call too. */
  ghost predicate Compatible(reqs: seq<SourceRequest>) {
    forall i, j, pk ::
      0 <= i < |reqs| && 0 <= j < |reqs| && pk in Proposed(reqs[i]) && Owns(SourceKey(reqs[j].url), pk) ==>
        pk in Proposed(reqs[j])
  }

  lemma IndependentIsCompatible(reqs: seq<SourceRequest>)
    requires Independent(reqs)
    ensures Compatible(reqs)
  {
    hide Proposed;
    forall i, j, pk | 0 <= i < |reqs| && 0 <= j < |reqs| && pk in Proposed(reqs[i]) && Owns(SourceKey(reqs[j].url), pk)
      ensures pk in Proposed(reqs[j])
    {
      if i != j {
        assert reqs[i].url != reqs[j].url;
        if pk.itemType == ManagesType { ProposedManages(reqs[i], pk); } else { ProposedDepends(reqs[i], pk); }
      }
    }
  }

  // ---- What a call does to the table, whenever it does it ----

  /** A call drops what it would find stale at the start. */
  ghost function Calls(t0: GraphTable, reqs: seq<SourceRequest>): seq<Call<PrimaryKey, Message>> {
    seq(|reqs|, i requires 0 <= i < |reqs| => Call(Proposed(reqs[i]), Stale(t0, reqs[i])))
  }

  lemma CallsAreApart(t0: GraphTable, reqs: seq<SourceRequest>)
    requires Sound(t0) && Compatible(reqs)
    ensures Apart(Calls(t0, reqs))
  {
    hide Sound, Stale, Proposed, Owns;
    forall i, j, pk | 0 <= i < |reqs| && 0 <= j < |reqs| && pk in Stale(t0, reqs[i]) ensures pk !in Proposed(reqs[j]) {
      StaleIs(t0, reqs[i], pk);
    }
  }

  /**
   An edge that call i owns and does not declare is as it was at the start, but for a Delete transaction that had it.
   */
  lemma UndeclaredEdges(t0: GraphTable, reqs: seq<SourceRequest>, deleters: set<int>, puts: seq<int>, i: int,
                        pk: PrimaryKey)
    requires Sound(t0) && Compatible(reqs) && AreCalls(Calls(t0, reqs), puts)
    requires 0 <= i < |reqs| && Owns(SourceKey(reqs[i].url), pk) && pk !in Proposed(reqs[i])
    ensures Live(Outcome(t0, Calls(t0, reqs), deleters, puts), pk)
       <==> Live(t0, pk) && pk !in Dropped(Calls(t0, reqs), deleters)
  {
    hide Sound, Stale, Proposed, Owns, Outcome, Dropped;
    var calls := Calls(t0, reqs);
    if pk in Dropped(calls, deleters) {
      CallsAreApart(t0, reqs);
      DroppedStays(t0, calls, deleters, puts, pk);
    } else {
      assert forall k :: 0 <= k < |puts| ==> pk !in calls[puts[k]].proposed;
      Untouched(t0, calls, deleters, puts, pk);
    }
  }

  /** What is stale for a call is what was stale at the start, without what has been deleted. */
  lemma StaleLeft(t0: GraphTable, reqs: seq<SourceRequest>, deleters: set<int>, puts: seq<int>, i: int)
    requires Sound(t0) && Compatible(reqs) && AreCalls(Calls(t0, reqs), puts) && 0 <= i < |reqs|
    requires Sound(Outcome(t0, Calls(t0, reqs), deleters, puts))
    ensures Stale(Outcome(t0, Calls(t0, reqs), deleters, puts), reqs[i])
         == Stale(t0, reqs[i]) - Dropped(Calls(t0, reqs), deleters)
  {
    hide Sound, Compatible, Stale, Proposed, Owns, Outcome, Dropped;
    var t := Outcome(t0, Calls(t0, reqs), deleters, puts);
    forall pk
      ensures pk in Stale(t, reqs[i]) <==> pk in Stale(t0, reqs[i]) && pk !in Dropped(Calls(t0, reqs), deleters)
    {
      StaleIs(t, reqs[i], pk);
      StaleIs(t0, reqs[i], pk);
      if Owns(SourceKey(reqs[i].url), pk) && pk !in Proposed(reqs[i]) {
        UndeclaredEdges(t0, reqs, deleters, puts, i, pk);
      }
    }
  }

  // ---- The invariant of a run ----

  ghost function Deleters(s: State): set<int> {
    set i | 0 <= i < |s.phases| && (s.phases[i] == AboutToPut || s.phases[i] == Finished)
  }

  /** `puts` lists the calls that have finished, each once. */
  ghost predicate PutsAre(s: State) {
    && (forall k :: 0 <= k < |s.puts| ==> 0 <= s.puts[k] < |s.phases|)
    && (forall k, l :: 0 <= k < l < |s.puts| ==> s.puts[k] != s.puts[l])
    && (forall i :: 0 <= i < |s.phases| ==> (i in s.puts <==> s.phases[i] == Finished))
  }

  /**
   What a call has found so far: of the edges that it does not declare only stale ones, and all of these but those that
   are gone and the dependencies that it has still to query.
   */
  ghost predicate FoundIs(req: SourceRequest, stale: set<PrimaryKey>, gone: set<PrimaryKey>, phase: Phase)
    requires phase.ReadDepends?
  {
    && ToDelete(phase.found, req) <= stale
    && forall pk :: pk in stale ==>
         || pk in ToDelete(phase.found, req)
         || pk in gone
         || (pk.itemType == DependsType && pk.k1 in phase.pending)
  }

  ghost predicate Inv(t0: GraphTable, reqs: seq<SourceRequest>, s: State) {
    && |s.phases| == |reqs|
    && PutsAre(s)
    && Sound(s.table)
    && s.table == Outcome(t0, Calls(t0, reqs), Deleters(s), s.puts)
    && forall i :: 0 <= i < |reqs| && s.phases[i].ReadDepends? ==>
         FoundIs(reqs[i], Stale(t0, reqs[i]), Dropped(Calls(t0, reqs), Deleters(s)), s.phases[i])
  }

  lemma ManagesFoundIs(t: GraphTable, req: SourceRequest)
    requires Sound(t)
    ensures FoundIs(req, Stale(t, req), {}, ManagesFound(t, SourceKey(req.url)))
  {
    hide Sound, Stale, Proposed;
    var source := SourceKey(req.url);
    var phase := ManagesFound(t, source);
    SourceIsProposed(req);
    forall pk | pk in ToDelete(phase.found, req) ensures pk in Stale(t, req) {
      var row :| row in ManagedRows(t, source) && (pk == row.1 || pk == NodeKey(row.0));
      ManagedRowsAre(t, source, row);
      StaleIs(t, req, pk);
    }
    forall pk | pk in Stale(t, req)
      ensures pk in ToDelete(phase.found, req) || (pk.itemType == DependsType && pk.k1 in phase.pending)
    {
      StaleIs(t, req, pk);
      var edge := if pk.itemType == ManagesType then pk else ManagesRow(source, pk.k1);
      if pk.itemType == DependsType { DependsHangsOn(t, pk); }
      ManagedRowsAre(t, source, (ModuleRow(edge.k2), edge));
      assert (ModuleRow(edge.k2), edge) in ManagedRows(t, source);
    }
  }

  lemma DependsHangsOn(t: GraphTable, pk: PrimaryKey)
    requires Sound(t) && Live(t, pk) && pk.itemType == DependsType && pk.k1 != pk.k2
    ensures Live(t, ManagesRow(pk.k3, pk.k1))
  {
  }

  lemma DependsFoundAre(t: GraphTable, req: SourceRequest, mod: Key, pk: PrimaryKey)
    requires Sound(t) && pk !in Proposed(req) && pk.itemType != ModuleType
    ensures pk in DependedKeys(t, SourceKey(req.url), mod)
       <==> pk in Stale(t, req) && pk.itemType == DependsType && pk.k1 == mod
  {
    hide Stale, Proposed;
    var source := SourceKey(req.url);
    StaleIs(t, req, pk);
    forall row | row in DependedRows(t, mod)
      ensures row.0 == ModuleRow(row.1.k2) && Live(t, row.1) && row.1.k1 == mod && row.1.itemType == DependsType
    {
      DependedRowsAre(t, mod, row);
    }
    if pk in Stale(t, req) && pk.itemType == DependsType && pk.k1 == mod {
      DependedRowsAre(t, mod, (ModuleRow(pk.k2), pk));
      assert (ModuleRow(pk.k2), pk) in DependedRows(t, mod);
    }
  }

  lemma DependsFoundIs(t: GraphTable, req: SourceRequest, stale: set<PrimaryKey>, gone: set<PrimaryKey>, phase: Phase,
                       mod: Key)
    requires Sound(t) && phase.ReadDepends? && FoundIs(req, stale, gone, phase) && mod in phase.pending
    requires Stale(t, req) <= stale <= Stale(t, req) + gone
    ensures FoundIs(req, stale, gone,
                    ReadDepends(phase.pending - {mod}, phase.found + DependedKeys(t, SourceKey(req.url), mod)))
  {
    hide Sound, Stale, Proposed, DependedKeys;
    var found' := phase.found + DependedKeys(t, SourceKey(req.url), mod);
    forall pk | pk !in Proposed(req) && pk.itemType != ModuleType
      ensures pk in found' <==>
              pk in phase.found || (pk in Stale(t, req) && pk.itemType == DependsType && pk.k1 == mod)
    {
      DependsFoundAre(t, req, mod, pk);
    }
    forall pk | pk in stale ensures pk !in gone ==> pk !in Proposed(req) && pk.itemType != ModuleType {
      StaleIs(t, req, pk);
    }
  }

  /** A query of call i, which sees what is left of what was stale at the start. */
  lemma ReadKeepsInv(t0: GraphTable, reqs: seq<SourceRequest>, s: State, s': State, i: nat)
    requires Sound(t0) && Compatible(reqs) && Inv(t0, reqs, s) && i < |reqs| && Step(reqs, s, s', i)
    requires s.phases[i] == ReadManages || (s.phases[i].ReadDepends? && s.phases[i].pending != {})
    ensures Inv(t0, reqs, s')
  {
    hide Sound, Compatible, Outcome, Stale, Proposed, DependedKeys, Dropped, ManagedRows, ToDelete;
    var gone := Dropped(Calls(t0, reqs), Deleters(s));
    StaleLeft(t0, reqs, Deleters(s), s.puts, i);
    assert Deleters(s') == Deleters(s);
    if s.phases[i] == ReadManages {
      ManagesFoundIs(s.table, reqs[i]);
    } else {
      var mod :| mod in s.phases[i].pending && s' == AfterDepends(reqs, s, i, mod);
      DependsFoundIs(s.table, reqs[i], Stale(t0, reqs[i]), gone, s.phases[i], mod);
    }
  }

  lemma DeleteKeepsInv(t0: GraphTable, reqs: seq<SourceRequest>, s: State, s': State, i: nat)
    requires Sound(t0) && Compatible(reqs) && Inv(t0, reqs, s)
    requires i < |reqs| && s.phases[i].ReadDepends? && s.phases[i].pending == {}
    requires s' == State(DeleteKeys(s.table, ToDelete(s.phases[i].found, reqs[i])), s.phases[i := AboutToPut], s.puts)
    ensures Inv(t0, reqs, s')
  {
    hide Sound, Compatible, Outcome, Stale, Proposed, ToDelete, Owns, Dropped, DeleteKeys;
    var calls, gone := Calls(t0, reqs), Dropped(Calls(t0, reqs), Deleters(s));
    CallsAreApart(t0, reqs);
    DeleteStep(t0, calls, Deleters(s), s.puts, i, ToDelete(s.phases[i].found, reqs[i]));
    StaleLeft(t0, reqs, Deleters(s), s.puts, i);
    DeleteStep(t0, calls, Deleters(s), s.puts, i, Stale(s.table, reqs[i]));
    DeleteKeepsSound(s.table, reqs[i]);
    assert Deleters(s') == Deleters(s) + {i};
    DroppedStep(calls, Deleters(s), i);
  }

  lemma PutKeepsInv(t0: GraphTable, reqs: seq<SourceRequest>, s: State, s': State, i: nat)
    requires Inv(t0, reqs, s) && i < |reqs| && s.phases[i] == AboutToPut
    requires s' == State(PutIndex(s.table, Proposed(reqs[i])), s.phases[i := Finished], s.puts + [i])
    ensures Inv(t0, reqs, s')
  {
    hide Sound, Outcome, Stale, Proposed, FoundIs, Dropped;
    PutStep(t0, Calls(t0, reqs), Deleters(s), s.puts, i);
    assert Deleters(s') == Deleters(s);
    assert forall j :: j in s'.puts <==> j in s.puts || j == i;
    PutKeepsSound(s.table, reqs[i]);
  }

  lemma StepKeepsInv(t0: GraphTable, reqs: seq<SourceRequest>, s: State, s': State, i: nat)
    requires Sound(t0) && Compatible(reqs) && Inv(t0, reqs, s) && i < |reqs| && Step(reqs, s, s', i)
    ensures Inv(t0, reqs, s')
  {
    hide FoundIs, Outcome, Sound, Compatible, Stale, Proposed, ToDelete, ManagesFound, AfterDepends;
    match s.phases[i]
    case ReadManages => ReadKeepsInv(t0, reqs, s, s', i);
    case ReadDepends(pending, _) =>
      if pending == {} { DeleteKeepsInv(t0, reqs, s, s', i); } else { ReadKeepsInv(t0, reqs, s, s', i); }
    case AboutToPut => PutKeepsInv(t0, reqs, s, s', i);
  }

  lemma {:induction false} RunKeepsInv(t0: GraphTable, reqs: seq<SourceRequest>, states: seq<State>, who: seq<nat>,
                                       k: nat)
    requires Sound(t0) && Compatible(reqs) && IsRun(t0, reqs, states, who) && k < |states|
    ensures Inv(t0, reqs, states[k])
  {
    hide Inv, Step, Sound, Compatible, Init;
    if k == 0 {
      StartInv(t0, reqs, states[0]);
    } else {
      RunKeepsInv(t0, reqs, states, who, k - 1);
      StepKeepsInv(t0, reqs, states[k - 1], states[k], who[k - 1]);
    }
  }

  lemma NothingDone(t0: GraphTable, reqs: seq<SourceRequest>)
    ensures t0 == Outcome(t0, Calls(t0, reqs), Members([]), [])
  {
    hide Stale, Proposed;
    assert Members([]) == {};
    assert DeleteKeys(t0, Dropped(Calls(t0, reqs), {})) == t0;
  }

  lemma StartInv(t0: GraphTable, reqs: seq<SourceRequest>, s: State)
    requires Sound(t0) && Init(t0, reqs, s)
    ensures Inv(t0, reqs, s)
  {
    hide Sound, Outcome, Calls;
    NothingDone(t0, reqs);
    assert Deleters(s) == {} == Members([]);
  }

  // ---- The same calls one after the other ----

  ghost predicate AreRequests(reqs: seq<SourceRequest>, order: seq<int>) {
    forall k :: 0 <= k < |order| ==> 0 <= order[k] < |reqs|
  }

  ghost function Serial(t: GraphTable, reqs: seq<SourceRequest>, order: seq<int>): GraphTable
    requires AreRequests(reqs, order)
  {
    if order == [] then t else Tracked(Serial(t, reqs, order[..|order| - 1]), reqs[order[|order| - 1]])
  }

  lemma {:induction false} SerialIsSound(t0: GraphTable, reqs: seq<SourceRequest>, order: seq<int>)
    requires Sound(t0) && AreRequests(reqs, order)
    ensures Sound(Serial(t0, reqs, order))
  {
    hide Sound, AfterDelete, Proposed;
    if order != [] {
      var front, req := order[..|order| - 1], reqs[order[|order| - 1]];
      SerialIsSound(t0, reqs, front);
      DeleteKeepsSound(Serial(t0, reqs, front), req);
      PutKeepsSound(AfterDelete(Serial(t0, reqs, front), req), req);
    }
  }

  lemma {:induction false} SerialIs(t0: GraphTable, reqs: seq<SourceRequest>, order: seq<int>)
    requires Sound(t0) && Compatible(reqs) && AreRequests(reqs, order)
    ensures AreCalls(Calls(t0, reqs), order)
    ensures Serial(t0, reqs, order) == Outcome(t0, Calls(t0, reqs), Members(order), order)
  {
    hide Sound, Compatible, Outcome, Stale, Proposed, DeleteKeys, Dropped;
    if order == [] {
      NothingDone(t0, reqs);
    } else {
      var front, i := order[..|order| - 1], order[|order| - 1];
      var t, calls := Serial(t0, reqs, front), Calls(t0, reqs);
      SerialIs(t0, reqs, front);
      SerialIsSound(t0, reqs, front);
      StaleLeft(t0, reqs, Members(front), front, i);
      CallsAreApart(t0, reqs);
      DeleteStep(t0, calls, Members(front), front, i, Stale(t, reqs[i]));
      PutStep(t0, calls, Members(front) + {i}, front, i);
      assert order == front + [i] && Members(order) == Members(front) + {i};
    }
  }

  /** The call that comes last decides the items that it declares, and the edges of its source. */
  lemma SerialEnding(t0: GraphTable, reqs: seq<SourceRequest>, order: seq<int>, pk: PrimaryKey)
    requires Sound(t0) && AreRequests(reqs, order) && order != []
    ensures var t, req := Serial(t0, reqs, order), reqs[order[|order| - 1]];
      && (pk in Proposed(req) ==> Live(t, pk) && t[pk].data == Proposed(req)[pk])
      && (Owns(SourceKey(req.url), pk) && pk !in Proposed(req) ==> !Live(t, pk))
  {
    hide Sound, Tracked, Proposed, Owns, Declares;
    var front := order[..|order| - 1];
    SerialIsSound(t0, reqs, front);
    TrackIsExact(Serial(t0, reqs, front), reqs[order[|order| - 1]], pk);
    ProposedKeys(reqs[order[|order| - 1]], pk);
  }

  // ---- Finished runs ----

  /** A run in which every call has finished. */
  ghost predicate IsFinishedRun(t0: GraphTable, reqs: seq<SourceRequest>, states: seq<State>, who: seq<nat>) {
    IsRun(t0, reqs, states, who) && AllFinished(reqs, states[|who|])
  }

  ghost predicate AllFinished(reqs: seq<SourceRequest>, s: State) {
    |s.phases| == |reqs| && forall i :: 0 <= i < |reqs| ==> s.phases[i] == Finished
  }

  /** The table is that of the serial order of the Put transactions: nodes, edges, data and deletion marks. */
  ghost predicate IsInPutOrder(t0: GraphTable, reqs: seq<SourceRequest>, s: State) {
    IsOrder(s.puts, |reqs|) && s.table == Serial(t0, reqs, s.puts)
  }

  /** However compatible calls interleave, once all have finished the table is that of a serial order. */
  lemma ConcurrentIsSerial(t0: GraphTable, reqs: seq<SourceRequest>, states: seq<State>, who: seq<nat>)
    requires Sound(t0) && Compatible(reqs) && IsFinishedRun(t0, reqs, states, who)
    ensures IsInPutOrder(t0, reqs, states[|who|])
  {
    hide Sound, Compatible, Outcome, Serial, Step, FoundIs;
    var s := states[|who|];
    RunKeepsInv(t0, reqs, states, who, |who|);
    OrderIsComplete(s.puts, |reqs|);
    SerialIs(t0, reqs, s.puts);
    assert Deleters(s) == Members(s.puts);
  }

  // ---- Runs of whole calls ----

  ghost predicate Reaches(t0: GraphTable, reqs: seq<SourceRequest>, s: State) {
    exists states, who :: IsRun(t0, reqs, states, who) && states[|who|] == s
  }

  lemma StepReaches(t0: GraphTable, reqs: seq<SourceRequest>, s: State, s': State, i: nat)
    requires Reaches(t0, reqs, s) && |s.phases| == |s'.phases| == |reqs| && i < |reqs| && Step(reqs, s, s', i)
    ensures Reaches(t0, reqs, s')
  {
    hide Step, Init;
    var states, who :| IsRun(t0, reqs, states, who) && states[|who|] == s;
    var states', who' := states + [s'], who + [i];
    assert IsRun(t0, reqs, states', who') && states'[|who'|] == s';
  }

  /** Call i reads everything, undisturbed, and so finds what is stale. */
  lemma {:induction false} CallReads(t0: GraphTable, reqs: seq<SourceRequest>, s: State, i: nat)
    returns (s': State, found: set<PrimaryKey>)
    requires Reaches(t0, reqs, s) && |s.phases| == |reqs| && i < |reqs| && s.phases[i].ReadDepends?
    requires Sound(s.table) ==> FoundIs(reqs[i], Stale(s.table, reqs[i]), {}, s.phases[i])
    ensures Reaches(t0, reqs, s') && s' == State(s.table, s.phases[i := ReadDepends({}, found)], s.puts)
    ensures Sound(s.table) ==> FoundIs(reqs[i], Stale(s.table, reqs[i]), {}, ReadDepends({}, found))
    decreases |s.phases[i].pending|
  {
    hide Reaches, Sound, Stale, Proposed, DependedKeys, FoundIs;
    if s.phases[i].pending == {} {
      s', found := s, s.phases[i].found;
    } else {
      var mod :| mod in s.phases[i].pending;
      var next := AfterDepends(reqs, s, i, mod);
      StepReaches(t0, reqs, s, next, i);
      if Sound(s.table) {
        DependsFoundIs(s.table, reqs[i], Stale(s.table, reqs[i]), {}, s.phases[i], mod);
      }
      s', found := CallReads(t0, reqs, next, i);
    }
  }

  lemma CallDeletes(t0: GraphTable, reqs: seq<SourceRequest>, s: State, i: nat) returns (s': State)
    requires Reaches(t0, reqs, s) && |s.phases| == |reqs| && i < |reqs| && s.phases[i] == ReadManages
    ensures Reaches(t0, reqs, s') && s'.puts == s.puts && s'.phases == s.phases[i := AboutToPut]
    ensures Sound(s.table) ==> s'.table == AfterDelete(s.table, reqs[i])
  {
    hide Reaches, ManagedRows, Proposed, Sound, Stale;
    var managed := State(s.table, s.phases[i := ManagesFound(s.table, SourceKey(reqs[i].url))], s.puts);
    StepReaches(t0, reqs, s, managed, i);
    if Sound(s.table) { ManagesFoundIs(s.table, reqs[i]); }
    var read, found := CallReads(t0, reqs, managed, i);
    s' := State(DeleteKeys(read.table, ToDelete(found, reqs[i])), read.phases[i := AboutToPut], read.puts);
    StepReaches(t0, reqs, read, s', i);
    if Sound(s.table) { assert ToDelete(found, reqs[i]) == Stale(s.table, reqs[i]); }
  }

  lemma CallPuts(t0: GraphTable, reqs: seq<SourceRequest>, s: State, i: nat) returns (s': State)
    requires Reaches(t0, reqs, s) && |s.phases| == |reqs| && i < |reqs| && s.phases[i] == AboutToPut
    ensures Reaches(t0, reqs, s')
    ensures s' == State(PutIndex(s.table, Proposed(reqs[i])), s.phases[i := Finished], s.puts + [i])
  {
    hide Reaches, Proposed;
    s' := State(PutIndex(s.table, Proposed(reqs[i])), s.phases[i := Finished], s.puts + [i]);
    StepReaches(t0, reqs, s, s', i);
  }

  lemma NothingRun(t0: GraphTable, reqs: seq<SourceRequest>) returns (s: State)
    ensures Reaches(t0, reqs, s) && s == State(t0, seq(|reqs|, _ => ReadManages), [])
  {
    s := State(t0, seq(|reqs|, _ => ReadManages), []);
    assert IsRun(t0, reqs, [s], []);
  }

  /** The calls of the list run one after the other. */
  lemma {:induction false} CallsFinish(t0: GraphTable, reqs: seq<SourceRequest>, order: seq<int>) returns (s: State)
    requires Sound(t0) && AreRequests(reqs, order) && forall k, l :: 0 <= k < l < |order| ==> order[k] != order[l]
    ensures Reaches(t0, reqs, s) && |s.phases| == |reqs| && s.puts == order && s.table == Serial(t0, reqs, order)
    ensures forall i :: 0 <= i < |reqs| ==> s.phases[i] == if i in order then Finished else ReadManages
  {
    hide Reaches, Sound, Proposed, AfterDelete;
    if order == [] {
      s := NothingRun(t0, reqs);
    } else {
      var front, i := order[..|order| - 1], order[|order| - 1];
      var before := CallsFinish(t0, reqs, front);
      SerialIsSound(t0, reqs, front);
      assert order == front + [i] && i !in front;
      var deleted := CallDeletes(t0, reqs, before, i);
      s := CallPuts(t0, reqs, deleted, i);
    }
  }

  lemma RunOf(t0: GraphTable, reqs: seq<SourceRequest>, s: State) returns (states: seq<State>, who: seq<nat>)
    requires Reaches(t0, reqs, s) && AllFinished(reqs, s)
    ensures IsFinishedRun(t0, reqs, states, who) && states[|who|] == s
  {
    hide Step, Init;
    states, who :| IsRun(t0, reqs, states, who) && states[|who|] == s;
  }

  /** Every serial order is a run. */
  lemma EveryOrderIsARun(t0: GraphTable, reqs: seq<SourceRequest>, order: seq<int>)
    returns (states: seq<State>, who: seq<nat>)
    requires Sound(t0) && IsOrder(order, |reqs|)
    ensures IsFinishedRun(t0, reqs, states, who)
    ensures states[|who|].puts == order && states[|who|].table == Serial(t0, reqs, order)
  {
    hide Step, Init, Sound, Serial, Reaches;
    var s := CallsFinish(t0, reqs, order);
    states, who := RunOf(t0, reqs, s);
  }

  // ---- When the order of the Put transactions decides ----

  /** Every finished run leaves the table of the serial order of its Put transactions. */
  ghost predicate PutOrderDecides(t0: GraphTable, reqs: seq<SourceRequest>) {
    forall states: seq<State>, who :: IsFinishedRun(t0, reqs, states, who) ==> IsInPutOrder(t0, reqs, states[|who|])
  }

  /**
   Call j deletes, call i runs as a whole and puts an edge that j owns and does not declare, and j puts last: the edge
   stays, while in the serial order j would have deleted it.
   */
  lemma IncompatibleRun(t0: GraphTable, reqs: seq<SourceRequest>, i: int, j: int, pk: PrimaryKey)
    returns (states: seq<State>, who: seq<nat>)
    requires Sound(t0) && 0 <= i < |reqs| && 0 <= j < |reqs|
    requires pk in Proposed(reqs[i]) && Owns(SourceKey(reqs[j].url), pk) && pk !in Proposed(reqs[j])
    ensures IsFinishedRun(t0, reqs, states, who) && !IsInPutOrder(t0, reqs, states[|who|])
  {
    hide Step, Init, Sound, Serial, Reaches, Proposed, Owns, AfterDelete;
    var others := Others(|reqs|, i, j);
    OthersAre(|reqs|, i, j);
    var before := CallsFinish(t0, reqs, others);
    NotAmongOthers(others, |reqs|, i, j);
    var deleted := CallDeletes(t0, reqs, before, j);
    var between := CallDeletes(t0, reqs, deleted, i);
    var put := CallPuts(t0, reqs, between, i);
    var s := CallPuts(t0, reqs, put, j);
    assert Live(s.table, pk);
    states, who := RunOf(t0, reqs, s);
    assert s.puts == others + [i] + [j];
    OrderWithLastTwo(others, |reqs|, i, j);
    SerialEnding(t0, reqs, s.puts, pk);
  }

  /** The order of the Put transactions decides if and only if the calls are compatible. */
  lemma PutOrderDecidesIff(t0: GraphTable, reqs: seq<SourceRequest>)
    requires Sound(t0)
    ensures PutOrderDecides(t0, reqs) <==> Compatible(reqs)
  {
    hide Sound, Step, Init, IsInPutOrder, Proposed, Owns;
    if Compatible(reqs) {
      forall states: seq<State>, who | IsFinishedRun(t0, reqs, states, who) 
        ensures IsInPutOrder(t0, reqs, states[|who|])
      {
        ConcurrentIsSerial(t0, reqs, states, who);
      }
    } else {
      var i, j, pk :| 0 <= i < |reqs| && 0 <= j < |reqs| && pk in Proposed(reqs[i]) && Owns(SourceKey(reqs[j].url), pk)
        && pk !in Proposed(reqs[j]);
      var states, who := IncompatibleRun(t0, reqs, i, j, pk);
    }
  }

  // ---- What the order decides ----

  ghost predicate SameLiveEdges(t: GraphTable, u: GraphTable) {
    forall pk :: IsEdge(pk) ==> (Live(t, pk) <==> Live(u, pk))
  }

  ghost predicate SameEdgeData(t: GraphTable, u: GraphTable) {
    forall pk :: IsEdge(pk) && Live(t, pk) && Live(u, pk) ==> t[pk].data == u[pk].data
  }

  /** All calls that propose this item propose the same data for it. */
  ghost predicate AgreeOn(reqs: seq<SourceRequest>, pk: PrimaryKey) {
    forall i, j :: 0 <= i < |reqs| && 0 <= j < |reqs| && pk in Proposed(reqs[i]) && pk in Proposed(reqs[j]) ==>
      Proposed(reqs[i])[pk] == Proposed(reqs[j])[pk]
  }

  lemma AgreeOnIs(t0: GraphTable, reqs: seq<SourceRequest>, pk: PrimaryKey)
    ensures AgreeOn(reqs, pk) <==> Agreed(Calls(t0, reqs), pk)
  {
    hide Proposed, Stale;
    var calls := Calls(t0, reqs);
    assert forall i :: 0 <= i < |reqs| ==> calls[i].proposed == Proposed(reqs[i]);
  }

  /** Some run of the calls, finished, has left this table. */
  ghost predicate CanEnd(t0: GraphTable, reqs: seq<SourceRequest>, t: GraphTable) {
    exists states: seq<State>, who :: IsFinishedRun(t0, reqs, states, who) && states[|who|].table == t
  }

  /** The calls, one after the other in some order, leave this table. */
  ghost predicate IsSerial(t0: GraphTable, reqs: seq<SourceRequest>, t: GraphTable) {
    exists order :: IsOrder(order, |reqs|) && t == Serial(t0, reqs, order)
  }

  lemma EndIsSerial(t0: GraphTable, reqs: seq<SourceRequest>, t: GraphTable) returns (order: seq<int>)
    requires Sound(t0) && Compatible(reqs) && CanEnd(t0, reqs, t)
    ensures IsOrder(order, |reqs|) && t == Serial(t0, reqs, order)
  {
    hide Sound, Compatible, Serial, Step, Init;
    var states: seq<State>, who :| IsFinishedRun(t0, reqs, states, who) && states[|who|].table == t;
    ConcurrentIsSerial(t0, reqs, states, who);
    order := states[|who|].puts;
  }

  lemma SerialCanEnd(t0: GraphTable, reqs: seq<SourceRequest>, order: seq<int>)
    requires Sound(t0) && IsOrder(order, |reqs|)
    ensures CanEnd(t0, reqs, Serial(t0, reqs, order))
  {
    hide Sound, Serial, IsFinishedRun;
    var states, who := EveryOrderIsARun(t0, reqs, order);
  }

  /** The tables that runs of compatible calls can leave are exactly those that the calls leave one after the other. */
  lemma RunsAreSerialOrders(t0: GraphTable, reqs: seq<SourceRequest>, t: GraphTable)
    requires Sound(t0) && Compatible(reqs)
    ensures CanEnd(t0, reqs, t) <==> IsSerial(t0, reqs, t)
  {
    hide Sound, Compatible, Serial, CanEnd;
    if CanEnd(t0, reqs, t) {
      var order := EndIsSerial(t0, reqs, t);
    }
    forall order | IsOrder(order, |reqs|) ensures CanEnd(t0, reqs, Serial(t0, reqs, order)) {
      SerialCanEnd(t0, reqs, order);
    }
  }

  /** A finished run and a serial order leave a row alike, but for the data of an item that the calls disagree on. */
  lemma RowOfRun(t0: GraphTable, reqs: seq<SourceRequest>, t: GraphTable, order: seq<int>, pk: PrimaryKey)
    requires Sound(t0) && Compatible(reqs) && CanEnd(t0, reqs, t) && IsOrder(order, |reqs|)
    ensures var u := Serial(t0, reqs, order);
      && (pk in t <==> pk in u)
      && (pk in t ==> t[pk].deleted == u[pk].deleted && (AgreeOn(reqs, pk) ==> t[pk] == u[pk]))
  {
    hide Sound, Compatible, Outcome, Serial, CanEnd, AgreeOn, Agreed;
    var puts := EndIsSerial(t0, reqs, t);
    SerialIs(t0, reqs, puts);
    SerialIs(t0, reqs, order);
    assert Members(puts) == Members(order);
    AgreeOnIs(t0, reqs, pk);
    OrdersOfRow(t0, Calls(t0, reqs), Members(order), puts, order, pk);
  }

  /** The orders that end with the one and with the other of two calls. */
  lemma TwoEndings(t0: GraphTable, reqs: seq<SourceRequest>, i: int, j: int, pk: PrimaryKey)
    returns (t: GraphTable, u: GraphTable, order: seq<int>)
    requires Sound(t0) && 0 <= i < |reqs| && 0 <= j < |reqs| && pk in Proposed(reqs[i])
    ensures CanEnd(t0, reqs, t) && CanEnd(t0, reqs, u) && IsOrder(order, |reqs|) && u == Serial(t0, reqs, order)
    ensures Live(t, pk) && t[pk].data == Proposed(reqs[i])[pk]
    ensures pk in Proposed(reqs[j]) ==> Live(u, pk) && u[pk].data == Proposed(reqs[j])[pk]
    ensures Owns(SourceKey(reqs[j].url), pk) && pk !in Proposed(reqs[j]) ==> !Live(u, pk)
  {
    hide Sound, Serial, CanEnd, Proposed, Owns;
    var a, b := OrderEnding(|reqs|, i), OrderEnding(|reqs|, j);
    OrderEndingIsOrder(|reqs|, i);
    OrderEndingIsOrder(|reqs|, j);
    SerialEnding(t0, reqs, a, pk);
    SerialEnding(t0, reqs, b, pk);
    SerialCanEnd(t0, reqs, a);
    SerialCanEnd(t0, reqs, b);
    t, u, order := Serial(t0, reqs, a), Serial(t0, reqs, b), b;
  }

  /** Where calls are not compatible, an edge is live after one run and not after another, which is a serial order. */
  lemma IncompatibilityShows(t0: GraphTable, reqs: seq<SourceRequest>)
    returns (t: GraphTable, u: GraphTable, order: seq<int>)
    requires Sound(t0) && !Compatible(reqs)
    ensures CanEnd(t0, reqs, t) && IsOrder(order, |reqs|) && u == Serial(t0, reqs, order) && !SameLiveEdges(t, u)
  {
    hide Sound, Serial, CanEnd, Proposed;
    var i, j, pk :| 0 <= i < |reqs| && 0 <= j < |reqs| && pk in Proposed(reqs[i]) && Owns(SourceKey(reqs[j].url), pk)
      && pk !in Proposed(reqs[j]);
    t, u, order := TwoEndings(t0, reqs, i, j, pk);
    assert IsEdge(pk);
  }

  /** Where calls disagree on an item, two runs of them, the one serial, leave it live with different data. */
  lemma DisagreementShows(t0: GraphTable, reqs: seq<SourceRequest>, pk: PrimaryKey)
    returns (t: GraphTable, u: GraphTable, order: seq<int>)
    requires Sound(t0) && !AgreeOn(reqs, pk)
    ensures CanEnd(t0, reqs, t) && CanEnd(t0, reqs, u) && IsOrder(order, |reqs|) && u == Serial(t0, reqs, order)
    ensures Live(t, pk) && Live(u, pk) && t[pk].data != u[pk].data
  {
    hide Sound, Serial, CanEnd, Proposed;
    var i, j :| 0 <= i < |reqs| && 0 <= j < |reqs| && pk in Proposed(reqs[i]) && pk in Proposed(reqs[j])
      && Proposed(reqs[i])[pk] != Proposed(reqs[j])[pk];
    t, u, order := TwoEndings(t0, reqs, i, j, pk);
  }

  /** Every finished run leaves the table of every serial order. */
  ghost predicate OrderFree(t0: GraphTable, reqs: seq<SourceRequest>) {
    forall t, order :: CanEnd(t0, reqs, t) && IsOrder(order, |reqs|) ==> t == Serial(t0, reqs, order)
  }

  /** Every finished run leaves the live edges of every serial order. */
  ghost predicate LiveEdgesOrderFree(t0: GraphTable, reqs: seq<SourceRequest>) {
    forall t, order :: CanEnd(t0, reqs, t) && IsOrder(order, |reqs|) ==> SameLiveEdges(t, Serial(t0, reqs, order))
  }

  /** Every finished run leaves the live edges of every serial order, with their data. */
  ghost predicate EdgesOrderFree(t0: GraphTable, reqs: seq<SourceRequest>) {
    && LiveEdgesOrderFree(t0, reqs)
    && forall t, order :: CanEnd(t0, reqs, t) && IsOrder(order, |reqs|) ==> SameEdgeData(t, Serial(t0, reqs, order))
  }

  /**
   All runs and all serial orders leave one and the same table if and only if the calls are compatible and agree on
   all items that they share.
   */
  lemma RunsAgree(t0: GraphTable, reqs: seq<SourceRequest>)
    requires Sound(t0)
    ensures OrderFree(t0, reqs) <==> Compatible(reqs) && forall pk :: AgreeOn(reqs, pk)
  {
    hide Sound, Compatible, Serial, CanEnd, AgreeOn;
    if !Compatible(reqs) {
      var t, u, order := IncompatibilityShows(t0, reqs);
    } else if pk :| !AgreeOn(reqs, pk) {
      var t, u, order := DisagreementShows(t0, reqs, pk);
    } else {
      forall t, order | CanEnd(t0, reqs, t) && IsOrder(order, |reqs|) ensures t == Serial(t0, reqs, order) {
        var u := Serial(t0, reqs, order);
        forall pk ensures (pk in t <==> pk in u) && (pk in t ==> t[pk] == u[pk]) {
          RowOfRun(t0, reqs, t, order, pk);
        }
      }
    }
  }

  lemma EdgesOfRun(t0: GraphTable, reqs: seq<SourceRequest>, t: GraphTable, order: seq<int>)
    requires Sound(t0) && Compatible(reqs) && CanEnd(t0, reqs, t) && IsOrder(order, |reqs|)
    ensures SameLiveEdges(t, Serial(t0, reqs, order))
    ensures (forall pk :: IsEdge(pk) ==> AgreeOn(reqs, pk)) ==> SameEdgeData(t, Serial(t0, reqs, order))
  {
    hide Sound, Compatible, Serial, CanEnd, AgreeOn, IsEdge;
    var u := Serial(t0, reqs, order);
    forall pk ensures (Live(t, pk) <==> Live(u, pk)) && (AgreeOn(reqs, pk) && Live(t, pk) ==> t[pk] == u[pk]) {
      RowOfRun(t0, reqs, t, order, pk);
    }
  }

  /**
   All runs and all serial orders leave the same live edges if and only if the calls are compatible, and with the same
   data if and only if they also agree on all edges that they share.
   */
  lemma EdgesOfRunsAgree(t0: GraphTable, reqs: seq<SourceRequest>)
    requires Sound(t0)
    ensures LiveEdgesOrderFree(t0, reqs) <==> Compatible(reqs)
    ensures EdgesOrderFree(t0, reqs) <==> Compatible(reqs) && forall pk :: IsEdge(pk) ==> AgreeOn(reqs, pk)
  {
    hide Sound, Compatible, Serial, CanEnd, AgreeOn, IsEdge, SameLiveEdges;
    if !Compatible(reqs) {
      var t, u, order := IncompatibilityShows(t0, reqs);
    } else {
      forall t, order | CanEnd(t0, reqs, t) && IsOrder(order, |reqs|)
        ensures SameLiveEdges(t, Serial(t0, reqs, order))
        ensures (forall pk :: IsEdge(pk) ==> AgreeOn(reqs, pk)) ==> SameEdgeData(t, Serial(t0, reqs, order))
      {
        EdgesOfRun(t0, reqs, t, order);
      }
      if pk :| IsEdge(pk) && !AgreeOn(reqs, pk) {
        var t, u, order := DisagreementShows(t0, reqs, pk);
        assert !SameEdgeData(t, Serial(t0, reqs, order));
      }
    }
  }

  lemma OneFile(req: SourceRequest, file: ManagementFile, pk: PrimaryKey, data: Message)
    requires req.files == [file] && file.dependencies == [] && pk.itemType == ManagesType
    requires FileSays(req, file, pk, data)
    ensures pk in Proposed(req) && Proposed(req)[pk] == data
  {
    hide Proposed;
    assert Says(req, Place(0, -1), pk, data);
    ProposedSays(req, pk, data);
  }

  lemma DisagreeingRequests() returns (reqs: seq<SourceRequest>, pk: PrimaryKey)
    ensures Independent(reqs) && IsEdge(pk) && !AgreeOn(reqs, pk)
  {
    var f1 := ManagementFile("l", "s", "1", "third", "o", "m", "n", []);
    var f2 := f1.(version := "2");
    var r1, r2 := SourceRequest("first", "k", "r", [f1]), SourceRequest("second", "k", "r", [f2]);
    reqs, pk := [r1, r2], ManagesRow(SourceKey("third"), ModuleKey("l", "o", "m"));
    assert r1.files[0] == f1 && r2.files[0] == f2;
    assert "first" != "second" && "third" != "first" && "third" != "second" && "1" != "2" by {
      assert "first"[0] == 'f' && "second"[0] == 's' && "third"[0] == 't' && "1"[0] == '1' && "2"[0] == '2';
    }
    OneFile(r1, f1, pk, Manages("l", "s", "1"));
    OneFile(r2, f2, pk, Manages("l", "s", "2"));
    assert reqs[0] == r1 && reqs[1] == r2;
  }

  /**
   Two calls that name the same third repository as the source of the same module, with different versions: two runs of
   them on an empty store leave the edge between the two with different data.
   */
  lemma DisagreementWitness()
    ensures exists reqs, t, u ::
      && Independent(reqs)
      && CanEnd(map[], reqs, t)
      && CanEnd(map[], reqs, u)
      && SameLiveEdges(t, u)
      && !SameEdgeData(t, u)
  {
    hide Sound, Independent, Serial, CanEnd, AgreeOn, IsEdge, SameLiveEdges;
    EmptyIsSound();
    var reqs, pk := DisagreeingRequests();
    IndependentIsCompatible(reqs);
    var t, u, order := DisagreementShows(map[], reqs, pk);
    EdgesOfRun(map[], reqs, t, order);
    assert SameLiveEdges(t, u) && !SameEdgeData(t, u);
  }

  // ---- Calls for the same source ----

  /** Two calls on an empty store that both read before either puts leave what each of them declares. */
  lemma BothPut(a: SourceRequest, b: SourceRequest)
    ensures CanEnd(map[], [a, b], PutIndex(PutIndex(map[], Proposed(a)), Proposed(b)))
  {
    hide Reaches, Proposed, Step, Init, Stale;
    var reqs := [a, b];
    EmptyIsSound();
    var s := CallsFinish(map[], reqs, []);
    s := CallDeletes(map[], reqs, s, 0);
    assert s.table == map[];
    s := CallDeletes(map[], reqs, s, 1);
    assert s.table == map[];
    s := CallPuts(map[], reqs, s, 0);
    s := CallPuts(map[], reqs, s, 1);
    var states, who := RunOf(map[], reqs, s);
  }

  /** The later of two calls for one source deletes what only the earlier declared. */
  lemma LaterDeletes(a: SourceRequest, b: SourceRequest, pk: PrimaryKey)
    requires a.url == b.url && Owns(SourceKey(a.url), pk) && !Declares(b, pk)
    ensures !Live(Tracked(Tracked(map[], a), b), pk)
  {
    EmptyIsSound();
    DeleteKeepsSound(map[], a);
    PutKeepsSound(AfterDelete(map[], a), a);
    TrackIsExact(Tracked(map[], a), b, pk);
  }

  lemma SerialOfTwo(reqs: seq<SourceRequest>, order: seq<int>)
    requires |reqs| == 2 && IsOrder(order, 2)
    ensures order == [0, 1] || order == [1, 0]
    ensures Serial(map[], reqs, order) == Tracked(Tracked(map[], reqs[order[0]]), reqs[order[1]])
  {
    hide Tracked;
    assert order == [order[0], order[1]];
    var first := order[..|order| - 1];
    assert first == [order[0]] && first[..|first| - 1] == [];
    assert Serial(map[], reqs, []) == map[];
    assert Serial(map[], reqs, first) == Tracked(map[], reqs[order[0]]);
  }

  /**
   Two calls for the same source, the one declaring one module and the other another, can leave both modules managed,
   which they do in no serial order.
   */
  lemma SameSourceWitness()
    ensures exists reqs: seq<SourceRequest>, t ::
      |reqs| == 2 && reqs[0].url == reqs[1].url && CanEnd(map[], reqs, t) && !IsSerial(map[], reqs, t)
  {
    hide Tracked, CanEnd, Serial, Proposed, Declares;
    var f1 := ManagementFile("l", "s", "v", "", "o", "m", "", []);
    var f2 := f1.(mod := "n");
    var a, b := SourceRequest("u", "k", "r", [f1]), SourceRequest("u", "k", "r", [f2]);
    var pk1, pk2 :=
      ManagesRow(SourceKey("u"), ModuleKey("l", "o", "m")), ManagesRow(SourceKey("u"), ModuleKey("l", "o", "n"));
    DeclaresOnly(a, f1, b, f2);
    DeclaresOnly(b, f2, a, f1);
    ProposedKeys(a, pk1);
    ProposedKeys(b, pk2);
    var reqs, t := [a, b], PutIndex(PutIndex(map[], Proposed(a)), Proposed(b));
    BothPut(a, b);
    assert Live(t, pk1) && Live(t, pk2);
    LaterDeletes(a, b, pk1);
    LaterDeletes(b, a, pk2);
    forall order | IsOrder(order, 2) ensures t != Serial(map[], reqs, order) { SerialOfTwo(reqs, order); }
    assert |reqs| == 2 && reqs[0].url == reqs[1].url && CanEnd(map[], reqs, t) && !IsSerial(map[], reqs, t);
  }

  lemma DeclaresOnly(a: SourceRequest, file: ManagementFile, b: SourceRequest, other: ManagementFile)
    requires a.files == [file] && b.files == [other] && file.mod != other.mod && other.dependencies == []
    ensures var pk := ManagesRow(SourceKey(a.url), ModuleKey(file.language, file.organization, file.mod));
      Declares(a, pk) && !Declares(b, pk)
  {
    ManagesIsDeclared(a, file);
  }
}
