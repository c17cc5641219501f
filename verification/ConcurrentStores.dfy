/** v1beta Store calls for different sources, run at the same time. */
module ConcurrentStores {
  import opened SoftTable
  import opened Interleaving
  import opened Transforms
  import opened GraphStoreV1Beta
  import opened ManifestStorage
  import opened ManifestRuns

  // Each query of a walk, each Put transaction and each Delete transaction is one step, and the steps of different
  // calls interleave freely.

  /** How far one call is. `pending` are the modules of the second tier that have not been queried yet. */
  datatype Phase =
    | ReadSource
    | ReadModules(pending: set<Key>, found: set<PrimaryKey>)
    | AboutToDelete(found: set<PrimaryKey>)
    | Finished

  /** `puts` is a history: the calls that have put, in the order of their Put transactions. */
  datatype State = State(table: GraphTable, phases: seq<Phase>, puts: seq<int>)

  ghost function SourceFound(t: GraphTable, source: Key): Phase {
    ReadModules(NextKeys(t, {source}), Found(t, source, {source}))
  }

  /** Call i has queried one more module. */
  ghost function AfterModule(reqs: seq<StoreRequest>, s: State, i: nat, mod: Key): State
    requires i < |s.phases| == |reqs| && s.phases[i].ReadModules?
  {
    var found := s.phases[i].found + Found(s.table, SourceKey(reqs[i].url), {mod});
    State(s.table, s.phases[i := ReadModules(s.phases[i].pending - {mod}, found)], s.puts)
  }

  ghost function ToDelete(m: Marshal, found: set<PrimaryKey>, req: StoreRequest): set<PrimaryKey> {
    found - EdgePks(ProposedEdges(m, req))
  }

  /** Call i takes one step. */
  ghost predicate Step(m: Marshal, reqs: seq<StoreRequest>, s: State, s': State, i: nat)
    requires i < |s.phases| == |reqs|
  {
    match s.phases[i]
    case ReadSource =>
      s' == State(s.table, s.phases[i := SourceFound(s.table, SourceKey(reqs[i].url))], s.puts)
    case ReadModules(pending, found) =>
      if pending == {} then
        s' == State(AfterPut(m, s.table, reqs[i]), s.phases[i := AboutToDelete(found)], s.puts + [i])
      else
        exists mod :: mod in pending && s' == AfterModule(reqs, s, i, mod)
    case AboutToDelete(found) =>
      s' == State(DeleteKeys(s.table, ToDelete(m, found, reqs[i])), s.phases[i := Finished], s.puts)
    case Finished => false
  }

  ghost predicate Init(t0: GraphTable, reqs: seq<StoreRequest>, s: State) {
    s.table == t0 && s.puts == [] && |s.phases| == |reqs| && forall i :: 0 <= i < |reqs| ==> s.phases[i] == ReadSource
  }

  /** A run of all the calls: `states` from the start on, `who` the call that takes each step. */
  ghost predicate IsRun(m: Marshal, t0: GraphTable, reqs: seq<StoreRequest>, states: seq<State>, who: seq<nat>) {
    && |states| == |who| + 1
    && Init(t0, reqs, states[0])
    && (forall k :: 0 <= k < |states| ==> |states[k].phases| == |reqs|)
    && (forall k :: 0 <= k < |who| ==> who[k] < |reqs| && Step(m, reqs, states[k], states[k + 1], who[k]))
  }

  /** The calls are for different sources, and none reports another's URL as the source of one of its files. */
  ghost predicate Independent(reqs: seq<StoreRequest>) {
    && (forall i, j :: 0 <= i < j < |reqs| ==> reqs[i].url != reqs[j].url)
    && (forall i, j, file :: 0 <= i < |reqs| && 0 <= j < |reqs| && i != j && file in reqs[i].manifestFiles ==>
          file.sourceUrl != reqs[j].url)
  }

  /** An edge that one of the calls declares and the source of another owns is declared by that other call too. */
  ghost predicate Compatible(reqs: seq<StoreRequest>) {
    forall i, j, pk ::
      0 <= i < |reqs| && 0 <= j < |reqs| && Declares(reqs[i], pk) && Owns(SourceKey(reqs[j].url), pk) ==>
        Declares(reqs[j], pk)
  }

  lemma IndependentIsCompatible(reqs: seq<StoreRequest>)
    requires Independent(reqs)
    ensures Compatible(reqs)
  {
    forall i, j, pk | 0 <= i < |reqs| && 0 <= j < |reqs| && Declares(reqs[i], pk) && Owns(SourceKey(reqs[j].url), pk)
      ensures Declares(reqs[j], pk)
    {
      if i != j {
        assert reqs[i].url != reqs[j].url;
        DeclaredHangsOn(reqs[i], pk);
      }
    }
  }

  // ---- What a call does to the table, whenever it does it ----

  /** What a call puts: the last item for each of its keys. */
  ghost function Proposed(m: Marshal, req: StoreRequest): Index<PrimaryKey, Data> {
    IndexOf(Items(m, req))
  }

  lemma ProposedIs(m: Marshal, req: StoreRequest)
    ensures forall pk :: pk in Proposed(m, req) <==> Declares(req, pk)
  {
    hide Items, Declares;
    AfterPutIs(m, map[], req);
  }

  /** A call drops what it would find stale at the start. */
  ghost function Calls(m: Marshal, t0: GraphTable, reqs: seq<StoreRequest>): seq<Call<PrimaryKey, Data>> {
    seq(|reqs|, i requires 0 <= i < |reqs| => Call(Proposed(m, reqs[i]), Stale(m, t0, reqs[i])))
  }

  lemma CallsAreApart(m: Marshal, t0: GraphTable, reqs: seq<StoreRequest>)
    requires Sound(t0) && Compatible(reqs)
    ensures Apart(Calls(m, t0, reqs))
  {
    hide Sound, Stale, Proposed, Owns, Declares;
    forall i, j, pk | 0 <= i < |reqs| && 0 <= j < |reqs| && pk in Stale(m, t0, reqs[i])
      ensures pk !in Proposed(m, reqs[j])
    {
      StaleIs(m, t0, reqs[i], pk);
      ProposedIs(m, reqs[j]);
    }
  }

  /** An edge that call i owns and does not declare is as it was at the start, unless a Delete transaction had it. */
  lemma UndeclaredEdges(m: Marshal, t0: GraphTable, reqs: seq<StoreRequest>, deleters: set<int>, puts: seq<int>, i: int,
                        pk: PrimaryKey)
    requires Sound(t0) && Compatible(reqs) && AreCalls(Calls(m, t0, reqs), puts)
    requires 0 <= i < |reqs| && Owns(SourceKey(reqs[i].url), pk) && !Declares(reqs[i], pk)
    ensures Live(Outcome(t0, Calls(m, t0, reqs), deleters, puts), pk)
       <==> Live(t0, pk) && pk !in Dropped(Calls(m, t0, reqs), deleters)
  {
    hide Sound, Stale, Proposed, Owns, Declares, Outcome, Dropped;
    var calls := Calls(m, t0, reqs);
    if pk in Dropped(calls, deleters) {
      CallsAreApart(m, t0, reqs);
      DroppedStays(t0, calls, deleters, puts, pk);
    } else {
      forall k | 0 <= k < |puts| ensures pk !in calls[puts[k]].proposed { ProposedIs(m, reqs[puts[k]]); }
      Untouched(t0, calls, deleters, puts, pk);
    }
  }

  /** What is stale for a call is what was stale at the start, without what has been deleted. */
  lemma StaleLeft(m: Marshal, t0: GraphTable, reqs: seq<StoreRequest>, deleters: set<int>, puts: seq<int>, i: int)
    requires Sound(t0) && Compatible(reqs) && AreCalls(Calls(m, t0, reqs), puts) && 0 <= i < |reqs|
    requires Sound(Outcome(t0, Calls(m, t0, reqs), deleters, puts))
    ensures Stale(m, Outcome(t0, Calls(m, t0, reqs), deleters, puts), reqs[i])
         == Stale(m, t0, reqs[i]) - Dropped(Calls(m, t0, reqs), deleters)
  {
    hide Sound, Compatible, Stale, Owns, Declares, Outcome, Dropped, Calls;
    var t, calls := Outcome(t0, Calls(m, t0, reqs), deleters, puts), Calls(m, t0, reqs);
    forall pk ensures pk in Stale(m, t, reqs[i]) <==> pk in Stale(m, t0, reqs[i]) && pk !in Dropped(calls, deleters) {
      StaleIs(m, t, reqs[i], pk);
      StaleIs(m, t0, reqs[i], pk);
      if Owns(SourceKey(reqs[i].url), pk) && !Declares(reqs[i], pk) {
        UndeclaredEdges(m, t0, reqs, deleters, puts, i, pk);
      }
    }
  }

  // ---- The invariant of a run ----

  ghost function Deleters(s: State): set<int> {
    set i | 0 <= i < |s.phases| && s.phases[i] == Finished
  }

  /** `puts` lists the calls that have put, each once. */
  ghost predicate PutsAre(s: State) {
    && (forall k :: 0 <= k < |s.puts| ==> 0 <= s.puts[k] < |s.phases|)
    && (forall k, l :: 0 <= k < l < |s.puts| ==> s.puts[k] != s.puts[l])
    && (forall i :: 0 <= i < |s.phases| ==> (i in s.puts <==> s.phases[i].AboutToDelete? || s.phases[i] == Finished))
  }

  /**
   What a call has found so far: of the edges that it does not declare only stale ones, and all of these but those that
   are gone and the dependencies that it has still to query.
   */
  ghost predicate FoundIs(m: Marshal, req: StoreRequest, stale: set<PrimaryKey>, gone: set<PrimaryKey>,
                          pending: set<Key>, found: set<PrimaryKey>) {
    && (forall mod :: mod in pending ==> mod.ModuleKey?)
    && ToDelete(m, found, req) <= stale
    && forall pk :: pk in stale ==>
         pk in ToDelete(m, found, req) || pk in gone || (IsDepends(pk) && pk.k1 in pending)
  }

  ghost predicate PhaseIs(m: Marshal, req: StoreRequest, stale: set<PrimaryKey>, gone: set<PrimaryKey>, phase: Phase) {
    match phase
    case ReadModules(pending, found) => FoundIs(m, req, stale, gone, pending, found)
    case AboutToDelete(found) => FoundIs(m, req, stale, gone, {}, found)
    case _ => true
  }

  ghost predicate Inv(m: Marshal, t0: GraphTable, reqs: seq<StoreRequest>, s: State) {
    && |s.phases| == |reqs|
    && PutsAre(s)
    && Sound(s.table)
    && s.table == Outcome(t0, Calls(m, t0, reqs), Deleters(s), s.puts)
    && forall i :: 0 <= i < |reqs| ==>
         PhaseIs(m, reqs[i], Stale(m, t0, reqs[i]), Dropped(Calls(m, t0, reqs), Deleters(s)), s.phases[i])
  }

  lemma ToDeleteIs(m: Marshal, found: set<PrimaryKey>, req: StoreRequest, pk: PrimaryKey)
    requires !IsNode(pk)
    ensures pk in ToDelete(m, found, req) <==> pk in found && !Declares(req, pk)
  {
    hide Declares, DeclaresEdge, DeclaresNode, ProposedEdges;
    ProposedAre(m, req, pk);
    DeclaresParts(req);
    if Declares(req, pk) { DeclaredHangsOn(req, pk); }
  }

  lemma SourceFoundIs(m: Marshal, t: GraphTable, req: StoreRequest)
    requires Sound(t)
    ensures var source := SourceKey(req.url);
      FoundIs(m, req, Stale(m, t, req), {}, NextKeys(t, {source}), Found(t, source, {source}))
  {
    hide Sound, NextKeys, Found, Declares, Stale, ToDelete;
    var source := SourceKey(req.url);
    var found := Found(t, source, {source});
    forall mod ensures mod in NextKeys(t, {source}) <==> mod.ModuleKey? && Live(t, ManagesRow(source, mod)) {
      TierOne(t, source, mod);
    }
    forall pk
      ensures pk in ToDelete(m, found, req) ==> pk in Stale(m, t, req)
      ensures pk in Stale(m, t, req) ==>
        pk in ToDelete(m, found, req) || (IsDepends(pk) && pk.k1 in NextKeys(t, {source}))
    {
      FoundFromSource(t, source, pk);
      StaleIs(m, t, req, pk);
      if IsNode(pk) { NothingOfNodes(m, found, req, pk); } else { ToDeleteIs(m, found, req, pk); }
      if Live(t, pk) && Owns(source, pk) && IsDepends(pk) { OwnedIsManaged(t, pk); DependsHasModule(t, pk); }
    }
  }

  lemma NothingOfNodes(m: Marshal, found: set<PrimaryKey>, req: StoreRequest, pk: PrimaryKey)
    ensures pk !in found ==> pk !in ToDelete(m, found, req)
  {
  }

  lemma DependsHasModule(t: GraphTable, pk: PrimaryKey)
    requires Sound(t) && Live(t, pk) && IsDepends(pk)
    ensures pk.k1.ModuleKey?
  {
  }

  lemma ModuleFoundIs(m: Marshal, t: GraphTable, req: StoreRequest, stale: set<PrimaryKey>, gone: set<PrimaryKey>,
                      pending: set<Key>, found: set<PrimaryKey>, mod: Key)
    requires Sound(t) && FoundIs(m, req, stale, gone, pending, found) && mod in pending
    requires Stale(m, t, req) <= stale <= Stale(m, t, req) + gone
    ensures FoundIs(m, req, stale, gone, pending - {mod}, found + Found(t, SourceKey(req.url), {mod}))
  {
    hide Sound, Found, Stale, Declares, ProposedEdges;
    var source := SourceKey(req.url);
    var found' := found + Found(t, source, {mod});
    forall pk
      ensures pk in ToDelete(m, found', req) <==>
              pk in ToDelete(m, found, req) || (pk in Stale(m, t, req) && IsDepends(pk) && pk.k1 == mod)
    {
      FoundFromModules(t, source, {mod}, pk);
      StaleIs(m, t, req, pk);
      if !IsNode(pk) {
        ToDeleteIs(m, found, req, pk);
        ToDeleteIs(m, found', req, pk);
      }
    }
  }

  lemma FoundSince(m: Marshal, req: StoreRequest, left: set<PrimaryKey>, stale: set<PrimaryKey>, gone: set<PrimaryKey>,
                   pending: set<Key>, found: set<PrimaryKey>)
    requires FoundIs(m, req, left, {}, pending, found) && left <= stale <= left + gone
    ensures FoundIs(m, req, stale, gone, pending, found)
  {
    hide ToDelete;
  }

  /** A query of call i, which sees what is left of what was stale at the start. */
  lemma ReadKeepsInv(m: Marshal, t0: GraphTable, reqs: seq<StoreRequest>, s: State, s': State, i: nat)
    requires Sound(t0) && Compatible(reqs) && Inv(m, t0, reqs, s) && i < |reqs| && Step(m, reqs, s, s', i)
    requires s.phases[i] == ReadSource || (s.phases[i].ReadModules? && s.phases[i].pending != {})
    ensures Inv(m, t0, reqs, s')
  {
    hide Sound, Compatible, Outcome, Stale, Dropped, FoundIs, Found, NextKeys, Proposed, Declares;
    var gone := Dropped(Calls(m, t0, reqs), Deleters(s));
    StaleLeft(m, t0, reqs, Deleters(s), s.puts, i);
    assert Deleters(s') == Deleters(s);
    if s.phases[i] == ReadSource {
      var source := SourceKey(reqs[i].url);
      SourceFoundIs(m, s.table, reqs[i]);
      FoundSince(m, reqs[i], Stale(m, s.table, reqs[i]), Stale(m, t0, reqs[i]), gone, NextKeys(s.table, {source}),
                 Found(s.table, source, {source}));
    } else {
      var pending, found := s.phases[i].pending, s.phases[i].found;
      var mod :| mod in pending && s' == AfterModule(reqs, s, i, mod);
      ModuleFoundIs(m, s.table, reqs[i], Stale(m, t0, reqs[i]), gone, pending, found, mod);
    }
  }

  lemma PutKeepsInv(m: Marshal, t0: GraphTable, reqs: seq<StoreRequest>, s: State, s': State, i: nat)
    requires Sound(t0) && Inv(m, t0, reqs, s) && i < |reqs| && s.phases[i].ReadModules? && s.phases[i].pending == {}
    requires s' == State(AfterPut(m, s.table, reqs[i]), s.phases[i := AboutToDelete(s.phases[i].found)], s.puts + [i])
    ensures Inv(m, t0, reqs, s')
  {
    hide Sound, Outcome, Stale, Items, FoundIs, ToDelete, AfterPut, Declares, Dropped;
    AfterPutIs(m, s.table, reqs[i]);
    PutStep(t0, Calls(m, t0, reqs), Deleters(s), s.puts, i);
    assert Deleters(s') == Deleters(s);
    assert forall j :: j in s'.puts <==> j in s.puts || j == i;
    ManifestRuns.PutKeepsSound(m, s.table, reqs[i]);
  }

  lemma DeleteKeepsInv(m: Marshal, t0: GraphTable, reqs: seq<StoreRequest>, s: State, s': State, i: nat)
    requires Sound(t0) && Compatible(reqs) && Inv(m, t0, reqs, s) && i < |reqs| && s.phases[i].AboutToDelete?
    requires s' == State(DeleteKeys(s.table, ToDelete(m, s.phases[i].found, reqs[i])), s.phases[i := Finished], s.puts)
    ensures Inv(m, t0, reqs, s')
  {
    hide Sound, Compatible, Outcome, Stale, Items, ToDelete, Declares, Owns, Dropped, DeleteKeys, Proposed;
    var calls := Calls(m, t0, reqs);
    CallsAreApart(m, t0, reqs);
    DeleteStep(t0, calls, Deleters(s), s.puts, i, ToDelete(m, s.phases[i].found, reqs[i]));
    DeleteStep(t0, calls, Deleters(s), s.puts, i, Stale(m, t0, reqs[i]));
    assert Deleters(s') == Deleters(s) + {i};
    DroppedStep(calls, Deleters(s), i);
    forall pk | Live(s.table, pk) && Owns(SourceKey(reqs[i].url), pk) && !Declares(reqs[i], pk) ensures Live(t0, pk) {
      UndeclaredEdges(m, t0, reqs, Deleters(s), s.puts, i, pk);
    }
    ManifestRuns.DeleteKeepsSound(m, s.table, t0, reqs[i]);
  }

  lemma StepKeepsInv(m: Marshal, t0: GraphTable, reqs: seq<StoreRequest>, s: State, s': State, i: nat)
    requires Sound(t0) && Compatible(reqs) && Inv(m, t0, reqs, s) && i < |reqs| && Step(m, reqs, s, s', i)
    ensures Inv(m, t0, reqs, s')
  {
    hide Sound, Compatible, Outcome, Stale, FoundIs, PhaseIs, ToDelete, AfterPut, AfterModule, SourceFound;
    match s.phases[i]
    case ReadSource => ReadKeepsInv(m, t0, reqs, s, s', i);
    case ReadModules(pending, _) =>
      if pending == {} { PutKeepsInv(m, t0, reqs, s, s', i); } else { ReadKeepsInv(m, t0, reqs, s, s', i); }
    case AboutToDelete(_) => DeleteKeepsInv(m, t0, reqs, s, s', i);
  }

  lemma NothingDone(m: Marshal, t0: GraphTable, reqs: seq<StoreRequest>)
    ensures t0 == Outcome(t0, Calls(m, t0, reqs), Members([]), [])
  {
    hide Stale, Items;
    assert Members([]) == {};
    assert DeleteKeys(t0, Dropped(Calls(m, t0, reqs), {})) == t0;
  }

  lemma {:induction false} RunKeepsInv(m: Marshal, t0: GraphTable, reqs: seq<StoreRequest>, states: seq<State>,
                                       who: seq<nat>, k: nat)
    requires Sound(t0) && Compatible(reqs) && IsRun(m, t0, reqs, states, who) && k < |states|
    ensures Inv(m, t0, reqs, states[k])
  {
    hide Inv, Step, Sound, Compatible, Init;
    if k == 0 {
      StartInv(m, t0, reqs, states[0]);
    } else {
      RunKeepsInv(m, t0, reqs, states, who, k - 1);
      StepKeepsInv(m, t0, reqs, states[k - 1], states[k], who[k - 1]);
    }
  }

  lemma StartInv(m: Marshal, t0: GraphTable, reqs: seq<StoreRequest>, s: State)
    requires Sound(t0) && Init(t0, reqs, s)
    ensures Inv(m, t0, reqs, s)
  {
    hide Sound, Outcome, Calls;
    NothingDone(m, t0, reqs);
    assert Deleters(s) == {} == Members([]);
  }

  // ---- The same calls one after the other ----

  ghost predicate AreRequests(reqs: seq<StoreRequest>, order: seq<int>) {
    forall k :: 0 <= k < |order| ==> 0 <= order[k] < |reqs|
  }

  ghost function Serial(m: Marshal, t: GraphTable, reqs: seq<StoreRequest>, order: seq<int>): GraphTable
    requires AreRequests(reqs, order)
  {
    if order == [] then t else Stored(m, Serial(m, t, reqs, order[..|order| - 1]), reqs[order[|order| - 1]])
  }

  lemma {:induction false} SerialIsSound(m: Marshal, t0: GraphTable, reqs: seq<StoreRequest>, order: seq<int>)
    requires Sound(t0) && AreRequests(reqs, order)
    ensures Sound(Serial(m, t0, reqs, order))
  {
    hide Sound, Stored;
    if order != [] {
      SerialIsSound(m, t0, reqs, order[..|order| - 1]);
      StoreKeepsSound(m, Serial(m, t0, reqs, order[..|order| - 1]), reqs[order[|order| - 1]]);
    }
  }

  lemma {:induction false} SerialIs(m: Marshal, t0: GraphTable, reqs: seq<StoreRequest>, order: seq<int>)
    requires Sound(t0) && Compatible(reqs) && AreRequests(reqs, order)
    ensures AreCalls(Calls(m, t0, reqs), order)
    ensures Serial(m, t0, reqs, order) == Outcome(t0, Calls(m, t0, reqs), Members(order), order)
  {
    hide Sound, Compatible, Outcome, Stale, Items, DeleteKeys, Dropped, AfterPut, Declares;
    if order == [] {
      NothingDone(m, t0, reqs);
    } else {
      var front, i := order[..|order| - 1], order[|order| - 1];
      var t, calls := Serial(m, t0, reqs, front), Calls(m, t0, reqs);
      SerialIs(m, t0, reqs, front);
      SerialIsSound(m, t0, reqs, front);
      StaleLeft(m, t0, reqs, Members(front), front, i);
      CallsAreApart(m, t0, reqs);
      AfterPutIs(m, t, reqs[i]);
      PutStep(t0, calls, Members(front), front, i);
      DeleteStep(t0, calls, Members(front), front + [i], i, Stale(m, t, reqs[i]));
      assert order == front + [i] && Members(order) == Members(front) + {i};
    }
  }

  lemma StoredAt(m: Marshal, t: GraphTable, req: StoreRequest, pk: PrimaryKey)
    requires Sound(t)
    ensures Declares(req, pk) ==> pk in Proposed(m, req) && Live(Stored(m, t, req), pk)
    ensures Declares(req, pk) ==> Stored(m, t, req)[pk].data == Proposed(m, req)[pk]
    ensures Owns(SourceKey(req.url), pk) && !Declares(req, pk) ==> !Live(Stored(m, t, req), pk)
  {
    hide Sound, Stale, Items, Declares, Owns, AfterPut;
    StaleIs(m, t, req, pk);
    AfterPutIs(m, t, req);
    StoreIsExact(m, t, req, pk);
  }

  /** The call that comes last decides the rows that it declares, and the edges of its source. */
  lemma SerialEnding(m: Marshal, t0: GraphTable, reqs: seq<StoreRequest>, order: seq<int>, pk: PrimaryKey)
    requires Sound(t0) && AreRequests(reqs, order) && order != []
    ensures var t, req := Serial(m, t0, reqs, order), reqs[order[|order| - 1]];
      && (pk in Proposed(m, req) ==> Live(t, pk) && t[pk].data == Proposed(m, req)[pk])
      && (Owns(SourceKey(req.url), pk) && pk !in Proposed(m, req) ==> !Live(t, pk))
  {
    hide Sound, Stored, Proposed, Owns, Declares;
    var front := order[..|order| - 1];
    ProposedIs(m, reqs[order[|order| - 1]]);
    SerialIsSound(m, t0, reqs, front);
    StoredAt(m, Serial(m, t0, reqs, front), reqs[order[|order| - 1]], pk);
  }

  // ---- Finished runs ----

  /** A run in which every call has finished. */
  ghost predicate IsFinishedRun(m: Marshal, t0: GraphTable, reqs: seq<StoreRequest>, states: seq<State>,
                                who: seq<nat>) {
    IsRun(m, t0, reqs, states, who) && AllFinished(reqs, states[|who|])
  }

  ghost predicate AllFinished(reqs: seq<StoreRequest>, s: State) {
    |s.phases| == |reqs| && forall i :: 0 <= i < |reqs| ==> s.phases[i] == Finished
  }

  /** The table is that of the serial order of the Put transactions: nodes, edges, data and deletion marks. */
  ghost predicate IsInPutOrder(m: Marshal, t0: GraphTable, reqs: seq<StoreRequest>, s: State) {
    IsOrder(s.puts, |reqs|) && s.table == Serial(m, t0, reqs, s.puts)
  }

  /** However compatible calls interleave, once all have finished the table is that of a serial order. */
  lemma ConcurrentIsSerial(m: Marshal, t0: GraphTable, reqs: seq<StoreRequest>, states: seq<State>, who: seq<nat>)
    requires Sound(t0) && Compatible(reqs) && IsFinishedRun(m, t0, reqs, states, who)
    ensures IsInPutOrder(m, t0, reqs, states[|who|])
  {
    hide Sound, Compatible, Outcome, Serial, Step, PhaseIs;
    var s := states[|who|];
    RunKeepsInv(m, t0, reqs, states, who, |who|);
    OrderIsComplete(s.puts, |reqs|);
    SerialIs(m, t0, reqs, s.puts);
    assert Deleters(s) == Members(s.puts);
  }

  // ---- Runs of whole calls ----

  ghost predicate Reaches(m: Marshal, t0: GraphTable, reqs: seq<StoreRequest>, s: State) {
    exists states, who :: IsRun(m, t0, reqs, states, who) && states[|who|] == s
  }

  lemma StepReaches(m: Marshal, t0: GraphTable, reqs: seq<StoreRequest>, s: State, s': State, i: nat)
    requires Reaches(m, t0, reqs, s) && |s.phases| == |s'.phases| == |reqs| && i < |reqs| && Step(m, reqs, s, s', i)
    ensures Reaches(m, t0, reqs, s')
  {
    hide Step, Init;
    var states, who :| IsRun(m, t0, reqs, states, who) && states[|who|] == s;
    var states', who' := states + [s'], who + [i];
    assert IsRun(m, t0, reqs, states', who') && states'[|who'|] == s';
  }

  lemma {:induction false} ModulesRead(m: Marshal, t0: GraphTable, reqs: seq<StoreRequest>, s: State, i: nat)
    returns (s': State, found: set<PrimaryKey>)
    requires Reaches(m, t0, reqs, s) && |s.phases| == |reqs| && i < |reqs| && s.phases[i].ReadModules?
    requires Sound(s.table) ==>
      FoundIs(m, reqs[i], Stale(m, s.table, reqs[i]), {}, s.phases[i].pending, s.phases[i].found)
    ensures Reaches(m, t0, reqs, s') && s' == State(s.table, s.phases[i := ReadModules({}, found)], s.puts)
    ensures Sound(s.table) ==> FoundIs(m, reqs[i], Stale(m, s.table, reqs[i]), {}, {}, found)
    decreases |s.phases[i].pending|
  {
    hide Reaches, Found, Sound, Stale, FoundIs;
    var pending := s.phases[i].pending;
    if pending == {} {
      s', found := s, s.phases[i].found;
    } else {
      var mod :| mod in pending;
      var next := AfterModule(reqs, s, i, mod);
      StepReaches(m, t0, reqs, s, next, i);
      if Sound(s.table) {
        ModuleFoundIs(m, s.table, reqs[i], Stale(m, s.table, reqs[i]), {}, pending, s.phases[i].found, mod);
      }
      s', found := ModulesRead(m, t0, reqs, next, i);
    }
  }

  /** Call i reads everything, undisturbed, and so finds what is stale. */
  lemma CallReads(m: Marshal, t0: GraphTable, reqs: seq<StoreRequest>, s: State, i: nat)
    returns (s': State, found: set<PrimaryKey>)
    requires Reaches(m, t0, reqs, s) && |s.phases| == |reqs| && i < |reqs| && s.phases[i] == ReadSource
    ensures Reaches(m, t0, reqs, s') && s' == State(s.table, s.phases[i := ReadModules({}, found)], s.puts)
    ensures Sound(s.table) ==> ToDelete(m, found, reqs[i]) == Stale(m, s.table, reqs[i])
  {
    hide Reaches, Found, NextKeys, Sound, Stale, ToDelete;
    var first := State(s.table, s.phases[i := SourceFound(s.table, SourceKey(reqs[i].url))], s.puts);
    StepReaches(m, t0, reqs, s, first, i);
    if Sound(s.table) { SourceFoundIs(m, s.table, reqs[i]); }
    s', found := ModulesRead(m, t0, reqs, first, i);
  }

  lemma CallPuts(m: Marshal, t0: GraphTable, reqs: seq<StoreRequest>, s: State, i: nat) returns (s': State)
    requires Reaches(m, t0, reqs, s) && |s.phases| == |reqs| && i < |reqs|
    requires s.phases[i].ReadModules? && s.phases[i].pending == {}
    ensures Reaches(m, t0, reqs, s')
    ensures s' == State(AfterPut(m, s.table, reqs[i]), s.phases[i := AboutToDelete(s.phases[i].found)], s.puts + [i])
  {
    hide Reaches, AfterPut;
    s' := State(AfterPut(m, s.table, reqs[i]), s.phases[i := AboutToDelete(s.phases[i].found)], s.puts + [i]);
    StepReaches(m, t0, reqs, s, s', i);
  }

  lemma CallDeletes(m: Marshal, t0: GraphTable, reqs: seq<StoreRequest>, s: State, i: nat) returns (s': State)
    requires Reaches(m, t0, reqs, s) && |s.phases| == |reqs| && i < |reqs| && s.phases[i].AboutToDelete?
    ensures Reaches(m, t0, reqs, s')
    ensures s' == State(DeleteKeys(s.table, ToDelete(m, s.phases[i].found, reqs[i])), s.phases[i := Finished], s.puts)
  {
    hide Reaches, ToDelete, DeleteKeys;
    s' := State(DeleteKeys(s.table, ToDelete(m, s.phases[i].found, reqs[i])), s.phases[i := Finished], s.puts);
    StepReaches(m, t0, reqs, s, s', i);
  }

  lemma PutAndDeleted(m: Marshal, t: GraphTable, req: StoreRequest, found: set<PrimaryKey>, pk: PrimaryKey)
    requires !IsNode(pk)
    ensures var t' := DeleteKeys(AfterPut(m, t, req), ToDelete(m, found, req));
      && (Declares(req, pk) ==> Live(t', pk))
      && (!Declares(req, pk) ==> (Live(t', pk) <==> Live(t, pk) && pk !in found))
  {
    hide Declares, Items, ToDelete, AfterPut;
    AfterPutIs(m, t, req);
    ToDeleteIs(m, found, req, pk);
  }

  /** Call i runs as a whole, undisturbed. */
  lemma CallRuns(m: Marshal, t0: GraphTable, reqs: seq<StoreRequest>, s: State, i: nat)
    returns (s': State, found: set<PrimaryKey>)
    requires Reaches(m, t0, reqs, s) && |s.phases| == |reqs| && i < |reqs| && s.phases[i] == ReadSource
    ensures Reaches(m, t0, reqs, s') && s'.puts == s.puts + [i] && s'.phases == s.phases[i := Finished]
    ensures s'.table == DeleteKeys(AfterPut(m, s.table, reqs[i]), ToDelete(m, found, reqs[i]))
    ensures Sound(s.table) ==> s'.table == Stored(m, s.table, reqs[i])
  {
    hide Reaches, AfterPut, ToDelete, Sound, Stale, DeleteKeys, Declares;
    var read;
    read, found := CallReads(m, t0, reqs, s, i);
    var put := CallPuts(m, t0, reqs, read, i);
    s' := CallDeletes(m, t0, reqs, put, i);
  }

  lemma NothingRun(m: Marshal, t0: GraphTable, reqs: seq<StoreRequest>) returns (s: State)
    ensures Reaches(m, t0, reqs, s) && s == State(t0, seq(|reqs|, _ => ReadSource), [])
  {
    s := State(t0, seq(|reqs|, _ => ReadSource), []);
    assert IsRun(m, t0, reqs, [s], []);
  }

  /** The calls of the list run one after the other. */
  lemma {:induction false} CallsFinish(m: Marshal, t0: GraphTable, reqs: seq<StoreRequest>, order: seq<int>)
    returns (s: State)
    requires Sound(t0) && AreRequests(reqs, order) && forall k, l :: 0 <= k < l < |order| ==> order[k] != order[l]
    ensures Reaches(m, t0, reqs, s) && |s.phases| == |reqs| && s.puts == order && s.table == Serial(m, t0, reqs, order)
    ensures forall i :: 0 <= i < |reqs| ==> s.phases[i] == if i in order then Finished else ReadSource
  {
    hide Reaches, Sound, Stored, AfterPut, ToDelete, DeleteKeys;
    if order == [] {
      s := NothingRun(m, t0, reqs);
    } else {
      var front, i := order[..|order| - 1], order[|order| - 1];
      var before := CallsFinish(m, t0, reqs, front);
      SerialIsSound(m, t0, reqs, front);
      assert order == front + [i] && i !in front;
      var found;
      s, found := CallRuns(m, t0, reqs, before, i);
    }
  }

  lemma RunOf(m: Marshal, t0: GraphTable, reqs: seq<StoreRequest>, s: State) returns (states: seq<State>, who: seq<nat>)
    requires Reaches(m, t0, reqs, s) && AllFinished(reqs, s)
    ensures IsFinishedRun(m, t0, reqs, states, who) && states[|who|] == s
  {
    hide Step, Init;
    states, who :| IsRun(m, t0, reqs, states, who) && states[|who|] == s;
  }

  // ---- When the order of the Put transactions decides ----

  /** Every finished run leaves the table of the serial order of its Put transactions. */
  ghost predicate PutOrderDecides(m: Marshal, t0: GraphTable, reqs: seq<StoreRequest>) {
    forall states: seq<State>, who ::
      IsFinishedRun(m, t0, reqs, states, who) ==> IsInPutOrder(m, t0, reqs, states[|who|])
  }

  lemma DeletedIsDead(t: GraphTable, pks: set<PrimaryKey>, pk: PrimaryKey)
    requires pk in pks
    ensures !Live(DeleteKeys(t, pks), pk)
  {
  }

  /** Call i declares an edge that j owns and does not declare, and only j has read so far. */
  ghost predicate AboutToClash(m: Marshal, t0: GraphTable, reqs: seq<StoreRequest>, s: State, i: int, j: int,
                               pk: PrimaryKey, found: set<PrimaryKey>) {
    && Reaches(m, t0, reqs, s) && |s.phases| == |reqs| && 0 <= i < |reqs| && 0 <= j < |reqs| && i != j
    && Declares(reqs[i], pk) && Owns(SourceKey(reqs[j].url), pk) && !Declares(reqs[j], pk)
    && s.phases[i] == ReadSource && s.phases[j] == ReadModules({}, found)
  }

  /** If j has found the edge, it can put before i runs and delete the edge afterwards. */
  lemma DeletesLast(m: Marshal, t0: GraphTable, reqs: seq<StoreRequest>, s: State, i: int, j: int, pk: PrimaryKey,
                    found: set<PrimaryKey>)
    returns (s': State)
    requires AboutToClash(m, t0, reqs, s, i, j, pk, found) && pk in found
    ensures Reaches(m, t0, reqs, s') && s'.puts == s.puts + [j] + [i] && !Live(s'.table, pk)
    ensures s'.phases == s.phases[i := Finished][j := Finished]
  {
    hide Reaches, Declares, AfterPut, ToDelete, DeleteKeys, Stored, Sound;
    var put := CallPuts(m, t0, reqs, s, j);
    var found';
    s', found' := CallRuns(m, t0, reqs, put, i);
    ToDeleteIs(m, found, reqs[j], pk);
    DeletedIsDead(s'.table, ToDelete(m, found, reqs[j]), pk);
    s' := CallDeletes(m, t0, reqs, s', j);
  }

  /** If it has not, it can put and delete after i has run, and leave the edge. */
  lemma PutsLast(m: Marshal, t0: GraphTable, reqs: seq<StoreRequest>, s: State, i: int, j: int, pk: PrimaryKey,
                 found: set<PrimaryKey>)
    returns (s': State)
    requires AboutToClash(m, t0, reqs, s, i, j, pk, found) && pk !in found
    ensures Reaches(m, t0, reqs, s') && s'.puts == s.puts + [i] + [j] && Live(s'.table, pk)
    ensures s'.phases == s.phases[i := Finished][j := Finished]
  {
    hide Reaches, Declares, AfterPut, ToDelete, DeleteKeys, Stored, Sound;
    var found';
    s', found' := CallRuns(m, t0, reqs, s, i);
    PutAndDeleted(m, s.table, reqs[i], found', pk);
    PutAndDeleted(m, s'.table, reqs[j], found, pk);
    s' := CallPuts(m, t0, reqs, s', j);
    s' := CallDeletes(m, t0, reqs, s', j);
  }

  /** In the serial order of the Put transactions it is the other way round. */
  lemma IncompatibleEnd(m: Marshal, t0: GraphTable, reqs: seq<StoreRequest>, i: int, j: int, pk: PrimaryKey)
    returns (s: State)
    requires Sound(t0) && 0 <= i < |reqs| && 0 <= j < |reqs|
    requires Declares(reqs[i], pk) && Owns(SourceKey(reqs[j].url), pk) && !Declares(reqs[j], pk)
    ensures Reaches(m, t0, reqs, s) && AllFinished(reqs, s) && !IsInPutOrder(m, t0, reqs, s)
  {
    hide Sound, Serial, Reaches, Proposed, Declares, Stale, ToDelete, Owns;
    var others := Others(|reqs|, i, j);
    OthersAre(|reqs|, i, j);
    NotAmongOthers(others, |reqs|, i, j);
    var before := CallsFinish(m, t0, reqs, others);
    SerialIsSound(m, t0, reqs, others);
    var read, found := CallReads(m, t0, reqs, before, j);
    assert AboutToClash(m, t0, reqs, read, i, j, pk, found);
    if pk in found {
      s := DeletesLast(m, t0, reqs, read, i, j, pk, found);
      OrderWithLastTwo(others, |reqs|, j, i);
    } else {
      s := PutsLast(m, t0, reqs, read, i, j, pk, found);
      OrderWithLastTwo(others, |reqs|, i, j);
    }
    ProposedIs(m, reqs[i]);
    ProposedIs(m, reqs[j]);
    SerialEnding(m, t0, reqs, s.puts, pk);
  }

  lemma IncompatibleRun(m: Marshal, t0: GraphTable, reqs: seq<StoreRequest>) returns (states: seq<State>, who: seq<nat>)
    requires Sound(t0) && !Compatible(reqs)
    ensures IsFinishedRun(m, t0, reqs, states, who) && !IsInPutOrder(m, t0, reqs, states[|who|])
  {
    hide Sound, Step, Init, Reaches, IsInPutOrder, Declares, Owns;
    var i, j, pk :| 0 <= i < |reqs| && 0 <= j < |reqs| && Declares(reqs[i], pk) && Owns(SourceKey(reqs[j].url), pk)
      && !Declares(reqs[j], pk);
    var s := IncompatibleEnd(m, t0, reqs, i, j, pk);
    states, who := RunOf(m, t0, reqs, s);
  }

  /** The order of the Put transactions decides if and only if the calls are compatible. */
  lemma PutOrderDecidesIff(m: Marshal, t0: GraphTable, reqs: seq<StoreRequest>)
    requires Sound(t0)
    ensures PutOrderDecides(m, t0, reqs) <==> Compatible(reqs)
  {
    hide Sound, Step, Init, IsInPutOrder, Compatible;
    if Compatible(reqs) {
      forall states: seq<State>, who | IsFinishedRun(m, t0, reqs, states, who)
        ensures IsInPutOrder(m, t0, reqs, states[|who|])
      {
        ConcurrentIsSerial(m, t0, reqs, states, who);
      }
    } else {
      var states, who := IncompatibleRun(m, t0, reqs);
    }
  }

  /** Every serial order is a run. */
  lemma EveryOrderIsARun(m: Marshal, t0: GraphTable, reqs: seq<StoreRequest>, order: seq<int>)
    returns (states: seq<State>, who: seq<nat>)
    requires Sound(t0) && IsOrder(order, |reqs|)
    ensures IsFinishedRun(m, t0, reqs, states, who)
    ensures states[|who|].puts == order && states[|who|].table == Serial(m, t0, reqs, order)
  {
    hide Step, Init, Sound, Serial, Reaches;
    var s := CallsFinish(m, t0, reqs, order);
    states, who := RunOf(m, t0, reqs, s);
  }

  // ---- What the order decides ----

  ghost predicate SameLiveEdges(t: GraphTable, u: GraphTable) {
    forall pk :: !IsNode(pk) ==> (Live(t, pk) <==> Live(u, pk))
  }

  ghost predicate SameEdgeData(t: GraphTable, u: GraphTable) {
    forall pk :: !IsNode(pk) && Live(t, pk) && Live(u, pk) ==> t[pk].data == u[pk].data
  }

  /** All calls that declare this row put the same data for it. */
  ghost predicate AgreeOn(m: Marshal, reqs: seq<StoreRequest>, pk: PrimaryKey) {
    forall i, j :: 0 <= i < |reqs| && 0 <= j < |reqs| && pk in Proposed(m, reqs[i]) && pk in Proposed(m, reqs[j]) ==>
      Proposed(m, reqs[i])[pk] == Proposed(m, reqs[j])[pk]
  }

  lemma AgreeOnIs(m: Marshal, t0: GraphTable, reqs: seq<StoreRequest>, pk: PrimaryKey)
    ensures AgreeOn(m, reqs, pk) <==> Agreed(Calls(m, t0, reqs), pk)
  {
    hide Proposed, Stale;
    var calls := Calls(m, t0, reqs);
    assert forall i :: 0 <= i < |reqs| ==> calls[i].proposed == Proposed(m, reqs[i]);
  }

  /** Some run of the calls, finished, has left this table. */
  ghost predicate CanEnd(m: Marshal, t0: GraphTable, reqs: seq<StoreRequest>, t: GraphTable) {
    exists states: seq<State>, who :: IsFinishedRun(m, t0, reqs, states, who) && states[|who|].table == t
  }

  /** The calls, one after the other in some order, leave this table. */
  ghost predicate IsSerial(m: Marshal, t0: GraphTable, reqs: seq<StoreRequest>, t: GraphTable) {
    exists order :: IsOrder(order, |reqs|) && t == Serial(m, t0, reqs, order)
  }

  lemma EndIsSerial(m: Marshal, t0: GraphTable, reqs: seq<StoreRequest>, t: GraphTable) returns (order: seq<int>)
    requires Sound(t0) && Compatible(reqs) && CanEnd(m, t0, reqs, t)
    ensures IsOrder(order, |reqs|) && t == Serial(m, t0, reqs, order)
  {
    hide Sound, Compatible, Serial, Step, Init;
    var states: seq<State>, who :| IsFinishedRun(m, t0, reqs, states, who) && states[|who|].table == t;
    ConcurrentIsSerial(m, t0, reqs, states, who);
    order := states[|who|].puts;
  }

  lemma SerialCanEnd(m: Marshal, t0: GraphTable, reqs: seq<StoreRequest>, order: seq<int>)
    requires Sound(t0) && IsOrder(order, |reqs|)
    ensures CanEnd(m, t0, reqs, Serial(m, t0, reqs, order))
  {
    hide Sound, Serial, IsFinishedRun;
    var states, who := EveryOrderIsARun(m, t0, reqs, order);
  }

  /** The tables that runs of compatible calls can leave are exactly those that the calls leave one after the other. */
  lemma RunsAreSerialOrders(m: Marshal, t0: GraphTable, reqs: seq<StoreRequest>, t: GraphTable)
    requires Sound(t0) && Compatible(reqs)
    ensures CanEnd(m, t0, reqs, t) <==> IsSerial(m, t0, reqs, t)
  {
    hide Sound, Compatible, Serial, CanEnd;
    if CanEnd(m, t0, reqs, t) {
      var order := EndIsSerial(m, t0, reqs, t);
    }
    forall order | IsOrder(order, |reqs|) ensures CanEnd(m, t0, reqs, Serial(m, t0, reqs, order)) {
      SerialCanEnd(m, t0, reqs, order);
    }
  }

  /** A finished run and a serial order leave a row alike, but for the data of a row that the calls disagree on. */
  lemma RowOfRun(m: Marshal, t0: GraphTable, reqs: seq<StoreRequest>, t: GraphTable, order: seq<int>, pk: PrimaryKey)
    requires Sound(t0) && Compatible(reqs) && CanEnd(m, t0, reqs, t) && IsOrder(order, |reqs|)
    ensures var u := Serial(m, t0, reqs, order);
      && (pk in t <==> pk in u)
      && (pk in t ==> t[pk].deleted == u[pk].deleted && (AgreeOn(m, reqs, pk) ==> t[pk] == u[pk]))
  {
    hide Sound, Compatible, Outcome, Serial, CanEnd, AgreeOn, Agreed;
    var puts := EndIsSerial(m, t0, reqs, t);
    SerialIs(m, t0, reqs, puts);
    SerialIs(m, t0, reqs, order);
    assert Members(puts) == Members(order);
    AgreeOnIs(m, t0, reqs, pk);
    OrdersOfRow(t0, Calls(m, t0, reqs), Members(order), puts, order, pk);
  }

  /** The orders that end with the one and with the other of two calls. */
  lemma TwoEndings(m: Marshal, t0: GraphTable, reqs: seq<StoreRequest>, i: int, j: int, pk: PrimaryKey)
    returns (t: GraphTable, u: GraphTable, order: seq<int>)
    requires Sound(t0) && 0 <= i < |reqs| && 0 <= j < |reqs| && pk in Proposed(m, reqs[i])
    ensures CanEnd(m, t0, reqs, t) && CanEnd(m, t0, reqs, u) && IsOrder(order, |reqs|)
      && u == Serial(m, t0, reqs, order)
    ensures Live(t, pk) && t[pk].data == Proposed(m, reqs[i])[pk]
    ensures pk in Proposed(m, reqs[j]) ==> Live(u, pk) && u[pk].data == Proposed(m, reqs[j])[pk]
    ensures Owns(SourceKey(reqs[j].url), pk) && pk !in Proposed(m, reqs[j]) ==> !Live(u, pk)
  {
    hide Sound, Serial, CanEnd, Proposed, Owns;
    var a, b := OrderEnding(|reqs|, i), OrderEnding(|reqs|, j);
    OrderEndingIsOrder(|reqs|, i);
    OrderEndingIsOrder(|reqs|, j);
    SerialEnding(m, t0, reqs, a, pk);
    SerialEnding(m, t0, reqs, b, pk);
    SerialCanEnd(m, t0, reqs, a);
    SerialCanEnd(m, t0, reqs, b);
    t, u, order := Serial(m, t0, reqs, a), Serial(m, t0, reqs, b), b;
  }

  /** Where calls are not compatible, an edge is live after one run and not after another, which is a serial order. */
  lemma IncompatibilityShows(m: Marshal, t0: GraphTable, reqs: seq<StoreRequest>)
    returns (t: GraphTable, u: GraphTable, order: seq<int>)
    requires Sound(t0) && !Compatible(reqs)
    ensures CanEnd(m, t0, reqs, t) && IsOrder(order, |reqs|) && u == Serial(m, t0, reqs, order) && !SameLiveEdges(t, u)
  {
    hide Sound, Serial, CanEnd, Proposed, Declares;
    var i, j, pk :| 0 <= i < |reqs| && 0 <= j < |reqs| && Declares(reqs[i], pk) && Owns(SourceKey(reqs[j].url), pk)
      && !Declares(reqs[j], pk);
    ProposedIs(m, reqs[i]);
    ProposedIs(m, reqs[j]);
    t, u, order := TwoEndings(m, t0, reqs, i, j, pk);
    assert !IsNode(pk);
  }

  /** Where calls disagree on a row, two runs of them, the one serial, leave it live with different data. */
  lemma DisagreementShows(m: Marshal, t0: GraphTable, reqs: seq<StoreRequest>, pk: PrimaryKey)
    returns (t: GraphTable, u: GraphTable, order: seq<int>)
    requires Sound(t0) && !AgreeOn(m, reqs, pk)
    ensures CanEnd(m, t0, reqs, t) && CanEnd(m, t0, reqs, u) && IsOrder(order, |reqs|)
      && u == Serial(m, t0, reqs, order)
    ensures Live(t, pk) && Live(u, pk) && t[pk].data != u[pk].data
  {
    hide Sound, Serial, CanEnd, Proposed;
    var i, j :| 0 <= i < |reqs| && 0 <= j < |reqs| && pk in Proposed(m, reqs[i]) && pk in Proposed(m, reqs[j])
      && Proposed(m, reqs[i])[pk] != Proposed(m, reqs[j])[pk];
    t, u, order := TwoEndings(m, t0, reqs, i, j, pk);
  }

  /** Every finished run leaves the table of every serial order. */
  ghost predicate OrderFree(m: Marshal, t0: GraphTable, reqs: seq<StoreRequest>) {
    forall t, order :: CanEnd(m, t0, reqs, t) && IsOrder(order, |reqs|) ==> t == Serial(m, t0, reqs, order)
  }

  /** Every finished run leaves the live edges of every serial order. */
  ghost predicate LiveEdgesOrderFree(m: Marshal, t0: GraphTable, reqs: seq<StoreRequest>) {
    forall t, order :: CanEnd(m, t0, reqs, t) && IsOrder(order, |reqs|) ==> SameLiveEdges(t, Serial(m, t0, reqs, order))
  }

  /** Every finished run leaves the live edges of every serial order, with their data. */
  ghost predicate EdgesOrderFree(m: Marshal, t0: GraphTable, reqs: seq<StoreRequest>) {
    && LiveEdgesOrderFree(m, t0, reqs)
    && forall t, order :: CanEnd(m, t0, reqs, t) && IsOrder(order, |reqs|) ==>
         SameEdgeData(t, Serial(m, t0, reqs, order))
  }

  /**
   All runs and all serial orders leave one and the same table if and only if the calls are compatible and agree on
   all rows that they share.
   */
  lemma RunsAgree(m: Marshal, t0: GraphTable, reqs: seq<StoreRequest>)
    requires Sound(t0)
    ensures OrderFree(m, t0, reqs) <==> Compatible(reqs) && forall pk :: AgreeOn(m, reqs, pk)
  {
    hide Sound, Compatible, Serial, CanEnd, AgreeOn;
    if !Compatible(reqs) {
      var t, u, order := IncompatibilityShows(m, t0, reqs);
    } else if pk :| !AgreeOn(m, reqs, pk) {
      var t, u, order := DisagreementShows(m, t0, reqs, pk);
    } else {
      forall t, order | CanEnd(m, t0, reqs, t) && IsOrder(order, |reqs|) ensures t == Serial(m, t0, reqs, order) {
        var u := Serial(m, t0, reqs, order);
        forall pk ensures (pk in t <==> pk in u) && (pk in t ==> t[pk] == u[pk]) {
          RowOfRun(m, t0, reqs, t, order, pk);
        }
      }
    }
  }

  lemma EdgesOfRun(m: Marshal, t0: GraphTable, reqs: seq<StoreRequest>, t: GraphTable, order: seq<int>)
    requires Sound(t0) && Compatible(reqs) && CanEnd(m, t0, reqs, t) && IsOrder(order, |reqs|)
    ensures SameLiveEdges(t, Serial(m, t0, reqs, order))
    ensures (forall pk :: !IsNode(pk) ==> AgreeOn(m, reqs, pk)) ==> SameEdgeData(t, Serial(m, t0, reqs, order))
  {
    hide Sound, Compatible, Serial, CanEnd, AgreeOn, IsNode;
    var u := Serial(m, t0, reqs, order);
    forall pk ensures (Live(t, pk) <==> Live(u, pk)) && (AgreeOn(m, reqs, pk) && Live(t, pk) ==> t[pk] == u[pk]) {
      RowOfRun(m, t0, reqs, t, order, pk);
    }
  }

  /**
   All runs and all serial orders leave the same live edges if and only if the calls are compatible, and with the same
   data if and only if they also agree on all edges that they share.
   */
  lemma EdgesOfRunsAgree(m: Marshal, t0: GraphTable, reqs: seq<StoreRequest>)
    requires Sound(t0)
    ensures LiveEdgesOrderFree(m, t0, reqs) <==> Compatible(reqs)
    ensures EdgesOrderFree(m, t0, reqs) <==> Compatible(reqs) && forall pk :: !IsNode(pk) ==> AgreeOn(m, reqs, pk)
  {
    hide Sound, Compatible, Serial, CanEnd, AgreeOn, IsNode, SameLiveEdges;
    if !Compatible(reqs) {
      var t, u, order := IncompatibilityShows(m, t0, reqs);
    } else {
      forall t, order | CanEnd(m, t0, reqs, t) && IsOrder(order, |reqs|)
        ensures SameLiveEdges(t, Serial(m, t0, reqs, order))
        ensures (forall pk :: !IsNode(pk) ==> AgreeOn(m, reqs, pk)) ==> SameEdgeData(t, Serial(m, t0, reqs, order))
      {
        EdgesOfRun(m, t0, reqs, t, order);
      }
      if pk :| !IsNode(pk) && !AgreeOn(m, reqs, pk) {
        var t, u, order := DisagreementShows(m, t0, reqs, pk);
        assert !SameEdgeData(t, Serial(m, t0, reqs, order));
      }
    }
  }

  /** A request with one file, whose module is found in a third repository, and what it puts last. */
  lemma LastItem(m: Marshal, url: string, file: ManifestFile)
    requires file.dependencies == []
    ensures var req := StoreRequest(url, "k", "r", [file]);
      var pk := ManagesRow(SourceKey(file.sourceUrl), ModuleKey(file.language, file.name));
      && pk in Proposed(m, req)
      && Proposed(m, req)[pk] == ConvertEdge(ManagesEdge(m, file, SourceKey(file.sourceUrl)), ProtocolBuffers).data
  {
    var req := StoreRequest(url, "k", "r", [file]);
    var items, edges := Items(m, req), ProposedEdges(m, req);
    assert req.manifestFiles[..0] == [] && FileEdges(m, req, 0) == [];
    assert edges == FileEdges(m, req, 1);
    assert edges[|edges| - 1] == ManagesEdge(m, file, SourceKey(file.sourceUrl));
    assert items[|items| - 1] == EdgeItems(edges)[|edges| - 1];
  }

  lemma DisagreeingRequests(m: Marshal, v: string, w: string) returns (reqs: seq<StoreRequest>, pk: PrimaryKey)
    requires m(SourceModule(v, "s")) != m(SourceModule(w, "s"))
    ensures Independent(reqs) && !IsNode(pk) && !AgreeOn(m, reqs, pk)
  {
    hide Independent, AgreeOn, Proposed, ConvertEdge, ConvertGraphData;
    var f1, f2 := ManifestFile("l", "s", v, "third", "n", []), ManifestFile("l", "s", w, "third", "n", []);
    reqs := [StoreRequest("first", "k", "r", [f1]), StoreRequest("second", "k", "r", [f2])];
    pk := ManagesRow(SourceKey("third"), ModuleKey("l", "n"));
    LastItem(m, "first", f1);
    LastItem(m, "second", f2);
    BodiesDiffer(ManagesEdge(m, f1, SourceKey("third")), ManagesEdge(m, f2, SourceKey("third")));
    ThirdParties(f1, f2);
    Disagree(m, reqs, pk);
  }

  /**
   Two calls that report the same third repository for the same module, with different versions whose bodies differ: two
   runs of them on an empty store leave the edge between the two with different data.
   */
  lemma DisagreementWitness(m: Marshal, v: string, w: string)
    requires m(SourceModule(v, "s")) != m(SourceModule(w, "s"))
    ensures exists reqs, t, u ::
      && Independent(reqs)
      && CanEnd(m, map[], reqs, t)
      && CanEnd(m, map[], reqs, u)
      && SameLiveEdges(t, u)
      && !SameEdgeData(t, u)
  {
    hide Sound, Independent, Serial, CanEnd, AgreeOn, IsNode, SameLiveEdges;
    EmptyIsSound();
    var reqs, pk := DisagreeingRequests(m, v, w);
    IndependentIsCompatible(reqs);
    var t, u, order := DisagreementShows(m, map[], reqs, pk);
    EdgesOfRun(m, map[], reqs, t, order);
    assert SameLiveEdges(t, u) && !SameEdgeData(t, u);
  }

  /** Edges between the same end points with different bodies are stored with different data. */
  lemma BodiesDiffer(e1: Edge, e2: Edge)
    requires e1.fromKey == e2.fromKey != e1.toKey == e2.toKey && e1.key == e2.key && e1.body != e2.body
    ensures ConvertEdge(e1, ProtocolBuffers).data != ConvertEdge(e2, ProtocolBuffers).data
  {
    hide ConvertGraphData;
    EdgeComesBack(e1, ProtocolBuffers);
    EdgeComesBack(e2, ProtocolBuffers);
  }

  lemma ThirdParties(f1: ManifestFile, f2: ManifestFile)
    requires f1.sourceUrl == f2.sourceUrl == "third"
    ensures Independent([StoreRequest("first", "k", "r", [f1]), StoreRequest("second", "k", "r", [f2])])
  {
    assert "first"[0] == 'f' && "second"[0] == 's' && "third"[0] == 't';
  }

  lemma Disagree(m: Marshal, reqs: seq<StoreRequest>, pk: PrimaryKey)
    requires |reqs| == 2 && pk in Proposed(m, reqs[0]) && pk in Proposed(m, reqs[1])
    requires Proposed(m, reqs[0])[pk] != Proposed(m, reqs[1])[pk]
    ensures !AgreeOn(m, reqs, pk)
  {
  }
}
