/** The topology command: a breadth-first search on the server, collected and sorted into tiers by the client. */
module Topology {
  import opened Digraph
  import opened GraphStoreV1Alpha
  import opened Reconciliation
  import opened DependencyService
  import opened TieredSort
  import opened TierProperties
  import SearchService

  /** The module of the request itself, which starts out as the node of its key. */
  function RequestToModule(query: SearchService.Query): Message {
    Module(query.language, query.organization, query.mod, query.name)
  }

  function EntryKeySeq(entries: seq<Entry>): seq<Key> {
    seq(|entries|, i requires 0 <= i < |entries| => KeyOf(entries[i].mod))
  }

  function SourceKey(response: SearchService.SearchResponse): Key
    requires SearchService.Searchable(response.request)
  {
    SearchService.KeyFor(response.request)
  }

  ghost predicate Collectable(responses: seq<SearchService.SearchResponse>) {
    && (forall i :: 0 <= i < |responses| ==> SearchService.Searchable(responses[i].request))
    && (forall i, j :: 0 <= i < j < |responses| ==> SourceKey(responses[i]) != SourceKey(responses[j]))
    && (forall i, j :: 0 <= i < |responses| && 0 <= j < |responses[i].entries| ==> responses[i].entries[j].mod.Module?)
  }

  function Get(counter: Predecessors, d: Key): set<Key> {
    if d in counter then counter[d] else {}
  }

  /** The modules that the first n responses are about. */
  ghost function Sources(responses: seq<SearchService.SearchResponse>, n: nat): set<Key>
    requires n <= |responses| && Collectable(responses)
  {
    set i | 0 <= i < n :: SourceKey(responses[i])
  }

  /** The modules that the first n responses list. */
  ghost function Listed(responses: seq<SearchService.SearchResponse>, n: nat): set<Key>
    requires n <= |responses| && Collectable(responses)
  {
    set i, d | 0 <= i < n && d in EntryKeySeq(responses[i].entries) :: d
  }

  /** The modules whose responses, among the first n, list d. */
  ghost function ListedBy(responses: seq<SearchService.SearchResponse>, n: nat, d: Key): set<Key>
    requires n <= |responses| && Collectable(responses)
  {
    set i | 0 <= i < n && d in EntryKeySeq(responses[i].entries) :: SourceKey(responses[i])
  }

  ghost predicate CounterCollected(responses: seq<SearchService.SearchResponse>, n: nat, counter: Predecessors)
    requires n <= |responses| && Collectable(responses)
  {
    && counter.Keys == Sources(responses, n) + Listed(responses, n)
    && forall d :: Get(counter, d) == ListedBy(responses, n, d)
  }

  ghost predicate EdgesCollected(responses: seq<SearchService.SearchResponse>, n: nat, edges: Successors)
    requires n <= |responses| && Collectable(responses)
  {
    && edges.Keys == Sources(responses, n)
    && forall i :: 0 <= i < n ==> edges[SourceKey(responses[i])] == EntryKeySeq(responses[i].entries)
  }

  /** The maps hold exactly what the first n responses say. */
  ghost predicate Collected(responses: seq<SearchService.SearchResponse>, n: nat, counter: Predecessors,
                      nodes: Modules, edges: Successors)
    requires n <= |responses| && Collectable(responses)
  {
    Paired(counter, nodes) && CounterCollected(responses, n, counter) && EdgesCollected(responses, n, edges)
  }

  /** The root is shown as the client asked for it, and every other module as the store holds it. */
  ghost predicate IsShownAs(t: GraphTable, request: SearchService.SearchRequest, key: Key, mod: Message)
    requires SearchService.Searchable(request)
  {
    var query := request.query;
    if key == ModuleKey(query.language, query.organization, query.mod) then
      mod == Module(query.language, query.organization, query.mod, query.name)
    else
      StoresModule(t, mod)
  }

  ghost predicate AreShown(t: GraphTable, request: SearchService.SearchRequest, nodes: Modules)
    requires SearchService.Searchable(request)
  {
    forall key :: key in nodes ==> IsShownAs(t, request, key, nodes[key])
  }

  /** The responses start with the client's request, and go on about modules of the store and with modules of it. */
  ghost predicate FromStore(t: GraphTable, request: SearchService.SearchRequest,
                            responses: seq<SearchService.SearchResponse>) {
    && (responses != [] ==> responses[0].request == request)
    && SearchService.GoesOnStored(t, responses)
    && (forall i, j :: 0 <= i < |responses| && 0 <= j < |responses[i].entries| ==>
          StoresModule(t, responses[i].entries[j].mod))
  }

  /** `counter` and `nodes` name the same modules. */
  ghost predicate Paired(counter: Predecessors, nodes: Modules) {
    nodes.Keys == counter.Keys && Named(nodes)
  }

  ghost function KeySet(entries: seq<Entry>): set<Key> {
    set d | d in EntryKeySeq(entries)
  }

  /** `counter` is `counter0` with `m` recorded as a predecessor of each module in `keys`. */
  ghost predicate Counted(counter0: Predecessors, m: Key, keys: set<Key>, counter: Predecessors) {
    && counter.Keys == counter0.Keys + keys
    && forall d :: Get(counter, d) == Get(counter0, d) + (if d in keys then {m} else {})
  }

  lemma CountOne(counter0: Predecessors, m: Key, keys: set<Key>, counter: Predecessors, d: Key)
    requires Counted(counter0, m, keys, counter)
    ensures Counted(counter0, m, keys + {d}, counter[d := Get(counter, d) + {m}])
  {
  }

  lemma NameOne(counter: Predecessors, nodes: Modules, mod: Message, value: set<Key>)
    requires Paired(counter, nodes) && mod.Module?
    ensures Paired(counter[KeyOf(mod) := value], if KeyOf(mod) in nodes then nodes else nodes[KeyOf(mod) := mod])
  {
  }

  lemma KeySetStep(entries: seq<Entry>, i: nat)
    requires i < |entries|
    ensures KeySet(entries[..i + 1]) == KeySet(entries[..i]) + {KeyOf(entries[i].mod)}
  {
    assert EntryKeySeq(entries[..i + 1]) == EntryKeySeq(entries[..i]) + [KeyOf(entries[i].mod)];
  }

  lemma ShowOne(t: GraphTable, request: SearchService.SearchRequest, nodes: Modules, mod: Message)
    requires SearchService.Searchable(request) && SearchService.KeyFor(request) in nodes && AreShown(t, request, nodes)
    requires StoresModule(t, mod)
    ensures mod.Module? && AreShown(t, request, if KeyOf(mod) in nodes then nodes else nodes[KeyOf(mod) := mod])
  {
  }

  /** One pass over the modules that a response lists. */
  method CollectEntries(ghost t: GraphTable, ghost request: SearchService.SearchRequest, moduleKey: Key,
                        entries: seq<Entry>, counter0: Predecessors, nodes0: Modules)
    returns (counter: Predecessors, nodes: Modules)
    requires Paired(counter0, nodes0)
    requires SearchService.Searchable(request) && SearchService.KeyFor(request) in nodes0
    requires AreShown(t, request, nodes0)
    requires forall i :: 0 <= i < |entries| ==> StoresModule(t, entries[i].mod)
    ensures Paired(counter, nodes) && Counted(counter0, moduleKey, KeySet(entries), counter)
    ensures SearchService.KeyFor(request) in nodes && AreShown(t, request, nodes)
  {
    hide StoresModule, AreShown, Paired, KeyOf;
    counter, nodes := counter0, nodes0;
    assert KeySet(entries[..0]) == {};
    for i := 0 to |entries|
      invariant Paired(counter, nodes) && Counted(counter0, moduleKey, KeySet(entries[..i]), counter)
      invariant SearchService.KeyFor(request) in nodes && AreShown(t, request, nodes)
    {
      var mod := entries[i].mod;
      var dependencyKey := KeyOf(mod);
      KeySetStep(entries, i);
      CountOne(counter0, moduleKey, KeySet(entries[..i]), counter, dependencyKey);
      ShowOne(t, request, nodes, mod);
      NameOne(counter, nodes, mod, Get(counter, dependencyKey) + {moduleKey});
      if dependencyKey !in nodes {
        nodes := nodes[dependencyKey := mod];
      }
      counter := counter[dependencyKey := Get(counter, dependencyKey) + {moduleKey}];
    }
    assert entries[..|entries|] == entries;
  }

  lemma SourcesStep(responses: seq<SearchService.SearchResponse>, n: nat)
    requires Collectable(responses) && n < |responses|
    ensures Sources(responses, n + 1) == Sources(responses, n) + {SourceKey(responses[n])}
    ensures SourceKey(responses[n]) !in Sources(responses, n)
  {
  }

  lemma ListedStep(responses: seq<SearchService.SearchResponse>, n: nat)
    requires Collectable(responses) && n < |responses|
    ensures Listed(responses, n + 1) == Listed(responses, n) + KeySet(responses[n].entries)
  {
    forall d | d in Listed(responses, n) ensures d in Listed(responses, n + 1) {
      var i :| 0 <= i < n && d in EntryKeySeq(responses[i].entries);
    }
  }

  lemma ListedByStep(responses: seq<SearchService.SearchResponse>, n: nat, d: Key)
    requires Collectable(responses) && n < |responses|
    ensures ListedBy(responses, n + 1, d)
         == ListedBy(responses, n, d) + (if d in KeySet(responses[n].entries) then {SourceKey(responses[n])} else {})
  {
  }

  lemma TouchKeepsCounts(counter: Predecessors, m: Key, d: Key)
    ensures Get(counter[m := Get(counter, m)], d) == Get(counter, d)
  {
  }

  lemma CollectKeys(responses: seq<SearchService.SearchResponse>, n: nat, before: set<Key>)
    requires Collectable(responses) && n < |responses| && before == Sources(responses, n) + Listed(responses, n)
    ensures before + {SourceKey(responses[n])} + KeySet(responses[n].entries)
      == Sources(responses, n + 1) + Listed(responses, n + 1)
  {
    SourcesStep(responses, n);
    ListedStep(responses, n);
  }

  lemma CollectCounter(responses: seq<SearchService.SearchResponse>, n: nat, counter0: Predecessors,
                      counter1: Predecessors, counter: Predecessors)
    requires Collectable(responses) && n < |responses| && CounterCollected(responses, n, counter0)
    requires counter1 == counter0[SourceKey(responses[n]) := Get(counter0, SourceKey(responses[n]))]
    requires Counted(counter1, SourceKey(responses[n]), KeySet(responses[n].entries), counter)
    ensures CounterCollected(responses, n + 1, counter)
  {
    CollectKeys(responses, n, counter0.Keys);
    assert counter1.Keys == counter0.Keys + {SourceKey(responses[n])};
    forall d ensures Get(counter, d) == ListedBy(responses, n + 1, d) {
      ListedByStep(responses, n, d);
      TouchKeepsCounts(counter0, SourceKey(responses[n]), d);
    }
  }

  lemma CollectEdges(responses: seq<SearchService.SearchResponse>, n: nat, edges: Successors)
    requires Collectable(responses) && n < |responses| && EdgesCollected(responses, n, edges)
    ensures EdgesCollected(responses, n + 1, edges[SourceKey(responses[n]) := EntryKeySeq(responses[n].entries)])
  {
    SourcesStep(responses, n);
  }

  /** The module that a response is about is named, if it has not been listed before. */
  lemma NameSource(t: GraphTable, request: SearchService.SearchRequest, responses: seq<SearchService.SearchResponse>,
                   n: nat, counter: Predecessors, nodes: Modules)
    requires Collectable(responses) && n < |responses| && Paired(counter, nodes)
    requires SearchService.Searchable(request) && FromStore(t, request, responses) && AreShown(t, request, nodes)
    requires n > 0 ==> SearchService.KeyFor(request) in nodes
    ensures var mod := RequestToModule(responses[n].request.query);
      var key := KeyOf(mod);
      var named := if key in nodes then nodes else nodes[key := mod];
      && mod.Module? && key == SourceKey(responses[n])
      && Paired(counter[key := Get(counter, key)], named)
      && SearchService.KeyFor(request) in named && AreShown(t, request, named)
  {
    hide StoresModule, Paired, Collectable;
    var mod := RequestToModule(responses[n].request.query);
    NameOne(counter, nodes, mod, Get(counter, KeyOf(mod)));
    if n > 0 { assert SearchService.AsStored(t, responses[n].request); }
  }

  lemma CollectedParts(responses: seq<SearchService.SearchResponse>, n: nat, counter: Predecessors, nodes: Modules,
                       edges: Successors)
    requires n <= |responses| && Collectable(responses)
    ensures Collected(responses, n, counter, nodes, edges)
       <==> Paired(counter, nodes) && CounterCollected(responses, n, counter) && EdgesCollected(responses, n, edges)
    ensures Collected(responses, 0, map[], map[], map[]) && Paired(map[], map[])
  {
  }

  lemma ModulesOf(t: GraphTable, request: SearchService.SearchRequest, responses: seq<SearchService.SearchResponse>,
                  n: nat)
    requires FromStore(t, request, responses) && n < |responses|
    ensures forall j :: 0 <= j < |responses[n].entries| ==> StoresModule(t, responses[n].entries[j].mod)
  {
  }

  method Collect(ghost t: GraphTable, ghost request: SearchService.SearchRequest,
                 responses: seq<SearchService.SearchResponse>)
    returns (counter: Predecessors, nodes: Modules, edges: Successors)
    requires Collectable(responses) && SearchService.Searchable(request) && FromStore(t, request, responses)
    ensures Collected(responses, |responses|, counter, nodes, edges)
    ensures AreShown(t, request, nodes)
  {
    hide Paired, CounterCollected, EdgesCollected, Collected, FromStore, AreShown, StoresModule, Counted, Get,
      RequestToModule, KeyOf, EntryKeySeq, SearchService.KeyFor;
    counter, nodes, edges := map[], map[], map[];
    CollectedParts(responses, 0, counter, nodes, edges);
    NothingShown(t, request);
    for n := 0 to |responses|
      invariant Collected(responses, n, counter, nodes, edges)
      invariant AreShown(t, request, nodes) && (n > 0 ==> SearchService.KeyFor(request) in nodes)
    {
      var mod := RequestToModule(responses[n].request.query);
      var moduleKey := KeyOf(mod);
      CollectedParts(responses, n, counter, nodes, edges);
      NameSource(t, request, responses, n, counter, nodes);
      ModulesOf(t, request, responses, n);
      if moduleKey !in nodes {
        nodes := nodes[moduleKey := mod];
      }
      ghost var counter0 := counter;
      counter := counter[moduleKey := Get(counter, moduleKey)];
      ghost var counter1 := counter;
      var dependencyKeys := EntryKeySeq(responses[n].entries);
      counter, nodes := CollectEntries(t, request, moduleKey, responses[n].entries, counter, nodes);
      CollectCounter(responses, n, counter0, counter1, counter);
      CollectEdges(responses, n, edges);
      edges := edges[moduleKey := dependencyKeys];
      CollectedParts(responses, n + 1, counter, nodes, edges);
    }
  }

  lemma NothingShown(t: GraphTable, request: SearchService.SearchRequest)
    requires SearchService.Searchable(request)
    ensures AreShown(t, request, map[])
  {
  }

  // ---- From the store to the tiers ----

  /** `preds` is the part of the dependency graph that the search reaches from the root. */
  ghost predicate ReachedGraph(t: GraphTable, request: SearchService.SearchRequest, preds: Predecessors)
    requires SearchService.Searchable(request)
  {
    var arcs, root := Arcs(t, SearchService.DirectionOf(request)), SearchService.KeyFor(request);
    && (forall v :: v in preds <==> Reachable(arcs, root, v))
    && (forall d, m :: d in preds ==> (m in preds[d] <==> (m, d) in arcs && Reachable(arcs, root, m)))
  }

  lemma ReachFurther(arcs: set<(Key, Key)>, root: Key, m: Key, d: Key)
    requires Reachable(arcs, root, m) && (m, d) in arcs
    ensures Reachable(arcs, root, d)
  {
    var p :| WalkBetween(arcs, root, m, p);
    assert WalkBetween(arcs, root, d, p + [d]);
  }

  lemma SentIsCollectable(t: GraphTable, request: SearchService.SearchRequest, sent: seq<SearchService.SearchResponse>)
    requires Sound(t) && SearchService.Searchable(request) && SearchService.SendsReachable(t, request, sent)
    ensures Collectable(sent)
  {
    var dir, requests := SearchService.DirectionOf(request), SearchService.Requests(sent);
    forall i | 0 <= i < |sent|
      ensures SearchService.Searchable(sent[i].request) && requests[i] == sent[i].request
      ensures forall j :: 0 <= j < |sent[i].entries| ==> sent[i].entries[j].mod.Module?
    {
      SearchService.AnswerModules(t, dir, SourceKey(sent[i]), sent[i].entries);
    }
  }

  lemma SentEntryKeys(t: GraphTable, request: SearchService.SearchRequest, sent: seq<SearchService.SearchResponse>,
                      i: nat, d: Key)
    requires Sound(t) && SearchService.Searchable(request) && SearchService.SendsReachable(t, request, sent)
      && i < |sent|
    ensures Reachable(Arcs(t, SearchService.DirectionOf(request)), SearchService.KeyFor(request), SourceKey(sent[i]))
    ensures d in EntryKeySeq(sent[i].entries)
      <==> (SourceKey(sent[i]), d) in Arcs(t, SearchService.DirectionOf(request))
  {
    var dir, requests := SearchService.DirectionOf(request), SearchService.Requests(sent);
    assert SearchService.KeyFor(requests[i]) in SearchService.Keys(requests);
    AnswerKeys(t, dir, SourceKey(sent[i]), sent[i].entries, d);
    EntryKeysAgree(sent[i].entries, d);
  }

  lemma EntryKeysAgree(entries: seq<Entry>, d: Key)
    ensures d in EntryKeySeq(entries) <==> d in EntryKeys(entries)
  {
    if d in EntryKeySeq(entries) {
      var j :| 0 <= j < |entries| && EntryKeySeq(entries)[j] == d;
      assert entries[j] in entries;
    }
    if d in EntryKeys(entries) {
      var entry :| entry in entries && KeyOf(entry.mod) == d;
      var j :| 0 <= j < |entries| && entries[j] == entry;
      assert EntryKeySeq(entries)[j] == d;
    }
  }

  lemma ReachableIsSent(t: GraphTable, request: SearchService.SearchRequest, sent: seq<SearchService.SearchResponse>,
                      m: Key)
    returns (i: nat)
    requires SearchService.Searchable(request) && SearchService.SendsReachable(t, request, sent)
    requires Reachable(Arcs(t, SearchService.DirectionOf(request)), SearchService.KeyFor(request), m)
    ensures i < |sent| && SearchService.Searchable(sent[i].request) && SourceKey(sent[i]) == m
  {
    var requests := SearchService.Requests(sent);
    assert m in SearchService.Keys(requests);
    var j :| 0 <= j < |requests| && SearchService.KeyFor(requests[j]) == m;
    i := j;
  }

  /** Who lists a module, among the responses of a search: its reachable predecessors. */
  lemma SentPredecessors(t: GraphTable, request: SearchService.SearchRequest, sent: seq<SearchService.SearchResponse>,
                      m: Key, d: Key)
    requires Sound(t) && SearchService.Searchable(request) && SearchService.SendsReachable(t, request, sent)
    requires Collectable(sent)
    ensures var arcs, root := Arcs(t, SearchService.DirectionOf(request)), SearchService.KeyFor(request);
      m in ListedBy(sent, |sent|, d) <==> (m, d) in arcs && Reachable(arcs, root, m)
  {
    var arcs, root := Arcs(t, SearchService.DirectionOf(request)), SearchService.KeyFor(request);
    if m in ListedBy(sent, |sent|, d) {
      var i :| 0 <= i < |sent| && d in EntryKeySeq(sent[i].entries) && SourceKey(sent[i]) == m;
      SentEntryKeys(t, request, sent, i, d);
    }
    if (m, d) in arcs && Reachable(arcs, root, m) {
      var i := ReachableIsSent(t, request, sent, m);
      SentEntryKeys(t, request, sent, i, d);
    }
  }

  lemma SentKeys(t: GraphTable, request: SearchService.SearchRequest, sent: seq<SearchService.SearchResponse>, v: Key)
    requires Sound(t) && SearchService.Searchable(request) && SearchService.SendsReachable(t, request, sent)
    requires Collectable(sent)
    ensures v in Sources(sent, |sent|) + Listed(sent, |sent|)
       <==> Reachable(Arcs(t, SearchService.DirectionOf(request)), SearchService.KeyFor(request), v)
  {
    var arcs, root := Arcs(t, SearchService.DirectionOf(request)), SearchService.KeyFor(request);
    if v in Sources(sent, |sent|) {
      var i :| 0 <= i < |sent| && SourceKey(sent[i]) == v;
      SentEntryKeys(t, request, sent, i, v);
    } else if v in Listed(sent, |sent|) {
      var i :| 0 <= i < |sent| && v in EntryKeySeq(sent[i].entries);
      SentEntryKeys(t, request, sent, i, v);
      ReachFurther(arcs, root, SourceKey(sent[i]), v);
    }
    if Reachable(arcs, root, v) {
      var i := ReachableIsSent(t, request, sent, v);
    }
  }

  /** What the client collects from a search is the reached part of the graph. */
  lemma CollectsReached(t: GraphTable, request: SearchService.SearchRequest, sent: seq<SearchService.SearchResponse>,
                      counter: Predecessors)
    requires Sound(t) && SearchService.Searchable(request) && SearchService.SendsReachable(t, request, sent)
    requires Collectable(sent) && CounterCollected(sent, |sent|, counter)
    ensures ReachedGraph(t, request, counter)
  {
    forall v ensures v in counter
      <==> Reachable(Arcs(t, SearchService.DirectionOf(request)), SearchService.KeyFor(request), v) {
      SentKeys(t, request, sent, v);
    }
    forall d, m | d in counter
      ensures m in counter[d] <==>
        (m, d) in Arcs(t, SearchService.DirectionOf(request))
          && Reachable(Arcs(t, SearchService.DirectionOf(request)), SearchService.KeyFor(request), m)
    {
      assert counter[d] == Get(counter, d);
      SentPredecessors(t, request, sent, m, d);
    }
  }

  lemma EdgeIsListed(responses: seq<SearchService.SearchResponse>, edges: Successors, m: Key, d: Key)
    requires Collectable(responses) && EdgesCollected(responses, |responses|, edges)
    ensures m in edges && d in edges[m] <==> m in ListedBy(responses, |responses|, d)
  {
    if m in edges && d in edges[m] {
      var i :| 0 <= i < |responses| && SourceKey(responses[i]) == m;
      assert d in EntryKeySeq(responses[i].entries);
    }
    if m in ListedBy(responses, |responses|, d) {
      var i :| 0 <= i < |responses| && d in EntryKeySeq(responses[i].entries) && SourceKey(responses[i]) == m;
      assert m in Sources(responses, |responses|);
    }
  }

  ghost predicate HasEdge(edges: Successors, m: Key, d: Key) {
    m in edges && d in edges[m]
  }

  lemma MirrorFrom(counter: Predecessors, edges: Successors)
    requires forall m, d :: HasEdge(edges, m, d) <==> m in Get(counter, d)
    ensures Mirror(counter, edges)
  {
    forall m, d | m in edges && d in edges[m] ensures d in counter && m in counter[d] { assert HasEdge(edges, m, d); }
    forall d, m | d in counter && m in counter[d] ensures m in edges && d in edges[m] { assert m in Get(counter, d); }
  }

  lemma CollectedMirrors(responses: seq<SearchService.SearchResponse>, counter: Predecessors, nodes: Modules,
                      edges: Successors)
    requires Collectable(responses) && Collected(responses, |responses|, counter, nodes, edges)
    ensures Mirror(counter, edges)
  {
    forall m, d ensures HasEdge(edges, m, d) <==> m in Get(counter, d) {
      EdgeIsListed(responses, edges, m, d);
    }
    MirrorFrom(counter, edges);
  }

  lemma RootReached(arcs: set<(Key, Key)>, root: Key)
    ensures Reachable(arcs, root, root)
  {
    assert WalkBetween(arcs, root, root, [root]);
  }

  /** The first tier shows the module of the request, and the others show modules as the store holds them. */
  ghost predicate ShowsModules(t: GraphTable, request: SearchService.SearchRequest, tiers: seq<seq<Message>>)
    requires SearchService.Searchable(request)
  {
    var query := request.query;
    && tiers != []
    && tiers[0] == [Module(query.language, query.organization, query.mod, query.name)]
    && forall n, i :: 0 < n < |tiers| && 0 <= i < |tiers[n]| ==> StoresModule(t, tiers[n][i])
  }

  lemma SentIsFromStore(t: GraphTable, request: SearchService.SearchRequest, sent: seq<SearchService.SearchResponse>)
    requires Sound(t) && SearchService.Searchable(request) && SearchService.SendsReachable(t, request, sent)
    ensures FromStore(t, request, sent)
  {
    hide Sound, Arcs, Answers, StoresModule;
    var dir := SearchService.DirectionOf(request);
    forall i | 0 <= i < |sent| ensures SearchService.Correct(t, dir, sent[i]) {}
    forall i, j | 0 <= i < |sent| && 0 <= j < |sent[i].entries| ensures StoresModule(t, sent[i].entries[j].mod) {
      SearchService.AnswerModules(t, dir, SearchService.KeyFor(sent[i].request), sent[i].entries);
    }
  }

  lemma RootIsFirst(preds: Predecessors, root: Key, tiers: seq<seq<Message>>, n: nat, i: nat)
    requires Sorted(preds, root, tiers) && 0 < n < |tiers| && i < |tiers[n]|
    ensures KeyOf(tiers[n][i]) != root
  {
    RootStaysEmitted(preds, root, n - 1);
  }

  lemma {:induction false} RootStaysEmitted(preds: Predecessors, root: Key, n: nat)
    ensures root in Emitted(preds, root, n)
  {
    if n > 0 { RootStaysEmitted(preds, root, n - 1); }
  }

  lemma SortedShows(t: GraphTable, request: SearchService.SearchRequest, preds: Predecessors, nodes: Modules,
                    tiers: seq<seq<Message>>)
    requires SearchService.Searchable(request) && AreShown(t, request, nodes)
    requires var root := SearchService.KeyFor(request);
      root in nodes && Sorted(preds, root, tiers) && tiers[0] == [nodes[root]]
    requires forall n :: 0 <= n < |tiers| ==> TakenFrom(nodes, map[], tiers[n])
    ensures ShowsModules(t, request, tiers)
  {
    hide TierKeys, Released, Emitted, StoresModule;
    forall n, i | 0 < n < |tiers| && 0 <= i < |tiers[n]| ensures StoresModule(t, tiers[n][i]) {
      RootIsFirst(preds, SearchService.KeyFor(request), tiers, n, i);
      assert TakenFrom(nodes, map[], tiers[n]);
    }
  }

  /** The command: the reached part of the graph, sorted into tiers. Only dependency requests can be sorted. */
  method Topology(service: SearchService.Service, request: SearchService.SearchRequest)
    returns (outcome: SearchService.Outcome, tiers: seq<seq<Message>>, ghost preds: Predecessors)
    requires Sound(service.ds.gs.table)
    ensures outcome.Sent? <==> SearchService.Searchable(request)
    ensures outcome.Sent? ==>
      ReachedGraph(service.ds.gs.table, request, preds) && Sorted(preds, SearchService.KeyFor(request), tiers)
    ensures outcome.Sent? ==> ShowsModules(service.ds.gs.table, request, tiers)
  {
    tiers, preds := [], map[];
    var sent;
    outcome, sent := service.BreadthFirstSearch(request);
    if outcome.Unimplemented? {
      return;
    }
    SentIsCollectable(service.ds.gs.table, request, sent);
    SentIsFromStore(service.ds.gs.table, request, sent);
    var counter, nodes, edges := Collect(service.ds.gs.table, request, sent);
    CollectsReached(service.ds.gs.table, request, sent, counter);
    CollectedMirrors(sent, counter, nodes, edges);
    RootReached(Arcs(service.ds.gs.table, SearchService.DirectionOf(request)), SearchService.KeyFor(request));
    preds := counter;
    tiers := Sort(counter, nodes, edges, SearchService.KeyFor(request));
    SortedShows(service.ds.gs.table, request, counter, nodes, tiers);
  }

  // ---- What the command promises ----

  /** The arcs among reachable modules, without those back into the root. */
  ghost function OnwardArcs(t: GraphTable, request: SearchService.SearchRequest): set<(Key, Key)>
    requires SearchService.Searchable(request)
  {
    var arcs, root := Arcs(t, SearchService.DirectionOf(request)), SearchService.KeyFor(request);
    set e | e in arcs && Reachable(arcs, root, e.0) && e.1 != root
  }

  lemma ReachedOnward(t: GraphTable, request: SearchService.SearchRequest, preds: Predecessors)
    requires SearchService.Searchable(request) && ReachedGraph(t, request, preds)
    ensures Onward(preds, SearchService.KeyFor(request)) == OnwardArcs(t, request)
  {
    var arcs, root := Arcs(t, SearchService.DirectionOf(request)), SearchService.KeyFor(request);
    forall e | e in OnwardArcs(t, request) ensures e in Onward(preds, root) {
      ReachFurther(arcs, root, e.0, e.1);
      assert e.0 in preds[e.1];
    }
  }

  lemma ReachedIsRooted(t: GraphTable, request: SearchService.SearchRequest, preds: Predecessors)
    requires SearchService.Searchable(request) && ReachedGraph(t, request, preds)
    ensures Rooted(preds, SearchService.KeyFor(request))
  {
    var arcs, root := Arcs(t, SearchService.DirectionOf(request)), SearchService.KeyFor(request);
    RootReached(arcs, root);
    forall d | d in preds && d != root ensures preds[d] != {} {
      var p :| WalkBetween(arcs, root, d, p);
      var m := p[|p| - 2];
      assert (p[|p| - 2], p[|p| - 1]) in arcs;
      assert WalkBetween(arcs, root, m, p[..|p| - 1]);
      assert m in preds[d];
    }
  }

  /**
   Every reachable module is in the output if and only if the reachable graph has no cycle once the arcs
   into the root are dropped, and every one of those arcs goes to a strictly higher tier.
   */
  lemma TopologyIsComplete(t: GraphTable, request: SearchService.SearchRequest, preds: Predecessors,
                      tiers: seq<seq<Message>>)
    requires SearchService.Searchable(request) && ReachedGraph(t, request, preds)
    requires Sorted(preds, SearchService.KeyFor(request), tiers)
    ensures (forall v :: Reachable(Arcs(t, SearchService.DirectionOf(request)), SearchService.KeyFor(request), v) ==>
      EmittedBy(tiers, v))
       <==> Acyclic(OnwardArcs(t, request))
    ensures forall n: nat, i: nat, m ::
      n < |tiers| && i < |tiers[n]| && (m, KeyOf(tiers[n][i])) in OnwardArcs(t, request) ==>
              exists k, j :: 0 <= k < n && 0 <= j < |tiers[k]| && KeyOf(tiers[k][j]) == m
  {
    var root := SearchService.KeyFor(request);
    ReachedOnward(t, request, preds);
    ReachedIsRooted(t, request, preds);
    CompleteIffAcyclic(preds, root, tiers);
    forall n: nat, i: nat, m | n < |tiers| && i < |tiers[n]| && (m, KeyOf(tiers[n][i])) in OnwardArcs(t, request)
      ensures exists k, j :: 0 <= k < n && 0 <= j < |tiers[k]| && KeyOf(tiers[k][j]) == m
    {
      ArcsGoUp(preds, root, tiers, n, i, m);
    }
  }
}
