/** The v1alpha search service: breadth-first and depth-first search over the dependency graph. */
module SearchService {
  import opened Digraph
  import opened SoftTable
  import opened GraphStoreV1Alpha
  import SourceService
  import opened Declarations
  import opened Reconciliation
  import opened DependencyService
  import ModuleService

  datatype Query = Query(language: string, organization: string, mod: string, name: string)

  datatype SearchRequest =
    | DependenciesOf(query: Query)
    | DependentsOf(query: Query)
    | SourcesFor(mod: Query)
    | ModulesFor(url: string)
    | EmptyRequest

  datatype SearchResponse = SearchResponse(request: SearchRequest, entries: seq<Entry>)

  /** What a single request is answered with. */
  datatype Reply = Found(response: SearchResponse) | Listed(managed: seq<ModuleService.Managed>) | NoReply

  datatype Outcome = Sent | Unimplemented

  function QueryKey(query: Query): Key {
    ModuleKey(query.language, query.organization, query.mod)
  }

  /** The requests that a search can be continued from. */
  predicate Searchable(request: SearchRequest) {
    request.DependenciesOf? || request.DependentsOf?
  }

  function DirectionOf(request: SearchRequest): Direction
    requires Searchable(request)
  {
    if request.DependenciesOf? then Dependencies else Dependents
  }

  function KeyFor(request: SearchRequest): Key
    requires Searchable(request)
  {
    QueryKey(request.query)
  }

  /** The request that carries the search on to the module of an entry. */
  function Follow(dir: Direction, entry: Entry): SearchRequest
    requires entry.mod.Module?
  {
    var query := Query(entry.mod.language, entry.mod.organization, entry.mod.mod, entry.mod.name);
    if dir == Dependencies then DependenciesOf(query) else DependentsOf(query)
  }

  ghost function Keys(requests: seq<SearchRequest>): set<Key>
    requires forall i :: 0 <= i < |requests| ==> Searchable(requests[i])
  {
    set i | 0 <= i < |requests| :: KeyFor(requests[i])
  }

  /** Requests in one direction, for different modules. */
  ghost predicate Queue(dir: Direction, requests: seq<SearchRequest>) {
    && (forall i :: 0 <= i < |requests| ==> Searchable(requests[i]) && DirectionOf(requests[i]) == dir)
    && (forall i, j :: 0 <= i < j < |requests| ==> KeyFor(requests[i]) != KeyFor(requests[j]))
  }

  /** The response answers its request from this table. */
  ghost predicate Correct(t: GraphTable, dir: Direction, response: SearchResponse) {
    && Searchable(response.request)
    && DirectionOf(response.request) == dir
    && var query := response.request.query;
    && Answers(t, dir, ModuleKey(query.language, query.organization, query.mod), response.entries)
  }

  /** The request asks about a module of the store, by all of its fields. */
  ghost predicate AsStored(t: GraphTable, request: SearchRequest) {
    && Searchable(request)
    && var query := request.query;
    && StoresModule(t, Module(query.language, query.organization, query.mod, query.name))
  }

  ghost predicate AllStored(t: GraphTable, requests: seq<SearchRequest>) {
    forall i :: 0 <= i < |requests| ==> AsStored(t, requests[i])
  }

  /** After the first, which is the client's, all responses are to requests about modules of the store. */
  ghost predicate GoesOnStored(t: GraphTable, sent: seq<SearchResponse>) {
    forall i :: 0 < i < |sent| ==> AsStored(t, sent[i].request)
  }

  /** The reply answers its request, from the tables that the dependency service and the module service read. */
  ghost predicate IsReply(t: GraphTable, t': GraphTable, request: SearchRequest, reply: Reply) {
    match request
    case SourcesFor(mod) =>
      && reply.Listed?
      && var key := ModuleKey(mod.language, mod.organization, mod.mod);
      && ModuleService.Lists(t', ModuleService.SourceRows(t', key), reply.managed)
    case ModulesFor(url) =>
      reply.Listed? && ModuleService.Lists(t', SourceService.ManagedRows(t', SourceKey(url)), reply.managed)
    case EmptyRequest => reply == NoReply
    case _ => reply.Found? && reply.response.request == request && Correct(t, DirectionOf(request), reply.response)
  }

  ghost function Requests(responses: seq<SearchResponse>): seq<SearchRequest> {
    seq(|responses|, i requires 0 <= i < |responses| => responses[i].request)
  }

  /** Correct responses for different modules, in one direction. */
  ghost predicate Responses(t: GraphTable, dir: Direction, responses: seq<SearchResponse>) {
    && (forall i :: 0 <= i < |responses| ==> Correct(t, dir, responses[i]))
    && Queue(dir, Requests(responses))
  }

  /** The responses come in the order of the distance of their modules from the root. */
  ghost predicate NearestFirst(arcs: set<(Key, Key)>, root: Key, requests: seq<SearchRequest>)
    requires forall i :: 0 <= i < |requests| ==> Searchable(requests[i])
  {
    forall i, j, n: nat :: 0 <= i <= j < |requests| && KeyFor(requests[j]) in Within(arcs, root, n) ==>
      KeyFor(requests[i]) in Within(arcs, root, n)
  }

  ghost function ModuleKeys(t: GraphTable): set<Key> {
    set pk | pk in t && pk.itemType == ModuleType :: pk.k1
  }

  lemma ArcHeadsAreModules(t: GraphTable, dir: Direction, arc: (Key, Key))
    requires Sound(t) && arc in Arcs(t, dir)
    ensures arc.1 in ModuleKeys(t)
  {
    var edge :| edge in t && Live(t, edge) && edge.itemType == DependsType && edge.k1 != edge.k2
      && arc == (NearEnd(dir, edge), FarEnd(dir, edge));
    assert ModuleRow(FarEnd(dir, edge)) in t;
  }

  /** Correct responses to different requests, one for each reachable module, in the order of distance from the root. */
  ghost predicate SendsReachable(t: GraphTable, root: SearchRequest, sent: seq<SearchResponse>)
    requires Searchable(root)
  {
    var arcs := Arcs(t, DirectionOf(root));
    && Responses(t, DirectionOf(root), sent)
    && (forall key :: key in Keys(Requests(sent)) <==> Reachable(arcs, KeyFor(root), key))
    && NearestFirst(arcs, KeyFor(root), Requests(sent))
    && |sent| > 0 && sent[0].request == root
    && GoesOnStored(t, sent)
  }

  class Service {
    const ds: DependencyService.Service
    const ms: ModuleService.Service

    constructor (ds: DependencyService.Service, ms: ModuleService.Service)
      ensures this.ds == ds && this.ms == ms
    {
      this.ds := ds;
      this.ms := ms;
    }

    method ProcessRequest(request: SearchRequest) returns (reply: Reply)
      ensures IsReply(ds.gs.table, ms.gs.table, request, reply)
    {
      match request
      case DependenciesOf(query) =>
        var entries := ds.ListDependencies(QueryKey(query));
        reply := Found(SearchResponse(request, entries));
      case DependentsOf(query) =>
        var entries := ds.ListDependents(QueryKey(query));
        reply := Found(SearchResponse(request, entries));
      case SourcesFor(mod) =>
        var sources := ms.ListSources(QueryKey(mod));
        reply := Listed(sources);
      case ModulesFor(url) =>
        var modules := ms.ListManaged(SourceKey(url));
        reply := Listed(modules);
      case EmptyRequest =>
        reply := NoReply;
    }

    /** Queues the modules of a response that were not seen before. */
    method Discover(ghost t: GraphTable, dir: Direction, entries: seq<Entry>, seen0: set<Key>,
                    next0: seq<SearchRequest>)
      returns (seen: set<Key>, next: seq<SearchRequest>)
      requires forall i :: 0 <= i < |entries| ==> StoresModule(t, entries[i].mod)
      requires Queue(dir, next0) && Keys(next0) <= seen0 && AllStored(t, next0)
      ensures seen == seen0 + EntryKeys(entries)
      ensures Queue(dir, next) && Keys(next) == Keys(next0) + (seen - seen0) && AllStored(t, next)
    {
      seen, next := seen0, next0;
      for j := 0 to |entries|
        invariant seen == seen0 + EntryKeys(entries[..j])
        invariant Queue(dir, next) && Keys(next) == Keys(next0) + (seen - seen0) && AllStored(t, next)
      {
        var item := Follow(dir, entries[j]);
        assert entries[..j + 1] == entries[..j] + [entries[j]];
        assert EntryKeys(entries[..j + 1]) == EntryKeys(entries[..j]) + {KeyOf(entries[j].mod)};
        if KeyFor(item) !in seen {
          KeysAppend(dir, next, item);
          seen := seen + {KeyFor(item)};
          next := next + [item];
        }
      }
      assert entries[..|entries|] == entries;
    }

    /** Answers one request and queues what its answer newly discovers. */
    method Explore(dir: Direction, request: SearchRequest, seen0: set<Key>, next0: seq<SearchRequest>)
      returns (response: SearchResponse, seen: set<Key>, next: seq<SearchRequest>)
      requires Sound(ds.gs.table) && Searchable(request) && DirectionOf(request) == dir
      requires Queue(dir, next0) && Keys(next0) <= seen0 && AllStored(ds.gs.table, next0)
      ensures response.request == request && Correct(ds.gs.table, dir, response)
      ensures seen == seen0 + Heads(Arcs(ds.gs.table, dir), {KeyFor(request)})
      ensures Queue(dir, next) && Keys(next) == Keys(next0) + (seen - seen0) && AllStored(ds.gs.table, next)
    {
      var reply := ProcessRequest(request);
      response := reply.response;
      AnswerHeads(ds.gs.table, dir, KeyFor(request), response.entries);
      AnswerModules(ds.gs.table, dir, KeyFor(request), response.entries);
      seen, next := Discover(ds.gs.table, dir, response.entries, seen0, next0);
    }

    /** Answers the requests of one tier, and collects the next tier. */
    method ProcessTier(dir: Direction, queue: seq<SearchRequest>, seen0: set<Key>)
      returns (toSend: seq<SearchResponse>, seen: set<Key>, next: seq<SearchRequest>)
      requires Sound(ds.gs.table) && Queue(dir, queue)
      ensures Responses(ds.gs.table, dir, toSend) && Requests(toSend) == queue
      ensures seen == seen0 + Heads(Arcs(ds.gs.table, dir), Keys(queue))
      ensures Queue(dir, next) && Keys(next) == seen - seen0 && AllStored(ds.gs.table, next)
    {
      hide InTier;
      ghost var t := ds.gs.table;
      toSend, seen, next := [], seen0, [];
      StartOfTier(t, dir, queue, seen0);
      for i := 0 to |queue|
        invariant t == ds.gs.table && InTier(t, dir, queue, i, toSend, seen0, seen, next)
      {
        WithinTier(t, dir, queue, i, toSend, seen0, seen, next);
        var response, seen', next' := Explore(dir, queue[i], seen, next);
        StepInTier(t, dir, queue, i, toSend, seen0, seen, next, response, seen', next');
        toSend, seen, next := toSend + [response], seen', next';
      }
      EndOfTier(t, dir, queue, toSend, seen0, seen, next);
    }

    /** One round of the breadth-first search: answers a tier, flushes its responses and queues the next one. */
    method SearchTier(ghost t: GraphTable, dir: Direction, ghost root: SearchRequest, ghost tier: nat,
                      queue: seq<SearchRequest>, seen0: set<Key>, sent0: seq<SearchResponse>, ghost unseen0: nat)
      returns (next: seq<SearchRequest>, seen: set<Key>, sent: seq<SearchResponse>, ghost unseen: nat)
      requires t == ds.gs.table && Sound(t) && AtTier(t, dir, root, tier, queue, seen0, sent0) && queue != []
      requires Unseen(t, root, seen0, unseen0)
      ensures AtTier(t, dir, root, tier + 1, next, seen, sent) && Unseen(t, root, seen, unseen)
      ensures unseen < unseen0 || (unseen == unseen0 && next == [])
    {
      var toSend;
      toSend, seen, next := ProcessTier(dir, queue, seen0);
      NextTier(t, dir, root, tier, queue, seen0, sent0, toSend, seen, next);
      unseen := TierMakesProgress(t, dir, root, Keys(queue), seen0, unseen0, seen, next);
      sent := sent0 + toSend;
    }

    /**
     One response for each module that can be reached from the root, none twice, nearest first. Requests that
     are not about dependencies fail before anything is sent.
     */
    method BreadthFirstSearch(root: SearchRequest)
      returns (outcome: Outcome, sent: seq<SearchResponse>)
      requires Sound(ds.gs.table)
      ensures outcome == Sent <==> Searchable(root)
      ensures outcome == Unimplemented ==> sent == []
      ensures outcome == Sent ==> SendsReachable(ds.gs.table, root, sent)
    {
      hide AtTier, Unseen;
      sent := [];
      if !Searchable(root) {
        return Unimplemented, [];
      }
      var dir := DirectionOf(root);
      ghost var t := ds.gs.table;
      var queue, seen := [root], {KeyFor(root)};
      ghost var tier: nat := 0;
      ghost var unseen := StartOfSearch(t, dir, root);
      while |queue| > 0
        invariant AtTier(t, dir, root, tier, queue, seen, sent)
        invariant Unseen(t, root, seen, unseen) && t == ds.gs.table
        decreases unseen, |queue|
      {
        queue, seen, sent, unseen := SearchTier(t, dir, root, tier, queue, seen, sent, unseen);
        tier := tier + 1;
        assert AtTier(t, dir, root, tier, queue, seen, sent);
      }
      EndOfSearch(t, dir, root, tier, seen, sent);
      outcome := Sent;
    }

    /**
     One round of the depth-first search: answers the top of the stack, and replaces the stack by what that discovers.
     */
    method Descend(ghost t: GraphTable, dir: Direction, ghost root: SearchRequest,
                   stack: seq<SearchRequest>, seen0: set<Key>, sent0: seq<SearchResponse>, ghost unseen0: nat)
      returns (next: seq<SearchRequest>, seen: set<Key>, sent: seq<SearchResponse>, ghost unseen: nat)
      requires t == ds.gs.table && Sound(t) && Descending(t, dir, root, stack, seen0, sent0) && stack != []
      requires Unseen(t, root, seen0, unseen0)
      ensures Descending(t, dir, root, next, seen, sent) && Unseen(t, root, seen, unseen)
      ensures unseen < unseen0 || (unseen == unseen0 && next == [])
    {
      hide Descending, Unseen, AsStored, StoresModule, Correct, Arcs;
      TopOfDescent(t, dir, root, stack, seen0, sent0);
      var response;
      response, seen, next := Explore(dir, stack[|stack| - 1], seen0, []);
      NextDescent(t, dir, root, stack, seen0, sent0, response, seen, next);
      unseen := TierMakesProgress(t, dir, root, {KeyFor(response.request)}, seen0, unseen0, seen, next);
      sent := sent0 + [response];
    }

    /**
     One response for each module of a simple path from the root. The modules that a step discovers replace the
     whole stack, so only the last of them is followed: everything reachable is sent if and only if no two
     reachable modules are at the same distance from the root.
     */
    method DepthFirstSearch(root: SearchRequest) returns (outcome: Outcome, sent: seq<SearchResponse>)
      requires Sound(ds.gs.table)
      ensures outcome == Sent <==> Searchable(root)
      ensures outcome == Unimplemented ==> sent == []
      ensures outcome == Sent ==> SendsPath(ds.gs.table, root, sent)
      ensures outcome == Sent ==>
        (Covers(ds.gs.table, root, sent) <==> Chain(Arcs(ds.gs.table, DirectionOf(root)), KeyFor(root)))
    {
      sent := [];
      if !Searchable(root) {
        return Unimplemented, [];
      }
      var dir := DirectionOf(root);
      ghost var t := ds.gs.table;
      var stack, seen := [root], {KeyFor(root)};
      ghost var unseen: nat := |ModuleKeys(t) - seen|;
      StartOfPath(t, dir, root);
      while |stack| > 0
        invariant Descending(t, dir, root, stack, seen, sent)
        invariant Unseen(t, root, seen, unseen) && t == ds.gs.table
        decreases unseen, |stack|
      {
        stack, seen, sent, unseen := Descend(t, dir, root, stack, seen, sent, unseen);
        assert Descending(t, dir, root, stack, seen, sent);
      }
      EndOfPath(t, dir, root, seen, sent);
      outcome := Sent;
    }
  }

  // ---- The depth-first loop ----

  ghost predicate Consecutive(arcs: set<(Key, Key)>, requests: seq<SearchRequest>)
    requires forall i :: 0 <= i < |requests| ==> Searchable(requests[i])
  {
    forall i :: 0 <= i < |requests| - 1 ==> (KeyFor(requests[i]), KeyFor(requests[i + 1])) in arcs
  }

  /** Correct responses, to the root and on along arcs of the graph, never to the same module twice. */
  ghost predicate SendsPath(t: GraphTable, root: SearchRequest, sent: seq<SearchResponse>)
    requires Searchable(root)
  {
    && Responses(t, DirectionOf(root), sent)
    && |sent| > 0 && sent[0].request == root
    && Consecutive(Arcs(t, DirectionOf(root)), Requests(sent))
    && GoesOnStored(t, sent)
  }

  /** Everything that can be reached from the root has been sent. */
  ghost predicate Covers(t: GraphTable, root: SearchRequest, sent: seq<SearchResponse>)
    requires Searchable(root) && SendsPath(t, root, sent)
  {
    forall key :: Reachable(Arcs(t, DirectionOf(root)), KeyFor(root), key) ==> key in Keys(Requests(sent))
  }

  /** No two vertices are at the same distance from the root. */
  ghost predicate Chain(arcs: set<(Key, Key)>, root: Key) {
    forall n: nat, a, b :: a in Layer(arcs, root, n) && b in Layer(arcs, root, n) ==> a == b
  }

  ghost predicate OnPath(t: GraphTable, dir: Direction, root: SearchRequest, stack: seq<SearchRequest>,
                      seen: set<Key>, sent: seq<SearchResponse>) {
    && Searchable(root) && dir == DirectionOf(root)
    && Responses(t, dir, sent) && Queue(dir, stack)
    && Keys(stack) <= seen && Keys(Requests(sent)) <= seen && Keys(stack) !! Keys(Requests(sent))
    && Consecutive(Arcs(t, dir), Requests(sent))
    && (if sent == [] then stack == [root] else sent[0].request == root && AllStored(t, stack))
    && GoesOnStored(t, sent)
    && (sent != [] ==> forall i :: 0 <= i < |stack| ==>
         (KeyFor(sent[|sent| - 1].request), KeyFor(stack[i])) in Arcs(t, dir))
  }

  /** Nothing has been dropped so far: the search has gone through one module per distance. */
  ghost predicate Narrow(arcs: set<(Key, Key)>, root: Key, n: nat, pending: set<Key>, seen: set<Key>, done: set<Key>) {
    && seen == Within(arcs, root, n) && pending == Layer(arcs, root, n) && done == seen - pending
    && forall m: nat, a, b :: m <= n && a in Layer(arcs, root, m) && b in Layer(arcs, root, m) ==> a == b
  }

  /** A reachable module has been seen that is neither sent nor next on the stack, and so never will be sent. */
  ghost predicate Lost(arcs: set<(Key, Key)>, root: Key, top: set<Key>, seen: set<Key>, done: set<Key>) {
    && !Chain(arcs, root)
    && exists v :: v in seen && Reachable(arcs, root, v) && v !in done && v !in top
  }

  ghost function Top(stack: seq<SearchRequest>): set<Key>
    requires forall i :: 0 <= i < |stack| ==> Searchable(stack[i])
  {
    if stack == [] then {} else {KeyFor(stack[|stack| - 1])}
  }

  ghost predicate Coverage(arcs: set<(Key, Key)>, root: Key, n: nat, stack: seq<SearchRequest>, seen: set<Key>,
                      done: seq<SearchRequest>)
    requires forall i :: 0 <= i < |stack| ==> Searchable(stack[i])
    requires forall i :: 0 <= i < |done| ==> Searchable(done[i])
  {
    Narrow(arcs, root, n, Keys(stack), seen, Keys(done)) || Lost(arcs, root, Top(stack), seen, Keys(done))
  }

  ghost predicate Descending(t: GraphTable, dir: Direction, root: SearchRequest, stack: seq<SearchRequest>,
                      seen: set<Key>, sent: seq<SearchResponse>) {
    && OnPath(t, dir, root, stack, seen, sent)
    && Coverage(Arcs(t, dir), KeyFor(root), |sent|, stack, seen, Requests(sent))
  }

  lemma TopOfDescent(t: GraphTable, dir: Direction, root: SearchRequest, stack: seq<SearchRequest>, seen: set<Key>,
                     sent: seq<SearchResponse>)
    requires Descending(t, dir, root, stack, seen, sent) && stack != []
    ensures Searchable(root) && Searchable(stack[|stack| - 1]) && DirectionOf(stack[|stack| - 1]) == dir
    ensures Queue(dir, []) && Keys([]) == {} && AllStored(t, [])
  {
  }

  lemma NextDescent(t: GraphTable, dir: Direction, root: SearchRequest, stack: seq<SearchRequest>, seen: set<Key>,
                    sent: seq<SearchResponse>,
                    response: SearchResponse, seen': set<Key>, next: seq<SearchRequest>)
    requires Descending(t, dir, root, stack, seen, sent) && stack != []
    requires response.request == stack[|stack| - 1] && Correct(t, dir, response)
    requires seen' == seen + Heads(Arcs(t, dir), {KeyFor(response.request)})
    requires Queue(dir, next) && Keys(next) == seen' - seen && AllStored(t, next)
    ensures Descending(t, dir, root, next, seen', sent + [response])
  {
    NextOnPath(t, dir, root, stack, seen, sent, response, seen', next);
    NextCoverage(Arcs(t, dir), KeyFor(root), dir, stack, seen, sent, response, seen', next);
  }

  lemma StartOfPath(t: GraphTable, dir: Direction, root: SearchRequest)
    requires Searchable(root) && dir == DirectionOf(root)
    ensures Descending(t, dir, root, [root], {KeyFor(root)}, [])
  {
    assert KeyFor([root][0]) in Keys([root]);
    assert Keys([root]) == {KeyFor(root)};
    assert Requests([]) == [];
    assert Keys([]) == {};
  }

  lemma KeysOfSent(dir: Direction, sent: seq<SearchResponse>, response: SearchResponse)
    requires Queue(dir, Requests(sent)) && Searchable(response.request) && DirectionOf(response.request) == dir
    requires KeyFor(response.request) !in Keys(Requests(sent))
    ensures Queue(dir, Requests(sent + [response]))
    ensures Keys(Requests(sent + [response])) == Keys(Requests(sent)) + {KeyFor(response.request)}
  {
    KeysAppend(dir, Requests(sent), response.request);
    assert Requests(sent + [response]) == Requests(sent) + [response.request];
  }

  lemma NextOnPath(t: GraphTable, dir: Direction, root: SearchRequest, stack: seq<SearchRequest>, seen: set<Key>,
                   sent: seq<SearchResponse>,
                   response: SearchResponse, seen': set<Key>, next: seq<SearchRequest>)
    requires OnPath(t, dir, root, stack, seen, sent) && stack != []
    requires response.request == stack[|stack| - 1] && Correct(t, dir, response)
    requires seen' == seen + Heads(Arcs(t, dir), {KeyFor(response.request)})
    requires Queue(dir, next) && Keys(next) == seen' - seen && AllStored(t, next)
    ensures OnPath(t, dir, root, next, seen', sent + [response])
  {
    hide Arcs, Correct;
    assert KeyFor(stack[|stack| - 1]) in Keys(stack);
    KeysOfSent(dir, sent, response);
    PathGrows(Arcs(t, dir), dir, Requests(sent), response.request);
    assert Requests(sent + [response]) == Requests(sent) + [response.request];
    forall i | 0 <= i < |next| ensures (KeyFor(response.request), KeyFor(next[i])) in Arcs(t, dir) {
      assert KeyFor(next[i]) in Keys(next);
    }
  }

  lemma PathGrows(arcs: set<(Key, Key)>, dir: Direction, path: seq<SearchRequest>, request: SearchRequest)
    requires Queue(dir, path) && Consecutive(arcs, path) && Searchable(request) && DirectionOf(request) == dir
    requires path != [] ==> (KeyFor(path[|path| - 1]), KeyFor(request)) in arcs
    ensures Consecutive(arcs, path + [request])
  {
  }

  lemma NarrowStep(arcs: set<(Key, Key)>, root: Key, n: nat, at: Key, seen: set<Key>, done: set<Key>, seen': set<Key>)
    requires Narrow(arcs, root, n, {at}, seen, done)
    requires seen' == seen + Heads(arcs, {at})
    ensures seen' - seen == Layer(arcs, root, n + 1)
    ensures (forall a, b :: a in seen' - seen && b in seen' - seen ==> a == b) ==>
      Narrow(arcs, root, n + 1, seen' - seen, seen', done + {at})
  {
    TierGrows(arcs, root, n, {at}, seen, seen');
  }

  lemma LoseOne(arcs: set<(Key, Key)>, root: Key, n: nat, a: Key, b: Key, seen: set<Key>, done: set<Key>)
    requires a in Layer(arcs, root, n) && b in Layer(arcs, root, n) && a != b
    requires a in seen && a !in done
    ensures Lost(arcs, root, {b}, seen, done)
  {
    WithinIsDistance(arcs, root, n, a);
  }

  lemma SingleKey(next: seq<SearchRequest>, a: Key, b: Key)
    requires |next| <= 1 && forall i :: 0 <= i < |next| ==> Searchable(next[i])
    requires a in Keys(next) && b in Keys(next)
    ensures a == b
  {
  }

  lemma StaysNarrow(arcs: set<(Key, Key)>, root: Key, dir: Direction, n: nat, at: Key, seen: set<Key>, done: set<Key>,
                    seen': set<Key>, next: seq<SearchRequest>)
    requires Narrow(arcs, root, n, {at}, seen, done) && seen' == seen + Heads(arcs, {at})
    requires Queue(dir, next) && Keys(next) == seen' - seen && |next| <= 1
    ensures Narrow(arcs, root, n + 1, Keys(next), seen', done + {at})
  {
    forall a, b | a in Keys(next) && b in Keys(next) ensures a == b { SingleKey(next, a, b); }
    NarrowStep(arcs, root, n, at, seen, done, seen');
  }

  lemma BecomesLost(arcs: set<(Key, Key)>, root: Key, dir: Direction, n: nat, at: Key, seen: set<Key>, done: set<Key>,
                    seen': set<Key>, next: seq<SearchRequest>)
    requires Narrow(arcs, root, n, {at}, seen, done) && at in seen && seen' == seen + Heads(arcs, {at})
    requires Queue(dir, next) && Keys(next) == seen' - seen && |next| > 1
    ensures Lost(arcs, root, Top(next), seen', done + {at})
  {
    hide Lost, Chain, Within, Heads;
    var a, b := KeyFor(next[0]), KeyFor(next[|next| - 1]);
    NarrowStep(arcs, root, n, at, seen, done, seen');
    assert a in Keys(next) && b in Keys(next);
    LoseOne(arcs, root, n + 1, a, b, seen', done + {at});
  }

  lemma SingleOfNarrow(arcs: set<(Key, Key)>, root: Key, n: nat, at: Key, pending: set<Key>, seen: set<Key>,
                      done: set<Key>)
    requires Narrow(arcs, root, n, pending, seen, done) && at in pending
    ensures pending == {at} && at in seen
  {
    forall a | a in pending ensures a == at {
      assert a in Layer(arcs, root, n) && at in Layer(arcs, root, n);
    }
  }

  lemma StillLost(arcs: set<(Key, Key)>, root: Key, at: Key, seen: set<Key>, done: set<Key>, seen': set<Key>,
                  top: set<Key>)
    requires Lost(arcs, root, {at}, seen, done) && seen <= seen' && top !! seen
    ensures Lost(arcs, root, top, seen', done + {at})
  {
  }

  lemma NextCoverage(arcs: set<(Key, Key)>, root: Key, dir: Direction, stack: seq<SearchRequest>, seen: set<Key>,
                     sent: seq<SearchResponse>,
                     response: SearchResponse, seen': set<Key>, next: seq<SearchRequest>)
    requires Queue(dir, stack) && Queue(dir, next) && Queue(dir, Requests(sent)) && stack != []
    requires Keys(stack) !! Keys(Requests(sent))
    requires Coverage(arcs, root, |sent|, stack, seen, Requests(sent))
    requires response.request == stack[|stack| - 1]
    requires seen' == seen + Heads(arcs, {KeyFor(response.request)}) && Keys(next) == seen' - seen
    ensures Queue(dir, Requests(sent + [response]))
    ensures Coverage(arcs, root, |sent + [response]|, next, seen', Requests(sent + [response]))
  {
    hide Narrow, Lost;
    var at, done := KeyFor(response.request), Keys(Requests(sent));
    assert at in Keys(stack);
    KeysOfSent(dir, sent, response);
    if Narrow(arcs, root, |sent|, Keys(stack), seen, done) {
      SingleOfNarrow(arcs, root, |sent|, at, Keys(stack), seen, done);
      if |next| <= 1 {
        StaysNarrow(arcs, root, dir, |sent|, at, seen, done, seen', next);
      } else {
        BecomesLost(arcs, root, dir, |sent|, at, seen, done, seen', next);
      }
    } else {
      if next != [] { assert KeyFor(next[|next| - 1]) in Keys(next); }
      StillLost(arcs, root, at, seen, done, seen', Top(next));
    }
  }

  lemma NarrowCovers(arcs: set<(Key, Key)>, root: Key, n: nat, seen: set<Key>, done: set<Key>)
    requires Narrow(arcs, root, n, {}, seen, done) && n > 0
    ensures (forall key :: Reachable(arcs, root, key) ==> key in done) && Chain(arcs, root)
  {
    hide Layer, Reachable;
    LayerEmpty(arcs, root, n);
    forall key ensures key in seen <==> Reachable(arcs, root, key) { FixpointIsReachable(arcs, root, n, key); }
    forall m: nat, a, b | a in Layer(arcs, root, m) && b in Layer(arcs, root, m) ensures a == b {
      if m > n { NoLayerAfter(arcs, root, n, m); }
    }
  }

  lemma NoLayerAfter(arcs: set<(Key, Key)>, root: Key, n: nat, m: nat)
    requires n < m && Heads(arcs, Within(arcs, root, n)) <= Within(arcs, root, n)
    ensures Layer(arcs, root, m) == {}
  {
    hide Heads, Within;
    FixpointStays(arcs, root, n, m - 1);
    FixpointStays(arcs, root, n, m);
  }

  lemma EndOfPath(t: GraphTable, dir: Direction, root: SearchRequest, seen: set<Key>, sent: seq<SearchResponse>)
    requires Descending(t, dir, root, [], seen, sent)
    ensures SendsPath(t, root, sent)
    ensures Covers(t, root, sent) <==> Chain(Arcs(t, dir), KeyFor(root))
  {
    assert Keys([]) == {};
    if Narrow(Arcs(t, dir), KeyFor(root), |sent|, {}, seen, Keys(Requests(sent))) {
      NarrowCovers(Arcs(t, dir), KeyFor(root), |sent|, seen, Keys(Requests(sent)));
    }
  }

  lemma LayerEmpty(arcs: set<(Key, Key)>, root: Key, n: nat)
    requires n > 0 && Layer(arcs, root, n) == {}
    ensures Heads(arcs, Within(arcs, root, n)) <= Within(arcs, root, n)
  {
    forall v | v in Within(arcs, root, n) ensures v in Within(arcs, root, n - 1) { assert v !in Layer(arcs, root, n); }
    assert Within(arcs, root, n) == Within(arcs, root, n - 1);
  }

  // ---- Within a tier ----

  /** The first i requests of a tier have been answered, and what their answers discovered is queued. */
  ghost predicate InTier(t: GraphTable, dir: Direction, queue: seq<SearchRequest>, i: nat, toSend: seq<SearchResponse>,
                         seen0: set<Key>, seen: set<Key>, next: seq<SearchRequest>)
  {
    && Queue(dir, queue) && i <= |queue|
    && |toSend| == i && (forall k :: 0 <= k < i ==> toSend[k].request == queue[k] && Correct(t, dir, toSend[k]))
    && seen == seen0 + Heads(Arcs(t, dir), Keys(queue[..i]))
    && Queue(dir, next) && Keys(next) == seen - seen0 && AllStored(t, next)
  }

  lemma StartOfTier(t: GraphTable, dir: Direction, queue: seq<SearchRequest>, seen0: set<Key>)
    requires Queue(dir, queue)
    ensures InTier(t, dir, queue, 0, [], seen0, seen0, [])
  {
    assert Keys(queue[..0]) == {} && Keys([]) == {};
  }

  lemma WithinTier(t: GraphTable, dir: Direction, queue: seq<SearchRequest>, i: nat, toSend: seq<SearchResponse>,
                   seen0: set<Key>, seen: set<Key>, next: seq<SearchRequest>)
    requires InTier(t, dir, queue, i, toSend, seen0, seen, next) && i < |queue|
    ensures Searchable(queue[i]) && DirectionOf(queue[i]) == dir
    ensures Queue(dir, next) && Keys(next) <= seen && AllStored(t, next)
  {
  }

  lemma StepInTier(t: GraphTable, dir: Direction, queue: seq<SearchRequest>, i: nat, toSend: seq<SearchResponse>,
                   seen0: set<Key>, seen: set<Key>, next: seq<SearchRequest>,
                   response: SearchResponse, seen': set<Key>, next': seq<SearchRequest>)
    requires InTier(t, dir, queue, i, toSend, seen0, seen, next) && i < |queue|
    requires response.request == queue[i] && Correct(t, dir, response)
    requires seen' == seen + Heads(Arcs(t, dir), {KeyFor(response.request)})
    requires Queue(dir, next) && Queue(dir, next') && Keys(next') == Keys(next) + (seen' - seen)
    requires AllStored(t, next')
    ensures InTier(t, dir, queue, i + 1, toSend + [response], seen0, seen', next')
  {
    hide Heads, Arcs, Correct, Keys;
    KeysStep(dir, queue, i);
    HeadsOfUnion(Arcs(t, dir), Keys(queue[..i]), {KeyFor(queue[i])});
  }

  lemma EndOfTier(t: GraphTable, dir: Direction, queue: seq<SearchRequest>, toSend: seq<SearchResponse>,
                  seen0: set<Key>, seen: set<Key>, next: seq<SearchRequest>)
    requires InTier(t, dir, queue, |queue|, toSend, seen0, seen, next)
    ensures Responses(t, dir, toSend) && Requests(toSend) == queue
    ensures seen == seen0 + Heads(Arcs(t, dir), Keys(queue))
    ensures Queue(dir, next) && Keys(next) == seen - seen0 && AllStored(t, next)
  {
    assert Requests(toSend) == queue;
    assert queue[..|queue|] == queue;
  }

  // ---- The breadth-first loop ----

  /** Everything nearer than `tier` has been sent, and the modules at that distance are queued. */
  ghost predicate AtTier(t: GraphTable, dir: Direction, root: SearchRequest, tier: nat,
                         queue: seq<SearchRequest>, seen: set<Key>, sent: seq<SearchResponse>) {
    && Searchable(root) && dir == DirectionOf(root)
    && var arcs, rootKey := Arcs(t, dir), KeyFor(root);
    && Queue(dir, queue) && Keys(queue) == Layer(arcs, rootKey, tier)
    && seen == Within(arcs, rootKey, tier)
    && Responses(t, dir, sent) && Keys(Requests(sent)) == seen - Keys(queue)
    && NearestFirst(arcs, rootKey, Requests(sent))
    && (if tier == 0 then sent == [] && queue == [root]
        else |sent| > 0 && sent[0].request == root && AllStored(t, queue))
    && GoesOnStored(t, sent)
  }

  lemma StartOfSearch(t: GraphTable, dir: Direction, root: SearchRequest) returns (unseen: nat)
    requires Searchable(root) && dir == DirectionOf(root)
    ensures AtTier(t, dir, root, 0, [root], {KeyFor(root)}, [])
    ensures Unseen(t, root, {KeyFor(root)}, unseen)
  {
    hide Arcs, Heads, ModuleKeys, NearestFirst, Responses, Keys;
    unseen := |ModuleKeys(t) - {KeyFor(root)}|;
    FirstTier(t, dir, root);
    assert Layer(Arcs(t, dir), KeyFor(root), 0) == {KeyFor(root)} == Within(Arcs(t, dir), KeyFor(root), 0);
  }

  lemma FirstTier(t: GraphTable, dir: Direction, root: SearchRequest)
    requires Searchable(root) && dir == DirectionOf(root)
    ensures Queue(dir, [root]) && Keys([root]) == {KeyFor(root)} && Requests([]) == [] && Keys([]) == {}
    ensures Responses(t, dir, []) && NearestFirst(Arcs(t, dir), KeyFor(root), [])
  {
    hide Arcs;
    assert KeyFor([root][0]) in Keys([root]);
  }

  lemma LayerWithin(arcs: set<(Key, Key)>, root: Key, tier: nat)
    ensures Layer(arcs, root, tier) <= Within(arcs, root, tier)
  {
  }

  lemma GoesOnTier(t: GraphTable, sent: seq<SearchResponse>, toSend: seq<SearchResponse>, queue: seq<SearchRequest>)
    requires GoesOnStored(t, sent) && Requests(toSend) == queue && (AllStored(t, queue) || (sent == [] && |queue| == 1))
    ensures GoesOnStored(t, sent + toSend)
  {
    hide AsStored;
    forall i | 0 < i < |sent + toSend| ensures AsStored(t, (sent + toSend)[i].request) {
      if i >= |sent| { assert toSend[i - |sent|].request == queue[i - |sent|]; }
    }
  }

  lemma NextTier(t: GraphTable, dir: Direction, root: SearchRequest, tier: nat,
                 queue: seq<SearchRequest>, seen: set<Key>, sent: seq<SearchResponse>,
                 toSend: seq<SearchResponse>, seen': set<Key>, next: seq<SearchRequest>)
    requires AtTier(t, dir, root, tier, queue, seen, sent) && queue != []
    requires Responses(t, dir, toSend) && Requests(toSend) == queue
    requires seen' == seen + Heads(Arcs(t, dir), Keys(queue))
    requires Queue(dir, next) && Keys(next) == seen' - seen && AllStored(t, next)
    ensures AtTier(t, dir, root, tier + 1, next, seen', sent + toSend)
  {
    hide Arcs, Layer, Within, Heads, NearestFirst, Correct;
    var arcs, rootKey := Arcs(t, dir), KeyFor(root);
    TierGrows(arcs, rootKey, tier, Keys(queue), seen, seen');
    LayerWithin(arcs, rootKey, tier);
    SendTier(t, dir, sent, toSend, seen - Keys(queue));
    SendTierInOrder(arcs, dir, rootKey, tier, Requests(sent), queue);
    assert Requests(sent + toSend) == Requests(sent) + queue;
    assert |toSend| == |Requests(toSend)| > 0;
    assert toSend[0].request == queue[0];
    GoesOnTier(t, sent, toSend, queue);
  }

  /** Only the root and modules of the store are ever seen, and `unseen` of them are still to be seen. */
  ghost predicate Unseen(t: GraphTable, root: SearchRequest, seen: set<Key>, unseen: nat)
    requires Searchable(root)
  {
    seen <= {KeyFor(root)} + ModuleKeys(t) && KeyFor(root) in seen && unseen == |ModuleKeys(t) - seen|
  }

  /** Each round either sees more modules of the finite store, or leaves the queue empty. */
  lemma TierMakesProgress(t: GraphTable, dir: Direction, root: SearchRequest, queue: set<Key>, seen: set<Key>,
                      unseen: nat,
                          seen': set<Key>, next: seq<SearchRequest>) returns (unseen': nat)
    requires Sound(t) && Searchable(root) && Unseen(t, root, seen, unseen)
    requires seen' == seen + Heads(Arcs(t, dir), queue)
    requires Queue(dir, next) && Keys(next) == seen' - seen
    ensures Unseen(t, root, seen', unseen')
    ensures unseen' < unseen || (unseen' == unseen && next == [])
  {
    hide Sound, Arcs, Heads, ModuleKeys;
    var modules := ModuleKeys(t);
    unseen' := |modules - seen'|;
    forall key | key in seen' ensures key in seen || key in modules { SeenStaysModules(t, dir, seen, queue, key); }
    if next == [] {
      assert seen' == seen by { assert Keys(next) == {}; }
    } else {
      assert KeyFor(next[0]) in Keys(next);
      SmallerSet(modules - seen', modules - seen);
    }
  }

  lemma KeysAppend(dir: Direction, next: seq<SearchRequest>, item: SearchRequest)
    requires Queue(dir, next) && Searchable(item) && DirectionOf(item) == dir && KeyFor(item) !in Keys(next)
    ensures Queue(dir, next + [item]) && Keys(next + [item]) == Keys(next) + {KeyFor(item)}
  {
    var more := next + [item];
    forall key | key in Keys(next) + {KeyFor(item)} ensures key in Keys(more) {
      if key in Keys(next) {
        var i :| 0 <= i < |next| && KeyFor(next[i]) == key;
        assert KeyFor(more[i]) == key;
      } else {
        assert KeyFor(more[|next|]) == key;
      }
    }
  }

  lemma KeysStep(dir: Direction, queue: seq<SearchRequest>, i: nat)
    requires Queue(dir, queue) && i < |queue|
    ensures Keys(queue[..i + 1]) == Keys(queue[..i]) + {KeyFor(queue[i])}
  {
    assert queue[..i + 1] == queue[..i] + [queue[i]];
    forall key | key in Keys(queue[..i]) ensures key != KeyFor(queue[i]) {
      var j :| 0 <= j < i && KeyFor(queue[..i][j]) == key;
      assert queue[..i][j] == queue[j];
    }
    KeysAppend(dir, queue[..i], queue[i]);
  }

  lemma HeadsOfUnion(arcs: set<(Key, Key)>, a: set<Key>, b: set<Key>)
    ensures Heads(arcs, a + b) == Heads(arcs, a) + Heads(arcs, b)
  {
  }

  lemma HeadsFrom(arcs: set<(Key, Key)>, key: Key, heads: set<Key>)
    requires forall v :: v in heads <==> (key, v) in arcs
    ensures heads == Heads(arcs, {key})
  {
    forall v | v in heads ensures v in Heads(arcs, {key}) {
      assert (key, v) in arcs;
    }
  }

  lemma AnswerHeads(t: GraphTable, dir: Direction, key: Key, entries: seq<Entry>)
    requires Sound(t) && Answers(t, dir, key, entries)
    ensures EntryKeys(entries) == Heads(Arcs(t, dir), {key})
  {
    forall v ensures v in EntryKeys(entries) <==> (key, v) in Arcs(t, dir) {
      AnswerKeys(t, dir, key, entries, v);
    }
    HeadsFrom(Arcs(t, dir), key, EntryKeys(entries));
  }

  lemma AnswerModules(t: GraphTable, dir: Direction, key: Key, entries: seq<Entry>)
    requires Sound(t) && Answers(t, dir, key, entries)
    ensures forall i :: 0 <= i < |entries| ==> entries[i].mod.Module? && StoresModule(t, entries[i].mod)
  {
    forall i | 0 <= i < |entries| ensures StoresModule(t, entries[i].mod) { EntriesAreStored(t, dir, key, entries, i); }
  }

  lemma SmallerSet<T>(a: set<T>, b: set<T>)
    requires a < b
    ensures |a| < |b|
  {
    assert b == a + (b - a);
  }

  /** Going over one tier takes the search from distance `tier` to distance `tier + 1`. */
  lemma TierGrows(arcs: set<(Key, Key)>, root: Key, tier: nat, queue: set<Key>, seen: set<Key>, seen': set<Key>)
    requires queue == Layer(arcs, root, tier) && seen == Within(arcs, root, tier)
    requires seen' == seen + Heads(arcs, queue)
    ensures seen' == Within(arcs, root, tier + 1)
    ensures seen' - seen == Layer(arcs, root, tier + 1)
  {
    if tier > 0 {
      assert seen == Within(arcs, root, tier - 1) + queue;
      HeadsOfUnion(arcs, Within(arcs, root, tier - 1), queue);
    }
  }

  lemma SeenStaysModules(t: GraphTable, dir: Direction, seen: set<Key>, queue: set<Key>, key: Key)
    requires Sound(t) && key in seen + Heads(Arcs(t, dir), queue)
    ensures key in seen || key in ModuleKeys(t)
  {
    if key !in seen {
      var arc :| arc in Arcs(t, dir) && arc.0 in queue && arc.1 == key;
      ArcHeadsAreModules(t, dir, arc);
    }
  }

  lemma SendTier(t: GraphTable, dir: Direction, sent: seq<SearchResponse>, toSend: seq<SearchResponse>,
                 before: set<Key>)
    requires Responses(t, dir, sent) && Keys(Requests(sent)) == before
    requires Responses(t, dir, toSend) && before !! Keys(Requests(toSend))
    ensures Responses(t, dir, sent + toSend)
    ensures Keys(Requests(sent + toSend)) == before + Keys(Requests(toSend))
  {
    var a, b := Requests(sent), Requests(toSend);
    assert Requests(sent + toSend) == a + b;
    forall i | 0 <= i < |toSend| ensures KeyFor(b[i]) !in before { assert KeyFor(b[i]) in Keys(b); }
    forall i | 0 <= i < |sent| ensures KeyFor(a[i]) in before { assert KeyFor(a[i]) in Keys(a); }
    KeysConcat(dir, a, b);
  }

  /** A vertex of the current tier is no nearer than one that is sent before it or with it. */
  lemma TierIsFarthest(arcs: set<(Key, Key)>, root: Key, tier: nat, n: nat, earlier: Key, key: Key)
    requires key in Layer(arcs, root, tier) && earlier in Within(arcs, root, tier) && key in Within(arcs, root, n)
    ensures earlier in Within(arcs, root, n)
  {
    hide Within;
    if n < tier { WithinGrows(arcs, root, n, tier - 1); } else { WithinGrows(arcs, root, tier, n); }
  }

  lemma SendTierInOrder(arcs: set<(Key, Key)>, dir: Direction, root: Key, tier: nat, sent: seq<SearchRequest>,
                      queue: seq<SearchRequest>)
    requires Queue(dir, sent) && Queue(dir, queue) && NearestFirst(arcs, root, sent)
    requires Keys(queue) == Layer(arcs, root, tier) && Keys(queue) <= Within(arcs, root, tier)
    requires Keys(sent) <= Within(arcs, root, tier)
    ensures NearestFirst(arcs, root, sent + queue)
  {
    var all := sent + queue;
    forall i | 0 <= i < |all| ensures KeyFor(all[i]) in Within(arcs, root, tier) {
      if i < |sent| { assert KeyFor(sent[i]) in Keys(sent); } else { assert KeyFor(queue[i - |sent|]) in Keys(queue); }
    }
    forall i, j, n: nat | 0 <= i <= j < |all| && KeyFor(all[j]) in Within(arcs, root, n)
      ensures KeyFor(all[i]) in Within(arcs, root, n)
    {
      if j >= |sent| {
        assert KeyFor(queue[j - |sent|]) in Keys(queue);
        TierIsFarthest(arcs, root, tier, n, KeyFor(all[i]), KeyFor(all[j]));
      }
    }
  }

  lemma KeysConcat(dir: Direction, a: seq<SearchRequest>, b: seq<SearchRequest>)
    requires Queue(dir, a) && Queue(dir, b)
    ensures Keys(a + b) == Keys(a) + Keys(b)
  {
    forall key | key in Keys(a) + Keys(b) ensures key in Keys(a + b) {
      if key in Keys(a) {
        var i :| 0 <= i < |a| && KeyFor(a[i]) == key;
        assert KeyFor((a + b)[i]) == key;
      } else {
        var i :| 0 <= i < |b| && KeyFor(b[i]) == key;
        assert KeyFor((a + b)[|a| + i]) == key;
      }
    }
  }

  /** Once a tier is empty, everything reachable has been seen. */
  lemma EmptyTierEnds(arcs: set<(Key, Key)>, root: Key, tier: nat)
    requires Layer(arcs, root, tier) == {}
    ensures tier > 0 && forall key :: key in Within(arcs, root, tier) <==> Reachable(arcs, root, key)
  {
    assert root in Layer(arcs, root, 0);
    LayerEmpty(arcs, root, tier);
    forall key ensures key in Within(arcs, root, tier) <==> Reachable(arcs, root, key) {
      FixpointIsReachable(arcs, root, tier, key);
    }
  }

  lemma EndOfSearch(t: GraphTable, dir: Direction, root: SearchRequest, tier: nat, seen: set<Key>,
                    sent: seq<SearchResponse>)
    requires AtTier(t, dir, root, tier, [], seen, sent)
    ensures SendsReachable(t, root, sent)
  {
    hide Layer, Within;
    assert Keys([]) == {};
    EmptyTierEnds(Arcs(t, dir), KeyFor(root), tier);
    assert Keys(Requests(sent)) == seen;
  }

  // ---- What a search goes on with ----

  /** A vertex other than the root has a predecessor that is nearer. */
  lemma {:induction false} NearerPredecessor(arcs: set<(Key, Key)>, root: Key, n: nat, v: Key)
    returns (u: Key, k: nat)
    requires v in Within(arcs, root, n) && v != root
    ensures (u, v) in arcs && u in Within(arcs, root, k) && v !in Within(arcs, root, k)
  {
    if n == 0 || v in Within(arcs, root, n - 1) {
      u, k := NearerPredecessor(arcs, root, n - 1, v);
    } else {
      k := n - 1;
      var arc :| arc in arcs && arc.0 in Within(arcs, root, k) && arc.1 == v;
      u := arc.0;
    }
  }

  /** The request asks about a module that the response lists, by all of its fields. */
  ghost predicate IsListedIn(response: SearchResponse, request: SearchRequest) {
    && Searchable(request)
    && var query := request.query;
    && exists entry ::
         entry in response.entries && entry.mod == Module(query.language, query.organization, query.mod, query.name)
  }

  lemma ListedByResponse(t: GraphTable, dir: Direction, response: SearchResponse, request: SearchRequest)
    requires Sound(t) && Correct(t, dir, response) && AsStored(t, request)
    requires (KeyFor(response.request), KeyFor(request)) in Arcs(t, dir)
    ensures IsListedIn(response, request)
  {
    hide Sound, Arcs, Answers;
    HeadsAreEntries(t, dir, KeyFor(response.request), response.entries, KeyFor(request));
    var entry :| entry in response.entries && KeyOf(entry.mod) == KeyFor(request);
    var i :| 0 <= i < |response.entries| && response.entries[i] == entry;
    EntriesAreStored(t, dir, KeyFor(response.request), response.entries, i);
  }

  /** Every response of a breadth-first search after the first is about a module that an earlier one lists. */
  lemma AsksAboutListed(t: GraphTable, root: SearchRequest, sent: seq<SearchResponse>, i: nat)
    requires Sound(t) && Searchable(root) && SendsReachable(t, root, sent) && 0 < i < |sent|
    ensures exists j :: 0 <= j < i && IsListedIn(sent[j], sent[i].request)
  {
    hide Sound, Arcs, Within, Correct, AsStored, IsListedIn;
    var arcs, rootKey, requests := Arcs(t, DirectionOf(root)), KeyFor(root), Requests(sent);
    var v := KeyFor(requests[i]);
    assert v in Keys(requests) && requests[0] == root;
    var p :| WalkBetween(arcs, rootKey, v, p);
    WithinIsDistance(arcs, rootKey, |p| - 1, v);
    var u, k := NearerPredecessor(arcs, rootKey, |p| - 1, v);
    WithinIsDistance(arcs, rootKey, k, u);
    assert u in Keys(requests);
    var j :| 0 <= j < |requests| && KeyFor(requests[j]) == u;
    assert i <= j ==> v in Within(arcs, rootKey, k);
    ListedByResponse(t, DirectionOf(root), sent[j], sent[i].request);
  }

  /** Every response of a depth-first search after the first is about a module that the one before it lists. */
  lemma PathGoesOn(t: GraphTable, root: SearchRequest, sent: seq<SearchResponse>, i: nat)
    requires Sound(t) && Searchable(root) && SendsPath(t, root, sent) && 0 < i < |sent|
    ensures IsListedIn(sent[i - 1], sent[i].request)
  {
    hide Sound, Arcs, Correct, AsStored, IsListedIn;
    var requests := Requests(sent);
    assert (KeyFor(requests[i - 1]), KeyFor(requests[i - 1 + 1])) in Arcs(t, DirectionOf(root));
    ListedByResponse(t, DirectionOf(root), sent[i - 1], sent[i].request);
  }

  // ---- Where depth first falls short ----

  /** Two modules at the same distance: the dependencies of a module that has two. */
  lemma TwoDependencies(arcs: set<(Key, Key)>, root: Key, a: Key, b: Key)
    requires (root, a) in arcs && (root, b) in arcs && a != root && b != root && a != b
    ensures !Chain(arcs, root)
  {
    assert Within(arcs, root, 0) == {root};
    assert a in Layer(arcs, root, 1) && b in Layer(arcs, root, 1);
  }

  /**
   One request that declares a module with two dependencies: the depth-first search for them leaves one of them out.
   */
  lemma DepthFirstWitness()
    ensures exists runs, root ::
      Searchable(root) && !Chain(Arcs(AfterRuns(map[], runs), DirectionOf(root)), KeyFor(root))
  {
    hide AfterRun, Chain;
    var a, b := SourceService.Dependency("o", "a", "", "v", []), SourceService.Dependency("o", "b", "", "v", []);
    var file := SourceService.ManagementFile("l", "s", "v", "", "o", "m", "", [a, b]);
    var req := SourceService.SourceRequest("u", "k", "r", [file]);
    var runs := [Completed(req)];
    var t := AfterRuns(map[], runs);
    DeclaredArc(runs[..0], req, file, a);
    DeclaredArc(runs[..0], req, file, b);
    var root := DependenciesOf(Query("l", "o", "m", ""));
    TwoDependencies(Arcs(t, Dependencies), KeyFor(root), ModuleKey("l", "o", "a"), ModuleKey("l", "o", "b"));
    assert Searchable(root) && !Chain(Arcs(AfterRuns(map[], runs), DirectionOf(root)), KeyFor(root));
  }

  lemma DeclaredArc(runs: seq<Run>, req: SourceService.SourceRequest, file: SourceService.ManagementFile,
                    dep: SourceService.Dependency)
    requires file in req.files && dep in file.dependencies
    requires ModuleKey(file.language, file.organization, file.mod)
      != ModuleKey(file.language, dep.organization, dep.mod)
    ensures (ModuleKey(file.language, file.organization, file.mod), ModuleKey(file.language, dep.organization, dep.mod))
      in Arcs(AfterRuns(map[], runs + [Completed(req)]), Dependencies)
  {
    var t, edge := AfterRuns(map[], runs), DependsRow(req, file, dep);
    assert (runs + [Completed(req)])[..|runs|] == runs;
    DependsIsDeclared(req, file, dep);
    RunsKeepSound(runs);
    TrackIsExact(t, req, edge);
  }
}
