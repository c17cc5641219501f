# A model of deps.cloud's dependency graph

deps.cloud keeps the dependencies between the modules of many repositories in one graph. An indexer walks each
repository and sends the paths of its files to an extractor, which parses the manifests it knows. A tracker reconciles
what a source declares into a graph store with soft deletion, and clients read the graph back: direct dependencies and
dependents, breadth first and depth first searches, and a topological sort in tiers. This project models the parts of
that path where the state is, as Dafny programs in the form of the originals, and proves what they keep and what they
achieve.

| part | files |
|---|---|
| the soft-deleting table, both graph stores | SoftTable, GraphStoreV1Alpha, GraphStoreV1Beta, Transforms, NeighborGrouping |
| reconciliation, v1alpha | SourceService, Places, Declarations, Reconciliation, PostgresRuns, Interleaving, ConcurrentTracks |
| reconciliation, v1beta | TraverseProtocol, TraverseStream, ManifestStorage, ManifestRuns, ManifestMessages, ConcurrentStores |
| reading the graph | DependencyService, ModuleService, Neighborhoods, Digraph, SearchService, TieredSort, TierProperties, Topology |
| paging | TokenPaging, PagePaging |
| keys and encodings | CompositeKeys, BaseEncoding |
| the indexer | WorkerPool, RepositoryWalk |
| the extractor | Paths, DirectoryTree, PathTree, Extraction, Words, GoMod, GoModFiles |
| from the indexer to the extractor | RepositoryIndex |

`dafny verify dfyconfig.toml` checks all of it.

Conventions. A store is a map from primary key to data and a deleted flag; a transaction is one assignment of that
map. Where the original ranges over a map or reads the rows of a query, the model goes through them in an arbitrary
order, so the results hold for every order. Services are classes with the loops and updates of the originals, each
proved against a specification function; the theorems are about those functions. Concurrent parts (Track and Store
calls, the Traverse call, the worker pool) are step machines, and their theorems are about every interleaving. Digests
are modelled by what they are made from, that is, as injective and distinct between kinds; bodies in JSON or protocol
buffers are opaque.

Where the code does not do what it is for, the code is kept as it is, and the exact condition is proved:

- Concurrent Track calls leave the table of a serial order, that of their Put transactions, if and only if they are
  compatible: an edge that one of them declares and the source of another owns is declared by that other call too
  (`ConcurrentTracks.PutOrderDecidesIff`). All runs leave one and the same table if and only if the calls also agree
  on all items they share (`ConcurrentTracks.RunsAgree`). Two calls for one source with different files are not
  compatible (`ConcurrentTracks.SameSourceWitness`), and two calls that name the same third repository as the source
  of the same module may not agree (`ConcurrentTracks.DisagreementWitness`). The same holds of v1beta Store calls
  (`ConcurrentStores.PutOrderDecidesIff`, `ConcurrentStores.RunsAgree`).
- An edge from a module to itself is invisible to every join, so it is never deleted
  (`Reconciliation.SelfDependenciesStay`, `ManifestRuns.SelfDependenciesStay`). In v1beta its row is even read as a
  node (`Transforms.EdgeComesBack`), so that the edges to such a module are listed more than once
  (`Neighborhoods.ListedOnceIff`).
- A file that names the URL of its own request as its source overrides the request's kind and ref in v1alpha
  (`Declarations.SourceKeptIff`); in v1beta the request has the last word (`ManifestMessages.StoredMessages`).
- The v1alpha PostgreSQL insert does not clear date_deleted, so what was deleted once stays so
  (`PostgresRuns.NeverRevived`), and a dependency below a deleted manages edge is never found again: a run is exact
  for what no run has deleted if and only if all such orphans are declared (`PostgresRuns.RunIsExactIff`).
- The depth first search replaces its stack by the new neighbours, which drops the siblings
  (`SearchService.Service.DepthFirstSearch`).
- The offset of a page is an int32 and wraps around at 2147483700 rows (`PagePaging.CommandIsComplete`,
  `PagePaging.CommandStops`), and a page size of zero never advances (`TokenPaging.FollowingEnds`).
- The v1beta service proposes a reported source even when its URL is empty; v1alpha does not.
- Without workers the pool waits for ever (`WorkerPool.PoolCompletes`). A Traverse call that ends early can leave its
  receiver blocked for ever, if and only if the client has sent two requests or more (`TraverseProtocol.LeakIff`), and
  only while two are not answered (`TraverseProtocol.LeakNeedsTwo`).
- Paths that are prefixes of others do not survive the tree (`PathTree.BuiltHasAll`).
- Require, exclude and retract directives on one line, and comments in require blocks, are misread;
  `GoModFiles.ReadsRightIff` says for which files the result is right all the same.
- The v1alpha List statement does not look at date_deleted; the command that lists modules is right if and only if no
  module row is deleted (`PagePaging.WritesLiveIff`), and none ever is (`PagePaging.WritesEveryModule`).

## Model

| member | source | states |
|---|---|---|
| SoftTable.PutRowsAt | tracker/internal/graphstore/v1alpha/server.go:96-142 | a batch of REPLACE statements makes exactly the rows of its items live, each with the data of the last item for it, and changes no other row |
| SoftTable.DeleteRowsOfKeys | tracker/internal/graphstore/v1alpha/server.go:144-187 | a batch of soft deletes marks exactly the rows whose primary key is in the batch, whatever the order, and creates none |
| SoftTable.PutRowsOfIndex | tracker/internal/services/v1alpha/service_source.go:78-94 | putting the entries of an index gives the same table in every order in which ranging over the map may list them |
| SoftTable.PutRowsIsPutIndex | tracker/internal/graphstore/v1beta/sqldriver.go:17-36 | a batch with repeated keys leaves the table that its index of last items would leave |
| GraphStoreV1Alpha.GraphStore.Put | tracker/internal/graphstore/v1alpha/server.go:96-142 | one transaction: the table afterwards is the table before with all inserts made in order |
| GraphStoreV1Alpha.GraphStore.Delete | tracker/internal/graphstore/v1alpha/server.go:144-187 | one transaction: the table afterwards is the table before with all soft deletes made in order |
| GraphStoreV1Alpha.GraphStore.FindUpstream | tracker/internal/graphstore/v1alpha/statements.go:53-64 | returns one pair for each row of the upstream join, each row once, with the node's k3 blank because the statement does not select it |
| GraphStoreV1Alpha.GraphStore.FindDownstream | tracker/internal/graphstore/v1alpha/statements.go:66-77 | returns one pair for each row of the downstream join, each row once |
| SourceService.Service.GetCurrent | tracker/internal/services/v1alpha/service_source.go:99-148 | the nested loops find exactly the source, its live managed modules and edges, and below those the depends edges without owner or owned by the source |
| SourceService.Service.AddDepended | tracker/internal/services/v1alpha/service_source.go:126-145 | the inner loop adds, for one managed module, exactly the attributed depends edges and their modules |
| SourceService.Service.GetProposed | tracker/internal/services/v1alpha/service_source.go:150-250 | the loops fill the index that Proposed describes, later entries replacing earlier ones under the same key; what is in it is written out in Declarations.ProposedSays |
| SourceService.Service.Track | tracker/internal/services/v1alpha/service_source.go:54-97 | the store afterwards: what is stale is marked deleted, then everything proposed is put; the order in which the maps are ranged over does not matter |
| SourceService.Service.DiffItems | tracker/internal/services/v1alpha/service_source.go:67-76 | the items to delete are those found, not proposed, and not modules |
| SourceService.Service.AllItems | tracker/internal/services/v1alpha/service_source.go:78-81 | the items to put list every proposed entry once |
| Declarations.ProposedSays | tracker/internal/services/v1alpha/service_source.go:150-250 | an item is proposed, with this data, if and only if it is what the request says last about its key, with every key and every message written out field by field: its source, a file's module, manages edges and named source, a dependency's module and edge |
| Declarations.SourceKeptIff | tracker/internal/services/v1alpha/service_source.go:190-215 | the kind and the ref of the request are proposed for its source if and only if no file names the request's own URL, which says "repository" without a ref and comes later |
| Reconciliation.ProposedEdges | tracker/internal/services/v1alpha/service_source.go:184-245 | proposed items are well formed, and every proposed edge comes with the rows it hangs on: its modules, and for a depends edge a manages edge of the same owner |
| Reconciliation.CurrentEdges | tracker/internal/services/v1alpha/service_source.go:99-148 | in a sound store the walk finds an edge if and only if it is live and the source owns it: it never misses one and never picks up another source's |
| Reconciliation.StaleIs | tracker/internal/services/v1alpha/service_source.go:67-76 | a run deletes an item if and only if it is a live visible edge of its source that the request does not declare: never a node, never another owner's edge |
| Reconciliation.DeleteKeepsSound | tracker/internal/services/v1alpha/service_source.go:86-89 | the Delete transaction alone keeps the ownership invariant |
| Reconciliation.PutKeepsSound | tracker/internal/services/v1alpha/service_source.go:91-94 | the Put transaction alone keeps the ownership invariant |
| Reconciliation.RunsKeepSound | tracker/internal/services/v1alpha/service_source.go:54-97 | from an empty store, after any sequence of Track calls, also ones stopped between the two transactions, node rows are live and every live depends edge of an owner has its modules and a live manages edge of that owner |
| Reconciliation.TrackIsExact | tracker/internal/services/v1alpha/service_source.go:54-97 | after a run its source's visible edges are exactly the declared ones, everything declared is live with what the request says last about it, field by field, and nothing else went away or changed |
| Reconciliation.RerunCompletes | tracker/internal/services/v1alpha/service_source.go:86-94 | repeating a run that stopped between its transactions gives the store that the run would have given |
| Reconciliation.RerunIsNeutral | tracker/internal/services/v1alpha/service_source.go:54-97 | repeating a completed run changes nothing |
| Reconciliation.SelfDependenciesStay | tracker/internal/graphstore/v1alpha/statements.go:60-60 | all live depends edges of a source are declared after its run if and only if every self-dependency it had before is declared again, as the joins never show one |
| Reconciliation.SelfDependencyWitness | tracker/internal/graphstore/v1alpha/statements.go:60-60 | a self-dependency that is dropped from the files stays live |
| PostgresRuns.RunsKeepWellFormed | tracker/internal/graphstore/v1alpha/statements.go:162-169 | in every store that PostgreSQL runs produce, stopped ones included, live edges hang on module rows; that a live depends edge has a live manages edge of its owner is not kept |
| PostgresRuns.NeverRevived | tracker/internal/graphstore/v1alpha/statements.go:162-169 | a row that has been deleted is deleted after any further runs, whatever they declare |
| PostgresRuns.StaleOnPostgres | tracker/internal/services/v1alpha/service_source.go:67-76 | a run deletes the undeclared live edges of its source, but for orphans: depends edges whose manages edge is deleted |
| PostgresRuns.RunIsExactIff | tracker/internal/services/v1alpha/service_source.go:54-97 | after any runs, one more leaves as live visible edges of its source exactly the declared ones that no run has deleted, if and only if every orphan of the source is declared |
| PostgresRuns.PostgresRevivesNothing | tracker/internal/graphstore/v1alpha/statements.go:162-169 | with the PostgreSQL insert everything declared is live after a run if and only if none of it had been deleted before |
| PostgresRuns.OrphanWitness | tracker/internal/graphstore/v1alpha/statements.go:162-169 | a module declared, dropped, and declared again with a dependency: three runs leave an orphan that the next one does not delete |
| PostgresRuns.PostgresWitness | tracker/internal/graphstore/v1alpha/statements.go:162-169 | declared, dropped and declared again: with the PostgreSQL insert the edge stays deleted |
| Interleaving.DeleteStep | tracker/internal/graphstore/v1alpha/server.go:144-187 | if no call deletes what a call puts, a Delete transaction may be moved before all puts, and whether it still deletes what calls before it have deleted does not matter |
| Interleaving.LastPut | tracker/internal/services/v1alpha/service_source.go:78-94 | a row that calls have put is live with the data of the last of them |
| Interleaving.OrdersOfRow | tracker/internal/services/v1alpha/service_source.go:54-97 | two orders of the same calls give a row the same presence and mark, and the same data if all calls that propose it agree on it |
| ConcurrentTracks.UndeclaredEdges | tracker/internal/services/v1alpha/service_source.go:99-148 | at any time an edge that a call owns and does not declare is live exactly if it was at the start and no Delete transaction so far had it, whatever compatible calls do |
| ConcurrentTracks.StaleLeft | tracker/internal/services/v1alpha/service_source.go:67-76 | what is stale for a call at any time is what was stale at the start without what has been deleted |
| ConcurrentTracks.StepKeepsInv | tracker/internal/services/v1alpha/service_source.go:54-148 | after every query, Delete transaction and Put transaction of any call the whole table is that of the deletes so far followed by the puts so far in their order, and each reading call has found only stale edges, and all of those that are not gone or still to be queried |
| ConcurrentTracks.RunKeepsInv | tracker/internal/services/v1alpha/service_source.go:54-148 | the invariant holds in every state of every interleaving |
| ConcurrentTracks.SerialIs | tracker/internal/services/v1alpha/service_source.go:54-97 | the calls run one after the other leave the table that all their deletes followed by their puts in this order leave |
| ConcurrentTracks.IndependentIsCompatible | tracker/internal/services/v1alpha/service_source.go:150-250 | calls for different sources, none of which names the URL of another as that of a file, are compatible: what one of them declares of the edges of another, the other declares too |
| ConcurrentTracks.ConcurrentIsSerial | tracker/internal/services/v1alpha/service_source.go:54-148 | once compatible calls, for the same source or not, have finished, whatever the interleaving, the whole table is that of the serial order of their Put transactions: nodes, edges, data and deletion marks |
| ConcurrentTracks.PutOrderDecidesIff | tracker/internal/services/v1alpha/service_source.go:54-148 | every finished run of the calls leaves the table of the serial order of its Put transactions if and only if the calls are compatible |
| ConcurrentTracks.EveryOrderIsARun | tracker/internal/services/v1alpha/service_source.go:54-148 | every serial order of any calls is a run, with its order of Put transactions and its table |
| ConcurrentTracks.RunsAreSerialOrders | tracker/internal/services/v1alpha/service_source.go:54-148 | the tables that interleaved runs of compatible calls can leave are exactly those of the serial orders |
| ConcurrentTracks.RowOfRun | tracker/internal/services/v1alpha/service_source.go:54-148 | a finished run of compatible calls and any serial order leave a row alike, but for the data of an item that the calls disagree on |
| ConcurrentTracks.RunsAgree | tracker/internal/services/v1alpha/service_source.go:190-215 | all finished runs and all serial orders of any calls leave one and the same table if and only if the calls are compatible and propose the same data for every item they share |
| ConcurrentTracks.EdgesOfRunsAgree | tracker/internal/services/v1alpha/service_source.go:190-215 | all finished runs and all serial orders of any calls leave the same live edges if and only if the calls are compatible, and with the same data if and only if they also propose the same data for every edge they share |
| ConcurrentTracks.DisagreementWitness | tracker/internal/services/v1alpha/service_source.go:190-215 | two calls that name the same third repository and module with different versions: two runs of them on an empty store leave the same live edges with different data |
| ConcurrentTracks.SameSourceWitness | tracker/internal/services/v1alpha/service_source.go:54-97 | two calls for the same source can leave a table that no serial order leaves: both read before either puts, and what each of them declares stays |
| DependencyService.Service.ListDependencies | tracker/internal/services/v1alpha/service_dependency.go:63-90 | an answer lists one entry for each row of the upstream join, in any order |
| DependencyService.Service.ListDependents | tracker/internal/services/v1alpha/service_dependency.go:34-61 | an answer lists one entry for each row of the downstream join, in any order |
| DependencyService.RowsAre | tracker/internal/graphstore/v1alpha/statements.go:53-77 | in a sound store each query lists exactly the live non-self depends edges at its module, with the row of the far end, one per owner |
| DependencyService.ListedAfterRun | tracker/internal/services/v1alpha/service_dependency.go:34-90 | what a query lists after a run, in both directions: one entry for each edge at the module that the source declares or that another source left there, with the version constraint, scopes, ref and language that the request states last, and the module it states last for the far end |
| DependencyService.DependentsAreConverse | tracker/internal/graphstore/v1alpha/statements.go:53-77 | in every store that Track runs produce, N with edge e is among the dependencies of M if and only if M with e is among the dependents of N |
| DependencyService.ConverseNeedsNode | tracker/internal/graphstore/v1alpha/statements.go:66-77 | in any store at all, a listed dependency is listed back if and only if the dependent's own row is live |
| DependencyService.AnswerKeys | tracker/internal/services/v1alpha/service_dependency.go:34-90 | the modules of an answer are exactly the heads of the arcs that leave the queried module |
| DependencyService.EntriesAreStored | tracker/internal/services/v1alpha/service_dependency.go:78-85 | every module in an answer is the one the store holds under its language, organization and module, with its name |
| ModuleService.Service.ListSources | tracker/internal/services/v1alpha/service_module.go:53-79 | an answer lists one entry for each row of the downstream join from the module to its sources, in any order |
| ModuleService.Service.ListManaged | tracker/internal/services/v1alpha/service_module.go:81-107 | an answer lists one entry for each row of the upstream join from the source to its modules, in any order |
| ModuleService.RunsKeepSources | tracker/internal/services/v1alpha/service_source.go:159-215 | in every store that Track runs produce, stopped ones included, a live manages edge has the row of its source |
| ModuleService.SourcesAreConverse | tracker/internal/graphstore/v1alpha/statements.go:53-77 | in every store that Track runs produce, a source with edge e is listed for a module if and only if the module with e is listed for the source |
| ModuleService.ListedAfterRun | tracker/internal/services/v1alpha/service_module.go:53-107 | what both queries list after a run: one entry for each manages edge at the source or the module that the request declares or that another source had, with the language, system and version that the request states last, and what it states last about the source or the module at the far end |
| SearchService.Service.ProcessRequest | tracker/internal/services/v1alpha/service_search.go:59-93 | every kind of request is answered from the store: dependencies and dependents in their direction, the sources of a module, the modules of a source; only a request that asks for nothing is refused |
| SearchService.Service.BreadthFirstSearch | tracker/internal/services/v1alpha/service_search.go:177-241 | sends, for every module reachable from the root and no other, exactly one correct response, in non-decreasing shortest distance, the first to the client's own request and the others to requests with all fields as stored; a request that is not searched for is refused with nothing sent |
| SearchService.Service.ProcessTier | tracker/internal/services/v1alpha/service_search.go:196-217 | one round answers the whole queue, and the next queue holds exactly the heads that were not seen, each once |
| SearchService.TierMakesProgress | tracker/internal/services/v1alpha/service_search.go:192-238 | each round sees a new module or leaves the next queue empty, so the search ends on every store |
| SearchService.EndOfSearch | tracker/internal/services/v1alpha/service_search.go:240-240 | when the queue is empty the responses cover exactly the reachable modules, nearest first |
| SearchService.AsksAboutListed | tracker/internal/services/v1alpha/service_search.go:123-160 | every request after the first asks about a module that an earlier response lists, by language, organization, module and name |
| SearchService.Service.DepthFirstSearch | tracker/internal/services/v1alpha/service_search.go:243-307 | sends correct responses for a path of distinct modules from the root, and ends; it covers all reachable modules if and only if no two of them are at the same distance, since the rest of the stack is dropped |
| SearchService.PathGoesOn | tracker/internal/services/v1alpha/service_search.go:278-302 | every request after the first asks, by all four fields, about a module that the response just before lists |
| SearchService.DepthFirstWitness | tracker/internal/services/v1alpha/service_search.go:278-302 | a store that one request with two dependencies produces, on which the condition fails |
| SearchService.NextCoverage | tracker/internal/services/v1alpha/service_search.go:278-302 | a descent that skips a sibling has lost it for good: it is never sent |
| Digraph.WithinIsDistance | tracker/internal/services/v1alpha/service_search.go:192-238 | n rounds of heads reach exactly the vertices at the end of a walk of at most n arcs |
| Digraph.FixpointIsReachable | tracker/internal/services/v1alpha/service_search.go:192-238 | rounds that add nothing have found exactly the reachable vertices |
| Topology.Collect | deps/internal/cmds/get/topology.go:54-96 | collecting the responses gives, for each module named, its set of predecessors and its node, the root's as the client asked for it and every other one as the store holds it, and for each source the list of its successors, duplicates and cycles included |
| Topology.CollectsReached | deps/internal/cmds/get/topology.go:54-96 | collected from a breadth first search, the counter is exactly the reachable graph: its keys the reachable modules, its sets their predecessors |
| Topology.CollectedMirrors | deps/internal/cmds/get/topology.go:81-95 | the lists of successors and the sets of predecessors are the two sides of one relation |
| TieredSort.Round | deps/internal/cmds/get/topology.go:113-139 | one round, with its deletions from the maps, releases exactly the modules whose recorded predecessors have all been emitted |
| TieredSort.CounterShrinks | deps/internal/cmds/get/topology.go:131-137 | what a round releases is what the counter loses, so the loop ends: a round shrinks the counter or leaves nothing to do |
| TieredSort.Sort | deps/internal/cmds/get/topology.go:108-147 | the tiers are those of the least fixpoint: the root alone, then in each tier what all recorded predecessors were emitted for, until a tier is empty; each module is shown by its own node |
| TierProperties.EmittedOnce | deps/internal/cmds/get/topology.go:113-145 | no module is emitted twice, within a tier or in two of them |
| TierProperties.EmitsLeastClosed | deps/internal/cmds/get/topology.go:113-145 | the emitted modules are the least set that contains the root and every module all of whose recorded predecessors are in it |
| TierProperties.TierAfterPredecessors | deps/internal/cmds/get/topology.go:123-137 | a module's tier is one more than the highest tier of its predecessors |
| TierProperties.TierIsLongestWalk | deps/internal/cmds/get/topology.go:113-145 | a module's tier is the length of the longest walk from the root to it, once arcs into the root are left aside |
| TierProperties.CompleteIffAcyclic | deps/internal/cmds/get/topology.go:124-127 | every collected module is emitted if and only if the graph without arcs into the root has no cycle |
| TierProperties.ArcsGoUp | deps/internal/cmds/get/topology.go:123-137 | every predecessor of an emitted module is in a strictly lower tier |
| Topology.Topology | deps/internal/cmds/get/topology.go:40-148 | the whole command on a store: search, collect and sort give the tiers of the graph reachable from the request's module; the first tier is that module with the name of the request, and every other module is the one in the store, with its name |
| Topology.TopologyIsComplete | deps/internal/cmds/get/topology.go:40-148 | the output has every reachable module exactly if the reachable graph has no cycle once arcs into the root are dropped, and every remaining arc goes to a strictly higher tier |
| CompositeKeys.ReadableKeyIsInjective | tracker/internal/services/v1alpha/keys.go:40-47 | two items have the same diff key only if they have the same type and keys |
| CompositeKeys.EdgeKeyIsInjective | tracker/internal/services/v1beta/manifeststorageservice.go:176-185 | edges with 32-byte end points have the same diff key only if they are the same, slashes in the keys or not |
| CompositeKeys.EdgeKeyNeedsLength | tracker/internal/services/v1beta/manifeststorageservice.go:176-185 | without a fixed length, different end points can share a diff key |
| BaseEncoding.RoundTrip | tracker/internal/graphstore/v1beta/transforms.go:12-28 | decoding undoes encoding for base32 and base64 as RFC 4648 defines them, for every input |
| BaseEncoding.RawRoundTrip | tracker/internal/graphstore/v1alpha/base64.go:6-12 | decoding undoes the encoding without padding |
| BaseEncoding.RawAlphabet | tracker/internal/services/v1alpha/keys.go:14-14 | what an encoding writes contains no dash, so the diff key's separator cannot occur in it |
| BaseEncoding.EncodedLength | tracker/internal/graphstore/v1beta/transforms.go:12-28 | an encoding has eight base32 characters for every five bytes begun, or four base64 ones for every three |
| BaseEncoding.EncodedChar | tracker/internal/graphstore/v1beta/transforms.go:12-28 | the i-th character is the one that the table of RFC 4648 gives for the i-th group of five or six bits of the bytes, the most significant first, filled up with zeros |
| BaseEncoding.DecodesIff | tracker/internal/graphstore/v1beta/transforms.go:12-28 | a text decodes to some bytes if and only if, line breaks aside, it has the characters that stand for their bits, whatever the last one says beyond them, and the right number of padding characters after these; every other text is refused |
| Transforms.DataIsBase64 | tracker/internal/graphstore/v1beta/transforms.go:12-28 | a body is stored as its base64 text if it is in protocol buffers, and as it is otherwise |
| Transforms.NodeComesBack | tracker/internal/graphstore/v1beta/transforms.go:31-88 | a node comes back from its row, in every encoding |
| Transforms.EdgeComesBack | tracker/internal/graphstore/v1beta/transforms.go:45-88 | an edge comes back from its row if and only if its end points differ; otherwise a node comes back |
| NeighborGrouping.ProcessNeighbors | tracker/internal/graphstore/v1beta/server.go:138-167 | panics exactly if an edge row precedes all node rows; files every edge under its own key's neighbour if and only if each edge row has a node row with its key before it, and is then the stable grouping |
| NeighborGrouping.NodesInAre | tracker/internal/graphstore/v1beta/server.go:150-159 | the neighbours are those of the rows where a key appears first, in row order |
| NeighborGrouping.NodesHaveDistinctKeys | tracker/internal/graphstore/v1beta/server.go:150-159 | no two neighbours have the same key |
| NeighborGrouping.EdgesForAre | tracker/internal/graphstore/v1beta/server.go:160-163 | a neighbour's edges are those of all rows for its key, in row order |
| NeighborGrouping.NothingLost | tracker/internal/graphstore/v1beta/server.go:138-167 | the neighbours together hold exactly the edges of the rows, each as often as it occurs |
| GraphStoreV1Beta.QueryRowsArePreceded | tracker/internal/graphstore/v1beta/sqldriver.go:83-152 | in the rows a neighbour query returns on decodable rows, every edge comes after its node, so the look-up by position never misses |
| GraphStoreV1Beta.PutKeepsDecodable | tracker/internal/graphstore/v1beta/server.go:21-41 | whatever nodes and edges are put, every stored row still decodes |
| GraphStoreV1Beta.GraphStore.Put | tracker/internal/graphstore/v1beta/server.go:21-41 | all nodes are put before all edges, in one transaction |
| GraphStoreV1Beta.GraphStore.Delete | tracker/internal/graphstore/v1beta/server.go:44-73 | all edges are deleted before all nodes, in one transaction |
| GraphStoreV1Beta.GraphStore.Neighbors | tracker/internal/graphstore/v1beta/server.go:170-214 | on decodable rows the answer is the grouping of the rows of the join towards the node, followed by that of the join away from it; `node` stands for both directions; Neighborhoods.AnswerLists says what that lists |
| TraverseProtocol.StepKeepsInv | tracker/internal/graphstore/v1beta/server.go:217-261 | every step of client, receiver and main loop keeps the order and the answers of the requests |
| TraverseProtocol.Conservation | tracker/internal/graphstore/v1beta/server.go:217-261 | in every reachable state the requests sent are, in order, those answered and delivered, answered and under way, being processed, in the channel, held by the receiver, and on the wire; after the call has ended the responses are still those to the first requests |
| TraverseProtocol.ResponsesInOrder | tracker/internal/graphstore/v1beta/server.go:241-259 | the i-th response echoes the i-th request and is an answer to it, in every interleaving |
| TraverseProtocol.RefinesQueue | tracker/internal/graphstore/v1beta/server.go:217-261 | the protocol refines a queue: a request sent joins the requests without a response at the end, a response delivered answers their head and removes it, and no other step shows |
| TraverseProtocol.NothingInFlight | tracker/internal/services/v1beta/manifeststorageservice.go:137-157 | a client with as many responses as requests has nothing in flight, so two tiers cannot mix |
| TraverseProtocol.StepDecreases | tracker/internal/graphstore/v1beta/server.go:217-261 | every step that is not a new request of the client or the end of the call uses up a measure, so only finitely many fit in between |
| TraverseProtocol.GoesOnUntilDelivered | tracker/internal/graphstore/v1beta/server.go:217-261 | before the call ends the system can go on by itself exactly as long as some request is not answered and delivered, or the receiver is between two of them |
| TraverseProtocol.LeakNeedsTwo | tracker/internal/graphstore/v1beta/server.go:224-239 | a receiver that is blocked on a full channel after the main loop has returned means that two requests are not answered |
| TraverseProtocol.LeakIff | tracker/internal/graphstore/v1beta/server.go:224-239 | some run in which the client sent exactly these requests leaves the receiver so if and only if there are at least two of them |
| TraverseProtocol.ReceiverReturns | tracker/internal/graphstore/v1beta/server.go:224-239 | with a client that sends a request only once it has the responses to all earlier ones, the receiver has returned when the main loop has and nothing can move |
| TraverseProtocol.LeakedForEver | tracker/internal/graphstore/v1beta/server.go:236-236 | a receiver blocked so stays blocked whatever happens |
| TraverseStream.Stream.ServerStep | tracker/internal/graphstore/v1beta/server.go:217-261 | one step of the receiver or the main loop, any that is possible, keeps the requests without a response and uses up the measure; on a store whose rows decode it does not end the call |
| TraverseStream.Stream.Recv | tracker/internal/services/v1beta/manifeststorageservice.go:139-142 | whatever steps the server takes in between, a response answers the oldest request without one from the store and removes it; on a store whose rows decode it comes |
| ManifestStorage.Service.GetProposed | tracker/internal/services/v1beta/manifeststorageservice.go:35-101 | the loops build the proposed nodes, the request's source last, and the proposed edges |
| ManifestRuns.ProposedAre | tracker/internal/services/v1beta/manifeststorageservice.go:46-98 | a row is proposed if and only if the request declares it; the reported source is declared even when its URL is empty |
| ManifestStorage.Service.SendTier | tracker/internal/services/v1beta/manifeststorageservice.go:122-132 | one request for each node of the tier is in flight, and no other |
| ManifestStorage.Service.ReceiveTier | tracker/internal/services/v1beta/manifeststorageservice.go:134-154 | over a stream of which the server may take any steps in between, the responses of a tier give exactly the keys of the next one and the edges without owner or owned by the source, and leave nothing in flight |
| ManifestStorage.Service.GetStored | tracker/internal/services/v1beta/manifeststorageservice.go:103-160 | over such a stream two tiers of send-all-then-receive find exactly the edges that two steps of the join away from the source lead to |
| ManifestStorage.Service.Outdated | tracker/internal/services/v1beta/manifeststorageservice.go:174-191 | the edges to delete are those stored whose key no proposed edge has |
| ManifestStorage.Service.Store | tracker/internal/services/v1beta/manifeststorageservice.go:162-209 | the store afterwards: everything proposed is put, then what is stale is marked deleted; when reading back fails nothing is changed |
| ManifestRuns.StoredAre | tracker/internal/services/v1beta/manifeststorageservice.go:121-157 | in a sound store the two tiers find an edge if and only if it is live and the source owns it: none lies out of reach |
| ManifestRuns.StaleIs | tracker/internal/services/v1beta/manifeststorageservice.go:182-191 | a run deletes an edge if and only if it is live, visible, owned by the source and not declared |
| ManifestRuns.RunsKeepSound | tracker/internal/services/v1beta/manifeststorageservice.go:162-209 | from an empty store, after any sequence of Store calls, also ones stopped after their Put, rows decode, nodes are live, and every live dependency of an owner has its modules and a live edge from that owner's source |
| ManifestRuns.StoreIsExact | tracker/internal/services/v1beta/manifeststorageservice.go:162-209 | after a run its source's visible edges are exactly the declared ones, everything declared is live with the data of its last declaration, and nothing else went away or changed |
| ManifestRuns.DeletesAreDisjoint | tracker/internal/services/v1beta/manifeststorageservice.go:182-206 | no edge that is deleted was put, so the two transactions could be swapped |
| ManifestRuns.RerunCompletes | tracker/internal/services/v1beta/manifeststorageservice.go:193-206 | repeating a run that stopped after its Put gives the store that the run would have given |
| ManifestRuns.RerunIsNeutral | tracker/internal/services/v1beta/manifeststorageservice.go:162-209 | repeating a completed run changes nothing |
| ManifestRuns.SelfDependenciesStay | tracker/internal/graphstore/v1beta/statements_sqlite.go:31-35 | all live dependencies of a source are declared after its run if and only if every self-dependency it had before is declared again |
| ManifestRuns.SelfDependencyWitness | tracker/internal/graphstore/v1beta/statements_sqlite.go:31-35 | a self-dependency that is dropped from the files stays live |
| ManifestMessages.StoredMessages | tracker/internal/services/v1beta/manifeststorageservice.go:35-101 | after a run every declared row reads back as its node or edge with the message that the request states last, field by field, marshalled; a self-dependency reads back as a node |
| Neighborhoods.RowsAre | tracker/internal/graphstore/v1beta/statements_sqlite.go:25-47 | each join reads a live edge at the node once for every live row whose two ends are the node at the far end |
| Neighborhoods.RunsKeepEnds | tracker/internal/services/v1beta/manifeststorageservice.go:162-209 | in every store that Store runs produce, stopped ones included, the nodes at both ends of a live edge are live |
| Neighborhoods.ToIsConverse | tracker/internal/graphstore/v1beta/statements_sqlite.go:25-47 | in every store that Store runs produce, node B with edge e is read from A if and only if A with e is read to B |
| Neighborhoods.AnswerLists | tracker/internal/graphstore/v1beta/server.go:170-214 | what Neighbors answers in each of its three forms, in terms of live edges: one neighbour for each node at the far end of one, no two with the same key, each with exactly the live edges between the two, and first those to the node and then those from it |
| Neighborhoods.ListedOnceIff | tracker/internal/graphstore/v1beta/statements_sqlite.go:25-47 | the edges to a neighbour are listed once if and only if the neighbour has no live edge to itself, whose row the join takes for a node |
| Neighborhoods.ListedTwiceWitness | tracker/internal/graphstore/v1beta/statements_sqlite.go:25-47 | one file whose module depends on itself: the edge from its source is listed more than once |
| ConcurrentStores.UndeclaredEdges | tracker/internal/services/v1beta/manifeststorageservice.go:103-160 | at any time an edge that a call owns and does not declare is live exactly if it was at the start and no Delete transaction so far had it, whatever compatible calls do |
| ConcurrentStores.StepKeepsInv | tracker/internal/services/v1beta/manifeststorageservice.go:103-209 | after every query, Put transaction and Delete transaction of any call the whole table is that of the deletes so far followed by the puts so far in their order, and each call that has not deleted has found only stale edges, and all of those that are not gone or still to be queried |
| ConcurrentStores.ConcurrentIsSerial | tracker/internal/services/v1beta/manifeststorageservice.go:103-209 | once compatible Store calls, for the same source or not, have finished, whatever the interleaving, the whole table is that of the serial order of their Put transactions |
| ConcurrentStores.PutOrderDecidesIff | tracker/internal/services/v1beta/manifeststorageservice.go:103-209 | every finished run of the calls leaves the table of the serial order of its Put transactions if and only if the calls are compatible |
| ConcurrentStores.RunsAreSerialOrders | tracker/internal/services/v1beta/manifeststorageservice.go:103-209 | the tables that interleaved runs of compatible calls can leave are exactly those of the serial orders |
| ConcurrentStores.RunsAgree | tracker/internal/services/v1beta/manifeststorageservice.go:35-101 | all finished runs and all serial orders of any calls leave one and the same table if and only if the calls are compatible and propose the same data for every row they share |
| ConcurrentStores.EdgesOfRunsAgree | tracker/internal/services/v1beta/manifeststorageservice.go:35-101 | all finished runs and all serial orders of any calls leave the same live edges if and only if the calls are compatible, and with the same data if and only if they also propose the same data for every edge they share |
| ConcurrentStores.DisagreementWitness | tracker/internal/services/v1beta/manifeststorageservice.go:60-95 | two calls that report the same third repository for a module with different versions: two runs of them on an empty store leave the same live edges with different data |
| WorkerPool.StepKeepsInv | indexer/main.go:173-191 | every step of main and of any worker keeps the repositories together and the WaitGroup in step |
| WorkerPool.Conservation | indexer/main.go:173-191 | in every reachable state not fed, queued, in progress and finished make up the repositories, they leave the channel in their order, and the count is what is not done |
| WorkerPool.ReturnsWhenAllConsumed | indexer/main.go:185-192 | main returns only when every repository was consumed, as often as it is listed, with nothing queued and no worker busy |
| WorkerPool.SomeoneCanStep | indexer/main.go:32-38 | with a worker there is always a next step until main has returned |
| WorkerPool.RunsEnd | indexer/main.go:173-191 | a run has at most four steps for each repository, one for each worker and two of main |
| WorkerPool.PoolCompletes | indexer/main.go:177-191 | a run that cannot go on has returned with everything consumed if and only if there was a worker or no repository |
| TokenPaging.OffsetComesBack | tracker/internal/graphstore/v1beta/server.go:75-92 | an offset comes back from its token, for all offsets that fit an int64 |
| TokenPaging.TokenLength | tracker/internal/graphstore/v1beta/server.go:75-92 | every token has sixteen characters, so none is taken for the empty one of the first page |
| TokenPaging.TokenBytes | tracker/internal/graphstore/v1beta/server.go:75-92 | a token is the base32 text of eight bytes, of which the i-th counts 256 to the power of the number of bytes after it |
| TokenPaging.DriverList | tracker/internal/graphstore/v1beta/sqldriver.go:59-81 | returns up to the limit of rows from the offset, and whether the cursor holds one more |
| TokenPaging.List | tracker/internal/graphstore/v1beta/server.go:95-136 | one page: the decodable rows at the token's offset, and a next token if and only if there are rows left; a short token or a negative size panics, a malformed token starts over without a next one |
| TokenPaging.PanicsIff | tracker/internal/graphstore/v1beta/server.go:75-102 | List panics if and only if the page size is negative or the token is base32 of fewer than eight bytes |
| TokenPaging.StartsOver | tracker/internal/graphstore/v1beta/server.go:78-82 | a token that is not base32 gives the first page again, with no next one, however many rows there are |
| TokenPaging.PageAt | tracker/internal/graphstore/v1beta/server.go:95-136 | the page at an offset and the token of the offset after it |
| TokenPaging.PagesRefineTheList | tracker/internal/graphstore/v1beta/server.go:75-136 | following the tokens gives every decodable row once and in order, in exactly as many pages as the rows fill, and one if there are none |
| TokenPaging.PagesShowTheKind | tracker/internal/graphstore/v1beta/statements_sqlite.go:17-23 | the nodes and edges found are exactly those of the live rows of the kind |
| TokenPaging.FollowingEnds | tracker/internal/graphstore/v1beta/server.go:95-107 | following the tokens comes to an end if and only if the page size is positive or there are no rows |
| PagePaging.ListPageIs | tracker/internal/graphstore/v1alpha/server.go:203-208 | the window of every page and count: at least ten and at most a hundred rows, from the page's offset as an int32, where pages below one count as the first and a negative offset as zero |
| PagePaging.PageIs | tracker/internal/graphstore/v1alpha/server.go:203-208 | page k of 100 holds the rows from 100(k-1) on while the offset fits an int32 |
| PagePaging.PageWraps | tracker/internal/graphstore/v1alpha/server.go:207-208 | the first page whose offset does not fit reads the first rows again |
| PagePaging.ModulesCommand | deps/internal/cmds/get/modules.go:43-61 | on every store on which it stops, the command writes the pages up to the first short one |
| PagePaging.StopsBelowLimit | deps/internal/cmds/get/modules.go:43-61 | with fewer than 2147483700 rows it stops after floor(n / 100) + 1 pages, having written every row once and in order |
| PagePaging.NothingWraps | tracker/internal/graphstore/v1alpha/server.go:205-208 | on those pages neither the page number nor the offset wraps around |
| PagePaging.CommandIsComplete | tracker/internal/graphstore/v1alpha/server.go:203-227 | the command stops having written every row once if and only if there are fewer than 2147483700 rows |
| PagePaging.CommandStops | deps/internal/cmds/get/modules.go:43-61 | the command stops at all if and only if there are fewer than 2147483744 rows |
| PagePaging.WritesEveryModule | tracker/internal/graphstore/v1alpha/statements.go:47-51 | in a store that Track runs produce it writes every live module once, although the statement does not look at date_deleted |
| PagePaging.WritesLiveIff | tracker/internal/graphstore/v1alpha/statements.go:47-51 | on any table the command writes exactly the live modules, each once, if and only if no module row is deleted |
| Paths.SplitJoin | extractor/src/service/DependencyExtractorImpl.ts:16-16 | splitting undoes joining for names without separators |
| Paths.JoinSplit | extractor/src/service/DependencyExtractorImpl.ts:33-40 | joining undoes splitting for every path |
| RepositoryWalk.ReadDirectory | indexer/internal/consumer/consumer.go:129-145 | one directory's files go to the paths and its directories to the next queue, each entry once |
| RepositoryWalk.Walk | indexer/internal/consumer/consumer.go:121-148 | the level-order walk lists the path of every file of the tree, each once, and ends |
| PathTree.ConstructTree | extractor/src/service/DependencyExtractorImpl.ts:12-31 | the loop over the paths builds the tree of all insertions, or fails as soon as one does |
| PathTree.InsertAt | extractor/src/service/DependencyExtractorImpl.ts:18-27 | with no leaf on the way, an insertion puts its leaf, drops those below it and leaves every other leaf as it was |
| PathTree.BuiltHolds | extractor/src/service/DependencyExtractorImpl.ts:12-31 | for paths none of which is a prefix of another the tree is built, has no empty directory, and its leaves are exactly the paths |
| PathTree.BuiltHasAll | extractor/src/service/DependencyExtractorImpl.ts:12-31 | the tree is built and every path is found in it if and only if no path is, name by name, a prefix of another |
| PathTree.PrefixWitness | extractor/src/service/DependencyExtractorImpl.ts:12-31 | the paths a and a/b are such a pair |
| PathTree.RepositoryPathsArePrefixFree | indexer/internal/consumer/consumer.go:121-148 | among paths of files of one repository none is a prefix of another |
| PathTree.SameLeaves | extractor/src/service/DependencyExtractorImpl.ts:12-31 | trees without empty directories are determined by their leaves |
| PathTree.RebuildIsInverse | extractor/src/service/DependencyExtractorImpl.ts:12-31 | building the tree from a repository's paths gives the repository's tree back, without the directories that hold no file |
| Extraction.MatchInternal | extractor/src/service/DependencyExtractorImpl.ts:49-61 | keeps exactly the paths that some matcher accepts, with slashes for backslashes if that is the separator, as a subsequence of all paths |
| Extraction.RunOn | extractor/src/service/DependencyExtractorImpl.ts:90-102 | on one directory exactly the extractors run all of whose required names are files there, each once, with those files |
| Extraction.Scan | extractor/src/service/DependencyExtractorImpl.ts:81-112 | the level-order scan handles every directory of the tree once, and ends |
| Extraction.ExtractInternal | extractor/src/service/DependencyExtractorImpl.ts:71-112 | for prefix-free matches, extractor e runs on directory d exactly once if and only if every required name is a matched file directly in d, on precisely those files' contents; the call throws if and only if some extractor requires nothing |
| RepositoryIndex.ReadFiles | indexer/internal/consumer/consumer.go:162-178 | the contents of exactly the matched files that open, each under its path |
| RepositoryIndex.Index | indexer/internal/consumer/consumer.go:121-190 | walk, match, read and extract composed on any repository: the extraction throws if and only if some extractor requires nothing, and otherwise extractor e runs on directory d exactly once, with the contents of its files, if and only if all the names it requires are files directly in d that are matched and open |
| Words.SpacesAre | extractor/src/extractors/GoModExtractor.ts:31-31 | the characters that are trimmed and split at are the white space of JavaScript, by code point |
| GoMod.ImportPathParts | extractor/src/extractors/goutils/parseImportPath.ts:6-15 | organization and module are what is before and after the first slash; without one all is module |
| GoMod.PartsAreUnique | extractor/src/extractors/goutils/parseImportPath.ts:6-15 | a path can be taken apart in no other way |
| GoMod.Extract | extractor/src/extractors/GoModExtractor.ts:28-124 | the nested loops over one index, whichever way a block or the file ends, compute what reading one line after the other computes; the organization and the module that are reported put the reported name together again, and so do those of every dependency |
| GoModFiles.TextIsRead | extractor/src/extractors/GoModExtractor.ts:31-31 | splitting at runs of newlines and trimming loses nothing but blank lines |
| GoModFiles.PieceIsRead | extractor/src/extractors/GoModExtractor.ts:45-107 | what each printed piece does when it is read, between directives, in a block that is skipped and in one that is read as requirements |
| GoModFiles.ParseInvertsPrint | extractor/src/extractors/GoModExtractor.ts:28-124 | where every piece is read as meant, reading a printed file gives exactly the last module and the requirements in order, indirect if and only if the line has a third word, with any white space at line ends |
| GoModFiles.ReportsLastModule | extractor/src/extractors/GoModExtractor.ts:45-49 | what is reported of such a file has the path of its last module line as its name, and the parts of that path as organization and module |
| GoModFiles.PlainIsReadAsMeant | extractor/src/extractors/GoModExtractor.ts:28-124 | every piece is, in a file without a require, exclude or retract on one line and without comments in its require blocks |
| GoModFiles.ReadsRightIff | extractor/src/extractors/GoModExtractor.ts:28-124 | for all files in which requirements look like import paths and no other line starts like one: what is reported is what is declared if and only if the file names no module, or no requirement is on the line of its directive, none is hidden between an exclude or retract on one line and the next closing parenthesis, no comment is in a require block that is not hidden, and the last module line that is not hidden names the last module |
| GoModFiles.FewerAreSeen | extractor/src/extractors/GoModExtractor.ts:54-81 | as long as only paths are reported, at most as many requirements are as are declared, and as many only if every piece is fine |
| GoModFiles.HiddenBlockWitness | extractor/src/extractors/GoModExtractor.ts:94-100 | a whole file with an exclude before its require block is reported wrong, and the same pieces with the exclude last are reported right |
| GoModFiles.MisreadWitness | extractor/src/extractors/GoModExtractor.ts:54-81 | a file with its requirement on the line of the directive and one with a comment in its require block are reported wrong |
| GoModFiles.DeclaresModule | extractor/src/extractors/GoModExtractor.ts:110-112 | a file declares no module, on which the extractor fails, if and only if no piece names one |

## Left out

- Git cloning, temporary directories, authentication and the reading of file contents in the indexer's consumer, and the remotes it gets repositories from: input and output.
- gRPC, HTTP, TLS, health checks and command line parsing; errors of the network and of the database, other than a call that stops between its transactions or a stream that ends.
- SQL engines: only what one statement does to the rows, and all-or-nothing transactions, as SQLite has them. MySQL behaves the same in v1alpha. The v1beta MySQL and PostgreSQL inserts name columns of another schema and are not modelled.
- Timestamps, last_modified and connection handling.
- GraphStoreV1Alpha.GraphStore.Put: commits even if some of its rows failed, which it reports; in the model all rows of a batch succeed.
- GraphStoreV1Alpha.GraphStore.Delete: the same.
- SearchService.Service.BreadthFirstSearch: reads the store in one query per module; the store is taken not to change between them.
- SearchService.Service.DepthFirstSearch: the same.
- Topology.Topology: the same, as it is one breadth first search.
- SHA-256 and CRC-32, JSON and protocol buffers: keys are injective and bodies opaque. In the diff keys the digests are any bytes.
- Cancellation during the breadth first and depth first searches, and a second request on their stream: consumeStream reads the stream once, so neither is noticed before the search ends.
- Breadth first and depth first searches for the sources or modules of something: they are refused, as transformResponse refuses them.
- Topology keys whose fields contain the character `|`: the model keys modules by their fields.
- Responses for the same source twice in one topology call: the search never sends them.
- TraverseStream.Stream.Recv: the store is taken not to change between the requests of one walk; ConcurrentStores has the same walk, query by query, with other calls in between.
- TraverseProtocol.Conservation: the wire is not bounded, so flow control that blocks a client which sends a whole tier before it reads is not modelled.
- RepositoryWalk.Walk: names are not empty and contain no separator, and reading a directory does not fail.
- PathTree.ConstructTree: the tree is built from values, so updates in place and sharing of directories are not captured; names that JavaScript finds on every object, such as `constructor`, are taken to be ordinary.
- Extraction.ExtractInternal: what an extractor returns, and dropping the results without a module; for paths that are not prefix-free only BuiltHasAll says what happens.
- PagePaging.ModulesCommand: is stated for the stores on which it stops, which CommandStops proves to be those with fewer than 2147483744 rows.
- TokenPaging.List: like the command that lists modules, it reads one fixed order of the rows; the statements have no ORDER BY, so a store that changes its order between pages is not covered.
- The other extractors (npm, bower, composer, cargo, pom, ivy, gopkg, godeps, vendor.conf, gradle), the matcher's globs and the command line's parseName: mostly field mapping, which would only add easy members.
- GoModFiles.ReadsRightIff: the files are made of the usual pieces; a comment after an opening or a closing parenthesis, a module block and directives split over lines are not among them.
- The gateways and the deployment.
