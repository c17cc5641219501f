/** The tiered topological sort of the topology command, on the maps it collects. */
module TieredSort {
  import opened GraphStoreV1Alpha
  import opened DependencyService

  // `preds` (the client's counter) holds the recorded predecessors of each module, `edges` the modules that follow it.

  type Predecessors = map<Key, set<Key>>
  type Successors = map<Key, seq<Key>>
  type Modules = map<Key, Message>

  /** The two maps record the same arcs. */
  ghost predicate Mirror(preds: Predecessors, edges: Successors) {
    && (forall m, d :: m in edges && d in edges[m] ==> d in preds && m in preds[d])
    && (forall d, m :: d in preds && m in preds[d] ==> m in edges && d in edges[m])
  }

  ghost predicate Named(nodes: Modules) {
    forall key :: key in nodes ==> nodes[key].Module? && KeyOf(nodes[key]) == key
  }

  /** What is left of `all`, and what has been taken from it. */
  ghost predicate TakenFrom(all: Modules, left: Modules, taken: seq<Message>) {
    && (forall key :: key in left ==> key in all && left[key] == all[key])
    && (forall i :: 0 <= i < |taken| ==> KeyOf(taken[i]) in all && taken[i] == all[KeyOf(taken[i])])
  }

  /** The modules that can be emitted once those in `emitted` are: they have predecessors, and all are emitted. */
  ghost function Released(preds: Predecessors, emitted: set<Key>): set<Key> {
    set d | d in preds && d !in emitted && preds[d] != {} && preds[d] <= emitted
  }

  /** What is emitted within n rounds. */
  ghost function Emitted(preds: Predecessors, root: Key, n: nat): set<Key> {
    if n == 0 then {root} else Emitted(preds, root, n - 1) + Released(preds, Emitted(preds, root, n - 1))
  }

  /** What is emitted in round n. */
  ghost function Tier(preds: Predecessors, root: Key, n: nat): set<Key> {
    if n == 0 then {root} else Released(preds, Emitted(preds, root, n - 1))
  }

  ghost predicate TierKeys(tier: seq<Message>, keys: set<Key>) {
    && (forall i :: 0 <= i < |tier| ==> tier[i].Module? && KeyOf(tier[i]) in keys)
    && (forall i, j :: 0 <= i < j < |tier| ==> KeyOf(tier[i]) != KeyOf(tier[j]))
    && (forall key :: key in keys ==> exists i :: 0 <= i < |tier| && KeyOf(tier[i]) == key)
  }

  /** The tiers list, round by round, each emitted module once, until a round emits nothing. */
  ghost predicate Sorted(preds: Predecessors, root: Key, tiers: seq<seq<Message>>) {
    && |tiers| > 0
    && (forall n :: 0 <= n < |tiers| ==> tiers[n] != [] && TierKeys(tiers[n], Tier(preds, root, n)))
    && Released(preds, Emitted(preds, root, |tiers| - 1)) == {}
  }

  /**
   The state within a round. `emitted` are the modules of this and earlier rounds, `processed` those whose
   edges have been followed, and `next` those released so far, named by `tier`.
   */
  ghost predicate Counting(preds: Predecessors, emitted: set<Key>, processed: set<Key>, counter: Predecessors,
                      nodes: Modules,
                           next: seq<Key>, tier: seq<Message>) {
    && processed <= emitted
    && counter.Keys == preds.Keys - emitted - (set d | d in next)
    && (forall d :: d in counter ==> counter[d] == preds[d] - processed && (preds[d] != {} ==> counter[d] != {}))
    && NextReleased(preds, emitted, processed, nodes, counter, next, tier)
  }

  ghost predicate NextReleased(preds: Predecessors, emitted: set<Key>, processed: set<Key>, nodes: Modules,
                      counter: Predecessors,
                               next: seq<Key>, tier: seq<Message>) {
    && nodes.Keys == counter.Keys && Named(nodes)
    && (forall i :: 0 <= i < |next| ==>
         next[i] in preds && next[i] !in emitted && preds[next[i]] != {} && preds[next[i]] <= processed)
    && (forall i, j :: 0 <= i < j < |next| ==> next[i] != next[j])
    && |tier| == |next|
    && (forall i :: 0 <= i < |next| ==> tier[i].Module? && KeyOf(tier[i]) == next[i])
  }

  /** As Counting, in the middle of module `key`: its edges to `done` have been followed. */
  ghost predicate CountingAt(preds: Predecessors, emitted: set<Key>, processed: set<Key>, key: Key, done: seq<Key>,
                             counter: Predecessors, nodes: Modules, next: seq<Key>, tier: seq<Message>) {
    && processed <= emitted && key in emitted
    && counter.Keys == preds.Keys - emitted - (set d | d in next)
    && (forall d :: d in counter ==>
          && counter[d] == preds[d] - (if d in done then processed + {key} else processed)
          && (preds[d] != {} ==> counter[d] != {}))
    && NextReleased(preds, emitted, processed + {key}, nodes, counter, next, tier)
  }

  /** Follows the edges of one module. */
  method Follow(ghost preds: Predecessors, ghost emitted: set<Key>, ghost processed: set<Key>, key: Key,
                dependencyKeys: seq<Key>, ghost all: Modules,
                counter0: Predecessors, nodes0: Modules, next0: seq<Key>, tier0: seq<Message>)
    returns (counter: Predecessors, nodes: Modules, next: seq<Key>, tier: seq<Message>)
    requires Counting(preds, emitted, processed, counter0, nodes0, next0, tier0)
    requires key in emitted
    requires forall d :: d in preds ==> (d in dependencyKeys <==> key in preds[d])
    requires Named(all) && TakenFrom(all, nodes0, tier0)
    ensures Counting(preds, emitted, processed + {key}, counter, nodes, next, tier)
    ensures TakenFrom(all, nodes, tier)
  {
    hide Counting, CountingAt, TakenFrom, Named;
    counter, nodes, next, tier := counter0, nodes0, next0, tier0;
    StartOfModule(preds, emitted, processed, key, counter, nodes, next, tier);
    for j := 0 to |dependencyKeys|
      invariant CountingAt(preds, emitted, processed, key, dependencyKeys[..j], counter, nodes, next, tier)
      invariant TakenFrom(all, nodes, tier)
    {
      var d := dependencyKeys[j];
      assert dependencyKeys[..j + 1] == dependencyKeys[..j] + [d];
      if d !in counter {
        SkipOne(preds, emitted, processed, key, dependencyKeys[..j], counter, nodes, next, tier, d);
        continue;
      }
      StillCounted(preds, emitted, processed, key, dependencyKeys[..j], counter, nodes, next, tier, d);
      ghost var before := counter;
      counter := counter[d := counter[d] - {key}];
      if counter[d] == {} {
        ReleaseOne(preds, emitted, processed, key, dependencyKeys[..j], before, nodes, next, tier, d);
        TakeOne(all, nodes, tier, d);
        next, tier := next + [d], tier + [nodes[d]];
        nodes, counter := nodes - {d}, counter - {d};
        assert counter == before - {d};
      } else {
        KeepOne(preds, emitted, processed, key, dependencyKeys[..j], before, nodes, next, tier, d);
      }
    }
    assert dependencyKeys[..|dependencyKeys|] == dependencyKeys;
    EndOfModule(preds, emitted, processed, key, dependencyKeys, counter, nodes, next, tier);
  }

  lemma TakeOne(all: Modules, left: Modules, taken: seq<Message>, d: Key)
    requires Named(all) && TakenFrom(all, left, taken) && d in left
    ensures TakenFrom(all, left - {d}, taken + [left[d]])
  {
    hide KeyOf;
  }

  lemma ReleaseOne(preds: Predecessors, emitted: set<Key>, processed: set<Key>, key: Key, done: seq<Key>,
                   counter: Predecessors, nodes: Modules, next: seq<Key>, tier: seq<Message>, d: Key)
    requires CountingAt(preds, emitted, processed, key, done, counter, nodes, next, tier)
    requires d in counter && counter[d] - {key} == {} && key in preds[d]
    ensures CountingAt(preds, emitted, processed, key, done + [d], counter - {d}, nodes - {d}, next + [d],
                       tier + [nodes[d]])
  {
    var more := next + [d];
    assert (set x | x in more) == (set x | x in next) + {d} by {
      assert more[|next|] == d;
      forall x | x in next ensures x in more { }
    }
    assert preds[d] <= processed + {key};
    forall i, j | 0 <= i < j < |more| ensures more[i] != more[j] {
      if j == |next| { assert next[i] in next; }
    }
  }

  lemma SkipOne(preds: Predecessors, emitted: set<Key>, processed: set<Key>, key: Key, done: seq<Key>,
                counter: Predecessors, nodes: Modules, next: seq<Key>, tier: seq<Message>, d: Key)
    requires CountingAt(preds, emitted, processed, key, done, counter, nodes, next, tier) && d !in counter
    ensures CountingAt(preds, emitted, processed, key, done + [d], counter, nodes, next, tier)
  {
  }

  lemma StillCounted(preds: Predecessors, emitted: set<Key>, processed: set<Key>, key: Key, done: seq<Key>,
                     counter: Predecessors, nodes: Modules, next: seq<Key>, tier: seq<Message>, d: Key)
    requires CountingAt(preds, emitted, processed, key, done, counter, nodes, next, tier) && d in counter
    ensures d in preds && d in nodes
  {
  }

  lemma KeepOne(preds: Predecessors, emitted: set<Key>, processed: set<Key>, key: Key, done: seq<Key>,
                counter: Predecessors, nodes: Modules, next: seq<Key>, tier: seq<Message>, d: Key)
    requires CountingAt(preds, emitted, processed, key, done, counter, nodes, next, tier)
    requires d in counter && counter[d] - {key} != {}
    ensures CountingAt(preds, emitted, processed, key, done + [d], counter[d := counter[d] - {key}], nodes, next, tier)
  {
  }

  lemma StartOfModule(preds: Predecessors, emitted: set<Key>, processed: set<Key>, key: Key,
                      counter: Predecessors, nodes: Modules, next: seq<Key>, tier: seq<Message>)
    requires Counting(preds, emitted, processed, counter, nodes, next, tier) && key in emitted
    ensures CountingAt(preds, emitted, processed, key, [], counter, nodes, next, tier)
  {
  }

  lemma EndOfModule(preds: Predecessors, emitted: set<Key>, processed: set<Key>, key: Key, dependencyKeys: seq<Key>,
                    counter: Predecessors, nodes: Modules, next: seq<Key>, tier: seq<Message>)
    requires CountingAt(preds, emitted, processed, key, dependencyKeys, counter, nodes, next, tier)
    requires forall d :: d in preds ==> (d in dependencyKeys <==> key in preds[d])
    ensures Counting(preds, emitted, processed + {key}, counter, nodes, next, tier)
  {
  }

  // ---- The rounds ----

  /** The modules whose edges have been followed when a round starts. */
  ghost function Processed(preds: Predecessors, root: Key, round: nat): set<Key> {
    if round == 0 then {} else Emitted(preds, root, round - 1)
  }

  ghost function Taken(modules: seq<Key>, i: nat): set<Key>
    requires i <= |modules|
  {
    set key | key in modules[..i]
  }

  /** The edges that are left are those of modules not yet processed. */
  ghost predicate Remaining(edges0: Successors, edges: Successors, processed: set<Key>) {
    edges == edges0 - processed
  }

  ghost predicate AtRound(preds: Predecessors, root: Key, edges0: Successors, round: nat, modules: seq<Key>,
                          counter: Predecessors, nodes: Modules, edges: Successors) {
    && (forall i, j :: 0 <= i < j < |modules| ==> modules[i] != modules[j])
    && Taken(modules, |modules|) == Tier(preds, root, round)
    && Counting(preds, Emitted(preds, root, round), Processed(preds, root, round), counter, nodes, [], [])
    && Remaining(edges0, edges, Processed(preds, root, round))
  }

  lemma EmittedSplits(preds: Predecessors, root: Key, round: nat)
    ensures Emitted(preds, root, round) == Processed(preds, root, round) + Tier(preds, root, round)
    ensures Processed(preds, root, round) !! Tier(preds, root, round)
  {
  }

  lemma TakenStep(modules: seq<Key>, i: nat)
    requires i < |modules| && forall i, j :: 0 <= i < j < |modules| ==> modules[i] != modules[j]
    ensures Taken(modules, i + 1) == Taken(modules, i) + {modules[i]} && modules[i] !in Taken(modules, i)
    ensures Taken(modules, i + 1) <= Taken(modules, |modules|)
  {
    assert modules[..i + 1] == modules[..i] + [modules[i]];
    forall key | key in modules[..i + 1] ensures key in modules[..|modules|] { assert key in modules; }
  }

  /** Once all modules of a round are processed, exactly the next tier has been released. */
  lemma NextIsTier(preds: Predecessors, root: Key, round: nat, counter: Predecessors, nodes: Modules, next: seq<Key>,
                   tier: seq<Message>)
    requires Counting(preds, Emitted(preds, root, round), Emitted(preds, root, round), counter, nodes, next, tier)
    ensures (set d | d in next) == Tier(preds, root, round + 1)
    ensures TierKeys(tier, Tier(preds, root, round + 1))
  {
    var keys := set d | d in next;
    assert keys == Released(preds, Emitted(preds, root, round));
    forall key | key in keys ensures exists i :: 0 <= i < |tier| && KeyOf(tier[i]) == key {
      var i :| 0 <= i < |next| && next[i] == key;
      assert KeyOf(tier[i]) == key;
    }
  }

  lemma CounterShrinks(preds: Predecessors, emitted: set<Key>, counter: Predecessors, nodes: Modules, next: seq<Key>,
                      tier: seq<Message>)
    requires Counting(preds, emitted, emitted, counter, nodes, next, tier)
    ensures |counter.Keys| + |next| == |preds.Keys - emitted|
  {
    hide Named, KeyOf;
    var keys := set d | d in next;
    SizeOfDistinct(next, keys);
    assert keys <= preds.Keys - emitted;
    assert preds.Keys - emitted == counter.Keys + keys;
  }

  lemma EndOfRound(preds: Predecessors, root: Key, edges0: Successors, round: nat, counter: Predecessors,
                   nodes: Modules, edges: Successors,
                   next: seq<Key>, tier: seq<Message>)
    requires Counting(preds, Emitted(preds, root, round), Emitted(preds, root, round), counter, nodes, next, tier)
    requires Remaining(edges0, edges, Emitted(preds, root, round))
    ensures AtRound(preds, root, edges0, round + 1, next, counter, nodes, edges)
  {
    NextIsTier(preds, root, round, counter, nodes, next, tier);
    assert next[..|next|] == next;
    assert Taken(next, |next|) == Tier(preds, root, round + 1);
    var emitted := Emitted(preds, root, round);
    assert preds.Keys - emitted - (set d | d in next) == preds.Keys - Emitted(preds, root, round + 1);
  }

  lemma {:induction false} SizeOfDistinct(s: seq<Key>, keys: set<Key>)
    requires keys == set key | key in s
    requires forall i, j :: 0 <= i < j < |s| ==> s[i] != s[j]
    ensures |keys| == |s|
  {
    if s != [] {
      var front, last := s[..|s| - 1], s[|s| - 1];
      assert s == front + [last];
      SizeOfDistinct(front, set key | key in front);
      assert keys == (set key | key in front) + {last};
    }
  }

  lemma StartOfSort(preds: Predecessors, root: Key, edges0: Successors, nodes0: Modules)
    requires nodes0.Keys == preds.Keys && Named(nodes0) && root in nodes0
    ensures AtRound(preds, root, edges0, 0, [root], preds - {root}, nodes0 - {root}, edges0)
    ensures TierKeys([nodes0[root]], Tier(preds, root, 0))
  {
    assert [root][..1] == [root];
    assert KeyOf([nodes0[root]][0]) == root;
  }

  /** The edges of a module not yet processed are still there, and lead to the modules it precedes. */
  lemma EdgesLeft(preds: Predecessors, edges0: Successors, edges: Successors, processed: set<Key>, key: Key, d: Key)
    requires Mirror(preds, edges0) && Remaining(edges0, edges, processed) && key !in processed && d in preds
    ensures d in (if key in edges then edges[key] else []) <==> key in preds[d]
  {
  }

  lemma CounterBefore(preds: Predecessors, emitted: set<Key>, processed: set<Key>, counter: Predecessors,
                      nodes: Modules)
    requires Counting(preds, emitted, processed, counter, nodes, [], [])
    ensures counter.Keys == preds.Keys - emitted
  {
    assert (set d: Key | d in []) == {};
  }

  lemma SameLength(preds: Predecessors, emitted: set<Key>, counter: Predecessors, nodes: Modules, next: seq<Key>,
                   tier: seq<Message>)
    requires Counting(preds, emitted, emitted, counter, nodes, next, tier)
    ensures |tier| == |next|
  {
  }

  /** What a round establishes for the loop of the sort. */
  lemma AfterRound(preds: Predecessors, root: Key, edges0: Successors, round: nat, modules: seq<Key>,
                   counter0: Predecessors, nodes0: Modules, edges1: Successors,
                   counter: Predecessors, nodes: Modules, edges: Successors, next: seq<Key>, tier: seq<Message>)
    requires AtRound(preds, root, edges0, round, modules, counter0, nodes0, edges1)
    requires Counting(preds, Emitted(preds, root, round), Emitted(preds, root, round), counter, nodes, next, tier)
    requires Remaining(edges0, edges, Emitted(preds, root, round))
    ensures AtRound(preds, root, edges0, round + 1, next, counter, nodes, edges)
    ensures TierKeys(tier, Tier(preds, root, round + 1))
    ensures |counter.Keys| + |next| == |counter0.Keys| && |tier| == |next|
  {
    hide Counting, Remaining, Emitted, Processed, Tier, TierKeys;
    EndOfRound(preds, root, edges0, round, counter, nodes, edges, next, tier);
    NextIsTier(preds, root, round, counter, nodes, next, tier);
    SameLength(preds, Emitted(preds, root, round), counter, nodes, next, tier);
    CounterShrinks(preds, Emitted(preds, root, round), counter, nodes, next, tier);
    CounterBefore(preds, Emitted(preds, root, round), Processed(preds, root, round), counter0, nodes0);
  }

  /** What holds when a round comes to its module i. */
  lemma TakeModule(preds: Predecessors, root: Key, edges0: Successors, round: nat, modules: seq<Key>,
                   edges: Successors, i: nat)
    requires Mirror(preds, edges0) && i < |modules|
    requires forall i, j :: 0 <= i < j < |modules| ==> modules[i] != modules[j]
    requires Taken(modules, |modules|) == Tier(preds, root, round)
    requires Remaining(edges0, edges, Processed(preds, root, round) + Taken(modules, i))
    ensures modules[i] in Emitted(preds, root, round)
    ensures Processed(preds, root, round) + Taken(modules, i) + {modules[i]}
      == Processed(preds, root, round) + Taken(modules, i + 1)
    ensures Remaining(edges0, edges - {modules[i]}, Processed(preds, root, round) + Taken(modules, i + 1))
    ensures forall d :: d in preds ==>
      (d in (if modules[i] in edges then edges[modules[i]] else []) <==> modules[i] in preds[d])
  {
    var key, processed := modules[i], Processed(preds, root, round) + Taken(modules, i);
    TakenStep(modules, i);
    EmittedSplits(preds, root, round);
    assert key in Taken(modules, |modules|);
    assert processed + {key} == Processed(preds, root, round) + Taken(modules, i + 1);
    assert edges - {key} == edges0 - (processed + {key});
    forall d | d in preds ensures d in (if key in edges then edges[key] else []) <==> key in preds[d] {
      EdgesLeft(preds, edges0, edges, processed, key, d);
    }
  }

  /** Follows the edges of all modules of a round. */
  method Round(ghost preds: Predecessors, ghost root: Key, ghost round: nat, ghost edges0: Successors,
               modules: seq<Key>, ghost all: Modules,
               counter0: Predecessors, nodes0: Modules, edges1: Successors)
    returns (counter: Predecessors, nodes: Modules, edges: Successors, next: seq<Key>, tier: seq<Message>)
    requires Mirror(preds, edges0) && AtRound(preds, root, edges0, round, modules, counter0, nodes0, edges1)
    requires Named(all) && TakenFrom(all, nodes0, [])
    ensures Counting(preds, Emitted(preds, root, round), Emitted(preds, root, round), counter, nodes, next, tier)
    ensures Remaining(edges0, edges, Emitted(preds, root, round))
    ensures TakenFrom(all, nodes, tier)
  {
    hide TakenFrom, Named;
    ghost var emitted, before := Emitted(preds, root, round), Processed(preds, root, round);
    counter, nodes, edges, next, tier := counter0, nodes0, edges1, [], [];
    assert before + Taken(modules, 0) == before;
    for i := 0 to |modules|
      invariant Counting(preds, emitted, before + Taken(modules, i), counter, nodes, next, tier)
      invariant Remaining(edges0, edges, before + Taken(modules, i))
      invariant TakenFrom(all, nodes, tier)
    {
      TakeModule(preds, root, edges0, round, modules, edges, i);
      var key := modules[i];
      var dependencyKeys := if key in edges then edges[key] else [];
      edges := edges - {key};
      counter, nodes, next, tier :=
        Follow(preds, emitted, before + Taken(modules, i), key, dependencyKeys, all, counter, nodes, next,
          tier);
    }
    EmittedSplits(preds, root, round);
  }

  /** The tiers so far are those of the rounds so far, but for a last round that emitted nothing. */
  ghost predicate SortedTo(preds: Predecessors, root: Key, round: nat, modules: seq<Key>, tiers: seq<seq<Message>>) {
    && 0 < |tiers| == (if modules == [] then round else round + 1)
    && forall n :: 0 <= n < |tiers| ==> tiers[n] != [] && TierKeys(tiers[n], Tier(preds, root, n))
  }

  lemma SortedToEnd(preds: Predecessors, root: Key, edges0: Successors, round: nat, counter: Predecessors,
                    nodes: Modules, edges: Successors, tiers: seq<seq<Message>>)
    requires SortedTo(preds, root, round, [], tiers) && AtRound(preds, root, edges0, round, [], counter, nodes, edges)
    ensures Sorted(preds, root, tiers)
  {
    assert Taken([], 0) == {};
    assert Tier(preds, root, round) == {};
  }

  lemma AddTier(preds: Predecessors, root: Key, round: nat, modules: seq<Key>, tiers: seq<seq<Message>>,
                next: seq<Key>, tier: seq<Message>)
    requires SortedTo(preds, root, round, modules, tiers) && modules != []
    requires TierKeys(tier, Tier(preds, root, round + 1)) && |tier| == |next|
    ensures SortedTo(preds, root, round + 1, next, if |tier| > 0 then tiers + [tier] else tiers)
  {
    hide TierKeys, Tier;
  }

  lemma StartOfTaking(all: Modules, root: Key)
    requires Named(all) && root in all
    ensures TakenFrom(all, all - {root}, []) && TakenFrom(all, map[], [all[root]])
  {
  }

  lemma EndOfTaking(all: Modules, left: Modules, taken: seq<Message>)
    requires TakenFrom(all, left, taken)
    ensures TakenFrom(all, left, []) && TakenFrom(all, map[], taken)
  {
  }

  /** The sort: rounds that follow the edges of the modules emitted last, until a round emits none. */
  method Sort(counter0: Predecessors, nodes0: Modules, edges0: Successors, root: Key) returns (tiers: seq<seq<Message>>)
    requires Mirror(counter0, edges0)
    requires nodes0.Keys == counter0.Keys && Named(nodes0) && root in nodes0
    ensures Sorted(counter0, root, tiers)
    ensures tiers != [] && tiers[0] == [nodes0[root]]
    ensures forall n :: 0 <= n < |tiers| ==> TakenFrom(nodes0, map[], tiers[n])
  {
    hide AtRound, Counting, Mirror, Remaining, TakenFrom, Named, Tier, TierKeys, Emitted, Processed, Released;
    var modules := [root];
    tiers := [[nodes0[root]]];
    var nodes, counter, edges := nodes0 - {root}, counter0 - {root}, edges0;
    ghost var round: nat := 0;
    StartOfSort(counter0, root, edges0, nodes0);
    StartOfTaking(nodes0, root);
    while |modules| > 0
      invariant AtRound(counter0, root, edges0, round, modules, counter, nodes, edges)
      invariant SortedTo(counter0, root, round, modules, tiers)
      invariant TakenFrom(nodes0, nodes, []) && tiers != [] && tiers[0] == [nodes0[root]]
      invariant forall n :: 0 <= n < |tiers| ==> TakenFrom(nodes0, map[], tiers[n])
      decreases |counter.Keys|, |modules|
    {
      var next, tier;
      ghost var before, nodesBefore, edgesBefore := counter, nodes, edges;
      counter, nodes, edges, next, tier := Round(counter0, root, round, edges0, modules, nodes0, counter, nodes,
        edges);
      EndOfTaking(nodes0, nodes, tier);
      AfterRound(counter0, root, edges0, round, modules, before, nodesBefore, edgesBefore, counter, nodes, edges, next,
        tier);
      AddTier(counter0, root, round, modules, tiers, next, tier);
      modules := next;
      if |tier| > 0 {
        tiers := tiers + [tier];
      }
      round := round + 1;
    }
    SortedToEnd(counter0, root, edges0, round, counter, nodes, edges, tiers);
  }
}
