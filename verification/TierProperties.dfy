/** What the tiers of a sort mean in the graph: least closed set, longest walks, and completeness. */
module TierProperties {
  import opened Digraph
  import opened GraphStoreV1Alpha
  import opened DependencyService
  import opened TieredSort

  /** The recorded arcs, without those that lead back into the root. */
  ghost function Onward(preds: Predecessors, root: Key): set<(Key, Key)> {
    set d, m | d in preds && m in preds[d] && d != root :: (m, d)
  }

  ghost predicate EmittedBy(tiers: seq<seq<Message>>, key: Key) {
    exists n, i :: 0 <= n < |tiers| && 0 <= i < |tiers[n]| && KeyOf(tiers[n][i]) == key
  }

  // ---- Tiers ----

  lemma {:induction false} EmittedGrows(preds: Predecessors, root: Key, m: nat, n: nat)
    requires m <= n
    ensures Emitted(preds, root, m) <= Emitted(preds, root, n)
  {
    if m < n { EmittedGrows(preds, root, m, n - 1); }
  }

  lemma {:induction false} EmittedHasTier(preds: Predecessors, root: Key, n: nat, v: Key) returns (m: nat)
    requires v in Emitted(preds, root, n)
    ensures m <= n && v in Tier(preds, root, m)
  {
    if n == 0 || v in Tier(preds, root, n) { m := n; } else { m := EmittedHasTier(preds, root, n - 1, v); }
  }

  lemma TierIsEmitted(preds: Predecessors, root: Key, n: nat)
    ensures Tier(preds, root, n) <= Emitted(preds, root, n)
  {
  }

  /** A module is in at most one tier. */
  lemma TierUnique(preds: Predecessors, root: Key, m: nat, n: nat, v: Key)
    requires v in Tier(preds, root, m) && v in Tier(preds, root, n)
    ensures m == n
  {
    if m < n {
      TierIsEmitted(preds, root, m);
      EmittedGrows(preds, root, m, n - 1);
    } else if n < m {
      TierIsEmitted(preds, root, n);
      EmittedGrows(preds, root, n, m - 1);
    }
  }

  lemma SortedKeys(preds: Predecessors, root: Key, tiers: seq<seq<Message>>, v: Key)
    requires Sorted(preds, root, tiers)
    ensures EmittedBy(tiers, v) <==> v in Emitted(preds, root, |tiers| - 1)
  {
    hide Emitted, Tier, Released, KeyOf;
    if v in Emitted(preds, root, |tiers| - 1) {
      var n := EmittedHasTier(preds, root, |tiers| - 1, v);
      assert TierKeys(tiers[n], Tier(preds, root, n));
    }
    if EmittedBy(tiers, v) {
      var n, i :| 0 <= n < |tiers| && 0 <= i < |tiers[n]| && KeyOf(tiers[n][i]) == v;
      assert TierKeys(tiers[n], Tier(preds, root, n));
      TierIsEmitted(preds, root, n);
      EmittedGrows(preds, root, n, |tiers| - 1);
    }
  }

  /** No module is listed twice. */
  lemma EmittedOnce(preds: Predecessors, root: Key, tiers: seq<seq<Message>>, m: nat, i: nat, n: nat, j: nat)
    requires Sorted(preds, root, tiers)
    requires m < |tiers| && i < |tiers[m]| && n < |tiers| && j < |tiers[n]|
    requires KeyOf(tiers[m][i]) == KeyOf(tiers[n][j])
    ensures m == n && i == j
  {
    assert TierKeys(tiers[m], Tier(preds, root, m)) && TierKeys(tiers[n], Tier(preds, root, n));
    TierUnique(preds, root, m, n, KeyOf(tiers[m][i]));
  }

  // ---- Least closed set ----

  ghost predicate Closed(preds: Predecessors, root: Key, keys: set<Key>) {
    root in keys && forall d :: d in preds && preds[d] != {} && preds[d] <= keys ==> d in keys
  }

  lemma {:induction false} EmittedIsLeast(preds: Predecessors, root: Key, n: nat, keys: set<Key>)
    requires Closed(preds, root, keys)
    ensures Emitted(preds, root, n) <= keys
  {
    if n > 0 { EmittedIsLeast(preds, root, n - 1, keys); }
  }

  /** The emitted modules are the least set with the root that is closed under "all recorded predecessors emitted". */
  lemma EmitsLeastClosed(preds: Predecessors, root: Key, tiers: seq<seq<Message>>, keys: set<Key>)
    requires Sorted(preds, root, tiers)
    requires forall v :: v in keys <==> EmittedBy(tiers, v)
    ensures Closed(preds, root, keys)
    ensures forall other :: Closed(preds, root, other) ==> keys <= other
  {
    hide Emitted, EmittedBy;
    var n := |tiers| - 1;
    forall v ensures v in keys <==> v in Emitted(preds, root, n) { SortedKeys(preds, root, tiers, v); }
    assert keys == Emitted(preds, root, n);
    RootIsEmitted(preds, root, n);
    assert forall d :: d in preds ==> d !in Released(preds, keys);
    forall other | Closed(preds, root, other) ensures keys <= other {
      EmittedIsLeast(preds, root, n, other);
    }
  }

  lemma RootIsEmitted(preds: Predecessors, root: Key, n: nat)
    ensures root in Emitted(preds, root, n)
  {
    EmittedGrows(preds, root, 0, n);
  }

  // ---- Longest walks ----

  /** A module's tier is one more than the highest tier of its predecessors. */
  lemma TierAfterPredecessors(preds: Predecessors, root: Key, n: nat, v: Key)
    requires n > 0 && v in Tier(preds, root, n)
    ensures v in preds && v != root
    ensures forall p :: p in preds[v] ==> exists m: nat :: m < n && p in Tier(preds, root, m)
    ensures exists p :: p in preds[v] && p in Tier(preds, root, n - 1)
  {
    EmittedGrows(preds, root, 0, n - 1);
    forall p | p in preds[v] ensures exists m: nat :: m < n && p in Tier(preds, root, m) {
      var m := EmittedHasTier(preds, root, n - 1, p);
    }
  }

  lemma {:induction false} WalkAtMostTier(preds: Predecessors, root: Key, n: nat, v: Key, p: seq<Key>)
    requires v in Tier(preds, root, n) && WalkBetween(Onward(preds, root), root, v, p)
    ensures |p| <= n + 1
    decreases |p|
  {
    if |p| > 1 {
      var q, u := p[..|p| - 1], p[|p| - 2];
      assert (u, v) in Onward(preds, root) by { assert (p[|p| - 2], p[|p| - 1]) in Onward(preds, root); }
      if n > 0 {
        TierAfterPredecessors(preds, root, n, v);
        var m: nat :| m < n && u in Tier(preds, root, m);
        assert WalkBetween(Onward(preds, root), root, u, q);
        WalkAtMostTier(preds, root, m, u, q);
      }
    }
  }

  lemma {:induction false} WalkOfTier(preds: Predecessors, root: Key, n: nat, v: Key) returns (p: seq<Key>)
    requires v in Tier(preds, root, n)
    ensures WalkBetween(Onward(preds, root), root, v, p) && |p| == n + 1
  {
    hide Emitted, Released;
    if n == 0 {
      p := [root];
    } else {
      TierAfterPredecessors(preds, root, n, v);
      var u :| u in preds[v] && u in Tier(preds, root, n - 1);
      var q := WalkOfTier(preds, root, n - 1, u);
      p := q + [v];
      assert (u, v) in Onward(preds, root);
    }
  }

  /** An emitted module's tier is the length of the longest walk to it from the root, walks back into the root aside. */
  lemma TierIsLongestWalk(preds: Predecessors, root: Key, tiers: seq<seq<Message>>, n: nat, i: nat)
    requires Sorted(preds, root, tiers) && n < |tiers| && i < |tiers[n]|
    ensures exists p :: WalkBetween(Onward(preds, root), root, KeyOf(tiers[n][i]), p) && |p| == n + 1
    ensures forall p :: WalkBetween(Onward(preds, root), root, KeyOf(tiers[n][i]), p) ==> |p| <= n + 1
  {
    var v := KeyOf(tiers[n][i]);
    assert TierKeys(tiers[n], Tier(preds, root, n));
    var p := WalkOfTier(preds, root, n, v);
    forall p | WalkBetween(Onward(preds, root), root, v, p) ensures |p| <= n + 1 {
      WalkAtMostTier(preds, root, n, v, p);
    }
  }

  // ---- Completeness ----

  /** Every recorded module but the root was recorded as following some other recorded module. */
  ghost predicate Rooted(preds: Predecessors, root: Key) {
    && root in preds
    && (forall d :: d in preds && d != root ==> preds[d] != {})
    && (forall d :: d in preds ==> preds[d] <= preds.Keys)
  }

  ghost predicate Cycle<V>(arcs: set<(V, V)>, p: seq<V>) {
    IsWalk(arcs, p) && |p| > 1 && p[0] == p[|p| - 1]
  }

  ghost predicate Acyclic<V(!new)>(arcs: set<(V, V)>) {
    forall p :: !Cycle(arcs, p)
  }

  lemma NotFirstTier(preds: Predecessors, root: Key, n: nat, v: Key)
    requires v in Tier(preds, root, n) && v != root
    ensures n > 0
  {
  }

  /** Along a walk between emitted modules the tier rises with every arc. */
  lemma {:induction false} TierRises(preds: Predecessors, root: Key, p: seq<Key>, n: nat)
    requires IsWalk(Onward(preds, root), p) && p[|p| - 1] in Tier(preds, root, n)
    ensures exists m: nat :: m + |p| - 1 <= n && p[0] in Tier(preds, root, m)
    decreases |p|
  {
    hide Tier, Emitted;
    if |p| > 1 {
      var u, v := p[|p| - 2], p[|p| - 1];
      assert (u, v) in Onward(preds, root);
      NotFirstTier(preds, root, n, v);
      TierAfterPredecessors(preds, root, n, v);
      var k: nat :| k < n && u in Tier(preds, root, k);
      TierRises(preds, root, p[..|p| - 1], k);
    }
  }

  lemma NoCycleThroughEmitted(preds: Predecessors, root: Key, p: seq<Key>, n: nat)
    requires Cycle(Onward(preds, root), p)
    ensures p[0] !in Tier(preds, root, n)
  {
    if p[0] in Tier(preds, root, n) {
      TierRises(preds, root, p, n);
      var m: nat :| m + |p| - 1 <= n && p[0] in Tier(preds, root, m);
      TierUnique(preds, root, m, n, p[0]);
    }
  }

  lemma OnwardArc(preds: Predecessors, root: Key, m: Key, d: Key)
    requires d in preds && m in preds[d] && d != root
    ensures (m, d) in Onward(preds, root)
  {
  }

  lemma OneVertex(arcs: set<(Key, Key)>, v: Key)
    ensures IsWalk(arcs, [v])
  {
  }

  lemma WalkFrom(arcs: set<(Key, Key)>, u: Key, q: seq<Key>) returns (p: seq<Key>)
    requires IsWalk(arcs, q) && (u, q[0]) in arcs
    ensures p == [u] + q && IsWalk(arcs, p)
  {
    hide WalkBetween;
    p := [u] + q;
    forall i | 0 <= i < |p| - 1 ensures (p[i], p[i + 1]) in arcs {
      if i > 0 { assert p[i] == q[i - 1] && p[i + 1] == q[i]; }
    }
  }

  /** Going backwards from a module that is never emitted, one stays among such modules. */
  lemma {:induction false} BackwardWalk(preds: Predecessors, root: Key, stuck: set<Key>, start: Key, n: nat)
    returns (p: seq<Key>)
    requires start in stuck
    requires forall d :: d in stuck ==> d in preds && d != root && preds[d] * stuck != {}
    ensures IsWalk(Onward(preds, root), p) && |p| == n + 1
    ensures forall i :: 0 <= i < |p| ==> p[i] in stuck
  {
    hide Onward, IsWalk;
    if n == 0 {
      p := [start];
      assert IsWalk(Onward(preds, root), p) by { OneVertex(Onward(preds, root), start); }
    } else {
      var q := BackwardWalk(preds, root, stuck, start, n - 1);
      var u :| u in preds[q[0]] * stuck;
      OnwardArc(preds, root, u, q[0]);
      p := WalkFrom(Onward(preds, root), u, q);
    }
  }

  lemma Pigeonhole<T>(p: seq<T>, xs: set<T>)
    requires |p| > |xs| && forall i :: 0 <= i < |p| ==> p[i] in xs
    ensures exists i, j :: 0 <= i < j < |p| && p[i] == p[j]
  {
    if forall i, j :: 0 <= i < j < |p| ==> p[i] != p[j] {
      DistinctFit(p, xs);
    }
  }

  lemma {:induction false} DistinctFit<T>(p: seq<T>, xs: set<T>)
    requires forall i :: 0 <= i < |p| ==> p[i] in xs
    requires forall i, j :: 0 <= i < j < |p| ==> p[i] != p[j]
    ensures |p| <= |xs|
  {
    if p != [] {
      DistinctFit(p[1..], xs - {p[0]});
    }
  }

  lemma StuckPredecessor(preds: Predecessors, root: Key, emitted: set<Key>, d: Key)
    requires Rooted(preds, root) && root in emitted && Released(preds, emitted) == {} && d in preds.Keys - emitted
    ensures preds[d] * (preds.Keys - emitted) != {}
  {
    assert d !in Released(preds, emitted);
    var u :| u in preds[d] && u !in emitted;
    assert u in preds[d] * (preds.Keys - emitted);
  }

  lemma LongWalkHasCycle<V(!new)>(arcs: set<(V, V)>, p: seq<V>, xs: set<V>)
    requires IsWalk(arcs, p) && |p| > |xs| && forall i :: 0 <= i < |p| ==> p[i] in xs
    ensures !Acyclic(arcs)
  {
    Pigeonhole(p, xs);
    var i, j :| 0 <= i < j < |p| && p[i] == p[j];
    CycleInWalk(arcs, p, i, j);
  }

  lemma StuckHasCycle(preds: Predecessors, root: Key, emitted: set<Key>, v: Key)
    requires Rooted(preds, root) && root in emitted && Released(preds, emitted) == {}
    requires v in preds && v !in emitted
    ensures !Acyclic(Onward(preds, root))
  {
    var stuck := preds.Keys - emitted;
    forall d | d in stuck ensures preds[d] * stuck != {} {
      StuckPredecessor(preds, root, emitted, d);
    }
    var p := BackwardWalk(preds, root, stuck, v, |stuck|);
    LongWalkHasCycle(Onward(preds, root), p, stuck);
  }

  lemma CycleInWalk<V>(arcs: set<(V, V)>, p: seq<V>, i: nat, j: nat)
    requires IsWalk(arcs, p) && i < j < |p| && p[i] == p[j]
    ensures Cycle(arcs, p[i..j + 1])
  {
    var q := p[i..j + 1];
    forall k | 0 <= k < |q| - 1 ensures (q[k], q[k + 1]) in arcs {
      assert (p[i + k], p[i + k + 1]) in arcs;
    }
  }

  lemma CycleIsNotEmitted(preds: Predecessors, root: Key, n: nat, p: seq<Key>)
    requires Cycle(Onward(preds, root), p)
    ensures p[0] in preds && p[0] !in Emitted(preds, root, n)
  {
    assert (p[|p| - 2], p[|p| - 1]) in Onward(preds, root);
    if p[0] in Emitted(preds, root, n) {
      var m := EmittedHasTier(preds, root, n, p[0]);
      NoCycleThroughEmitted(preds, root, p, m);
    }
  }

  lemma LeftOutHasCycle(preds: Predecessors, root: Key, tiers: seq<seq<Message>>, v: Key)
    requires Sorted(preds, root, tiers) && Rooted(preds, root) && v in preds && !EmittedBy(tiers, v)
    ensures !Acyclic(Onward(preds, root))
  {
    SortedKeys(preds, root, tiers, v);
    EmittedGrows(preds, root, 0, |tiers| - 1);
    StuckHasCycle(preds, root, Emitted(preds, root, |tiers| - 1), v);
  }

  lemma CycleIsLeftOut(preds: Predecessors, root: Key, tiers: seq<seq<Message>>, p: seq<Key>)
    requires Sorted(preds, root, tiers) && Cycle(Onward(preds, root), p)
    ensures p[0] in preds && !EmittedBy(tiers, p[0])
  {
    CycleIsNotEmitted(preds, root, |tiers| - 1, p);
    SortedKeys(preds, root, tiers, p[0]);
  }

  /** Every recorded module is emitted if and only if the graph has no cycle once arcs into the root are dropped. */
  lemma CompleteIffAcyclic(preds: Predecessors, root: Key, tiers: seq<seq<Message>>)
    requires Sorted(preds, root, tiers) && Rooted(preds, root)
    ensures (forall v :: v in preds ==> EmittedBy(tiers, v)) <==> Acyclic(Onward(preds, root))
  {
    forall v | v in preds && !EmittedBy(tiers, v) ensures !Acyclic(Onward(preds, root)) {
      LeftOutHasCycle(preds, root, tiers, v);
    }
    forall p | Cycle(Onward(preds, root), p) ensures p[0] in preds && !EmittedBy(tiers, p[0]) {
      CycleIsLeftOut(preds, root, tiers, p);
    }
  }

  /** Every recorded arc to an emitted module other than the root comes from an earlier tier. */
  lemma ArcsGoUp(preds: Predecessors, root: Key, tiers: seq<seq<Message>>, n: nat, i: nat, m: Key)
    requires Sorted(preds, root, tiers) && n < |tiers| && i < |tiers[n]|
    requires (m, KeyOf(tiers[n][i])) in Onward(preds, root)
    ensures exists k, j :: 0 <= k < n && 0 <= j < |tiers[k]| && KeyOf(tiers[k][j]) == m
  {
    assert TierKeys(tiers[n], Tier(preds, root, n));
    TierAfterPredecessors(preds, root, n, KeyOf(tiers[n][i]));
    var k: nat :| k < n && m in Tier(preds, root, k);
    assert TierKeys(tiers[k], Tier(preds, root, k));
  }
}
