/** Walks and distances in a finite directed graph, given by its set of arcs. */
module Digraph {

  ghost predicate IsWalk<V>(arcs: set<(V, V)>, p: seq<V>) {
    |p| > 0 && forall i :: 0 <= i < |p| - 1 ==> (p[i], p[i + 1]) in arcs
  }

  ghost predicate WalkBetween<V>(arcs: set<(V, V)>, a: V, b: V, p: seq<V>) {
    IsWalk(arcs, p) && p[0] == a && p[|p| - 1] == b
  }

  ghost predicate Reachable<V(!new)>(arcs: set<(V, V)>, a: V, b: V) {
    exists p :: WalkBetween(arcs, a, b, p)
  }

  ghost function Heads<V>(arcs: set<(V, V)>, tails: set<V>): set<V> {
    set e | e in arcs && e.0 in tails :: e.1
  }

  /** The vertices at distance at most n from the root. */
  ghost function Within<V>(arcs: set<(V, V)>, root: V, n: nat): set<V> {
    if n == 0 then {root} else Within(arcs, root, n - 1) + Heads(arcs, Within(arcs, root, n - 1))
  }

  /** The vertices at distance exactly n from the root. */
  ghost function Layer<V>(arcs: set<(V, V)>, root: V, n: nat): set<V> {
    if n == 0 then {root} else Within(arcs, root, n) - Within(arcs, root, n - 1)
  }

  lemma {:induction false} WithinGrows<V>(arcs: set<(V, V)>, root: V, m: nat, n: nat)
    requires m <= n
    ensures Within(arcs, root, m) <= Within(arcs, root, n)
  {
    if m < n { WithinGrows(arcs, root, m, n - 1); }
  }

  lemma {:induction false} WithinHasWalk<V>(arcs: set<(V, V)>, root: V, n: nat, v: V) returns (p: seq<V>)
    requires v in Within(arcs, root, n)
    ensures WalkBetween(arcs, root, v, p) && |p| <= n + 1
  {
    if n == 0 {
      p := [root];
    } else if v in Within(arcs, root, n - 1) {
      p := WithinHasWalk(arcs, root, n - 1, v);
    } else {
      var e :| e in arcs && e.0 in Within(arcs, root, n - 1) && e.1 == v;
      var q := WithinHasWalk(arcs, root, n - 1, e.0);
      p := q + [v];
    }
  }

  lemma {:induction false} WalkEndsWithin<V>(arcs: set<(V, V)>, root: V, p: seq<V>)
    requires IsWalk(arcs, p) && p[0] == root
    ensures p[|p| - 1] in Within(arcs, root, |p| - 1)
  {
    if |p| > 1 {
      var q := p[..|p| - 1];
      WalkEndsWithin(arcs, root, q);
      assert (q[|q| - 1], p[|p| - 1]) in arcs;
    }
  }

  /** `Within` is distance measured along walks: the vertex has a walk of at most n arcs from the root. */
  lemma WithinIsDistance<V(!new)>(arcs: set<(V, V)>, root: V, n: nat, v: V)
    ensures v in Within(arcs, root, n) <==> exists p :: WalkBetween(arcs, root, v, p) && |p| <= n + 1
  {
    if v in Within(arcs, root, n) {
      var p := WithinHasWalk(arcs, root, n, v);
    }
    forall p | WalkBetween(arcs, root, v, p) && |p| <= n + 1 ensures v in Within(arcs, root, n) {
      WalkEndsWithin(arcs, root, p);
      WithinGrows(arcs, root, |p| - 1, n);
    }
  }

  lemma {:induction false} FixpointStays<V>(arcs: set<(V, V)>, root: V, m: nat, n: nat)
    requires m <= n && Heads(arcs, Within(arcs, root, m)) <= Within(arcs, root, m)
    ensures Within(arcs, root, n) == Within(arcs, root, m)
  {
    hide Heads;
    if m < n { FixpointStays(arcs, root, m, n - 1); }
  }

  /** Once no arc leaves the vertices within distance n, they are the reachable ones. */
  lemma FixpointIsReachable<V(!new)>(arcs: set<(V, V)>, root: V, n: nat, v: V)
    requires Heads(arcs, Within(arcs, root, n)) <= Within(arcs, root, n)
    ensures v in Within(arcs, root, n) <==> Reachable(arcs, root, v)
  {
    hide Within, Heads;
    if v in Within(arcs, root, n) {
      var p := WithinHasWalk(arcs, root, n, v);
    }
    forall p | WalkBetween(arcs, root, v, p) ensures v in Within(arcs, root, n) {
      WalkEndsWithin(arcs, root, p);
      if n < |p| - 1 { FixpointStays(arcs, root, n, |p| - 1); } else { WithinGrows(arcs, root, |p| - 1, n); }
    }
  }
}
