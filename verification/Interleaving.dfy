/** Calls that each delete some keys of a shared table in one transaction and put an index in another, at any time. */
module Interleaving {
  import opened SoftTable

  // As long as no call deletes what a call puts, the table is what deleting first and then putting in the order of the
  // puts gives.

  datatype Call<P, +D> = Call(proposed: Index<P, D>, dropped: set<P>)

  /** No call drops a key that a call proposes. */
  ghost predicate Apart<P, D>(calls: seq<Call<P, D>>) {
    forall i, j, pk :: 0 <= i < |calls| && 0 <= j < |calls| && pk in calls[i].dropped ==> pk !in calls[j].proposed
  }

  ghost predicate AreCalls<P, D>(calls: seq<Call<P, D>>, puts: seq<int>) {
    forall k :: 0 <= k < |puts| ==> 0 <= puts[k] < |calls|
  }

  ghost function Dropped<P, D>(calls: seq<Call<P, D>>, deleters: set<int>): set<P> {
    set i, pk | i in deleters && 0 <= i < |calls| && pk in calls[i].dropped :: pk
  }

  ghost function PutAll<P, D>(t: Table<P, D>, calls: seq<Call<P, D>>, puts: seq<int>): Table<P, D>
    requires AreCalls(calls, puts)
  {
    if puts == [] then t
    else PutIndex(PutAll(t, calls, puts[..|puts| - 1]), calls[puts[|puts| - 1]].proposed)
  }

  /** What a table becomes when the calls in `deleters` have deleted and the calls in `puts` have put, in that order. */
  ghost function Outcome<P, D>(t0: Table<P, D>, calls: seq<Call<P, D>>, deleters: set<int>, puts: seq<int>): Table<P, D>
    requires AreCalls(calls, puts)
  {
    PutAll(DeleteKeys(t0, Dropped(calls, deleters)), calls, puts)
  }

  lemma PutStep<P, D>(t0: Table<P, D>, calls: seq<Call<P, D>>, deleters: set<int>, puts: seq<int>, i: int)
    requires AreCalls(calls, puts) && 0 <= i < |calls|
    ensures AreCalls(calls, puts + [i])
    ensures Outcome(t0, calls, deleters, puts + [i]) == PutIndex(Outcome(t0, calls, deleters, puts), calls[i].proposed)
  {
    assert (puts + [i])[..|puts|] == puts;
  }

  lemma {:induction false} DeleteFirst<P, D>(t: Table<P, D>, calls: seq<Call<P, D>>, puts: seq<int>, pks: set<P>)
    requires AreCalls(calls, puts) && forall k, pk :: 0 <= k < |puts| && pk in pks ==> pk !in calls[puts[k]].proposed
    ensures DeleteKeys(PutAll(t, calls, puts), pks) == PutAll(DeleteKeys(t, pks), calls, puts)
  {
    if puts != [] {
      DeleteFirst(t, calls, puts[..|puts| - 1], pks);
    }
  }

  lemma DroppedStep<P, D>(calls: seq<Call<P, D>>, deleters: set<int>, i: int)
    requires 0 <= i < |calls|
    ensures Dropped(calls, deleters + {i}) == Dropped(calls, deleters) + calls[i].dropped
  {
  }

  lemma DeleteTwice<P, D>(t: Table<P, D>, a: set<P>, b: set<P>)
    ensures DeleteKeys(DeleteKeys(t, a), b) == DeleteKeys(t, a + b)
  {
  }

  /**
   A Delete transaction may be moved before all puts, and it does not matter whether it still deletes what the
   calls before it have deleted.
   */
  lemma DeleteStep<P, D>(t0: Table<P, D>, calls: seq<Call<P, D>>, deleters: set<int>, puts: seq<int>, i: int,
                         pks: set<P>)
    requires Apart(calls) && AreCalls(calls, puts) && 0 <= i < |calls|
    requires pks <= calls[i].dropped <= pks + Dropped(calls, deleters)
    ensures Outcome(t0, calls, deleters + {i}, puts) == DeleteKeys(Outcome(t0, calls, deleters, puts), pks)
  {
    hide DeleteKeys, PutAll, Dropped;
    DeleteFirst(DeleteKeys(t0, Dropped(calls, deleters)), calls, puts, pks);
    DroppedStep(calls, deleters, i);
    DeleteTwice(t0, Dropped(calls, deleters), pks);
    assert Dropped(calls, deleters) + pks == Dropped(calls, deleters) + calls[i].dropped;
  }

  /** What calls have dropped stays deleted, whatever they put. */
  lemma DroppedStays<P, D>(t0: Table<P, D>, calls: seq<Call<P, D>>, deleters: set<int>, puts: seq<int>, pk: P)
    requires Apart(calls) && AreCalls(calls, puts) && pk in Dropped(calls, deleters)
    ensures !Live(Outcome(t0, calls, deleters, puts), pk)
  {
    NeverPut(DeleteKeys(t0, Dropped(calls, deleters)), calls, puts, pk);
  }

  /** A row that none of the calls so far drops or proposes is as it was. */
  lemma {:induction false} Untouched<P, D>(t0: Table<P, D>, calls: seq<Call<P, D>>, deleters: set<int>, puts: seq<int>,
                                           pk: P)
    requires AreCalls(calls, puts)
    requires pk !in Dropped(calls, deleters) && forall k :: 0 <= k < |puts| ==> pk !in calls[puts[k]].proposed
    ensures pk in Outcome(t0, calls, deleters, puts) <==> pk in t0
    ensures pk in t0 ==> Outcome(t0, calls, deleters, puts)[pk] == t0[pk]
  {
    hide Dropped;
    if puts != [] {
      Untouched(t0, calls, deleters, puts[..|puts| - 1], pk);
    }
  }

  /** All calls that propose a key propose the same data for it. */
  ghost predicate Agreed<P, D>(calls: seq<Call<P, D>>, pk: P) {
    forall i, j :: 0 <= i < |calls| && 0 <= j < |calls| && pk in calls[i].proposed && pk in calls[j].proposed ==>
      calls[i].proposed[pk] == calls[j].proposed[pk]
  }

  /** A row that calls have put is live, with the data of one of them, the last. */
  lemma {:induction false} LastPut<P, D>(t0: Table<P, D>, calls: seq<Call<P, D>>, deleters: set<int>, puts: seq<int>,
                                         k: int, pk: P)
    requires AreCalls(calls, puts) && 0 <= k < |puts| && pk in calls[puts[k]].proposed
    requires forall l :: k < l < |puts| ==> pk !in calls[puts[l]].proposed
    ensures var t := Outcome(t0, calls, deleters, puts); pk in t && t[pk] == Row(calls[puts[k]].proposed[pk], false)
  {
    hide Dropped;
    if k < |puts| - 1 {
      LastPut(t0, calls, deleters, puts[..|puts| - 1], k, pk);
    }
  }

  lemma {:induction false} FindLast<P, D>(calls: seq<Call<P, D>>, puts: seq<int>, pk: P) returns (k: int)
    requires AreCalls(calls, puts)
    ensures k == -1 ==> forall l :: 0 <= l < |puts| ==> pk !in calls[puts[l]].proposed
    ensures k != -1 ==> 0 <= k < |puts| && pk in calls[puts[k]].proposed
    ensures k != -1 ==> forall l :: k < l < |puts| ==> pk !in calls[puts[l]].proposed
  {
    if puts == [] {
      k := -1;
    } else if pk in calls[puts[|puts| - 1]].proposed {
      k := |puts| - 1;
    } else {
      k := FindLast(calls, puts[..|puts| - 1], pk);
      assert forall l :: 0 <= l < |puts| - 1 ==> puts[..|puts| - 1][l] == puts[l];
    }
  }

  /** `puts` lists each of the n calls once. */
  ghost predicate IsOrder(puts: seq<int>, n: nat) {
    && |puts| == n
    && (forall k :: 0 <= k < n ==> 0 <= puts[k] < n)
    && (forall k, l :: 0 <= k < l < n ==> puts[k] != puts[l])
    && (forall i :: 0 <= i < n ==> i in puts)
  }

  ghost function Numbers(n: nat): (all: set<int>)
    ensures |all| == n && forall i :: i in all ==> 0 <= i < n
  {
    if n == 0 then {} else Numbers(n - 1) + {n - 1}
  }

  lemma {:induction false} NumbersAre(n: nat)
    ensures forall i :: i in Numbers(n) <==> 0 <= i < n
  {
    if n > 0 { NumbersAre(n - 1); }
  }

  lemma {:induction false} SizeOfList(puts: seq<int>)
    requires forall k, l :: 0 <= k < l < |puts| ==> puts[k] != puts[l]
    ensures |set i | i in puts| == |puts|
  {
    if puts != [] {
      var front, last := puts[..|puts| - 1], puts[|puts| - 1];
      SizeOfList(front);
      assert puts == front + [last];
      assert (set i | i in puts) == (set i | i in front) + {last};
    }
  }

  ghost function Members(order: seq<int>): set<int> {
    set i | i in order
  }

  lemma OrderIsComplete(puts: seq<int>, n: nat)
    requires forall k :: 0 <= k < |puts| ==> 0 <= puts[k] < n
    requires forall k, l :: 0 <= k < l < |puts| ==> puts[k] != puts[l]
    requires forall i :: 0 <= i < n ==> i in puts
    ensures IsOrder(puts, n)
  {
    NumbersAre(n);
    SizeOfList(puts);
    assert (set i | i in puts) == Numbers(n);
  }

  /**
   Two orders of the same calls give a row the same presence and deletion mark, and the same data if the calls agree on
   it.
   */
  lemma OrdersOfRow<P, D>(t0: Table<P, D>, calls: seq<Call<P, D>>, deleters: set<int>, a: seq<int>, b: seq<int>, pk: P)
    requires IsOrder(a, |calls|) && IsOrder(b, |calls|) && AreCalls(calls, a) && AreCalls(calls, b)
    ensures var t, u := Outcome(t0, calls, deleters, a), Outcome(t0, calls, deleters, b);
      && (pk in t <==> pk in u)
      && (pk in t ==> t[pk].deleted == u[pk].deleted && (Agreed(calls, pk) ==> t[pk] == u[pk]))
  {
    var k := FindLast(calls, a, pk);
    var l := FindLast(calls, b, pk);
    if k != -1 { assert a[k] in b; LastPut(t0, calls, deleters, a, k, pk); }
    if l != -1 { assert b[l] in a; LastPut(t0, calls, deleters, b, l, pk); }
    if k == -1 && l == -1 {
      NeverPut(DeleteKeys(t0, Dropped(calls, deleters)), calls, a, pk);
      NeverPut(DeleteKeys(t0, Dropped(calls, deleters)), calls, b, pk);
    }
  }

  lemma {:induction false} NeverPut<P, D>(t: Table<P, D>, calls: seq<Call<P, D>>, puts: seq<int>, pk: P)
    requires AreCalls(calls, puts) && forall k :: 0 <= k < |puts| ==> pk !in calls[puts[k]].proposed
    ensures pk in PutAll(t, calls, puts) <==> pk in t
    ensures pk in t ==> PutAll(t, calls, puts)[pk] == t[pk]
  {
    if puts != [] { NeverPut(t, calls, puts[..|puts| - 1], pk); }
  }

  /** The order in which call i comes last. */
  ghost function OrderEnding(n: nat, i: int): seq<int>
    requires 0 <= i < n
  {
    seq(n, k requires 0 <= k < n => if k < i then k else if k < n - 1 then k + 1 else i)
  }

  lemma OrderEndingIsOrder(n: nat, i: int)
    requires 0 <= i < n
    ensures IsOrder(OrderEnding(n, i), n) && OrderEnding(n, i)[n - 1] == i
  {
    var order := OrderEnding(n, i);
    forall j | 0 <= j < n ensures j in order {
      assert order[if j < i then j else if j == i then n - 1 else j - 1] == j;
    }
  }

  /** The calls but two of them. */
  ghost function Others(n: nat, i: int, j: int): seq<int> {
    if n == 0 then [] else Others(n - 1, i, j) + if n - 1 == i || n - 1 == j then [] else [n - 1]
  }

  ghost predicate AreOthers(others: seq<int>, n: int, i: int, j: int) {
    && (forall k :: 0 <= k < |others| ==> 0 <= others[k] < n && others[k] != i && others[k] != j)
    && (forall k, l :: 0 <= k < l < |others| ==> others[k] != others[l])
    && (forall c :: 0 <= c < n && c != i && c != j ==> c in others)
  }

  lemma {:induction false} OthersAre(n: nat, i: int, j: int)
    ensures AreOthers(Others(n, i, j), n, i, j)
  {
    if n > 0 {
      var front := Others(n - 1, i, j);
      OthersAre(n - 1, i, j);
      if n - 1 == i || n - 1 == j {
        assert Others(n, i, j) == front;
      } else {
        var all := front + [n - 1];
        assert Others(n, i, j) == all && all[|front|] == n - 1;
        assert forall c :: c in front ==> c in all;
      }
    }
  }

  /** All calls, i and j last. */
  lemma OrderWithLastTwo(others: seq<int>, n: nat, i: int, j: int)
    requires 0 <= i < n && 0 <= j < n && i != j && AreOthers(others, n, i, j)
    ensures IsOrder(others + [i] + [j], n)
  {
    hide IsOrder;
    var order := others + [i] + [j];
    assert order[|others|] == i && order[|others| + 1] == j;
    assert forall c :: c in others ==> c in order;
    OrderIsComplete(order, n);
  }

  lemma NotAmongOthers(others: seq<int>, n: nat, i: int, j: int)
    requires AreOthers(others, n, i, j)
    ensures i !in others && j !in others
  {
  }
}
