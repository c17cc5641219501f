/**
 Grouping the rows of a neighbour query: node rows open neighbours, and edge rows are filed under them by key.

 The loop keeps an index from keys to positions. Two things about it are Go's: looking up a key that is not in the
 index gives position 0, and a position past the end of the results panics. So the method here is defined on any rows,
 with None for the panic. What is meant is a function of the rows, the stable grouping, and the method computes it
 exactly if every edge row comes after a node row with its key, as in the rows that a query returns.
 */
module NeighborGrouping {
  import opened Collections
  import opened Transforms

  datatype Neighbor = Neighbor(node: Node, edges: seq<Edge>)

  function ConvertAll(rows: seq<GraphData>): seq<Converted> {
    seq(|rows|, i requires 0 <= i < |rows| => ConvertGraphData(rows[i]))
  }

  // ---- The grouping that is meant ----

  predicate HasKey(nodes: seq<Node>, key: Key) {
    exists i :: 0 <= i < |nodes| && nodes[i].key == key
  }

  /** The nodes with distinct keys, each as it appears first. */
  function NodesIn(rows: seq<Converted>): seq<Node> {
    if rows == [] then [] else
      var front, last := NodesIn(rows[..|rows| - 1]), rows[|rows| - 1];
      if last.ANode? && !HasKey(front, last.node.key) then front + [last.node] else front
  }

  predicate IsFor(row: Converted, keyFn: Edge -> Key, key: Key) {
    row.AnEdge? && keyFn(row.edge) == key
  }

  /** The edges for one key, in the order of the rows. */
  function EdgesFor(rows: seq<Converted>, keyFn: Edge -> Key, key: Key): seq<Edge> {
    if rows == [] then [] else
      var front, last := EdgesFor(rows[..|rows| - 1], keyFn, key), rows[|rows| - 1];
      if IsFor(last, keyFn, key) then front + [last.edge] else front
  }

  function Grouping(rows: seq<Converted>, keyFn: Edge -> Key): seq<Neighbor> {
    var nodes := NodesIn(rows);
    seq(|nodes|, i requires 0 <= i < |nodes| => Neighbor(nodes[i], EdgesFor(rows, keyFn, nodes[i].key)))
  }

  /** Every edge row comes after a node row with its key. */
  ghost predicate Preceded(rows: seq<Converted>, keyFn: Edge -> Key) {
    forall i :: 0 <= i < |rows| && rows[i].AnEdge? ==> HasKey(NodesIn(rows[..i]), keyFn(rows[i].edge))
  }

  /** Some edge row comes before every node row. */
  ghost predicate StartsWithEdge(rows: seq<Converted>) {
    exists i :: 0 <= i < |rows| && rows[i].AnEdge? && NodesIn(rows[..i]) == []
  }

  /** Some neighbour holds an edge whose key is not the neighbour's. */
  ghost predicate Misfiled(results: seq<Neighbor>, keyFn: Edge -> Key) {
    exists i, j ::
      0 <= i < |results| && 0 <= j < |results[i].edges| && keyFn(results[i].edges[j]) != results[i].node.key
  }

  // ---- What the grouping means ----

  ghost predicate FirstWithKey(rows: seq<Converted>, k: int) {
    && 0 <= k < |rows|
    && rows[k].ANode?
    && (forall l :: 0 <= l < k && rows[l].ANode? ==> rows[l].node.key != rows[k].node.key)
  }

  ghost function OpensNeighbor(rows: seq<Converted>): int -> bool {
    (k: int) => FirstWithKey(rows, k)
  }

  ghost function HoldsEdge(rows: seq<Converted>, keyFn: Edge -> Key, key: Key): int -> bool {
    (k: int) => 0 <= k < |rows| && IsFor(rows[k], keyFn, key)
  }

  ghost predicate AreNodesAt(nodes: seq<Node>, rows: seq<Converted>, ks: seq<int>) {
    |ks| == |nodes| && forall i :: 0 <= i < |ks| ==> 0 <= ks[i] < |rows| && rows[ks[i]] == ANode(nodes[i])
  }

  ghost predicate AreEdgesAt(edges: seq<Edge>, rows: seq<Converted>, ks: seq<int>) {
    |ks| == |edges| && forall i :: 0 <= i < |ks| ==> 0 <= ks[i] < |rows| && rows[ks[i]] == AnEdge(edges[i])
  }

  lemma OneMoreNode(nodes: seq<Node>, rows: seq<Converted>, ks: seq<int>, k: nat)
    requires AreNodesAt(nodes, rows, ks) && k < |rows| && rows[k].ANode?
    ensures AreNodesAt(nodes + [rows[k].node], rows, ks + [k])
  {
  }

  lemma OneMoreEdge(edges: seq<Edge>, rows: seq<Converted>, ks: seq<int>, k: nat)
    requires AreEdgesAt(edges, rows, ks) && k < |rows| && rows[k].AnEdge?
    ensures AreEdgesAt(edges + [rows[k].edge], rows, ks + [k])
  {
  }

  /** The first n rows have a node with this key if and only if one of them is a node row with it. */
  lemma {:induction false} HasKeyAt(rows: seq<Converted>, n: nat, key: Key)
    requires n <= |rows|
    ensures HasKey(NodesIn(rows[..n]), key) <==> exists k :: 0 <= k < n && rows[k].ANode? && rows[k].node.key == key
  {
    if n > 0 {
      assert rows[..n][..n - 1] == rows[..n - 1];
      HasKeyAt(rows, n - 1, key);
      var front, nodes := NodesIn(rows[..n - 1]), NodesIn(rows[..n]);
      if HasKey(front, key) {
        var i :| 0 <= i < |front| && front[i].key == key;
        assert nodes[i] == front[i];
      }
      if rows[n - 1].ANode? && !HasKey(front, rows[n - 1].node.key) {
        assert nodes[|front|] == rows[n - 1].node;
      }
    }
  }

  lemma NodesInStep(rows: seq<Converted>, n: nat)
    requires n < |rows|
    ensures FirstWithKey(rows, n) ==> rows[n].ANode?
    ensures NodesIn(rows[..n + 1]) == NodesIn(rows[..n]) + if FirstWithKey(rows, n) then [rows[n].node] else []
    ensures !FirstWithKey(rows, n) ==> NodesIn(rows[..n + 1]) == NodesIn(rows[..n])
  {
    hide HasKey;
    assert rows[..n + 1][..n] == rows[..n];
    if rows[n].ANode? { HasKeyAt(rows, n, rows[n].node.key); }
  }

  lemma {:induction false} NodesInPrefix(rows: seq<Converted>, n: nat) returns (ks: seq<int>)
    requires n <= |rows|
    ensures Selects(ks, n, OpensNeighbor(rows)) && AreNodesAt(NodesIn(rows[..n]), rows, ks)
  {
    if n == 0 {
      ks := [];
    } else {
      hide Selects, AreNodesAt, NodesIn, FirstWithKey;
      var before := NodesInPrefix(rows, n - 1);
      SelectsStep(before, n - 1, OpensNeighbor(rows));
      NodesInStep(rows, n - 1);
      if rows[n - 1].ANode? { OneMoreNode(NodesIn(rows[..n - 1]), rows, before, n - 1); }
      ks := if FirstWithKey(rows, n - 1) then before + [n - 1] else before;
    }
  }

  /** The nodes are those of the rows where a key appears first, in the order of the rows. */
  lemma NodesInAre(rows: seq<Converted>) returns (ks: seq<int>)
    ensures Selects(ks, |rows|, OpensNeighbor(rows)) && AreNodesAt(NodesIn(rows), rows, ks)
  {
    ks := NodesInPrefix(rows, |rows|);
    assert rows[..|rows|] == rows;
  }

  lemma NodesHaveDistinctKeys(rows: seq<Converted>, i: nat, j: nat)
    requires i < j < |NodesIn(rows)|
    ensures NodesIn(rows)[i].key != NodesIn(rows)[j].key
  {
    var ks := NodesInAre(rows);
    assert ks[j] in ks;
    assert FirstWithKey(rows, ks[j]);
  }

  lemma EdgesForStep(rows: seq<Converted>, keyFn: Edge -> Key, key: Key, n: nat)
    requires n < |rows|
    ensures EdgesFor(rows[..n + 1], keyFn, key)
         == EdgesFor(rows[..n], keyFn, key) + if IsFor(rows[n], keyFn, key) then [rows[n].edge] else []
  {
    assert rows[..n + 1][..n] == rows[..n];
  }

  lemma {:induction false} EdgesForPrefix(rows: seq<Converted>, keyFn: Edge -> Key, key: Key, n: nat)
    returns (ks: seq<int>)
    requires n <= |rows|
    ensures Selects(ks, n, HoldsEdge(rows, keyFn, key)) && AreEdgesAt(EdgesFor(rows[..n], keyFn, key), rows, ks)
  {
    if n == 0 {
      ks := [];
    } else {
      hide Selects, AreEdgesAt, EdgesFor;
      EdgesForStep(rows, keyFn, key, n - 1);
      var before := EdgesForPrefix(rows, keyFn, key, n - 1);
      SelectsStep(before, n - 1, HoldsEdge(rows, keyFn, key));
      if rows[n - 1].AnEdge? { OneMoreEdge(EdgesFor(rows[..n - 1], keyFn, key), rows, before, n - 1); }
      if IsFor(rows[n - 1], keyFn, key) {
        ks := before + [n - 1];
      } else {
        assert EdgesFor(rows[..n], keyFn, key) == EdgesFor(rows[..n - 1], keyFn, key);
        ks := before;
      }
    }
  }

  /** The edges for a key are those of all the rows for that key, in the order of the rows. */
  lemma EdgesForAre(rows: seq<Converted>, keyFn: Edge -> Key, key: Key) returns (ks: seq<int>)
    ensures Selects(ks, |rows|, HoldsEdge(rows, keyFn, key)) && AreEdgesAt(EdgesFor(rows, keyFn, key), rows, ks)
  {
    ks := EdgesForPrefix(rows, keyFn, key, |rows|);
    assert rows[..|rows|] == rows;
  }

  // ---- No edge is lost or duplicated ----

  function EdgesIn(rows: seq<Converted>): seq<Edge> {
    if rows == [] then [] else
      EdgesIn(rows[..|rows| - 1]) + if rows[|rows| - 1].AnEdge? then [rows[|rows| - 1].edge] else []
  }

  function EdgesOf(results: seq<Neighbor>): seq<Edge> {
    if results == [] then [] else EdgesOf(results[..|results| - 1]) + results[|results| - 1].edges
  }

  lemma {:induction false} EdgeAddsOnce(a: seq<Neighbor>, b: seq<Neighbor>, k: nat, edge: Edge)
    requires |a| == |b| && k < |a|
    requires forall i :: 0 <= i < |a| && i != k ==> a[i] == b[i]
    requires b[k].edges == a[k].edges + [edge]
    ensures multiset(EdgesOf(b)) == multiset(EdgesOf(a)) + multiset{edge}
  {
    var n := |a| - 1;
    var rest := EdgesOf(a[..n]);
    if k == n {
      assert a[..n] == b[..n];
      assert EdgesOf(b) == rest + a[n].edges + [edge];
    } else {
      EdgeAddsOnce(a[..n], b[..n], k, edge);
      assert multiset(EdgesOf(b)) == multiset(EdgesOf(b[..n])) + multiset(a[n].edges);
      assert multiset(EdgesOf(a)) == multiset(rest) + multiset(a[n].edges);
    }
  }

  lemma EdgesOfAppend(results: seq<Neighbor>, neighbor: Neighbor)
    requires neighbor.edges == []
    ensures EdgesOf(results + [neighbor]) == EdgesOf(results)
  {
    assert (results + [neighbor])[..|results|] == results;
  }

  function WithEdge(neighbor: Neighbor, keyFn: Edge -> Key, edge: Edge): Neighbor {
    if keyFn(edge) == neighbor.node.key then neighbor.(edges := neighbor.edges + [edge]) else neighbor
  }

  /** Grouping one more row. */
  lemma GroupingStep(rows: seq<Converted>, keyFn: Edge -> Key, row: Converted)
    requires Preceded(rows + [row], keyFn)
    ensures Preceded(rows, keyFn)
    ensures row.Undecodable? ==> Grouping(rows + [row], keyFn) == Grouping(rows, keyFn)
    ensures row.ANode? && HasKey(NodesIn(rows), row.node.key) ==> Grouping(rows + [row], keyFn) == Grouping(rows, keyFn)
    ensures row.ANode? && !HasKey(NodesIn(rows), row.node.key) ==>
      Grouping(rows + [row], keyFn) == Grouping(rows, keyFn) + [Neighbor(row.node, [])]
    ensures row.AnEdge? ==> HasKey(NodesIn(rows), keyFn(row.edge))
    ensures row.AnEdge? ==> forall i :: 0 <= i < |NodesIn(rows)| ==>
      Grouping(rows + [row], keyFn)[i]
      == WithEdge(Grouping(rows, keyFn)[i], keyFn, row.edge)
  {
    var more := rows + [row];
    assert more[..|rows|] == rows;
    forall i | 0 <= i < |rows| && rows[i].AnEdge? ensures HasKey(NodesIn(rows[..i]), keyFn(rows[i].edge)) {
      assert more[..i] == rows[..i] && more[i] == rows[i];
    }
    if row.ANode? && !HasKey(NodesIn(rows), row.node.key) {
      NoEdgesYet(rows, keyFn, row.node.key);
    }
  }

  lemma StillHasKey(rows: seq<Converted>, row: Converted, key: Key)
    requires !HasKey(NodesIn(rows + [row]), key)
    ensures !HasKey(NodesIn(rows), key)
  {
    assert (rows + [row])[..|rows|] == rows;
    assert NodesIn(rows) <= NodesIn(rows + [row]);
  }

  lemma {:induction false} NoEdgesYet(rows: seq<Converted>, keyFn: Edge -> Key, key: Key)
    requires Preceded(rows, keyFn) && !HasKey(NodesIn(rows), key)
    ensures EdgesFor(rows, keyFn, key) == []
  {
    if rows != [] {
      var front, row := rows[..|rows| - 1], rows[|rows| - 1];
      assert rows == front + [row];
      forall i | 0 <= i < |front| && front[i].AnEdge? ensures HasKey(NodesIn(front[..i]), keyFn(front[i].edge)) {
        assert front[..i] == rows[..i] && front[i] == rows[i];
      }
      StillHasKey(front, row, key);
      NoEdgesYet(front, keyFn, key);
    }
  }

  lemma StillNodes(rows: seq<Converted>, row: Converted)
    requires !row.ANode?
    ensures NodesIn(rows + [row]) == NodesIn(rows)
  {
    assert (rows + [row])[..|rows|] == rows;
  }

  lemma EdgeRowAddsOnce(rows: seq<Converted>, keyFn: Edge -> Key, row: Converted)
    requires Preceded(rows + [row], keyFn) && row.AnEdge?
    ensures multiset(EdgesOf(Grouping(rows + [row], keyFn)))
      == multiset(EdgesOf(Grouping(rows, keyFn))) + multiset{row.edge}
  {
    hide Preceded, EdgesOf, EdgesFor, NodesIn;
    GroupingStep(rows, keyFn, row);
    StillNodes(rows, row);
    var nodes := NodesIn(rows);
    var k :| 0 <= k < |nodes| && nodes[k].key == keyFn(row.edge);
    forall i | 0 <= i < |nodes| && i != k ensures nodes[i].key != nodes[k].key {
      if i < k { NodesHaveDistinctKeys(rows, i, k); } else { NodesHaveDistinctKeys(rows, k, i); }
    }
    EdgeAddsOnce(Grouping(rows, keyFn), Grouping(rows + [row], keyFn), k, row.edge);
  }

  /** Where every edge row comes after a node row with its key, the neighbours hold exactly the edges of the rows. */
  lemma {:induction false} NothingLost(rows: seq<Converted>, keyFn: Edge -> Key)
    requires Preceded(rows, keyFn)
    ensures multiset(EdgesOf(Grouping(rows, keyFn))) == multiset(EdgesIn(rows))
  {
    if rows != [] {
      hide Grouping, Preceded, EdgesOf, EdgesFor, NodesIn;
      var front, row := rows[..|rows| - 1], rows[|rows| - 1];
      assert rows == front + [row];
      GroupingStep(front, keyFn, row);
      NothingLost(front, keyFn);
      if row.AnEdge? {
        EdgeRowAddsOnce(front, keyFn, row);
      } else if row.ANode? && !HasKey(NodesIn(front), row.node.key) {
        EdgesOfAppend(Grouping(front, keyFn), Neighbor(row.node, []));
      }
    }
  }

  // ---- The loop ----

  /** Where each key is in the results. */
  ghost predicate Indexes(index: map<Key, nat>, nodes: seq<Node>) {
    && (forall key :: key in index ==> index[key] < |nodes| && nodes[index[key]].key == key)
    && (forall i :: 0 <= i < |nodes| ==> nodes[i].key in index && index[nodes[i].key] == i)
  }

  ghost predicate Opened(results: seq<Neighbor>, nodes: seq<Node>) {
    |results| == |nodes| && forall i :: 0 <= i < |results| ==> results[i].node == nodes[i]
  }

  ghost predicate Inv(rows: seq<Converted>, keyFn: Edge -> Key, results: seq<Neighbor>, index: map<Key, nat>) {
    && Opened(results, NodesIn(rows))
    && Indexes(index, NodesIn(rows))
    && !StartsWithEdge(rows)
    && (if Preceded(rows, keyFn) then results == Grouping(rows, keyFn) else Misfiled(results, keyFn))
  }

  function Position(index: map<Key, nat>, key: Key): nat {
    if key in index then index[key] else 0
  }

  function AddEdge(results: seq<Neighbor>, pos: nat, edge: Edge): seq<Neighbor>
    requires pos < |results|
  {
    results[pos := results[pos].(edges := results[pos].edges + [edge])]
  }

  lemma StillStartsWithEdge(rows: seq<Converted>, row: Converted)
    ensures StartsWithEdge(rows + [row]) <==> StartsWithEdge(rows) || (row.AnEdge? && NodesIn(rows) == [])
  {
    var more := rows + [row];
    assert more[..|rows|] == rows;
    forall i | 0 <= i < |rows| ensures more[..i] == rows[..i] && more[i] == rows[i] {}
    if StartsWithEdge(rows) {
      var i :| 0 <= i < |rows| && rows[i].AnEdge? && NodesIn(rows[..i]) == [];
      assert more[i].AnEdge? && NodesIn(more[..i]) == [];
    }
  }

  lemma StillPreceded(rows: seq<Converted>, keyFn: Edge -> Key, row: Converted)
    ensures Preceded(rows + [row], keyFn)
      <==> Preceded(rows, keyFn) && (row.AnEdge? ==> HasKey(NodesIn(rows), keyFn(row.edge)))
  {
    var more := rows + [row];
    assert more[..|rows|] == rows && more[|rows|] == row;
    forall i | 0 <= i < |rows| ensures more[..i] == rows[..i] && more[i] == rows[i] {}
    if Preceded(more, keyFn) {
      forall i | 0 <= i < |rows| && rows[i].AnEdge? ensures HasKey(NodesIn(rows[..i]), keyFn(rows[i].edge)) {
        assert more[i].AnEdge?;
      }
    }
  }

  lemma StillMisfiled(results: seq<Neighbor>, results': seq<Neighbor>, keyFn: Edge -> Key)
    requires Misfiled(results, keyFn) && |results| <= |results'|
    requires forall i :: 0 <= i < |results| ==>
      results[i].node == results'[i].node && results[i].edges <= results'[i].edges
    ensures Misfiled(results', keyFn)
  {
    var i, j :| 0 <= i < |results| && 0 <= j < |results[i].edges| && keyFn(results[i].edges[j]) != results[i].node.key;
    assert keyFn(results'[i].edges[j]) != results'[i].node.key;
  }

  lemma NodeStep(rows: seq<Converted>, keyFn: Edge -> Key, results: seq<Neighbor>, index: map<Key, nat>, row: Converted)
    requires Inv(rows, keyFn, results, index) && !row.AnEdge?
    ensures row.Undecodable? || row.node.key in index ==> Inv(rows + [row], keyFn, results, index)
    ensures row.ANode? && row.node.key !in index ==>
      Inv(rows + [row], keyFn, results + [Neighbor(row.node, [])], index[row.node.key := |results|])
  {
    hide Preceded, StartsWithEdge, Misfiled, Grouping;
    StillStartsWithEdge(rows, row);
    StillPreceded(rows, keyFn, row);
    assert (rows + [row])[..|rows|] == rows;
    if Preceded(rows, keyFn) {
      GroupingStep(rows, keyFn, row);
    } else {
      StillMisfiled(results, if row.ANode? then results + [Neighbor(row.node, [])] else results, keyFn);
    }
  }

  lemma EdgeStep(rows: seq<Converted>, keyFn: Edge -> Key, results: seq<Neighbor>, index: map<Key, nat>, edge: Edge)
    requires Inv(rows, keyFn, results, index) && Position(index, keyFn(edge)) < |results|
    ensures Inv(rows + [AnEdge(edge)], keyFn, AddEdge(results, Position(index, keyFn(edge)), edge), index)
  {
    var row, pos := AnEdge(edge), Position(index, keyFn(edge));
    var results' := AddEdge(results, pos, edge);
    StillStartsWithEdge(rows, row);
    StillPreceded(rows, keyFn, row);
    assert (rows + [row])[..|rows|] == rows;
    if !Preceded(rows, keyFn) {
      StillMisfiled(results, results', keyFn);
    } else if Preceded(rows + [row], keyFn) {
      GroupingStep(rows, keyFn, row);
      assert results' == Grouping(rows + [row], keyFn);
    } else {
      assert keyFn(results'[pos].edges[|results[pos].edges|]) != results'[pos].node.key;
    }
  }

  lemma GroupingIsFiled(rows: seq<Converted>, keyFn: Edge -> Key)
    ensures !Misfiled(Grouping(rows, keyFn), keyFn)
  {
    forall i, j | 0 <= i < |NodesIn(rows)| && 0 <= j < |Grouping(rows, keyFn)[i].edges|
      ensures keyFn(Grouping(rows, keyFn)[i].edges[j]) == NodesIn(rows)[i].key
    {
      var ks := EdgesForAre(rows, keyFn, NodesIn(rows)[i].key);
      assert ks[j] in ks;
    }
  }

  lemma StartOfLoop(keyFn: Edge -> Key)
    ensures Inv([], keyFn, [], map[])
  {
  }

  lemma InvFacts(rows: seq<Converted>, keyFn: Edge -> Key, results: seq<Neighbor>, index: map<Key, nat>)
    requires Inv(rows, keyFn, results, index)
    ensures results == [] ==> NodesIn(rows) == []
    ensures forall key :: key in index ==> index[key] < |results|
  {
  }

  lemma EndOfLoop(rows: seq<Converted>, keyFn: Edge -> Key, results: seq<Neighbor>, index: map<Key, nat>)
    requires Inv(rows, keyFn, results, index)
    ensures !StartsWithEdge(rows) && (Preceded(rows, keyFn) ==> results == Grouping(rows, keyFn))
    ensures Misfiled(results, keyFn) <==> !Preceded(rows, keyFn)
  {
    GroupingIsFiled(rows, keyFn);
  }

  lemma PanicStep(rows: seq<Converted>, i: nat, keyFn: Edge -> Key)
    requires i < |rows| && rows[i].AnEdge? && NodesIn(rows[..i]) == []
    ensures StartsWithEdge(rows) && !Preceded(rows, keyFn)
  {
  }

  /**
   A loop of the service, with Go's two surprises: a missing key is looked up as position 0, and a position out of range
   panics.
   */
  method ProcessNeighbors(neighborData: seq<GraphData>, keyFn: Edge -> Key) returns (r: Option<seq<Neighbor>>)
    ensures r.None? <==> StartsWithEdge(ConvertAll(neighborData))
    ensures Preceded(ConvertAll(neighborData), keyFn) ==> r == Some(Grouping(ConvertAll(neighborData), keyFn))
    ensures (r.Some? && !Misfiled(r.value, keyFn)) <==> Preceded(ConvertAll(neighborData), keyFn)
  {
    hide Inv, Preceded, StartsWithEdge, Misfiled, Grouping, ConvertGraphData;
    var results: seq<Neighbor>, index: map<Key, nat> := [], map[];
    ghost var rows := ConvertAll(neighborData);
    StartOfLoop(keyFn);
    for i := 0 to |neighborData|
      invariant Inv(rows[..i], keyFn, results, index)
    {
      assert rows[..i + 1] == rows[..i] + [rows[i]];
      match ConvertGraphData(neighborData[i])
      case Undecodable =>
        NodeStep(rows[..i], keyFn, results, index, rows[i]);
      case ANode(node) =>
        NodeStep(rows[..i], keyFn, results, index, rows[i]);
        if node.key !in index {
          var pos := |results|;
          results := results + [Neighbor(node, [])];
          index := index[node.key := pos];
        }
      case AnEdge(edge) =>
        var pos := Position(index, keyFn(edge));
        if pos >= |results| {
          InvFacts(rows[..i], keyFn, results, index);
          PanicStep(rows, i, keyFn);
          return None;
        }
        EdgeStep(rows[..i], keyFn, results, index, edge);
        results := AddEdge(results, pos, edge);
    }
    assert rows[..|neighborData|] == rows;
    EndOfLoop(rows, keyFn, results, index);
    return Some(results);
  }
}
