/** The tree that the extractor builds from a list of paths, and why it is the tree that the paths came from. */
module PathTree {
  import opened Collections
  import opened Paths
  import opened DirectoryTree

  /**
   Walks down the names, making directories on the way, and puts the path at the last one. None stands for the error
   of setting a property of a string. The empty string counts as missing, like any false value.
   */
  function Insert(t: Tree, parts: Parts, path: string): Option<Tree>
    requires parts != []
    decreases |parts|
  {
    if t.Leaf? then None
    else if |parts| == 1 then Some(Obj(t.children[parts[0] := Leaf(path)]))
    else
      var child :=
        if parts[0] in t.children && t.children[parts[0]] != Leaf("") then t.children[parts[0]] else Obj(map[]);
      match Insert(child, parts[1..], path)
      case None => None
      case Some(child') => Some(Obj(t.children[parts[0] := child']))
  }

  function Built(sep: char, paths: seq<string>): Option<Tree> {
    if paths == [] then Some(Obj(map[])) else
      match Built(sep, paths[..|paths| - 1])
      case None => None
      case Some(t) => Insert(t, Split(sep, paths[|paths| - 1]), paths[|paths| - 1])
  }

  method ConstructTree(sep: char, paths: seq<string>) returns (r: Option<Tree>)
    ensures r == Built(sep, paths)
  {
    var root := Obj(map[]);
    for i := 0 to |paths|
      invariant Built(sep, paths[..i]) == Some(root)
    {
      assert paths[..i + 1][..i] == paths[..i];
      var inserted := Insert(root, Split(sep, paths[i]), paths[i]);
      if inserted.None? {
        StaysBroken(sep, paths, i + 1);
        return None;
      }
      root := inserted.value;
    }
    assert paths[..|paths|] == paths;
    r := Some(root);
  }

  lemma {:induction false} StaysBroken(sep: char, paths: seq<string>, n: nat)
    requires n <= |paths| && Built(sep, paths[..n]).None?
    ensures Built(sep, paths).None?
    decreases |paths| - n
  {
    if n < |paths| {
      assert paths[..n + 1][..n] == paths[..n];
      StaysBroken(sep, paths, n + 1);
    } else {
      assert paths[..n] == paths;
    }
  }

  // ---- What an insertion does ----

  lemma LeafBelow(t: Tree, q: Parts)
    requires t.Obj? && q != []
    ensures LeafAt(t, q) == if q[0] in t.children then LeafAt(t.children[q[0]], q[1..]) else None
  {
  }

  /** No leaf is on the way to these names. */
  ghost predicate Clear(t: Tree, parts: Parts) {
    forall n :: 0 <= n < |parts| ==> LeafAt(t, parts[..n]).None?
  }

  lemma ClearBelow(t: Tree, parts: Parts)
    requires |parts| > 1 && Clear(t, parts)
    ensures t.Obj? && (parts[0] in t.children ==> t.children[parts[0]].Obj? && Clear(t.children[parts[0]], parts[1..]))
  {
    assert parts[..0] == [];
    assert LeafAt(t, parts[..0]).None?;
    if parts[0] in t.children {
      var child := t.children[parts[0]];
      forall n | 0 <= n < |parts[1..]| ensures LeafAt(child, parts[1..][..n]).None? {
        assert parts[..n + 1][1..] == parts[1..][..n];
        LeafBelow(t, parts[..n + 1]);
      }
      assert parts[1..][..0] == [];
      assert LeafAt(child, parts[1..][..0]).None?;
    }
  }

  /** An insertion with no leaf on the way puts its leaf, drops those below it, and leaves all others. */
  lemma {:induction false} InsertAt(t: Tree, parts: Parts, path: string, q: Parts)
    requires parts != [] && t.Obj? && Clear(t, parts)
    ensures Insert(t, parts, path).Some? && Insert(t, parts, path).value.Obj?
    ensures LeafAt(Insert(t, parts, path).value, q) ==
      if q == parts then Some(path) else if parts < q then None else LeafAt(t, q)
    decreases |parts|
  {
    if |parts| == 1 {
      var t' := Insert(t, parts, path).value;
      assert parts == [parts[0]];
      if q != [] {
        LeafBelow(t, q);
        LeafBelow(t', q);
        assert q == [q[0]] + q[1..];
      }
    } else {
      ClearBelow(t, parts);
      var child := if parts[0] in t.children then t.children[parts[0]] else Obj(map[]);
      EmptyIsClear(parts[1..]);
      InsertAt(child, parts[1..], path, if q == [] then [] else q[1..]);
      assert parts == [parts[0]] + parts[1..];
      if q != [] {
        LeafBelow(t, q);
        LeafBelow(Insert(t, parts, path).value, q);
        assert q == [q[0]] + q[1..];
      }
    }
  }

  lemma EmptyIsClear(parts: Parts)
    ensures Clear(Obj(map[]), parts)
    ensures forall q :: LeafAt(Obj(map[]), q).None?
  {
  }

  // ---- No empty directories ----

  predicate Full(t: Tree) {
    t.Leaf? || (t.children != map[] && forall name :: name in t.children ==> Full(t.children[name]))
  }

  /** A directory without empty directories in it. It may be empty itself, as the root may. */
  predicate Canonical(t: Tree) {
    t.Obj? && forall name :: name in t.children ==> Full(t.children[name])
  }

  lemma {:induction false} InsertKeepsCanonical(t: Tree, parts: Parts, path: string)
    requires parts != [] && Canonical(t) && Insert(t, parts, path).Some?
    ensures Canonical(Insert(t, parts, path).value) && Full(Insert(t, parts, path).value)
    decreases |parts|
  {
    var t' := Insert(t, parts, path).value;
    assert parts[0] in t'.children;
    if |parts| > 1 {
      var child :=
        if parts[0] in t.children && t.children[parts[0]] != Leaf("") then t.children[parts[0]] else Obj(map[]);
      if child.Obj? { InsertKeepsCanonical(child, parts[1..], path); }
    }
  }

  lemma {:induction false} FullHasLeaf(t: Tree) returns (q: Parts)
    requires Full(t)
    ensures LeafAt(t, q).Some?
    decreases t
  {
    if t.Leaf? {
      q := [];
    } else {
      var name :| name in t.children;
      var rest := FullHasLeaf(t.children[name]);
      q := [name] + rest;
      assert q[1..] == rest;
    }
  }

  lemma NameHasLeaf(a: Tree, b: Tree, name: string)
    requires Canonical(a) && b.Obj? && name in a.children && forall q :: LeafAt(a, q) == LeafAt(b, q)
    ensures name in b.children
  {
    var rest := FullHasLeaf(a.children[name]);
    assert ([name] + rest)[1..] == rest;
    LeafBelow(a, [name] + rest);
    LeafBelow(b, [name] + rest);
    assert LeafAt(a, [name] + rest) == LeafAt(b, [name] + rest);
  }

  /** Trees without empty directories are determined by their leaves. */
  lemma {:induction false} SameLeaves(a: Tree, b: Tree)
    requires Full(a) || Canonical(a)
    requires Full(b) || Canonical(b)
    requires forall q :: LeafAt(a, q) == LeafAt(b, q)
    ensures a == b
    decreases a
  {
    assert LeafAt(a, []) == LeafAt(b, []);
    if a.Obj? {
      forall name ensures name in a.children <==> name in b.children {
        if name in a.children { NameHasLeaf(a, b, name); }
        if name in b.children { NameHasLeaf(b, a, name); }
      }
      forall name | name in a.children ensures a.children[name] == b.children[name] {
        forall q ensures LeafAt(a.children[name], q) == LeafAt(b.children[name], q) {
          assert ([name] + q)[1..] == q;
          LeafBelow(a, [name] + q);
          LeafBelow(b, [name] + q);
        }
        SameLeaves(a.children[name], b.children[name]);
      }
      assert a.children == b.children;
    }
  }

  // ---- What the tree of a list of paths holds ----

  /** No path is a proper prefix of another, name by name. */
  ghost predicate PrefixFree(sep: char, paths: seq<string>) {
    forall p, p' :: p in paths && p' in paths ==> !(Split(sep, p) < Split(sep, p'))
  }

  /** The leaves of the tree are the paths, each at its own names. */
  ghost predicate Holds(sep: char, paths: seq<string>, t: Tree) {
    && Canonical(t)
    && forall q :: LeafAt(t, q) ==
         if q != [] && AllSepFree(sep, q) && Join(sep, q) in paths then Some(Join(sep, q)) else None
  }

  lemma ClearForPath(sep: char, paths: seq<string>, t: Tree, p: string)
    requires Holds(sep, paths, t) && PrefixFree(sep, paths + [p])
    ensures Clear(t, Split(sep, p))
    ensures forall q :: Split(sep, p) < q ==> LeafAt(t, q).None?
  {
    var parts := Split(sep, p);
    assert p in paths + [p];
    forall q | LeafAt(t, q).Some? ensures !(q < parts) && !(parts < q) {
      assert Join(sep, q) in paths + [p];
      SplitJoin(sep, q);
    }
  }

  lemma HoldsStep(sep: char, paths: seq<string>, t: Tree, p: string)
    requires Holds(sep, paths, t) && PrefixFree(sep, paths + [p])
    ensures Insert(t, Split(sep, p), p).Some? && Holds(sep, paths + [p], Insert(t, Split(sep, p), p).value)
  {
    var parts := Split(sep, p);
    ClearForPath(sep, paths, t, p);
    InsertAt(t, parts, p, []);
    var t' := Insert(t, parts, p).value;
    InsertKeepsCanonical(t, parts, p);
    SplitIsSepFree(sep, p);
    JoinSplit(sep, p);
    forall q
      ensures LeafAt(t', q) ==
        if q != [] && AllSepFree(sep, q) && Join(sep, q) in paths + [p] then Some(Join(sep, q)) else None
    {
      InsertAt(t, parts, p, q);
      if q != [] && AllSepFree(sep, q) && Join(sep, q) == p { SplitJoin(sep, q); }
    }
  }

  lemma {:induction false} BuiltHolds(sep: char, paths: seq<string>)
    requires PrefixFree(sep, paths)
    ensures Built(sep, paths).Some? && Holds(sep, paths, Built(sep, paths).value)
  {
    if paths == [] {
      EmptyIsClear([]);
    } else {
      hide Holds, PrefixFree;
      var front, p := paths[..|paths| - 1], paths[|paths| - 1];
      assert paths == front + [p];
      PrefixFreeFront(sep, front, p);
      BuiltHolds(sep, front);
      HoldsStep(sep, front, Built(sep, front).value, p);
    }
  }

  lemma PrefixFreeFront(sep: char, front: seq<string>, p: string)
    requires PrefixFree(sep, front + [p])
    ensures PrefixFree(sep, front)
  {
    forall p', p'' | p' in front && p'' in front ensures !(Split(sep, p') < Split(sep, p'')) {
      assert p' in front + [p] && p'' in front + [p];
    }
  }

  /** The tree is built and every path is found in it if and only if no path is a prefix of another. */
  lemma BuiltHasAll(sep: char, paths: seq<string>)
    ensures PrefixFree(sep, paths) <==>
      Built(sep, paths).Some? && forall p :: p in paths ==> LeafAt(Built(sep, paths).value, Split(sep, p)) == Some(p)
  {
    if PrefixFree(sep, paths) {
      BuiltHolds(sep, paths);
      forall p | p in paths ensures LeafAt(Built(sep, paths).value, Split(sep, p)) == Some(p) {
        SplitIsSepFree(sep, p);
        JoinSplit(sep, p);
      }
    } else {
      var p, p' :| p in paths && p' in paths && Split(sep, p) < Split(sep, p');
      if Built(sep, paths).Some? {
        var t := Built(sep, paths).value;
        if LeafAt(t, Split(sep, p')) == Some(p') {
          AtPrefix(t, Split(sep, p'), |Split(sep, p)|);
          assert Split(sep, p')[..|Split(sep, p)|] == Split(sep, p);
        }
      }
    }
  }

  /** A list with a file and with a path through it is not prefix-free. */
  lemma PrefixWitness()
    ensures !PrefixFree('/', ["a", "a/b"])
  {
    var names := [['a'], ['b']];
    assert AllSepFree('/', names);
    SplitJoin('/', [['a']]);
    SplitJoin('/', names);
    assert Join('/', [['a']]) == "a";
    assert Join('/', names[1..]) == "b";
    assert Join('/', names) == "a/b";
    assert [['a']] < names;
    assert "a" in ["a", "a/b"] && "a/b" in ["a", "a/b"];
  }

  // ---- The tree comes back ----

  predicate HasLeaf(t: Tree) {
    t.Leaf? || exists name :: name in t.children && HasLeaf(t.children[name])
  }

  /** The tree without the directories that hold no file. */
  function Pruned(t: Tree): Tree {
    match t
    case Leaf(_) => t
    case Obj(children) => Obj(map name | name in children && HasLeaf(children[name]) :: Pruned(children[name]))
  }

  /** The tree with the path of each file in place of its content. */
  function WithPaths(sep: char, t: Tree, d: Parts): Tree {
    match t
    case Leaf(_) => Leaf(Join(sep, d))
    case Obj(children) => Obj(map name | name in children :: WithPaths(sep, children[name], d + [name]))
  }

  lemma {:induction false} LeafMeansHasLeaf(t: Tree, q: Parts)
    requires LeafAt(t, q).Some?
    ensures HasLeaf(t)
    decreases |q|
  {
    if q != [] {
      LeafMeansHasLeaf(t.children[q[0]], q[1..]);
    }
  }

  lemma {:induction false} LeavesOfPruned(sep: char, t: Tree, d: Parts, q: Parts)
    ensures LeafAt(WithPaths(sep, Pruned(t), d), q) == if LeafAt(t, q).Some? then Some(Join(sep, d + q)) else None
    decreases |q|
  {
    if q == [] {
      assert d + q == d;
    } else if t.Obj? && q[0] in t.children {
      LeavesOfPruned(sep, t.children[q[0]], d + [q[0]], q[1..]);
      assert d + [q[0]] + q[1..] == d + q;
      if LeafAt(t, q).Some? { LeafMeansHasLeaf(t.children[q[0]], q[1..]); }
    }
  }

  lemma {:induction false} PrunedIsFull(sep: char, t: Tree, d: Parts)
    ensures HasLeaf(t) ==> Full(WithPaths(sep, Pruned(t), d))
    ensures t.Obj? ==> Canonical(WithPaths(sep, Pruned(t), d))
    decreases t
  {
    if t.Obj? {
      forall name | name in t.children && HasLeaf(t.children[name])
        ensures Full(WithPaths(sep, Pruned(t.children[name]), d + [name]))
      {
        PrunedIsFull(sep, t.children[name], d + [name]);
      }
      var t' := WithPaths(sep, Pruned(t), d);
      if HasLeaf(t) {
        var name :| name in t.children && HasLeaf(t.children[name]);
        assert name in t'.children;
      }
    }
  }

  lemma PathHasFile(sep: char, root: Tree, paths: seq<string>, q: Parts)
    requires root.Obj? && NamesIn(sep, root) && AreItsPaths(sep, root, paths)
    ensures LeafAt(root, q).Some? <==> q != [] && AllSepFree(sep, q) && Join(sep, q) in paths
  {
    if LeafAt(root, q).Some? {
      assert At(root, q).Some?;
    } else if q != [] && AllSepFree(sep, q) && Join(sep, q) in paths {
      var x :| LeafAt(root, x).Some? && Join(sep, q) == Join(sep, x);
      assert At(root, x).Some?;
      SplitJoin(sep, q);
      SplitJoin(sep, x);
    }
  }

  /**
   Among paths of files of one directory tree, none is a prefix of another: so the matched paths of a repository make a
   tree.
   */
  lemma RepositoryPathsArePrefixFree(sep: char, root: Tree, paths: seq<string>)
    requires root.Obj? && NamesIn(sep, root) && ComeFrom(sep, root, paths)
    ensures PrefixFree(sep, paths)
  {
    forall p, p' | p in paths && p' in paths ensures !(Split(sep, p) < Split(sep, p')) {
      var x :| LeafAt(root, x).Some? && p == Join(sep, x);
      var x' :| LeafAt(root, x').Some? && p' == Join(sep, x');
      assert At(root, x).Some? && At(root, x').Some?;
      SplitJoin(sep, x);
      SplitJoin(sep, x');
      assert x < x' ==> x'[..|x|] == x;
      if x < x' { AtPrefix(root, x', |x|); }
    }
  }

  /** Building the tree from the paths of a directory tree gives it back, without the directories that hold no file. */
  lemma RebuildIsInverse(sep: char, root: Tree, paths: seq<string>)
    requires root.Obj? && NamesIn(sep, root) && AreItsPaths(sep, root, paths)
    ensures Built(sep, paths) == Some(WithPaths(sep, Pruned(root), []))
  {
    hide NamesIn, PrefixFree, Canonical, Full;
    RepositoryPathsArePrefixFree(sep, root, paths);
    BuiltHolds(sep, paths);
    var t, t' := Built(sep, paths).value, WithPaths(sep, Pruned(root), []);
    PrunedIsFull(sep, root, []);
    forall q ensures LeafAt(t, q) == LeafAt(t', q) {
      LeavesOfPruned(sep, root, [], q);
      assert [] + q == q;
      PathHasFile(sep, root, paths, q);
    }
    SameLeaves(t, t');
  }
}
