/**
 Trees of named entries: a repository's files, and the tree that the extractor builds from their paths.

 A place in a tree is a list of names from the root. Both walks over all directories, the indexer's and the
 extractor's, are a queue of directories to handle. The frontier says of a set of handled directories and such a
 queue that no directory is in them twice and none is out of reach, so that an empty queue means all were handled;
 that there are finitely many directories bounds the number of rounds.
 */
module DirectoryTree {
  import opened Collections
  import opened Paths

  /** A leaf holds a file's content, or in the extractor's tree a file's path. */
  datatype Tree = Leaf(value: string) | Obj(children: map<string, Tree>)

  function At(t: Tree, parts: Parts): Option<Tree>
    decreases |parts|
  {
    if parts == [] then Some(t)
    else if t.Leaf? || parts[0] !in t.children then None
    else At(t.children[parts[0]], parts[1..])
  }

  function LeafAt(t: Tree, parts: Parts): Option<string> {
    match At(t, parts)
    case Some(Leaf(value)) => Some(value)
    case _ => None
  }

  predicate DirAt(t: Tree, parts: Parts) {
    At(t, parts).Some? && At(t, parts).value.Obj?
  }

  lemma {:induction false} AtAppend(t: Tree, parts: Parts, name: string)
    ensures At(t, parts + [name]) ==
      if DirAt(t, parts) && name in At(t, parts).value.children then Some(At(t, parts).value.children[name]) else None
    decreases |parts|
  {
    if parts != [] {
      assert (parts + [name])[1..] == parts[1..] + [name];
      if t.Obj? && parts[0] in t.children { AtAppend(t.children[parts[0]], parts[1..], name); }
    }
  }

  lemma {:induction false} AtPrefix(t: Tree, parts: Parts, n: nat)
    requires n < |parts| && At(t, parts).Some?
    ensures DirAt(t, parts[..n])
    decreases |parts|
  {
    if n > 0 {
      AtPrefix(t.children[parts[0]], parts[1..], n - 1);
      assert parts[..n][1..] == parts[1..][..n - 1];
    }
  }

  /** `paths` holds the paths of files of the tree, and of no others. */
  ghost predicate ComeFrom(sep: char, t: Tree, paths: seq<string>) {
    forall p :: p in paths ==> exists x :: LeafAt(t, x).Some? && p == Join(sep, x)
  }

  /** `paths` holds the paths of all files of the tree, and of no others. */
  ghost predicate AreItsPaths(sep: char, t: Tree, paths: seq<string>) {
    forall p :: p in paths <==> exists x :: LeafAt(t, x).Some? && p == Join(sep, x)
  }

  // ---- Walking over all directories ----

  /** Every name is a file name: not empty and without separators. */
  ghost predicate NamesIn(sep: char, t: Tree) {
    forall parts :: At(t, parts).Some? ==> Names(sep, parts)
  }

  /**
   A walk that has handled the directories `done` and has the directories `pending` to handle: none twice, and none out
   of reach.
   */
  ghost predicate Frontier(t: Tree, done: set<Parts>, pending: seq<Parts>) {
    && Distinct(pending)
    && Placed(t, done, pending)
    && (forall d :: d in pending ==> d !in done)
    && ([] in done || [] in pending)
    && Covered(t, done, pending)
  }

  ghost predicate ParentIn(done: set<Parts>, d: Parts) {
    d != [] ==> d[..|d| - 1] in done
  }

  /** Everything handled or pending is a directory, and its parent has been handled. */
  ghost predicate Placed(t: Tree, done: set<Parts>, pending: seq<Parts>) {
    && (forall d :: d in done || d in pending ==> DirAt(t, d))
    && (forall d {:trigger ParentIn(done, d)} :: d in done || d in pending ==> ParentIn(done, d))
  }

  ghost predicate Reached(done: set<Parts>, pending: seq<Parts>, d: Parts, name: string) {
    d + [name] in done || d + [name] in pending
  }

  /** What is directly in a handled directory is handled or pending. */
  ghost predicate Covered(t: Tree, done: set<Parts>, pending: seq<Parts>) {
    forall d, name {:trigger Reached(done, pending, d, name)} :: d in done && DirAt(t, d + [name]) ==>
      Reached(done, pending, d, name)
  }

  /** `subs` lists the directories directly in d, each once. */
  ghost predicate ListsSubs(t: Tree, d: Parts, subs: seq<Parts>) {
    && Distinct(subs)
    && (forall s :: s in subs ==> DirAt(t, s) && s != [] && s[..|s| - 1] == d)
    && (forall name :: DirAt(t, d + [name]) ==> d + [name] in subs)
  }

  lemma FrontierStart(t: Tree)
    requires t.Obj?
    ensures Frontier(t, {}, [[]])
  {
  }

  lemma PlacedStep(t: Tree, done: set<Parts>, pending: seq<Parts>, d: Parts, rest: seq<Parts>, subs: seq<Parts>)
    requires Placed(t, done, pending) && d in pending && ListsSubs(t, d, subs)
    requires forall x :: x in rest ==> x in pending
    ensures Placed(t, done + {d}, rest + subs)
  {
    hide DirAt;
    forall x | x in done + {d} || x in rest + subs ensures ParentIn(done + {d}, x) {
      assert ParentIn(done, x) || x in subs;
    }
  }

  lemma CoveredStep(t: Tree, done: set<Parts>, pending: seq<Parts>, d: Parts, rest: seq<Parts>, subs: seq<Parts>)
    requires Covered(t, done, pending) && ListsSubs(t, d, subs)
    requires forall x :: x in pending ==> x == d || x in rest
    ensures Covered(t, done + {d}, rest + subs)
  {
    hide DirAt;
    forall e, name | e in done + {d} && DirAt(t, e + [name]) ensures Reached(done + {d}, rest + subs, e, name) {
      if e != d { assert Reached(done, pending, e, name); }
    }
  }

  /** What is pending has a parent that has been handled, so it is not among the directories in a pending one. */
  lemma FreshStep(t: Tree, done: set<Parts>, pending: seq<Parts>, d: Parts, subs: seq<Parts>, x: Parts)
    requires Placed(t, done, pending) && d !in done && ListsSubs(t, d, subs) && x in subs
    ensures x !in pending && x !in done && x != d
  {
    hide DirAt;
    assert x[..|x| - 1] == d;
    assert |x| == |d| + 1;
    assert x in pending || x in done ==> ParentIn(done, x);
  }

  lemma DistinctConcat(a: seq<Parts>, b: seq<Parts>)
    requires Distinct(a) && Distinct(b) && forall x :: x in b ==> x !in a
    ensures Distinct(a + b)
  {
    forall i, j | 0 <= i < j < |a + b| ensures (a + b)[i] != (a + b)[j] {
      if i < |a| <= j { assert a[i] in a && b[j - |a|] in b; }
    }
  }

  lemma FrontierStep(t: Tree, done: set<Parts>, pending: seq<Parts>, subs: seq<Parts>)
    requires Frontier(t, done, pending) && pending != [] && ListsSubs(t, pending[0], subs)
    ensures Frontier(t, done + {pending[0]}, pending[1..] + subs)
  {
    hide Placed, Covered, DirAt, ListsSubs, Distinct;
    var d, rest := pending[0], pending[1..];
    HeadIsNew(pending);
    assert forall x :: x in pending <==> x == d || x in rest by { assert pending == [d] + rest; }
    PlacedStep(t, done, pending, d, rest, subs);
    CoveredStep(t, done, pending, d, rest, subs);
    forall x | x in subs ensures x !in pending && x !in done && x != d { FreshStep(t, done, pending, d, subs, x); }
    SubsAreDistinct(t, d, subs);
    DistinctConcat(rest, subs);
  }

  lemma HeadIsNew(pending: seq<Parts>)
    requires Distinct(pending) && pending != []
    ensures pending[0] !in pending[1..] && Distinct(pending[1..])
  {
  }

  lemma SubsAreDistinct(t: Tree, d: Parts, subs: seq<Parts>)
    requires ListsSubs(t, d, subs)
    ensures Distinct(subs)
  {
  }

  /** A walk with nothing left to handle has handled every directory. */
  lemma {:induction false} FrontierEnd(t: Tree, done: set<Parts>, d: Parts)
    requires Frontier(t, done, []) && DirAt(t, d)
    ensures d in done
    decreases |d|
  {
    if d != [] {
      var n := |d| - 1;
      AtPrefix(t, d, n);
      FrontierEnd(t, done, d[..n]);
      assert d[..n] + [d[n]] == d;
      assert Reached(done, [], d[..n], d[n]);
    }
  }

  // ---- There are finitely many directories ----

  ghost predicate HasDirs(t: Tree, all: set<Parts>) {
    forall d :: DirAt(t, d) ==> d in all
  }

  lemma {:induction false} AllDirs(t: Tree) returns (all: set<Parts>)
    ensures HasDirs(t, all)
    decreases t
  {
    all := {[]};
    if t.Obj? {
      var todo := t.children.Keys;
      while todo != {}
        invariant todo <= t.children.Keys && [] in all
        invariant forall d :: DirAt(t, d) && d != [] && d[0] !in todo ==> d in all
        decreases |todo|
      {
        var name :| name in todo;
        var below := AllDirs(t.children[name]);
        var more := set d | d in below :: [name] + d;
        forall d | DirAt(t, d) && d != [] && d[0] == name ensures d in more {
          assert DirAt(t.children[name], d[1..]);
          assert d == [name] + d[1..];
        }
        all := all + more;
        todo := todo - {name};
      }
      forall d | DirAt(t, d) ensures d in all {}
    }
  }

  ghost predicate Room(t: Tree, done: set<Parts>, all: set<Parts>, left: nat) {
    HasDirs(t, all) && done <= all && left == |all - done|
  }

  lemma RoomStep(t: Tree, done: set<Parts>, all: set<Parts>, left: nat, d: Parts)
    requires Room(t, done, all, left) && DirAt(t, d) && d !in done
    ensures left > 0 && Room(t, done + {d}, all, left - 1)
  {
    assert all - (done + {d}) == (all - done) - {d};
    assert d in all - done;
  }
}
