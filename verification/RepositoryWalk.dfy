/**
 The indexer's level-order walk over the files of a cloned repository.

 The queue holds path strings, as in the original: each round reads the directories of one level and collects
 the next. Entries come in any order. That every file is listed once follows from the walk's frontier: beside
 the strings, ghost variables keep the list of names that each string stands for, and the names of different
 entries make different strings.
 */
module RepositoryWalk {
  import opened Collections
  import opened Paths
  import opened DirectoryTree

  function Joined(sep: char, list: seq<Parts>): seq<string> {
    seq(|list|, i requires 0 <= i < |list| => Join(sep, list[i]))
  }

  /** fs.Join, for names that are not empty. */
  function JoinName(sep: char, path: string, name: string): string {
    if path == "" then name else path + [sep] + name
  }

  lemma JoinNameIs(sep: char, d: Parts, name: string)
    requires Names(sep, d)
    ensures JoinName(sep, Join(sep, d), name) == Join(sep, d + [name])
  {
    JoinIsEmpty(sep, d);
    if d != [] { JoinAppend(sep, d, name); }
  }

  /** The path of a directory, as a list of names. */
  function PartsOf(sep: char, path: string): Parts {
    if path == "" then [] else Split(sep, path)
  }

  lemma PartsOfJoin(sep: char, d: Parts)
    requires Names(sep, d)
    ensures PartsOf(sep, Join(sep, d)) == d
  {
    JoinIsEmpty(sep, d);
    if d != [] { SplitJoin(sep, d); }
  }

  /**
   `list` holds exactly the entries directly in d that are files, or exactly those that are directories, each once.
   */
  ghost predicate ListsEntries(t: Tree, d: Parts, dirs: bool, list: seq<Parts>) {
    && Distinct(list)
    && forall x :: x in list <==> x != [] && x[..|x| - 1] == d && At(t, x).Some? && At(t, x).value.Obj? == dirs
  }

  /** `files` lists exactly the files directly in the directories `done`, each once. */
  ghost predicate FilesListed(t: Tree, done: set<Parts>, files: seq<Parts>) {
    && Distinct(files)
    && forall x :: x in files <==> x != [] && x[..|x| - 1] in done && LeafAt(t, x).Some?
  }

  lemma FilesStep(t: Tree, done: set<Parts>, files: seq<Parts>, d: Parts, more: seq<Parts>)
    requires FilesListed(t, done, files) && d !in done && ListsEntries(t, d, false, more)
    ensures FilesListed(t, done + {d}, files + more)
  {
    assert forall x :: x in files + more <==> x in files || x in more;
    DistinctConcat(files, more);
  }

  lemma SubsListed(t: Tree, d: Parts, subs: seq<Parts>)
    requires ListsEntries(t, d, true, subs)
    ensures ListsSubs(t, d, subs)
  {
    forall name | DirAt(t, d + [name]) ensures d + [name] in subs {
      assert (d + [name])[..|d + [name]| - 1] == d;
    }
  }

  ghost predicate Inv(sep: char, t: Tree, done: set<Parts>, pending: seq<Parts>, files: seq<Parts>,
                      queue: seq<string>, paths: seq<string>) {
    && Frontier(t, done, pending)
    && FilesListed(t, done, files)
    && queue == Joined(sep, pending)
    && paths == Joined(sep, files)
  }

  lemma JoinedConcat(sep: char, a: seq<Parts>, b: seq<Parts>)
    ensures Joined(sep, a + b) == Joined(sep, a) + Joined(sep, b)
  {
  }

  lemma StepKeepsInv(sep: char, t: Tree, done: set<Parts>, pending: seq<Parts>, files: seq<Parts>, queue: seq<string>,
                     paths: seq<string>,
                     subs: seq<Parts>, more: seq<Parts>)
    requires Inv(sep, t, done, pending, files, queue, paths) && pending != []
    requires ListsEntries(t, pending[0], true, subs) && ListsEntries(t, pending[0], false, more)
    ensures Inv(sep, t, done + {pending[0]}, pending[1..] + subs, files + more, queue[1..] + Joined(sep, subs),
                paths + Joined(sep, more))
  {
    hide Frontier, FilesListed, ListsEntries;
    PendingIsNew(t, done, pending);
    SubsListed(t, pending[0], subs);
    FrontierStep(t, done, pending, subs);
    FilesStep(t, done, files, pending[0], more);
    JoinedConcat(sep, pending[1..], subs);
    JoinedConcat(sep, files, more);
    assert Joined(sep, pending[1..]) == queue[1..];
  }

  lemma PendingIsNew(t: Tree, done: set<Parts>, pending: seq<Parts>)
    requires Frontier(t, done, pending) && pending != []
    ensures pending[0] !in done && DirAt(t, pending[0])
  {
    assert pending[0] in pending;
  }

  /** When nothing is left to read, every file's path has been listed, once. */
  lemma WalkEnd(sep: char, t: Tree, done: set<Parts>, files: seq<Parts>, paths: seq<string>)
    requires t.Obj? && NamesIn(sep, t) && Inv(sep, t, done, [], files, [], paths)
    ensures Distinct(paths)
    ensures AreItsPaths(sep, t, paths)
  {
    forall x ensures x in files <==> LeafAt(t, x).Some? {
      if LeafAt(t, x).Some? {
        AtPrefix(t, x, |x| - 1);
        FrontierEnd(t, done, x[..|x| - 1]);
      }
    }
    forall i, j | 0 <= i < j < |files| ensures paths[i] != paths[j] {
      assert files[i] in files && files[j] in files;
      if paths[i] == paths[j] { JoinIsInjective(sep, files[i], files[j]); }
    }
    forall p ensures p in paths <==> exists x :: LeafAt(t, x).Some? && p == Join(sep, x) {
      if x :| LeafAt(t, x).Some? && p == Join(sep, x) {
        assert x in files;
        var i :| 0 <= i < |files| && files[i] == x;
        assert paths[i] == p;
      }
    }
  }

  /** The entries with these names in directory d. */
  function Under(d: Parts, names: seq<string>): seq<Parts> {
    seq(|names|, i requires 0 <= i < |names| => d + [names[i]])
  }

  /** The entries of one directory: the subdirectories go to the queue of the next level, the files to the paths. */
  method ReadDirectory(sep: char, t: Tree, path: string, ghost d: Parts, queue: seq<string>, paths: seq<string>)
    returns (queue': seq<string>, paths': seq<string>, ghost subs: seq<Parts>, ghost files: seq<Parts>)
    requires NamesIn(sep, t) && DirAt(t, d) && path == Join(sep, d)
    ensures ListsEntries(t, d, true, subs) && ListsEntries(t, d, false, files)
    ensures queue' == queue + Joined(sep, subs) && paths' == paths + Joined(sep, files)
  {
    hide Join, Names, ListsEntries, Chosen;
    PartsOfJoin(sep, d);
    var entries := At(t, PartsOf(sep, path)).value.children;
    var finfos := SetToSeq(entries.Keys);
    queue', paths' := queue, paths;
    ghost var subNames: seq<string>, fileNames: seq<string> := [], [];
    ChosenStart(entries);
    for k := 0 to |finfos|
      invariant Chosen(entries, finfos[..k], true, subNames) && Chosen(entries, finfos[..k], false, fileNames)
      invariant queue' == queue + Joined(sep, Under(d, subNames)) && paths' == paths + Joined(sep, Under(d, fileNames))
    {
      var name := finfos[k];
      var fpath := JoinName(sep, path, name);
      JoinNameIs(sep, d, name);
      assert finfos[..k + 1] == finfos[..k] + [name];
      ChosenStep(entries, finfos[..k], name, subNames, fileNames);
      if entries[name].Obj? {
        JoinedUnder(sep, d, subNames, name);
        queue' := queue' + [fpath];
        subNames := subNames + [name];
      } else {
        JoinedUnder(sep, d, fileNames, name);
        paths' := paths' + [fpath];
        fileNames := fileNames + [name];
      }
    }
    assert finfos[..|finfos|] == finfos;
    subs, files := Under(d, subNames), Under(d, fileNames);
    ChosenAreEntries(t, d, finfos, true, subNames);
    ChosenAreEntries(t, d, finfos, false, fileNames);
  }

  /** `list` holds those of the names that are directories, or those that are files. */
  ghost predicate Chosen(entries: map<string, Tree>, names: seq<string>, dirs: bool, list: seq<string>) {
    && Distinct(list)
    && forall name :: name in list <==> name in names && name in entries && entries[name].Obj? == dirs
  }

  lemma ChosenStart(entries: map<string, Tree>)
    ensures Chosen(entries, [], true, []) && Chosen(entries, [], false, [])
  {
  }

  lemma ChosenStep(entries: map<string, Tree>, names: seq<string>, name: string, subs: seq<string>, files: seq<string>)
    requires name in entries && name !in names
    requires Chosen(entries, names, true, subs) && Chosen(entries, names, false, files)
    ensures Chosen(entries, names + [name], true, if entries[name].Obj? then subs + [name] else subs)
    ensures Chosen(entries, names + [name], false, if entries[name].Obj? then files else files + [name])
  {
    assert forall n :: n in names + [name] <==> n in names || n == name;
    assert forall n :: n in subs + [name] <==> n in subs || n == name;
    assert forall n :: n in files + [name] <==> n in files || n == name;
  }

  lemma JoinedUnder(sep: char, d: Parts, names: seq<string>, name: string)
    ensures Joined(sep, Under(d, names + [name])) == Joined(sep, Under(d, names)) + [Join(sep, d + [name])]
  {
    hide Join;
  }

  lemma ChosenAreEntries(t: Tree, d: Parts, names: seq<string>, dirs: bool, list: seq<string>)
    requires DirAt(t, d) && Enumerates(names, At(t, d).value.children.Keys)
    requires Chosen(At(t, d).value.children, names, dirs, list)
    ensures ListsEntries(t, d, dirs, Under(d, list))
  {
    var entries, under := At(t, d).value.children, Under(d, list);
    forall i, j | 0 <= i < j < |under| ensures under[i] != under[j] {
      assert under[i][|d|] == list[i] && under[j][|d|] == list[j];
    }
    forall x ensures x in under <==> x != [] && x[..|x| - 1] == d && At(t, x).Some? && At(t, x).value.Obj? == dirs {
      if x != [] && x[..|x| - 1] == d {
        var name := x[|x| - 1];
        assert x == d + [name];
        AtAppend(t, d, name);
        if name in list {
          var i :| 0 <= i < |list| && list[i] == name;
          assert under[i] == x;
        }
      }
      if x in under {
        var i :| 0 <= i < |under| && under[i] == x;
        assert x[..|x| - 1] == d && x[|x| - 1] == list[i];
      }
    }
  }

  /** Lists the path of every file once, level by level. */
  method Walk(sep: char, root: Tree) returns (paths: seq<string>)
    requires root.Obj? && NamesIn(sep, root)
    ensures Distinct(paths)
    ensures AreItsPaths(sep, root, paths)
  {
    hide Frontier, FilesListed, ListsEntries, Join, Room, DirAt, LeafAt, Distinct;
    var queue := [""];
    paths := [];
    ghost var done: set<Parts>, dirs: seq<Parts>, files: seq<Parts> := {}, [[]], [];
    ghost var all := AllDirs(root);
    ghost var left := WalkStart(sep, root, all);
    while |queue| > 0
      invariant Inv(sep, root, done, dirs, files, queue, paths) && Room(root, done, all, left)
      decreases left
    {
      var newQueue: seq<string> := [];
      ghost var newDirs: seq<Parts> := [];
      ghost var before := left;
      assert dirs + newDirs == dirs && queue[0..] + newQueue == queue;
      for i := 0 to |queue|
        invariant Inv(sep, root, done, dirs + newDirs, files, queue[i..] + newQueue, paths)
          && Room(root, done, all, left)
        invariant |dirs| == |queue| - i
        invariant newQueue == Joined(sep, newDirs)
        invariant left <= before && (i > 0 ==> left < before)
      {
        var path := queue[i];
        ghost var d, pending := dirs[0], dirs + newDirs;
        PendingIsNew(root, done, pending);
        assert path == (queue[i..] + newQueue)[0] == Join(sep, d);
        ghost var subs, more;
        ghost var oldPaths := paths;
        newQueue, paths, subs, more := ReadDirectory(sep, root, path, d, newQueue, paths);
        WalkStep(sep, root, done, dirs, newDirs, files, queue[i..], oldPaths, subs, more);
        RoomStep(root, done, all, left, d);
        assert queue[i..][1..] == queue[i + 1..];
        done, dirs, newDirs, files, left := done + {d}, dirs[1..], newDirs + subs, files + more, left - 1;
      }
      assert dirs + newDirs == newDirs && queue[|queue|..] + newQueue == newQueue;
      queue, dirs := newQueue, newDirs;
    }
    assert dirs == [];
    WalkEnd(sep, root, done, files, paths);
  }

  lemma WalkStep(sep: char, t: Tree, done: set<Parts>, dirs: seq<Parts>, newDirs: seq<Parts>, files: seq<Parts>,
                 queue: seq<string>, paths: seq<string>, subs: seq<Parts>, more: seq<Parts>)
    requires Inv(sep, t, done, dirs + newDirs, files, queue + Joined(sep, newDirs), paths)
    requires dirs != [] && |queue| == |dirs|
    requires ListsEntries(t, dirs[0], true, subs) && ListsEntries(t, dirs[0], false, more)
    ensures Joined(sep, newDirs) + Joined(sep, subs) == Joined(sep, newDirs + subs)
    ensures Inv(sep, t, done + {dirs[0]}, dirs[1..] + (newDirs + subs), files + more,
                queue[1..] + Joined(sep, newDirs + subs), paths + Joined(sep, more))
  {
    hide Frontier, FilesListed, ListsEntries, Joined;
    var pending := dirs + newDirs;
    StepKeepsInv(sep, t, done, pending, files, queue + Joined(sep, newDirs), paths, subs, more);
    JoinedConcat(sep, newDirs, subs);
    assert pending[0] == dirs[0] && pending[1..] + subs == dirs[1..] + (newDirs + subs);
    assert (queue + Joined(sep, newDirs))[1..] + Joined(sep, subs)
      == queue[1..] + (Joined(sep, newDirs) + Joined(sep, subs));
  }

  lemma WalkStart(sep: char, t: Tree, all: set<Parts>) returns (left: nat)
    requires t.Obj? && HasDirs(t, all)
    ensures Inv(sep, t, {}, [[]], [], [""], []) && Room(t, {}, all, left)
  {
    FrontierStart(t);
    assert Joined(sep, [[]]) == [""];
    left := |all - {}|;
  }
}
