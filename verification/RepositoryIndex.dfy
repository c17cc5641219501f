/** From a repository to its extractors: the walk, the matching, the reading of the matched files and the extraction. */
module RepositoryIndex {
  import opened Collections
  import opened Paths
  import opened DirectoryTree
  import opened PathTree
  import opened RepositoryWalk
  import opened Extraction

  /** A file that some matcher accepts and that can be opened and read. */
  predicate Taken(plugins: seq<Plugin>, sep: char, opens: string -> bool, path: string) {
    IsMatched(plugins, sep, path) && opens(path)
  }

  /** The leaves of the repository's tree are the contents of its files. */
  function ContentOf(sep: char, root: Tree, path: string): Option<string> {
    LeafAt(root, Split(sep, path))
  }

  /** The extractor's required names are all files directly in directory d of the repository, and are taken. */
  ghost predicate AppliesIn(plugins: seq<Plugin>, sep: char, opens: string -> bool, root: Tree,
                            plugin: Plugin, d: Parts) {
    forall req :: req in plugin.requirements ==>
      LeafAt(root, d + [req]).Some? && Taken(plugins, sep, opens, Join(sep, d + [req]))
  }

  /** The contents of the required names in directory d. */
  ghost predicate ReadIn(root: Tree, plugin: Plugin, d: Parts, files: map<string, string>) {
    && (forall req :: req in files <==> req in plugin.requirements)
    && forall req :: req in files ==> LeafAt(root, d + [req]) == Some(files[req])
  }

  /**
   Every extractor ran exactly once on every directory it applies to, with that directory's files, and nowhere else.
   */
  ghost predicate Indexed(plugins: seq<Plugin>, sep: char, opens: string -> bool, root: Tree,
                          invocations: seq<Invocation>, dirs: seq<Parts>) {
    && |dirs| == |invocations|
    && (forall k :: 0 <= k < |dirs| ==>
          && invocations[k].plugin < |plugins|
          && AppliesIn(plugins, sep, opens, root, plugins[invocations[k].plugin], dirs[k])
          && ReadIn(root, plugins[invocations[k].plugin], dirs[k], invocations[k].files))
    && (forall k, l :: 0 <= k < l < |dirs| ==> dirs[k] != dirs[l] || invocations[k].plugin != invocations[l].plugin)
    && (forall d, e :: 0 <= e < |plugins| && AppliesIn(plugins, sep, opens, root, plugins[e], d) ==>
          RanOn(invocations, dirs, d, e))
  }

  // ---- The paths that are extracted ----

  /** `paths` holds the paths of the files of the repository that are taken. */
  ghost predicate AreTaken(plugins: seq<Plugin>, sep: char, opens: string -> bool, root: Tree, paths: seq<string>) {
    forall p :: p in paths <==>
      Taken(plugins, sep, opens, p) && exists x :: LeafAt(root, x).Some? && p == Join(sep, x)
  }

  /** The file at a path is found by the names in it. */
  lemma PathFindsFile(sep: char, root: Tree, x: Parts)
    requires root.Obj? && NamesIn(sep, root) && LeafAt(root, x).Some?
    ensures Split(sep, Join(sep, x)) == x && Join(sep, x) != "" && AllSepFree(sep, x)
  {
    assert At(root, x).Some?;
    JoinIsEmpty(sep, x);
    SplitJoin(sep, x);
  }

  lemma TakenAt(plugins: seq<Plugin>, sep: char, opens: string -> bool, root: Tree, paths: seq<string>, x: Parts)
    requires root.Obj? && NamesIn(sep, root) && AreTaken(plugins, sep, opens, root, paths) && x != []
    ensures AllSepFree(sep, x) && Join(sep, x) in paths && Join(sep, x) != ""
       <==> LeafAt(root, x).Some? && Taken(plugins, sep, opens, Join(sep, x))
  {
    hide Taken, NamesIn;
    if LeafAt(root, x).Some? { PathFindsFile(sep, root, x); }
    if AllSepFree(sep, x) && Join(sep, x) in paths {
      var y :| LeafAt(root, y).Some? && Join(sep, x) == Join(sep, y);
      PathFindsFile(sep, root, y);
      SplitJoin(sep, x);
    }
  }

  lemma AppliesIffIn(plugins: seq<Plugin>, sep: char, opens: string -> bool, root: Tree, paths: seq<string>,
                     plugin: Plugin, d: Parts)
    requires root.Obj? && NamesIn(sep, root) && AreTaken(plugins, sep, opens, root, paths)
    ensures Applies(plugin, sep, paths, d) <==> AppliesIn(plugins, sep, opens, root, plugin, d)
  {
    hide Taken, NamesIn, AreTaken;
    forall req | req in plugin.requirements
      ensures AllSepFree(sep, d + [req]) && Join(sep, d + [req]) in paths && Join(sep, d + [req]) != ""
         <==> LeafAt(root, d + [req]).Some? && Taken(plugins, sep, opens, Join(sep, d + [req]))
    {
      TakenAt(plugins, sep, opens, root, paths, d + [req]);
    }
  }

  ghost predicate AreContents(sep: char, root: Tree, contents: map<string, string>) {
    forall p :: p in contents ==> ContentOf(sep, root, p) == Some(contents[p])
  }

  lemma FilesAreRead(plugins: seq<Plugin>, sep: char, opens: string -> bool, root: Tree, contents: map<string, string>,
                     plugin: Plugin, d: Parts, files: map<string, string>)
    requires root.Obj? && NamesIn(sep, root) && AreContents(sep, root, contents)
    requires AppliesIn(plugins, sep, opens, root, plugin, d) && FilesOf(plugin, sep, contents, d, files)
    ensures ReadIn(root, plugin, d, files)
  {
    hide Taken, NamesIn;
    forall req | req in files ensures LeafAt(root, d + [req]) == Some(files[req]) {
      PathFindsFile(sep, root, d + [req]);
    }
  }

  lemma GroupsAreIndexed(plugins: seq<Plugin>, sep: char, opens: string -> bool, root: Tree,
                         contents: map<string, string>, paths: seq<string>, invocations: seq<Invocation>,
                         dirs: seq<Parts>)
    requires root.Obj? && NamesIn(sep, root) && AreTaken(plugins, sep, opens, root, paths)
    requires AreContents(sep, root, contents) && GroupsByDirectory(plugins, sep, contents, paths, invocations, dirs)
    ensures Indexed(plugins, sep, opens, root, invocations, dirs)
  {
    hide NamesIn, AreTaken, Applies, AppliesIn, FilesOf, ReadIn, RanOn, AreContents;
    forall k | 0 <= k < |dirs|
      ensures AppliesIn(plugins, sep, opens, root, plugins[invocations[k].plugin], dirs[k])
      ensures ReadIn(root, plugins[invocations[k].plugin], dirs[k], invocations[k].files)
    {
      var plugin := plugins[invocations[k].plugin];
      AppliesIffIn(plugins, sep, opens, root, paths, plugin, dirs[k]);
      FilesAreRead(plugins, sep, opens, root, contents, plugin, dirs[k], invocations[k].files);
    }
    forall d, e | 0 <= e < |plugins| && AppliesIn(plugins, sep, opens, root, plugins[e], d)
      ensures RanOn(invocations, dirs, d, e)
    {
      AppliesIffIn(plugins, sep, opens, root, paths, plugins[e], d);
    }
  }

  // ---- The indexer ----

  /** Reads the matched files. One that does not open is left out. */
  method ReadFiles(sep: char, root: Tree, opens: string -> bool, matched: seq<string>)
    returns (contents: map<string, string>)
    requires root.Obj? && NamesIn(sep, root) && ComeFrom(sep, root, matched)
    ensures AreContents(sep, root, contents)
    ensures forall p :: p in contents <==> p in matched && opens(p)
  {
    hide NamesIn;
    contents := map[];
    for i := 0 to |matched|
      invariant AreContents(sep, root, contents)
      invariant forall p :: p in contents <==> p in matched[..i] && opens(p)
    {
      assert matched[..i + 1] == matched[..i] + [matched[i]];
      if opens(matched[i]) {
        assert matched[i] in matched;
        ghost var x :| LeafAt(root, x).Some? && matched[i] == Join(sep, x);
        PathFindsFile(sep, root, x);
        contents := contents[matched[i] := ContentOf(sep, root, matched[i]).value];
      }
    }
    assert matched[..|matched|] == matched;
  }

  lemma ContentsAreTaken(plugins: seq<Plugin>, sep: char, opens: string -> bool, root: Tree, paths: seq<string>,
                         contents: map<string, string>, extracted: seq<string>)
    requires AreItsPaths(sep, root, paths)
    requires forall p :: p in contents <==> p in Matched(plugins, sep, paths) && opens(p)
    requires forall p :: p in extracted <==> p in contents && IsMatched(plugins, sep, p)
    ensures AreTaken(plugins, sep, opens, root, extracted)
  {
    hide IsMatched, LeafAt, Join;
    forall p
      ensures p in extracted <==>
        Taken(plugins, sep, opens, p) && exists x :: LeafAt(root, x).Some? && p == Join(sep, x)
    {
      MatchedAre(plugins, sep, paths, p);
    }
  }

  lemma MatchedComeFrom(plugins: seq<Plugin>, sep: char, root: Tree, paths: seq<string>)
    requires AreItsPaths(sep, root, paths)
    ensures ComeFrom(sep, root, Matched(plugins, sep, paths))
  {
    hide IsMatched, LeafAt, Join;
    forall p | p in Matched(plugins, sep, paths) ensures exists x :: LeafAt(root, x).Some? && p == Join(sep, x) {
      MatchedAre(plugins, sep, paths, p);
    }
  }

  /**
   Walks a repository, has its paths matched, reads what is matched and has it extracted. The extraction throws if and
   only if some extractor requires nothing; otherwise each extractor runs exactly once on each directory of the
   repository that holds all the files it requires, matched and readable, with their contents, and on no other.
   */
  method Index(plugins: seq<Plugin>, sep: char, root: Tree, opens: string -> bool)
    returns (r: Option<seq<Invocation>>, ghost dirs: seq<Parts>)
    requires root.Obj? && NamesIn(sep, root)
    ensures r.None? <==> exists e :: 0 <= e < |plugins| && plugins[e].requirements == []
    ensures r.Some? ==> Indexed(plugins, sep, opens, root, r.value, dirs)
  {
    hide NamesIn, AreTaken, AreContents, GroupsByDirectory, Indexed, PrefixFree, IsMatched, LeafAt, Join, Distinct;
    var paths := Walk(sep, root);
    var matched := MatchInternal(plugins, sep, paths);
    MatchedComeFrom(plugins, sep, root, paths);
    var contents := ReadFiles(sep, root, opens, matched);
    ghost var extracted;
    r, extracted, dirs := ExtractInternal(plugins, sep, contents);
    ContentsAreTaken(plugins, sep, opens, root, paths, contents, extracted);
    assert ComeFrom(sep, root, extracted) by { TakenComeFrom(plugins, sep, opens, root, extracted); }
    RepositoryPathsArePrefixFree(sep, root, extracted);
    if r.Some? { GroupsAreIndexed(plugins, sep, opens, root, contents, extracted, r.value, dirs); }
  }

  lemma TakenComeFrom(plugins: seq<Plugin>, sep: char, opens: string -> bool, root: Tree, paths: seq<string>)
    requires AreTaken(plugins, sep, opens, root, paths)
    ensures ComeFrom(sep, root, paths)
  {
    hide Taken, LeafAt, Join;
  }
}
