/**
 The extractor service: which extractors run on which directories of the matched files.

 Matching keeps the paths that some matcher accepts; the kept paths are made into a tree, and the tree is scanned
 level by level. An extractor is asked for the names it requires, and runs on a directory that holds all of them
 as files, also if another extractor's matcher let them in. What it then returns is left out: an invocation records
 which extractor was called and with which contents, and a ghost list of directories beside the result says where,
 so that the result can be compared with grouping the matched paths by directory.
 */
module Extraction {
  import opened Collections
  import opened Paths
  import opened DirectoryTree
  import opened PathTree
  import opened RepositoryWalk

  /**
   A matcher and its extractor: the matcher is any test on paths, and what an extractor makes of its files is not
   modelled.
   */
  datatype Plugin = Plugin(matches: string -> bool, requirements: seq<string>)

  /** An extractor, by its position in the list, called with the contents of the files it requires. */
  datatype Invocation = Invocation(plugin: nat, files: map<string, string>)

  // ---- Matching ----

  function Normalize(sep: char, path: string): string {
    if sep == '\\' then Join('/', Split(sep, path)) else path
  }

  predicate IsMatched(plugins: seq<Plugin>, sep: char, path: string) {
    exists i :: 0 <= i < |plugins| && plugins[i].matches(Normalize(sep, path))
  }

  function Matched(plugins: seq<Plugin>, sep: char, paths: seq<string>): seq<string> {
    if paths == [] then [] else
      Matched(plugins, sep, paths[..|paths| - 1]) +
      if IsMatched(plugins, sep, paths[|paths| - 1]) then [paths[|paths| - 1]] else []
  }

  /** `path` as the matchers see it: with slashes, if the separator is a backslash. */
  ghost predicate IsNormalized(sep: char, path: string, normalized: string) {
    && |normalized| == |path|
    && forall i :: 0 <= i < |path| ==>
         normalized[i] == if sep == '\\' && path[i] == '\\' then '/' else path[i]
  }

  /** Some matcher accepts the path. */
  ghost predicate IsAccepted(plugins: seq<Plugin>, sep: char, path: string) {
    exists i, normalized ::
      0 <= i < |plugins| && IsNormalized(sep, path, normalized) && plugins[i].matches(normalized)
  }

  ghost function AcceptedAt(plugins: seq<Plugin>, sep: char, paths: seq<string>): int -> bool {
    (k: int) => 0 <= k < |paths| && IsAccepted(plugins, sep, paths[k])
  }

  /** `kept` are the accepted ones of the paths, in their order. */
  ghost predicate KeepsAccepted(plugins: seq<Plugin>, sep: char, paths: seq<string>, kept: seq<string>) {
    exists ks :: Selects(ks, |paths|, AcceptedAt(plugins, sep, paths)) && AreAt(kept, paths, ks)
  }

  ghost predicate AreAt(kept: seq<string>, paths: seq<string>, ks: seq<int>) {
    |ks| == |kept| && forall i :: 0 <= i < |ks| ==> 0 <= ks[i] < |paths| && kept[i] == paths[ks[i]]
  }

  lemma NormalizeIs(sep: char, path: string)
    ensures IsNormalized(sep, path, Normalize(sep, path))
  {
    if sep == '\\' { JoinReplaces(sep, '/', path); }
  }

  lemma MatchedIsAccepted(plugins: seq<Plugin>, sep: char, path: string)
    ensures IsMatched(plugins, sep, path) <==> IsAccepted(plugins, sep, path)
  {
    NormalizeIs(sep, path);
    forall normalized | IsNormalized(sep, path, normalized) ensures normalized == Normalize(sep, path) {}
  }

  lemma MatchedStep(plugins: seq<Plugin>, sep: char, paths: seq<string>, n: nat)
    requires n < |paths|
    ensures Matched(plugins, sep, paths[..n + 1])
         == Matched(plugins, sep, paths[..n]) + if AcceptedAt(plugins, sep, paths)(n) then [paths[n]] else []
  {
    hide IsMatched, IsAccepted;
    MatchedIsAccepted(plugins, sep, paths[n]);
    assert paths[..n + 1][..n] == paths[..n];
  }

  lemma OneMoreKept(kept: seq<string>, paths: seq<string>, ks: seq<int>, n: nat)
    requires AreAt(kept, paths, ks) && n < |paths|
    ensures AreAt(kept + [paths[n]], paths, ks + [n]) && AreAt(kept + [], paths, ks)
  {
    assert kept + [] == kept;
  }

  lemma {:induction false} MatchedPrefix(plugins: seq<Plugin>, sep: char, paths: seq<string>, n: nat)
    returns (ks: seq<int>)
    requires n <= |paths|
    ensures Selects(ks, n, AcceptedAt(plugins, sep, paths)) && AreAt(Matched(plugins, sep, paths[..n]), paths, ks)
  {
    if n == 0 {
      ks := [];
    } else {
      hide Selects, AcceptedAt, AreAt, Matched;
      var before := MatchedPrefix(plugins, sep, paths, n - 1);
      SelectsStep(before, n - 1, AcceptedAt(plugins, sep, paths));
      MatchedStep(plugins, sep, paths, n - 1);
      OneMoreKept(Matched(plugins, sep, paths[..n - 1]), paths, before, n - 1);
      ks := if AcceptedAt(plugins, sep, paths)(n - 1) then before + [n - 1] else before;
    }
  }

  lemma MatchedKeeps(plugins: seq<Plugin>, sep: char, paths: seq<string>)
    ensures KeepsAccepted(plugins, sep, paths, Matched(plugins, sep, paths))
  {
    var ks := MatchedPrefix(plugins, sep, paths, |paths|);
    assert paths[..|paths|] == paths;
  }

  method MatchInternal(plugins: seq<Plugin>, sep: char, paths: seq<string>) returns (matchedPaths: seq<string>)
    ensures matchedPaths == Matched(plugins, sep, paths)
    ensures KeepsAccepted(plugins, sep, paths, matchedPaths)
  {
    hide IsMatched, KeepsAccepted;
    MatchedKeeps(plugins, sep, paths);
    matchedPaths := [];
    for i := 0 to |paths|
      invariant matchedPaths == Matched(plugins, sep, paths[..i])
    {
      assert paths[..i + 1][..i] == paths[..i];
      if IsMatched(plugins, sep, paths[i]) {
        matchedPaths := matchedPaths + [paths[i]];
      }
    }
    assert paths[..|paths|] == paths;
  }

  lemma {:induction false} MatchedAre(plugins: seq<Plugin>, sep: char, paths: seq<string>, p: string)
    ensures p in Matched(plugins, sep, paths) <==> p in paths && IsMatched(plugins, sep, p)
  {
    hide IsMatched;
    if paths != [] {
      var front := paths[..|paths| - 1];
      MatchedAre(plugins, sep, front, p);
      assert paths == front + [paths[|paths| - 1]];
    }
  }

  // ---- Running the extractors on one directory ----

  /** The directory holds, as a file with a path, every name the extractor requires. */
  predicate TakesPart(plugin: Plugin, dir: Tree) {
    dir.Obj? && forall req :: req in plugin.requirements ==>
      req in dir.children && dir.children[req].Leaf? && dir.children[req].value != ""
  }

  function FilesIn(plugin: Plugin, dir: Tree, contents: map<string, string>): map<string, string>
    requires TakesPart(plugin, dir)
  {
    map req | req in plugin.requirements ::
      var key := dir.children[req].value;
      if key in contents then contents[key] else ""
  }

  /** The extractors that run on a directory, in their order. */
  method RunOn(plugins: seq<Plugin>, dir: Tree, contents: map<string, string>) returns (invocations: seq<Invocation>)
    ensures forall k :: 0 <= k < |invocations| ==> IsInvocation(plugins, dir, contents, invocations[k])
    ensures forall k, l :: 0 <= k < l < |invocations| ==> invocations[k].plugin < invocations[l].plugin
    ensures forall e :: 0 <= e < |plugins| && TakesPart(plugins[e], dir) ==> Runs(invocations, e)
  {
    hide TakesPart, FilesIn;
    invocations := [];
    for e := 0 to |plugins|
      invariant forall k :: 0 <= k < |invocations| ==>
        IsInvocation(plugins, dir, contents, invocations[k]) && invocations[k].plugin < e
      invariant forall k, l :: 0 <= k < l < |invocations| ==> invocations[k].plugin < invocations[l].plugin
      invariant forall e' :: 0 <= e' < e && TakesPart(plugins[e'], dir) ==> Runs(invocations, e')
    {
      if TakesPart(plugins[e], dir) {
        ghost var before := invocations;
        invocations := invocations + [Invocation(e, FilesIn(plugins[e], dir, contents))];
        assert invocations[|before|].plugin == e;
        forall e' | Runs(before, e') ensures Runs(invocations, e') {
          var k :| 0 <= k < |before| && before[k].plugin == e';
          assert invocations[k].plugin == e';
        }
      }
    }
  }

  ghost predicate IsInvocation(plugins: seq<Plugin>, dir: Tree, contents: map<string, string>, invocation: Invocation) {
    && invocation.plugin < |plugins|
    && TakesPart(plugins[invocation.plugin], dir)
    && invocation.files == FilesIn(plugins[invocation.plugin], dir, contents)
  }

  ghost predicate Runs(invocations: seq<Invocation>, e: nat) {
    exists k :: 0 <= k < |invocations| && invocations[k].plugin == e
  }

  // ---- The scan over all directories ----

  /**
   What has run on the directories `done`: each extractor once on each directory it takes part in. `dirs` says where.
   */
  ghost predicate Ran(plugins: seq<Plugin>, t: Tree, contents: map<string, string>, done: set<Parts>,
                      invocations: seq<Invocation>, dirs: seq<Parts>) {
    && |dirs| == |invocations|
    && (forall k :: 0 <= k < |dirs| ==>
         dirs[k] in done && DirAt(t, dirs[k]) && IsInvocation(plugins, At(t, dirs[k]).value, contents, invocations[k]))
    && (forall k, l :: 0 <= k < l < |dirs| ==> dirs[k] != dirs[l] || invocations[k].plugin != invocations[l].plugin)
    && (forall d, e :: d in done && DirAt(t, d) && 0 <= e < |plugins| && TakesPart(plugins[e], At(t, d).value) ==>
         RanOn(invocations, dirs, d, e))
  }

  ghost predicate RanOn(invocations: seq<Invocation>, dirs: seq<Parts>, d: Parts, e: nat) {
    exists k :: 0 <= k < |dirs| && k < |invocations| && dirs[k] == d && invocations[k].plugin == e
  }

  lemma RanStep(plugins: seq<Plugin>, t: Tree, contents: map<string, string>, done: set<Parts>,
                invocations: seq<Invocation>, dirs: seq<Parts>,
                d: Parts, more: seq<Invocation>)
    requires Ran(plugins, t, contents, done, invocations, dirs) && DirAt(t, d) && d !in done
    requires forall k :: 0 <= k < |more| ==> IsInvocation(plugins, At(t, d).value, contents, more[k])
    requires forall k, l :: 0 <= k < l < |more| ==> more[k].plugin < more[l].plugin
    requires forall e :: 0 <= e < |plugins| && TakesPart(plugins[e], At(t, d).value) ==> Runs(more, e)
    ensures Ran(plugins, t, contents, done + {d}, invocations + more, dirs + seq(|more|, _ => d))
  {
    hide TakesPart, FilesIn, IsInvocation;
    var all, places := invocations + more, dirs + seq(|more|, _ => d);
    forall d', e | d' in done + {d} && DirAt(t, d') && 0 <= e < |plugins| && TakesPart(plugins[e], At(t, d').value)
      ensures RanOn(all, places, d', e)
    {
      if d' == d {
        var k :| 0 <= k < |more| && more[k].plugin == e;
        assert places[|dirs| + k] == d && all[|dirs| + k].plugin == e;
      } else {
        assert RanOn(invocations, dirs, d', e);
        var k :| 0 <= k < |dirs| && dirs[k] == d' && invocations[k].plugin == e;
        assert places[k] == d' && all[k].plugin == e;
      }
    }
  }

  /** The trees in `level` are those at `pending`. */
  ghost predicate Located(t: Tree, level: seq<Tree>, pending: seq<Parts>) {
    |level| == |pending| && forall j :: 0 <= j < |level| ==> At(t, pending[j]) == Some(level[j])
  }

  /** The directories directly in one directory. */
  method NextLevel(t: Tree, dir: Tree, ghost d: Parts) returns (next: seq<Tree>, ghost subs: seq<Parts>)
    requires DirAt(t, d) && At(t, d).value == dir
    ensures ListsSubs(t, d, subs) && Located(t, next, subs)
  {
    hide Chosen;
    var names := SetToSeq(dir.children.Keys);
    next := [];
    ghost var chosen: seq<string>, files: seq<string> := [], [];
    ChosenStart(dir.children);
    for i := 0 to |names|
      invariant Chosen(dir.children, names[..i], true, chosen) && Chosen(dir.children, names[..i], false, files)
      invariant |next| == |chosen| && forall j :: 0 <= j < |next| ==> At(t, d + [chosen[j]]) == Some(next[j])
    {
      assert names[..i + 1] == names[..i] + [names[i]];
      ChosenStep(dir.children, names[..i], names[i], chosen, files);
      if dir.children[names[i]].Obj? {
        AtAppend(t, d, names[i]);
        next := next + [dir.children[names[i]]];
        chosen := chosen + [names[i]];
      } else {
        files := files + [names[i]];
      }
    }
    assert names[..|names|] == names;
    subs := Under(d, chosen);
    ChosenAreEntries(t, d, names, true, chosen);
    SubsListed(t, d, subs);
  }

  lemma LocatedConcat(t: Tree, a: seq<Tree>, x: seq<Parts>, b: seq<Tree>, y: seq<Parts>)
    requires Located(t, a, x) && Located(t, b, y)
    ensures Located(t, a + b, x + y)
  {
  }

  ghost predicate Inv(plugins: seq<Plugin>, t: Tree, contents: map<string, string>, done: set<Parts>,
                      pending: seq<Parts>, level: seq<Tree>,
                      invocations: seq<Invocation>, dirs: seq<Parts>) {
    Frontier(t, done, pending) && Located(t, level, pending) && Ran(plugins, t, contents, done, invocations, dirs)
  }

  lemma StepKeepsInv(plugins: seq<Plugin>, t: Tree, contents: map<string, string>, done: set<Parts>,
                     pending: seq<Parts>, level: seq<Tree>,
                     invocations: seq<Invocation>, dirs: seq<Parts>, more: seq<Invocation>, next: seq<Tree>,
                       subs: seq<Parts>)
    requires Inv(plugins, t, contents, done, pending, level, invocations, dirs) && pending != []
    requires forall k :: 0 <= k < |more| ==> IsInvocation(plugins, level[0], contents, more[k])
    requires forall k, l :: 0 <= k < l < |more| ==> more[k].plugin < more[l].plugin
    requires forall e :: 0 <= e < |plugins| && TakesPart(plugins[e], level[0]) ==> Runs(more, e)
    requires ListsSubs(t, pending[0], subs) && Located(t, next, subs)
    ensures Inv(plugins, t, contents, done + {pending[0]}, pending[1..] + subs, level[1..] + next,
                invocations + more, dirs + seq(|more|, _ => pending[0]))
  {
    hide Frontier, Ran, ListsSubs, IsInvocation, TakesPart, Runs;
    PendingIsNew(t, done, pending);
    FrontierStep(t, done, pending, subs);
    RanStep(plugins, t, contents, done, invocations, dirs, pending[0], more);
    LocatedConcat(t, level[1..], pending[1..], next, subs);
  }

  /** The level-order scan. */
  method Scan(plugins: seq<Plugin>, root: Tree, contents: map<string, string>) returns (invocations: seq<Invocation>,
              ghost dirs: seq<Parts>)
    requires root.Obj?
    ensures exists done :: Frontier(root, done, []) && Ran(plugins, root, contents, done, invocations, dirs)
  {
    hide Frontier, Ran, ListsSubs, IsInvocation, TakesPart, Runs, Room, DirAt, Located;
    var level := [root];
    invocations, dirs := [], [];
    ghost var done: set<Parts>, pending: seq<Parts> := {}, [[]];
    ghost var all := AllDirs(root);
    ghost var left := ScanStart(plugins, root, contents, all);
    while |level| > 0
      invariant Inv(plugins, root, contents, done, pending, level, invocations, dirs) && Room(root, done, all, left)
      decreases left
    {
      var size := |level|;
      ghost var before := left;
      for i := 0 to size
        invariant Inv(plugins, root, contents, done, pending, level, invocations, dirs) && Room(root, done, all, left)
        invariant |level| >= size - i
        invariant left <= before && (i > 0 ==> left < before)
      {
        LocatedFirst(root, level, pending);
        PendingIsNew(root, done, pending);
        ghost var d := pending[0];
        var dir := level[0];
        var more := RunOn(plugins, dir, contents);
        ghost var subs;
        var nextLevel;
        nextLevel, subs := NextLevel(root, dir, d);
        StepKeepsInv(plugins, root, contents, done, pending, level, invocations, dirs, more, nextLevel, subs);
        RoomStep(root, done, all, left, d);
        level := level[1..] + nextLevel;
        invocations := invocations + more;
        done, pending, dirs, left := done + {d}, pending[1..] + subs, dirs + seq(|more|, _ => d), left - 1;
      }
    }
    LocatedEnd(root, level, pending);
  }

  lemma LocatedFirst(t: Tree, level: seq<Tree>, pending: seq<Parts>)
    requires Located(t, level, pending) && level != []
    ensures pending != [] && At(t, pending[0]) == Some(level[0])
  {
  }

  lemma LocatedEnd(t: Tree, level: seq<Tree>, pending: seq<Parts>)
    requires Located(t, level, pending) && level == []
    ensures pending == []
  {
  }

  lemma ScanStart(plugins: seq<Plugin>, t: Tree, contents: map<string, string>, all: set<Parts>) returns (left: nat)
    requires t.Obj? && HasDirs(t, all)
    ensures Inv(plugins, t, contents, {}, [[]], [t], [], []) && Room(t, {}, all, left)
  {
    FrontierStart(t);
    left := |all - {}|;
  }

  // ---- Extraction ----

  /** The extractor's required names are all matched files directly in directory d. */
  ghost predicate Applies(plugin: Plugin, sep: char, matched: seq<string>, d: Parts) {
    forall req :: req in plugin.requirements ==>
      AllSepFree(sep, d + [req]) && Join(sep, d + [req]) in matched && Join(sep, d + [req]) != ""
  }

  /** Every extractor ran exactly once on every directory it applies to, on that directory's files, and nowhere else. */
  ghost predicate GroupsByDirectory(plugins: seq<Plugin>, sep: char, contents: map<string, string>,
                      matched: seq<string>,
                                    invocations: seq<Invocation>, dirs: seq<Parts>) {
    && |dirs| == |invocations|
    && (forall k :: 0 <= k < |dirs| ==>
          && invocations[k].plugin < |plugins|
          && Applies(plugins[invocations[k].plugin], sep, matched, dirs[k])
          && FilesOf(plugins[invocations[k].plugin], sep, contents, dirs[k], invocations[k].files))
    && (forall k, l :: 0 <= k < l < |dirs| ==> dirs[k] != dirs[l] || invocations[k].plugin != invocations[l].plugin)
    && (forall d, e :: 0 <= e < |plugins| && Applies(plugins[e], sep, matched, d) ==> RanOn(invocations, dirs, d, e))
  }

  ghost predicate FilesOf(plugin: Plugin, sep: char, contents: map<string, string>, d: Parts,
                      files: map<string, string>) {
    && (forall req :: req in files <==> req in plugin.requirements)
    && forall req :: req in files ==> Join(sep, d + [req]) in contents && files[req] == contents[Join(sep, d + [req])]
  }

  lemma TakesPartIs(plugin: Plugin, sep: char, matched: seq<string>, t: Tree, d: Parts)
    requires Holds(sep, matched, t) && plugin.requirements != []
    ensures DirAt(t, d) && TakesPart(plugin, At(t, d).value) <==> Applies(plugin, sep, matched, d)
    ensures DirAt(t, d) && TakesPart(plugin, At(t, d).value) ==>
      forall req :: req in plugin.requirements ==> At(t, d).value.children[req].value == Join(sep, d + [req])
  {
    forall req | req in plugin.requirements
      ensures LeafAt(t, d + [req]) ==
        if AllSepFree(sep, d + [req]) && Join(sep, d + [req]) in matched then Some(Join(sep, d + [req])) else None
      ensures LeafAt(t, d + [req]) ==
        if DirAt(t, d) && req in At(t, d).value.children && At(t, d).value.children[req].Leaf?
        then Some(At(t, d).value.children[req].value) else None
    {
      AtAppend(t, d, req);
    }
    if Applies(plugin, sep, matched, d) {
      var req := plugin.requirements[0];
      assert LeafAt(t, d + [req]).Some?;
    }
  }

  lemma RanGroups(plugins: seq<Plugin>, sep: char, contents: map<string, string>, matched: seq<string>, t: Tree,
                  done: set<Parts>,
                  invocations: seq<Invocation>, dirs: seq<Parts>)
    requires Holds(sep, matched, t) && forall p :: p in matched ==> p in contents
    requires forall e :: 0 <= e < |plugins| ==> plugins[e].requirements != []
    requires Frontier(t, done, []) && Ran(plugins, t, contents, done, invocations, dirs)
    ensures GroupsByDirectory(plugins, sep, contents, matched, invocations, dirs)
  {
    hide Holds, Applies, Frontier, TakesPart;
    forall k | 0 <= k < |dirs|
      ensures Applies(plugins[invocations[k].plugin], sep, matched, dirs[k])
      ensures FilesOf(plugins[invocations[k].plugin], sep, contents, dirs[k], invocations[k].files)
    {
      TakesPartIs(plugins[invocations[k].plugin], sep, matched, t, dirs[k]);
      AppliesToMatched(plugins[invocations[k].plugin], sep, matched, dirs[k]);
    }
    forall d, e | 0 <= e < |plugins| && Applies(plugins[e], sep, matched, d) ensures RanOn(invocations, dirs, d, e) {
      TakesPartIs(plugins[e], sep, matched, t, d);
      FrontierEnd(t, done, d);
    }
  }

  lemma AppliesToMatched(plugin: Plugin, sep: char, matched: seq<string>, d: Parts)
    requires Applies(plugin, sep, matched, d)
    ensures forall req :: req in plugin.requirements ==> Join(sep, d + [req]) in matched
  {
  }

  /**
   Matches the files, builds their tree and scans it. The result is None where the service throws: when the tree cannot
   be built, or when an extractor requires nothing, as folding an empty list of checks then fails.
   */
  method ExtractInternal(plugins: seq<Plugin>, sep: char, contents: map<string, string>)
    returns (r: Option<seq<Invocation>>, ghost matched: seq<string>, ghost dirs: seq<Parts>)
    ensures forall p :: p in matched <==> p in contents && IsMatched(plugins, sep, p)
    ensures PrefixFree(sep, matched) ==> (r.None? <==> exists e :: 0 <= e < |plugins| && plugins[e].requirements == [])
    ensures PrefixFree(sep, matched) && r.Some? ==> GroupsByDirectory(plugins, sep, contents, matched, r.value, dirs)
  {
    hide PrefixFree, IsMatched, Holds, Frontier, Ran, GroupsByDirectory;
    var paths := SetToSeq(contents.Keys);
    var matchedPaths := MatchInternal(plugins, sep, paths);
    matched, dirs := matchedPaths, [];
    forall p ensures p in matched <==> p in contents && IsMatched(plugins, sep, p) {
      MatchedAre(plugins, sep, paths, p);
    }
    var root := ConstructTree(sep, matchedPaths);
    if PrefixFree(sep, matched) { BuiltHolds(sep, matched); }
    if root.None? { return None, matched, dirs; }
    BuiltIsDirectory(sep, matched);
    if exists e :: 0 <= e < |plugins| && plugins[e].requirements == [] { return None, matched, dirs; }
    var invocations;
    invocations, dirs := Scan(plugins, root.value, contents);
    if PrefixFree(sep, matched) {
      var done :| Frontier(root.value, done, []) && Ran(plugins, root.value, contents, done, invocations, dirs);
      RanGroups(plugins, sep, contents, matched, root.value, done, invocations, dirs);
    }
    r := Some(invocations);
  }

  lemma BuiltIsDirectory(sep: char, paths: seq<string>)
    requires Built(sep, paths).Some?
    ensures Built(sep, paths).value.Obj?
  {
  }
}
