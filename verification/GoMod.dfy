/** The go.mod extractor: nested loops over the lines that share one index. */
module GoMod {
  import opened Collections
  import Words

  /** A requirement as the extractor reports it. A missing second word is undefined. */
  datatype Dependency = Dependency(organization: string, mod: string, name: string, versionConstraint: Option<string>,
                                   scopes: seq<string>)

  datatype GoModule = GoModule(organization: string, mod: string, name: Option<string>, dependencies: seq<Dependency>)

  // ---- Import paths ----

  function BeforeSlash(path: string): string {
    if path == [] || path[0] == '/' then [] else [path[0]] + BeforeSlash(path[1..])
  }

  function AfterSlash(path: string): string {
    if path == [] then [] else if path[0] == '/' then path[1..] else AfterSlash(path[1..])
  }

  /** Organization and module: what is before and after the first slash; without one all is module. */
  function ParseImportPath(path: string): (string, string) {
    if '/' in path then (BeforeSlash(path), AfterSlash(path)) else ("", path)
  }

  lemma {:induction false} SplitAtSlash(path: string)
    requires '/' in path
    ensures BeforeSlash(path) + "/" + AfterSlash(path) == path && '/' !in BeforeSlash(path)
  {
    assert path == [path[0]] + path[1..];
    if path[0] != '/' {
      SplitAtSlash(path[1..]);
      assert [path[0]] + (BeforeSlash(path[1..]) + "/" + AfterSlash(path[1..])) == path;
    }
  }

  /**
   A path with a slash is put together again from its parts, the first of which has none; one without is all module.
   */
  predicate AreParts(organization: string, mod: string, path: string) {
    if '/' in path then organization + "/" + mod == path && '/' !in organization
    else organization == "" && mod == path
  }

  lemma ImportPathParts(path: string)
    ensures var (organization, mod) := ParseImportPath(path); AreParts(organization, mod, path)
  {
    if '/' in path { SplitAtSlash(path); }
  }

  /** There is only one way to take a path apart. */
  lemma PartsAreUnique(organization: string, mod: string, organization': string, mod': string, path: string)
    requires AreParts(organization, mod, path) && AreParts(organization', mod', path)
    ensures organization == organization' && mod == mod'
  {
    if '/' in path {
      assert path[|organization|] == '/' && path[|organization'|] == '/';
      assert |organization| == |organization'|;
      assert organization == path[..|organization|] && organization' == path[..|organization|];
      assert mod == path[|organization| + 1..] && mod' == path[|organization| + 1..];
    }
  }

  // ---- One line after the other ----

  datatype Mode = Outside | InRequire | InSkipped

  /** `name` is what the last module directive named; its word may be missing. */
  datatype State = State(mode: Mode, name: Option<Option<string>>, dependencies: seq<Dependency>)

  function Second(words: seq<string>): Option<string> {
    if |words| > 1 then Some(words[1]) else None
  }

  function DependencyOf(words: seq<string>): Dependency
    requires words != []
  {
    var (organization, mod) := ParseImportPath(words[0]);
    Dependency(organization, mod, words[0], Second(words), if |words| > 2 then ["indirect"] else ["direct"])
  }

  function Directive(s: State, words: seq<string>): State
    requires words != []
  {
    if words[0] == "module" then s.(name := Some(Second(words)))
    else if words[0] == "require" then s.(mode := InRequire)
    else if words[0] == "replace" then (if |words| > 2 then s else s.(mode := InSkipped))
    else if words[0] == "retract" || words[0] == "exclude" then s.(mode := InSkipped)
    else s
  }

  function Step(s: State, line: string): State {
    if line == "" then s
    else match s.mode
      case Outside => Directive(s, Words.Split(line))
      case InRequire =>
        if line == ")" then s.(mode := Outside)
        else s.(dependencies := s.dependencies + [DependencyOf(Words.Split(line))])
      case InSkipped => if line == ")" then s.(mode := Outside) else s
  }

  function Run(s: State, lines: seq<string>): State {
    if lines == [] then s else Step(Run(s, lines[..|lines| - 1]), lines[|lines| - 1])
  }

  const START := State(Outside, None, [])

  function Trimmed(lines: seq<string>): seq<string> {
    seq(|lines|, i requires 0 <= i < |lines| => Words.Trim(lines[i]))
  }

  function Lines(content: string): seq<string> {
    Trimmed(Words.SplitRuns(content, Words.IsNewline))
  }

  /** The result of a whole file. None stands for the error that no module is present. */
  function Finish(s: State): Option<GoModule> {
    match s.name
    case None => None
    case Some(name) =>
      var (organization, mod) := ParseImportPath(name.GetOr(""));
      Some(GoModule(organization, mod, name, s.dependencies))
  }

  type Id = Option<(string, string)>

  function IdOf(name: Option<string>): (string, string) {
    ParseImportPath(name.GetOr(""))
  }

  lemma {:induction false} PartsOfDependencies(lines: seq<string>, i: nat)
    requires i < |Run(START, lines).dependencies|
    ensures var dependency := Run(START, lines).dependencies[i];
      AreParts(dependency.organization, dependency.mod, dependency.name)
  {
    hide Words.Split, AreParts, ParseImportPath;
    var front, last := lines[..|lines| - 1], lines[|lines| - 1];
    if i < |Run(START, front).dependencies| {
      PartsOfDependencies(front, i);
    } else {
      ImportPathParts(Words.Split(last)[0]);
    }
  }

  /** What is reported is taken apart rightly: the module's own path, and those of its dependencies. */
  lemma PartsAreRead(lines: seq<string>)
    ensures var r := Finish(Run(START, lines));
      r.Some? ==>
        && AreParts(r.value.organization, r.value.mod, r.value.name.GetOr(""))
        && forall i :: 0 <= i < |r.value.dependencies| ==>
             var dependency := r.value.dependencies[i];
             AreParts(dependency.organization, dependency.mod, dependency.name)
  {
    hide Run, AreParts, ParseImportPath;
    var s := Run(START, lines);
    if s.name.Some? { ImportPathParts(s.name.value.GetOr("")); }
    forall i | 0 <= i < |s.dependencies|
      ensures AreParts(s.dependencies[i].organization, s.dependencies[i].mod, s.dependencies[i].name)
    {
      PartsOfDependencies(lines, i);
    }
  }

  /** The extractor's own form: the loops for blocks advance the index of the loop over the lines. */
  method Extract(content: string) returns (r: Option<GoModule>)
    ensures r == Finish(Run(START, Lines(content)))
    ensures r.Some? ==> AreParts(r.value.organization, r.value.mod, r.value.name.GetOr(""))
    ensures r.Some? ==> forall i :: 0 <= i < |r.value.dependencies| ==>
      var dependency := r.value.dependencies[i];
      AreParts(dependency.organization, dependency.mod, dependency.name)
  {
    hide Lines, IdOf, Reads, DependencyOf, Run, Finish, AreParts;
    var lines := Lines(content);
    var id: Id, name: Option<string>, dependencies: seq<Dependency> := None, None, [];
    var i := 0;
    ReadsNothing(lines);
    while i < |lines|
      invariant 0 <= i <= |lines| + 1
      invariant ReadsLines(lines, i, id, name, dependencies)
      decreases |lines| - i
    {
      if lines[i] == "" {
        BlankStep(lines, i, Outside, id, name, dependencies);
        i := i + 1;
        continue;
      }
      var parts := Words.Split(lines[i]);
      var directive := parts[0];
      if directive == "module" {
        ModuleStep(lines, i, id, name, dependencies);
        name := Second(parts);
        id := Some(IdOf(name));
      } else if directive == "require" {
        DirectiveStep(lines, i, id, name, dependencies);
        i := i + 1;
        while i < |lines| && lines[i] != ")"
          invariant 0 <= i <= |lines| && Reads(lines, i, InRequire, id, name, dependencies)
        {
          var line := lines[i];
          if line == "" {
            BlankStep(lines, i, InRequire, id, name, dependencies);
            i := i + 1;
            continue;
          }
          RequireStep(lines, i, id, name, dependencies);
          dependencies := dependencies + [DependencyOf(Words.Split(line))];
          i := i + 1;
        }
        CloseStep(lines, i, InRequire, id, name, dependencies);
      } else if directive == "replace" && |parts| > 2 {
        DirectiveStep(lines, i, id, name, dependencies);
      } else if directive == "replace" || directive == "retract" || directive == "exclude" {
        DirectiveStep(lines, i, id, name, dependencies);
        i := i + 1;
        while i < |lines| && lines[i] != ")"
          invariant 0 <= i <= |lines| && Reads(lines, i, InSkipped, id, name, dependencies)
        {
          SkipStep(lines, i, id, name, dependencies);
          i := i + 1;
        }
        CloseStep(lines, i, InSkipped, id, name, dependencies);
      } else {
        DirectiveStep(lines, i, id, name, dependencies);
      }
      i := i + 1;
    }
    ReadsAll(lines, id, name, dependencies);
    PartsAreRead(lines);
    if id.None? { return None; }
    r := Some(GoModule(id.value.0, id.value.1, name, dependencies));
  }

  // ---- What the variables of the loops stand for ----

  /** The variables hold what the first i lines say. */
  ghost predicate Reads(lines: seq<string>, i: int, mode: Mode, id: Id, name: Option<string>,
                      dependencies: seq<Dependency>) {
    && 0 <= i <= |lines|
    && Run(START, lines[..i]) == State(mode, if id.Some? then Some(name) else None, dependencies)
    && (id.Some? ==> id.value == IdOf(name))
  }

  /** As the outer loop finds them: between two directives, or past the end of a file that ends within a block. */
  ghost predicate ReadsLines(lines: seq<string>, i: int, id: Id, name: Option<string>, dependencies: seq<Dependency>) {
    if i <= |lines| then Reads(lines, i, Outside, id, name, dependencies)
    else
      || Reads(lines, |lines|, InRequire, id, name, dependencies)
      || Reads(lines, |lines|, InSkipped, id, name, dependencies)
  }

  lemma ReadsNothing(lines: seq<string>)
    ensures Reads(lines, 0, Outside, None, None, [])
  {
  }

  lemma RunStep(s: State, lines: seq<string>, i: nat)
    requires i < |lines|
    ensures Run(s, lines[..i + 1]) == Step(Run(s, lines[..i]), lines[i])
  {
    assert lines[..i + 1][..i] == lines[..i];
  }

  lemma BlankStep(lines: seq<string>, i: int, mode: Mode, id: Id, name: Option<string>, dependencies: seq<Dependency>)
    requires Reads(lines, i, mode, id, name, dependencies) && i < |lines| && lines[i] == ""
    ensures Reads(lines, i + 1, mode, id, name, dependencies)
  {
    RunStep(START, lines, i);
  }

  lemma ModuleStep(lines: seq<string>, i: int, id: Id, name: Option<string>, dependencies: seq<Dependency>)
    requires Reads(lines, i, Outside, id, name, dependencies) && i < |lines| && lines[i] != ""
      && Words.Split(lines[i])[0] == "module"
    ensures var name' := Second(Words.Split(lines[i]));
      Reads(lines, i + 1, Outside, Some(IdOf(name')), name', dependencies)
  {
    RunStep(START, lines, i);
  }

  /** Any other directive only decides how the lines after it are read. */
  lemma DirectiveStep(lines: seq<string>, i: int, id: Id, name: Option<string>, dependencies: seq<Dependency>)
    requires Reads(lines, i, Outside, id, name, dependencies) && i < |lines| && lines[i] != ""
      && Words.Split(lines[i])[0] != "module"
    ensures Reads(lines, i + 1, Directive(START, Words.Split(lines[i])).mode, id, name, dependencies)
  {
    RunStep(START, lines, i);
  }

  lemma RequireStep(lines: seq<string>, i: int, id: Id, name: Option<string>, dependencies: seq<Dependency>)
    requires Reads(lines, i, InRequire, id, name, dependencies) && i < |lines| && lines[i] != "" && lines[i] != ")"
    ensures Reads(lines, i + 1, InRequire, id, name, dependencies + [DependencyOf(Words.Split(lines[i]))])
  {
    RunStep(START, lines, i);
  }

  lemma SkipStep(lines: seq<string>, i: int, id: Id, name: Option<string>, dependencies: seq<Dependency>)
    requires Reads(lines, i, InSkipped, id, name, dependencies) && i < |lines| && lines[i] != ")"
    ensures Reads(lines, i + 1, InSkipped, id, name, dependencies)
  {
    RunStep(START, lines, i);
  }

  /** A block ends past its closing line, or with the file. */
  lemma CloseStep(lines: seq<string>, i: int, mode: Mode, id: Id, name: Option<string>, dependencies: seq<Dependency>)
    requires Reads(lines, i, mode, id, name, dependencies) && mode != Outside && (i < |lines| ==> lines[i] == ")")
    ensures ReadsLines(lines, i + 1, id, name, dependencies)
  {
    if i < |lines| { RunStep(START, lines, i); }
  }

  lemma ReadsAll(lines: seq<string>, id: Id, name: Option<string>, dependencies: seq<Dependency>)
    requires ReadsLines(lines, |lines|, id, name, dependencies)
      || ReadsLines(lines, |lines| + 1, id, name, dependencies)
    ensures Finish(Run(START, lines)) ==
      if id.None? then None else Some(GoModule(id.value.0, id.value.1, name, dependencies))
  {
    hide Run, ParseImportPath;
    assert lines[..|lines|] == lines;
  }
}
