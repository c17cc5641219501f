/** Printed go.mod files, and what the extractor makes of them. */
module GoModFiles {
  import opened Collections
  import opened GoMod
  import Words

  // The extractor takes every require, exclude and retract for the opening of a block. So a requirement on the line of
  // its directive is not read, the lines after it are read as requirements, and an exclude or retract on one line hides
  // what follows up to the next closing parenthesis. A comment line within a require block is read as a requirement
  // too. What a file declares and what is reported of it are compared for all files of these pieces.

  // ---- Printing ----

  /** Pieces of a file. `Other` stands for comments and for directives that are not read. */
  datatype Piece =
    | Blank
    | Other(words: seq<string>)
    | ModuleLine(path: string, comment: seq<string>)
    | InlineReplace(arguments: seq<string>)
    | InlineSkip(directive: string, arguments: seq<string>)
    | InlineRequire(requirement: Requirement)
    | SkippedBlock(directive: string, body: seq<seq<string>>)
    | RequireBlock(requirements: seq<Requirement>)

  /**
   A line of a require block: blank, a comment, or a path and a version followed by a comment that marks it as indirect.
   */
  datatype Requirement =
    | NoRequirement
    | Remark(words: seq<string>)
    | Requirement(path: string, version: string, comment: seq<string>)

  ghost predicate IsPiece(piece: Piece) {
    match piece
    case Blank => true
    case Other(words) => words != [] && Words.AreWords(words)
      && words[0] !in {"module", "require", "replace", "retract", "exclude"}
    case ModuleLine(path, comment) => Words.IsWord(path) && Words.AreWords(comment)
    case InlineReplace(arguments) => |arguments| > 1 && Words.AreWords(arguments)
    case InlineSkip(directive, arguments) => directive in {"retract", "exclude"} && Words.AreWords(arguments)
    case InlineRequire(requirement) => requirement.Requirement? && IsRequirement(requirement)
    case SkippedBlock(directive, body) => directive in {"replace", "retract", "exclude"} && NoneCloses(body)
    case RequireBlock(requirements) => forall i :: 0 <= i < |requirements| ==> IsRequirement(requirements[i])
  }

  /** Lines of words, none of which is a closing parenthesis. */
  ghost predicate NoneCloses(lines: seq<seq<string>>) {
    forall i :: 0 <= i < |lines| ==> Words.AreWords(lines[i]) && lines[i] != [")"]
  }

  ghost predicate IsRequirement(requirement: Requirement) {
    match requirement
    case NoRequirement => true
    case Remark(words) => words != [] && words != [")"] && Words.AreWords(words)
    case Requirement(path, version, comment) => Words.IsWord(path) && Words.IsWord(version) && Words.AreWords(comment)
  }

  function RequirementWords(requirement: Requirement): seq<string> {
    match requirement
    case NoRequirement => []
    case Remark(words) => words
    case Requirement(path, version, comment) => [path, version] + comment
  }

  function RequirementLines(requirements: seq<Requirement>): seq<seq<string>> {
    seq(|requirements|, i requires 0 <= i < |requirements| => RequirementWords(requirements[i]))
  }

  /** The lines of a piece, but for one that is nothing but a closing parenthesis. */
  function Lead(piece: Piece): seq<seq<string>> {
    match piece
    case Blank => [[]]
    case Other(words) => if words == [")"] then [] else [words]
    case ModuleLine(path, comment) => [["module", path] + comment]
    case InlineReplace(arguments) => [["replace"] + arguments]
    case InlineSkip(directive, arguments) => [[directive] + arguments]
    case InlineRequire(requirement) => [["require"] + RequirementWords(requirement)]
    case SkippedBlock(directive, body) => [[directive, "("]] + body
    case RequireBlock(requirements) => [["require", "("]] + RequirementLines(requirements)
  }

  predicate Closes(piece: Piece) {
    piece.SkippedBlock? || piece.RequireBlock? || piece == Other([")"])
  }

  /** The words of each line of a piece. */
  function PieceWords(piece: Piece): seq<seq<string>> {
    Lead(piece) + if Closes(piece) then [[")"]] else []
  }

  function AllWords(pieces: seq<Piece>): seq<seq<string>> {
    if pieces == [] then [] else AllWords(pieces[..|pieces| - 1]) + PieceWords(pieces[|pieces| - 1])
  }

  function Sentences(words: seq<seq<string>>): seq<string> {
    seq(|words|, i requires 0 <= i < |words| => Words.Sentence(words[i]))
  }

  function WordsOf(lines: seq<Words.Line>): seq<seq<string>> {
    seq(|lines|, i requires 0 <= i < |lines| => lines[i].words)
  }

  /** `lines` is a file of these pieces, with any white space at the ends of its lines. */
  ghost predicate Prints(lines: seq<Words.Line>, pieces: seq<Piece>) {
    && WordsOf(lines) == AllWords(pieces)
    && (forall i :: 0 <= i < |lines| ==> Words.IsLine(lines[i]))
    && (forall i :: 0 <= i < |pieces| ==> IsPiece(pieces[i]))
  }

  // ---- What is declared ----

  /** A requirement is indirect if and only if its line has a third word. */
  function Required(requirements: seq<Requirement>): seq<Dependency> {
    if requirements == [] then [] else
      var last := requirements[|requirements| - 1];
      Required(requirements[..|requirements| - 1]) +
      if !last.Requirement? then [] else
        var (organization, mod) := ParseImportPath(last.path);
        var scope := if last.comment == [] then "direct" else "indirect";
        [Dependency(organization, mod, last.path, Some(last.version), [scope])]
  }

  function DeclaredBy(piece: Piece): seq<Dependency> {
    match piece
    case InlineRequire(requirement) => Required([requirement])
    case RequireBlock(requirements) => Required(requirements)
    case _ => []
  }

  /** What the pieces declare: the last module, and all requirements in order. */
  function Declared(pieces: seq<Piece>): State {
    if pieces == [] then START else
      var s, piece := Declared(pieces[..|pieces| - 1]), pieces[|pieces| - 1];
      var name := if piece.ModuleLine? then Some(Some(piece.path)) else s.name;
      s.(name := name, dependencies := s.dependencies + DeclaredBy(piece))
  }

  /** The extractor fails on what is declared if and only if no piece names a module. */
  lemma {:induction false} DeclaresModule(pieces: seq<Piece>)
    ensures Finish(Declared(pieces)).None? <==> forall i :: 0 <= i < |pieces| ==> !pieces[i].ModuleLine?
  {
    hide Required, ParseImportPath;
    if pieces != [] {
      var front, last := pieces[..|pieces| - 1], pieces[|pieces| - 1];
      DeclaresModule(front);
      assert pieces == front + [last];
    }
  }

  ghost predicate NamesModule(pieces: seq<Piece>, path: string) {
    exists k :: 0 <= k < |pieces| && pieces[k].ModuleLine? && pieces[k].path == path
      && forall l :: k < l < |pieces| ==> !pieces[l].ModuleLine?
  }

  /** The name that is declared is the path of the last module line. */
  lemma {:induction false} DeclaresLastPath(pieces: seq<Piece>, path: string)
    requires NamesModule(pieces, path)
    ensures Declared(pieces).name == Some(Some(path))
  {
    hide DeclaredBy;
    var front, last := pieces[..|pieces| - 1], pieces[|pieces| - 1];
    if !last.ModuleLine? {
      var k :| 0 <= k < |pieces| && pieces[k].ModuleLine? && pieces[k].path == path
        && forall l :: k < l < |pieces| ==> !pieces[l].ModuleLine?;
      assert front[k] == pieces[k];
      DeclaresLastPath(front, path);
    }
  }

  // ---- What is read ----

  /** Lines that are read as requirements. */
  function DependenciesOf(lines: seq<seq<string>>): seq<Dependency> {
    if lines == [] then [] else
      var last := lines[|lines| - 1];
      DependenciesOf(lines[..|lines| - 1]) + if last == [] then [] else [DependencyOf(last)]
  }

  /** The effect of a piece, which depends on how the line before it left the extractor. */
  function AfterPiece(s: State, piece: Piece): State {
    match s.mode
    case InSkipped => if Closes(piece) then s.(mode := Outside) else s
    case InRequire =>
      var mode := if Closes(piece) then Outside else InRequire;
      s.(mode := mode, dependencies := s.dependencies + DependenciesOf(Lead(piece)))
    case Outside =>
      match piece
      case ModuleLine(path, _) => s.(name := Some(Some(path)))
      case InlineSkip(_, _) => s.(mode := InSkipped)
      case InlineRequire(_) => s.(mode := InRequire)
      case RequireBlock(requirements) =>
        s.(dependencies := s.dependencies + DependenciesOf(RequirementLines(requirements)))
      case _ => s
  }

  function Seen(pieces: seq<Piece>): State {
    if pieces == [] then START else AfterPiece(Seen(pieces[..|pieces| - 1]), pieces[|pieces| - 1])
  }

  lemma {:induction false} RunConcat(s: State, a: seq<string>, b: seq<string>)
    ensures Run(s, a + b) == Run(Run(s, a), b)
  {
    if b == [] {
      assert a + b == a;
    } else {
      RunConcat(s, a, b[..|b| - 1]);
      assert (a + b)[..|a + b| - 1] == a + b[..|b| - 1];
    }
  }

  /** A line of words is read as its words. */
  lemma SentenceStep(s: State, words: seq<string>)
    requires Words.AreWords(words)
    ensures words == [] ==> Step(s, Words.Sentence(words)) == s
    ensures words != [] ==> Words.Sentence(words) != "" && Words.Split(Words.Sentence(words)) == words
    ensures Words.Sentence(words) == ")" <==> words == [")"]
    ensures words == [")"] && s.mode != Outside ==> Step(s, Words.Sentence(words)) == s.(mode := Outside)
  {
    if words != [] {
      Words.SentenceEnds(words);
      Words.SplitSentence(words);
      if Words.Sentence(words) == ")" {
        assert Words.AreWords([")"]);
        Words.SplitSentence([")"]);
      }
    }
  }

  lemma {:induction false} BodyIsSkipped(s: State, body: seq<seq<string>>)
    requires s.mode == InSkipped && NoneCloses(body)
    ensures Run(s, Sentences(body)) == s
  {
    if body != [] {
      var n := |body| - 1;
      BodyIsSkipped(s, body[..n]);
      assert Sentences(body)[..n] == Sentences(body[..n]);
      SentenceStep(s, body[n]);
    }
  }

  lemma {:induction false} BlockIsRead(s: State, lines: seq<seq<string>>)
    requires s.mode == InRequire && NoneCloses(lines)
    ensures Run(s, Sentences(lines)) == s.(dependencies := s.dependencies + DependenciesOf(lines))
  {
    hide DependencyOf, Words.Split, Words.Sentence;
    if lines == [] {
      assert s.dependencies + [] == s.dependencies;
    } else {
      var n := |lines| - 1;
      BlockIsRead(s, lines[..n]);
      assert Sentences(lines)[..n] == Sentences(lines[..n]);
      SentenceStep(Run(s, Sentences(lines[..n])), lines[n]);
    }
  }

  // ---- One piece ----

  lemma SentencesConcat(a: seq<seq<string>>, b: seq<seq<string>>)
    ensures Sentences(a + b) == Sentences(a) + Sentences(b)
  {
  }

  lemma OneLine(s: State, words: seq<string>)
    requires Words.AreWords(words)
    ensures Run(s, Sentences([words])) == Step(s, Words.Sentence(words))
    ensures s.mode == Outside && words != [] ==> Run(s, Sentences([words])) == Directive(s, words)
    ensures words == [] ==> Run(s, Sentences([words])) == s
    ensures words == [")"] && s.mode != Outside ==> Run(s, Sentences([words])) == s.(mode := Outside)
  {
    hide Words.Split, Directive;
    assert Sentences([words]) == [Words.Sentence(words)];
    assert Sentences([words])[..0] == [];
    SentenceStep(s, words);
  }

  lemma KeywordsAreWords()
    ensures forall w :: w in {"module", "require", "replace", "retract", "exclude", "(", ")"} ==> Words.IsWord(w)
    ensures Words.AreWords([")"])
  {
  }

  lemma RequirementsAreLines(requirements: seq<Requirement>)
    requires forall i :: 0 <= i < |requirements| ==> IsRequirement(requirements[i])
    ensures NoneCloses(RequirementLines(requirements))
  {
  }

  /** No line of a piece but the last of a block is a closing parenthesis. */
  lemma LeadIs(piece: Piece)
    requires IsPiece(piece)
    ensures NoneCloses(Lead(piece))
  {
    hide RequirementLines;
    KeywordsAreWords();
    if piece.RequireBlock? { RequirementsAreLines(piece.requirements); }
    var lines := Lead(piece);
    if lines != [] && !piece.Other? && !piece.Blank? {
      assert |lines[0][0]| > 1;
      assert Words.AreWords(lines[0]);
    }
  }

  lemma LeadOutside(s: State, piece: Piece)
    requires s.mode == Outside && IsPiece(piece)
    ensures !Closes(piece) || piece.Other? ==> Run(s, Sentences(Lead(piece))) == AfterPiece(s, piece)
    ensures piece.SkippedBlock? ==> Run(s, Sentences(Lead(piece))) == s.(mode := InSkipped)
    ensures piece.RequireBlock? ==> Run(s, Sentences(Lead(piece))) == AfterPiece(s, piece).(mode := InRequire)
  {
    hide Run, Step, RequirementLines, NoneCloses, DependenciesOf;
    LeadIs(piece);
    KeywordsAreWords();
    match piece
    case SkippedBlock(directive, body) =>
      SentencesConcat([[directive, "("]], body);
      RunConcat(s, Sentences([[directive, "("]]), Sentences(body));
      OneLine(s, [directive, "("]);
      BodyIsSkipped(s.(mode := InSkipped), body);
    case RequireBlock(requirements) =>
      RequirementsAreLines(requirements);
      SentencesConcat([["require", "("]], RequirementLines(requirements));
      RunConcat(s, Sentences([["require", "("]]), Sentences(RequirementLines(requirements)));
      OneLine(s, ["require", "("]);
      BlockIsRead(s.(mode := InRequire), RequirementLines(requirements));
    case _ => LineOutside(s, piece);
  }

  lemma LineOutside(s: State, piece: Piece)
    requires s.mode == Outside && IsPiece(piece) && !piece.SkippedBlock? && !piece.RequireBlock?
    ensures Run(s, Sentences(Lead(piece))) == AfterPiece(s, piece)
  {
    hide Step, Words.Split, Words.Sentence;
    LeadIs(piece);
    KeywordsAreWords();
    if Lead(piece) == [] {
      assert Sentences([]) == [];
    } else {
      OneLine(s, Lead(piece)[0]);
      assert Lead(piece) == [Lead(piece)[0]];
    }
  }

  lemma PieceIsRead(s: State, piece: Piece)
    requires IsPiece(piece)
    ensures Run(s, Sentences(PieceWords(piece))) == AfterPiece(s, piece)
  {
    hide Run, Step, Lead, NoneCloses, DependenciesOf, IsPiece;
    LeadIs(piece);
    match s.mode {
      case Outside => LeadOutside(s, piece);
      case InSkipped => BodyIsSkipped(s, Lead(piece));
      case InRequire => BlockIsRead(s, Lead(piece));
    }
    var closing := if Closes(piece) then [[")"]] else [];
    SentencesConcat(Lead(piece), closing);
    RunConcat(s, Sentences(Lead(piece)), Sentences(closing));
    ClosingIsRead(Run(s, Sentences(Lead(piece))));
    NothingIsRead(Run(s, Sentences(Lead(piece))));
  }

  lemma NothingIsRead(s: State)
    ensures Run(s, Sentences([])) == s
  {
  }

  lemma ClosingIsRead(s: State)
    ensures Run(s, Sentences([[")"]])) == s.(mode := Outside)
  {
    hide Words.Split, Words.Sentence;
    KeywordsAreWords();
    OneLine(s, [")"]);
  }

  /** The lines of all pieces, read one after the other, have the effects of the pieces. */
  lemma {:induction false} PiecesAreRead(pieces: seq<Piece>)
    requires forall i :: 0 <= i < |pieces| ==> IsPiece(pieces[i])
    ensures Run(START, Sentences(AllWords(pieces))) == Seen(pieces)
  {
    hide Step, IsPiece, PieceWords, AfterPiece;
    if pieces == [] {
      assert Sentences([]) == [];
    } else {
      var front, piece := pieces[..|pieces| - 1], pieces[|pieces| - 1];
      PiecesAreRead(front);
      SentencesConcat(AllWords(front), PieceWords(piece));
      RunConcat(START, Sentences(AllWords(front)), Sentences(PieceWords(piece)));
      PieceIsRead(Seen(front), piece);
    }
  }

  // ---- From the lines to the text ----

  lemma {:induction false} BlankFirst(s: State, lines: seq<string>)
    ensures Run(s, [""] + lines) == Run(s, lines)
  {
    RunConcat(s, [""], lines);
    assert [""][..0] == [];
    assert Run(s, [""]) == Step(Run(s, []), "");
  }

  /** Newlines that are dropped before a line would only make an empty line. */
  lemma DroppedNewlines(s: State, text: string)
    ensures Run(s, Lines(Words.DropRun(text, Words.IsNewline))) == Run(s, Lines(text))
  {
    if text != [] && text[0] == '\n' {
      var rest := Words.DropRun(text[1..], Words.IsNewline);
      assert Words.DropRun(text, Words.IsNewline) == rest;
      assert Lines(text) == [""] + Lines(rest);
      BlankFirst(s, Lines(rest));
    }
  }

  lemma NoLines(s: State)
    ensures Run(s, Lines(Words.Text([]))) == Run(s, Sentences(WordsOf([])))
  {
    hide Run, Step;
    assert Lines("") == [""];
    BlankFirst(s, []);
    assert [""] + [] == [""];
    assert Sentences(WordsOf([])) == [];
  }

  lemma FirstLine(first: string, rest: string)
    requires '\n' !in first
    ensures Lines(first + "\n" + rest) == [Words.Trim(first)] + Lines(Words.DropRun(rest, Words.IsNewline))
  {
    hide Words.Trim;
    Words.SplitAtNewline(first, rest);
  }

  lemma FirstSentence(lines: seq<Words.Line>)
    requires lines != []
    ensures Sentences(WordsOf(lines)) == [Words.Sentence(lines[0].words)] + Sentences(WordsOf(lines[1..]))
  {
    hide Words.Sentence;
  }

  lemma {:induction false} TextIsRead(s: State, lines: seq<Words.Line>)
    requires forall i :: 0 <= i < |lines| ==> Words.IsLine(lines[i])
    ensures Run(s, Lines(Words.Text(lines))) == Run(s, Sentences(WordsOf(lines)))
    decreases |lines|
  {
    hide Run, Step, Lines, Sentences, WordsOf, Words.Render, Words.Sentence, Words.IsLine;
    if lines == [] {
      NoLines(s);
    } else {
      var first, rest := Words.Render(lines[0]), Words.Text(lines[1..]);
      var sentence := Words.Sentence(lines[0].words);
      Words.LineHasNoNewline(lines[0]);
      FirstLine(first, rest);
      Words.TrimLine(lines[0]);
      RunConcat(s, [sentence], Lines(Words.DropRun(rest, Words.IsNewline)));
      DroppedNewlines(Run(s, [sentence]), rest);
      TextIsRead(Run(s, [sentence]), lines[1..]);
      RunConcat(s, [sentence], Sentences(WordsOf(lines[1..])));
      FirstSentence(lines);
    }
  }

  /** Whatever the white space at the ends of its lines, a file is read piece by piece. */
  lemma FileIsRead(pieces: seq<Piece>, lines: seq<Words.Line>)
    requires Prints(lines, pieces)
    ensures Run(START, Lines(Words.Text(lines))) == Seen(pieces)
  {
    hide IsPiece, Run, Lines, Words.IsLine, Seen;
    TextIsRead(START, lines);
    PiecesAreRead(pieces);
  }

  // ---- Which files are read as they are meant ----

  /**
   Whether an exclude or retract on one line of these pieces still hides what follows: no closing parenthesis has come
   since.
   */
  predicate Hiding(pieces: seq<Piece>) {
    if pieces == [] then false else
      var last := pieces[|pieces| - 1];
      if Hiding(pieces[..|pieces| - 1]) then !Closes(last) else last.InlineSkip?
  }

  /** The pieces that are not hidden. */
  function Visible(pieces: seq<Piece>): seq<Piece> {
    if pieces == [] then [] else
      var front := pieces[..|pieces| - 1];
      Visible(front) + if Hiding(front) then [] else [pieces[|pieces| - 1]]
  }

  predicate HasRemark(piece: Piece) {
    piece.RequireBlock? && exists requirement :: requirement in piece.requirements && requirement.Remark?
  }

  /**
   A hidden piece declares no requirement; one that is not has none on the line of its directive and no comment in its
   require block.
   */
  predicate Fine(pieces: seq<Piece>, i: nat)
    requires i < |pieces|
  {
    if Hiding(pieces[..i]) then DeclaredBy(pieces[i]) == [] else !pieces[i].InlineRequire? && !HasRemark(pieces[i])
  }

  ghost predicate AllFine(pieces: seq<Piece>) {
    forall i :: 0 <= i < |pieces| ==> Fine(pieces, i)
  }

  /** Every piece is fine, and the last module that is not hidden is the last of all. */
  ghost predicate ReadAsMeant(pieces: seq<Piece>) {
    AllFine(pieces) && Declared(Visible(pieces)).name == Declared(pieces).name
  }

  lemma AllFineFront(pieces: seq<Piece>)
    requires pieces != []
    ensures AllFine(pieces) <==> AllFine(pieces[..|pieces| - 1]) && Fine(pieces, |pieces| - 1)
  {
    hide Fine;
    var front := pieces[..|pieces| - 1];
    forall i | 0 <= i < |front| ensures Fine(pieces, i) <==> Fine(front, i) { SameFine(pieces, i); }
  }

  lemma SameFine(pieces: seq<Piece>, i: nat)
    requires i < |pieces| - 1
    ensures Fine(pieces, i) <==> Fine(pieces[..|pieces| - 1], i)
  {
    assert pieces[..|pieces| - 1][..i] == pieces[..i];
  }

  lemma {:induction false} WithoutRemarks(requirements: seq<Requirement>)
    requires forall requirement :: requirement in requirements ==> !requirement.Remark?
    ensures DependenciesOf(RequirementLines(requirements)) == Required(requirements)
  {
    hide ParseImportPath;
    if requirements != [] {
      var n := |requirements| - 1;
      var lines, last := RequirementLines(requirements), requirements[n];
      WithoutRemarks(requirements[..n]);
      assert lines[..n] == RequirementLines(requirements[..n]) && lines[n] == RequirementWords(last);
      assert last in requirements;
      if last.Requirement? {
        assert lines[n][0] == last.path && lines[n][1] == last.version;
      }
    }
  }

  /** Where every piece is fine, the requirements that are read are the declared ones. */
  lemma {:induction false} FineIsSeen(pieces: seq<Piece>)
    requires AllFine(pieces)
    ensures var mode := if Hiding(pieces) then InSkipped else Outside;
      Seen(pieces) == State(mode, Declared(Visible(pieces)).name, Declared(pieces).dependencies)
  {
    if pieces != [] {
      hide DeclaredBy, DependenciesOf, HasRemark, AllFine, Visible;
      var front, last := pieces[..|pieces| - 1], pieces[|pieces| - 1];
      AllFineFront(pieces);
      FineIsSeen(front);
      VisibleName(pieces);
      FineStep(Seen(front), last, Hiding(front));
    }
  }

  lemma VisibleName(pieces: seq<Piece>)
    requires pieces != []
    ensures var front, last := pieces[..|pieces| - 1], pieces[|pieces| - 1];
      Declared(Visible(pieces)).name
      == if Hiding(front) || !last.ModuleLine? then Declared(Visible(front)).name else Some(Some(last.path))
  {
    hide Hiding;
    var front, last := pieces[..|pieces| - 1], pieces[|pieces| - 1];
    assert (Visible(front) + [last])[..|Visible(front)|] == Visible(front);
    assert Visible(front) + [] == Visible(front);
  }

  lemma FineStep(s: State, piece: Piece, hiding: bool)
    requires s.mode == if hiding then InSkipped else Outside
    requires if hiding then DeclaredBy(piece) == [] else !piece.InlineRequire? && !HasRemark(piece)
    ensures AfterPiece(s, piece).dependencies == s.dependencies + DeclaredBy(piece)
  {
    if !hiding && piece.RequireBlock? { WithoutRemarks(piece.requirements); }
  }

  // ---- Nothing but a path is taken for a requirement ----

  /** Import paths have a dot or a slash in them; neither a comment nor a directive of the language looks like that. */
  predicate IsPath(word: string) {
    word != "" && word[0] != '/' && ('.' in word || '/' in word)
  }

  ghost predicate IsTelling(piece: Piece) {
    match piece
    case Other(words) => words != [] ==> !IsPath(words[0])
    case InlineRequire(requirement) => IsTellingLine(requirement)
    case RequireBlock(requirements) => forall i :: 0 <= i < |requirements| ==> IsTellingLine(requirements[i])
    case _ => true
  }

  predicate IsTellingLine(requirement: Requirement) {
    match requirement
    case NoRequirement => true
    case Remark(words) => words != [] ==> !IsPath(words[0])
    case Requirement(path, _, _) => IsPath(path)
  }

  /** The requirements of these pieces can be told from all their other lines. */
  ghost predicate AreTelling(pieces: seq<Piece>) {
    forall i :: 0 <= i < |pieces| ==> IsPiece(pieces[i]) && IsTelling(pieces[i])
  }

  ghost predicate AllPaths(dependencies: seq<Dependency>) {
    forall i :: 0 <= i < |dependencies| ==> IsPath(dependencies[i].name)
  }

  lemma AllPathsConcat(a: seq<Dependency>, b: seq<Dependency>)
    ensures AllPaths(a + b) <==> AllPaths(a) && AllPaths(b)
  {
    if AllPaths(a + b) {
      forall i | 0 <= i < |a| ensures IsPath(a[i].name) { assert (a + b)[i] == a[i]; }
      forall i | 0 <= i < |b| ensures IsPath(b[i].name) { assert (a + b)[|a| + i] == b[i]; }
    }
  }

  lemma {:induction false} RequiredPaths(requirements: seq<Requirement>)
    requires forall i :: 0 <= i < |requirements| ==> IsTellingLine(requirements[i])
    ensures AllPaths(Required(requirements))
  {
    if requirements != [] { RequiredPaths(requirements[..|requirements| - 1]); }
  }

  lemma {:induction false} DeclaredPaths(pieces: seq<Piece>)
    requires AreTelling(pieces)
    ensures AllPaths(Declared(pieces).dependencies)
  {
    hide IsPiece, Required;
    if pieces != [] {
      var front, last := pieces[..|pieces| - 1], pieces[|pieces| - 1];
      DeclaredPaths(front);
      if last.RequireBlock? { RequiredPaths(last.requirements); }
      if last.InlineRequire? { RequiredPaths([last.requirement]); }
      AllPathsConcat(Declared(front).dependencies, DeclaredBy(last));
    }
  }

  /** A line that is read as a requirement without being one shows. */
  lemma {:induction false} NoRemarkIsPath(requirements: seq<Requirement>, k: nat)
    requires forall i :: 0 <= i < |requirements| ==> IsRequirement(requirements[i]) && IsTellingLine(requirements[i])
    requires k < |requirements| && requirements[k].Remark?
    ensures !AllPaths(DependenciesOf(RequirementLines(requirements)))
  {
    hide DependencyOf, IsPath;
    var n := |requirements| - 1;
    var lines := RequirementLines(requirements);
    assert lines[..n] == RequirementLines(requirements[..n]) && lines[n] == RequirementWords(requirements[n]);
    var before, last := DependenciesOf(lines[..n]), if lines[n] == [] then [] else [DependencyOf(lines[n])];
    if k < n {
      NoRemarkIsPath(requirements[..n], k);
    } else {
      NameOf(lines[n]);
      assert last[0] == DependencyOf(lines[n]);
    }
    AllPathsConcat(before, last);
  }

  lemma NameOf(words: seq<string>)
    requires words != []
    ensures DependencyOf(words).name == words[0]
  {
  }

  lemma {:induction false} FirstIsRead(lines: seq<seq<string>>)
    requires lines != [] && lines[0] != []
    ensures DependenciesOf(lines) != [] && DependenciesOf(lines)[0] == DependencyOf(lines[0])
  {
    hide DependencyOf;
    if |lines| > 1 {
      FirstIsRead(lines[..|lines| - 1]);
    } else {
      assert lines[..0] == [];
    }
  }

  lemma FirstIsNoPath(piece: Piece)
    requires IsPiece(piece) && IsTelling(piece) && Lead(piece) != [] && Lead(piece) != [[]]
    ensures Lead(piece)[0] != [] && !IsPath(Lead(piece)[0][0])
  {
    hide RequirementLines, IsPath;
    KeywordsAreNoPaths();
    if !piece.Other? && !piece.Blank? {
      assert Lead(piece)[0][0] in {"module", "require", "replace", "retract", "exclude"};
    }
  }

  lemma KeywordsAreNoPaths()
    ensures forall w :: w in {"module", "require", "replace", "retract", "exclude"} ==> !IsPath(w)
  {
  }

  /** A piece that follows a requirement on one line is read as requirements, its first line among them. */
  lemma LeadIsNoPath(piece: Piece)
    requires IsPiece(piece) && IsTelling(piece)
    ensures AllPaths(DependenciesOf(Lead(piece))) ==> DependenciesOf(Lead(piece)) == []
  {
    hide DependencyOf, Lead, IsPath;
    var lines := Lead(piece);
    if lines == [[]] {
      assert lines[..0] == [];
    } else if lines != [] {
      FirstIsNoPath(piece);
      FirstIsRead(lines);
      NameOf(lines[0]);
      assert !IsPath(DependenciesOf(lines)[0].name);
    }
  }

  lemma OneRequired(requirement: Requirement)
    requires requirement.Requirement?
    ensures |Required([requirement])| == 1
  {
    assert [requirement][..0] == [];
  }

  /** A piece adds at most what it declares, or something that is not a path. */
  lemma AddsAtMost(s: State, piece: Piece)
    requires IsPiece(piece) && IsTelling(piece) && AllPaths(AfterPiece(s, piece).dependencies)
    ensures s.dependencies <= AfterPiece(s, piece).dependencies
    ensures |AfterPiece(s, piece).dependencies| <= |s.dependencies| + |DeclaredBy(piece)|
    ensures |AfterPiece(s, piece).dependencies| == |s.dependencies| + |DeclaredBy(piece)| && s.mode == InSkipped ==>
      DeclaredBy(piece) == []
    ensures |AfterPiece(s, piece).dependencies| == |s.dependencies| + |DeclaredBy(piece)| && s.mode == Outside ==>
      !piece.InlineRequire? && !HasRemark(piece)
  {
    hide DependenciesOf, Lead, IsPath;
    if s.mode == InRequire {
      AllPathsConcat(s.dependencies, DependenciesOf(Lead(piece)));
      LeadIsNoPath(piece);
    } else if s.mode == Outside && piece.RequireBlock? {
      var lines := RequirementLines(piece.requirements);
      AllPathsConcat(s.dependencies, DependenciesOf(lines));
      if HasRemark(piece) {
        var k :| 0 <= k < |piece.requirements| && piece.requirements[k].Remark?;
        NoRemarkIsPath(piece.requirements, k);
      }
      WithoutRemarks(piece.requirements);
    } else if s.mode == Outside && piece.InlineRequire? {
      OneRequired(piece.requirement);
    }
  }

  /**
   As long as only paths are read, at most as many requirements are as are declared, and as many only if every piece is
   fine.
   */
  lemma {:induction false} FewerAreSeen(pieces: seq<Piece>)
    requires AreTelling(pieces) && AllPaths(Seen(pieces).dependencies)
    ensures |Seen(pieces).dependencies| <= |Declared(pieces).dependencies|
    ensures |Seen(pieces).dependencies| == |Declared(pieces).dependencies| ==> AllFine(pieces)
  {
    if pieces != [] {
      hide IsPiece, IsTelling, AfterPiece, HasRemark, DeclaredBy, AllFine;
      var front, last := pieces[..|pieces| - 1], pieces[|pieces| - 1];
      AddsAtMost(Seen(front), last);
      PrefixIsPaths(Seen(front).dependencies, Seen(pieces).dependencies);
      FewerAreSeen(front);
      if |Seen(pieces).dependencies| == |Declared(pieces).dependencies| {
        FineIsSeen(front);
      }
      AllFineFront(pieces);
    } else {
      assert AllFine(pieces);
    }
  }

  lemma PrefixIsPaths(a: seq<Dependency>, b: seq<Dependency>)
    requires a <= b && AllPaths(b)
    ensures AllPaths(a)
  {
    forall i | 0 <= i < |a| ensures IsPath(a[i].name) { assert b[i] == a[i]; }
  }

  // ---- The round trip ----

  /**
   Reading back a printed file: whatever the white space at the ends of its lines, where every piece is read as meant
   the result has the last module and exactly the declared requirements, in order, each indirect if and only if its line
   has a third word.
   */
  lemma ParseInvertsPrint(pieces: seq<Piece>, lines: seq<Words.Line>)
    requires Prints(lines, pieces) && ReadAsMeant(pieces)
    ensures Finish(Run(START, Lines(Words.Text(lines)))) == Finish(Declared(pieces))
  {
    hide Run, Lines, Prints, Seen;
    FileIsRead(pieces, lines);
    FineIsSeen(pieces);
  }

  /** What is reported of such a file is the path of its last module line, taken apart, and its requirements. */
  lemma ReportsLastModule(pieces: seq<Piece>, lines: seq<Words.Line>, path: string)
    requires Prints(lines, pieces) && ReadAsMeant(pieces) && NamesModule(pieces, path)
    ensures var r := Finish(Run(START, Lines(Words.Text(lines))));
      && r.Some? && r.value.name == Some(path) && r.value.dependencies == Declared(pieces).dependencies
      && AreParts(r.value.organization, r.value.mod, path)
  {
    hide Run, Lines, Prints, ReadAsMeant, Declared, NamesModule, AreParts;
    ParseInvertsPrint(pieces, lines);
    DeclaresLastPath(pieces, path);
    PartsAreRead(Lines(Words.Text(lines)));
  }

  /** A file without an exclude or a retract on one line, a requirement on one line or a comment in a require block. */
  ghost predicate IsPlain(pieces: seq<Piece>) {
    forall i :: 0 <= i < |pieces| ==> !pieces[i].InlineSkip? && !pieces[i].InlineRequire? && !HasRemark(pieces[i])
  }

  /** Plain files are read as meant: comments, blank lines and the blocks of other directives leave no trace. */
  lemma {:induction false} PlainIsReadAsMeant(pieces: seq<Piece>)
    requires IsPlain(pieces)
    ensures ReadAsMeant(pieces) && !Hiding(pieces) && Visible(pieces) == pieces
  {
    if pieces != [] {
      hide HasRemark, DeclaredBy;
      var front := pieces[..|pieces| - 1];
      PlainIsReadAsMeant(front);
      AllFineFront(pieces);
      assert pieces == front + [pieces[|pieces| - 1]];
    }
  }

  lemma {:induction false} SeenModule(pieces: seq<Piece>)
    requires forall i :: 0 <= i < |pieces| ==> !pieces[i].ModuleLine?
    ensures Seen(pieces).name == None
  {
    hide DependenciesOf;
    if pieces != [] { SeenModule(pieces[..|pieces| - 1]); }
  }

  /**
   Where requirements can be told from other lines, what is reported of a file is what it declares if and only if it
   names no module, so that there is nothing to report, or its pieces are read as meant.
   */
  lemma ReadsRightIff(pieces: seq<Piece>, lines: seq<Words.Line>)
    requires Prints(lines, pieces) && AreTelling(pieces)
    ensures Finish(Run(START, Lines(Words.Text(lines)))) == Finish(Declared(pieces))
       <==> (forall i :: 0 <= i < |pieces| ==> !pieces[i].ModuleLine?) || ReadAsMeant(pieces)
  {
    hide Run, Lines, Prints, Seen, Declared, AreTelling, AllPaths, AllFine, ParseImportPath;
    FileIsRead(pieces, lines);
    DeclaresModule(pieces);
    if forall i :: 0 <= i < |pieces| ==> !pieces[i].ModuleLine? {
      SeenModule(pieces);
    } else {
      DeclaredPaths(pieces);
      if Finish(Seen(pieces)) == Finish(Declared(pieces)) {
        assert Seen(pieces).dependencies == Declared(pieces).dependencies && Seen(pieces).name == Declared(pieces).name;
        FewerAreSeen(pieces);
        FineIsSeen(pieces);
      }
      if ReadAsMeant(pieces) { FineIsSeen(pieces); }
    }
  }

  // ---- Where reading goes wrong ----

  /** The pieces printed without white space at the ends of the lines. */
  function Printed(pieces: seq<Piece>): seq<Words.Line> {
    var words := AllWords(pieces);
    seq(|words|, i requires 0 <= i < |words| => Words.Line("", words[i], ""))
  }

  lemma {:induction false} AllAreWords(pieces: seq<Piece>)
    requires forall i :: 0 <= i < |pieces| ==> IsPiece(pieces[i])
    ensures forall i :: 0 <= i < |AllWords(pieces)| ==> Words.AreWords(AllWords(pieces)[i])
  {
    hide IsPiece, Lead;
    if pieces != [] {
      AllAreWords(pieces[..|pieces| - 1]);
      LeadIs(pieces[|pieces| - 1]);
      KeywordsAreWords();
    }
  }

  lemma PrintedPrints(pieces: seq<Piece>)
    requires forall i :: 0 <= i < |pieces| ==> IsPiece(pieces[i])
    ensures Prints(Printed(pieces), pieces)
  {
    AllAreWords(pieces);
  }

  /** What is reported of a file of these pieces. */
  function Reported(pieces: seq<Piece>): Option<GoModule> {
    Finish(Run(START, Lines(Words.Text(Printed(pieces)))))
  }

  lemma ReportedIff(pieces: seq<Piece>)
    requires AreTelling(pieces) && exists i :: 0 <= i < |pieces| && pieces[i].ModuleLine?
    ensures Reported(pieces) == Finish(Declared(pieces)) <==> ReadAsMeant(pieces)
  {
    hide Run, Lines, Printed, Finish, Declared, ReadAsMeant;
    PrintedPrints(pieces);
    ReadsRightIff(pieces, Printed(pieces));
  }

  /** An exclude or a retract at the end of a plain file does no harm. */
  lemma HarmlessAtEnd(pieces: seq<Piece>, skip: Piece)
    requires IsPlain(pieces) && skip.InlineSkip?
    ensures ReadAsMeant(pieces + [skip])
  {
    hide DeclaredBy;
    var all := pieces + [skip];
    assert all[..|all| - 1] == pieces;
    PlainIsReadAsMeant(pieces);
    AllFineFront(all);
    VisibleName(all);
  }

  /** Before a piece with requirements it does. */
  lemma HidesTheNext(pieces: seq<Piece>, skip: Piece, piece: Piece)
    requires IsPlain(pieces) && skip.InlineSkip? && DeclaredBy(piece) != []
    ensures !ReadAsMeant(pieces + [skip] + [piece])
  {
    hide HasRemark, DeclaredBy;
    var front, all := pieces + [skip], pieces + [skip] + [piece];
    assert front[..|front| - 1] == pieces && all[..|front|] == front;
    PlainIsReadAsMeant(pieces);
    assert !Fine(all, |front|);
  }

  const MODULE_PIECE := ModuleLine("a.b/m", [])
  const EXCLUDE_PIECE := InlineSkip("exclude", ["a.b/x", "v1"])
  const REQUIRE_PIECE := RequireBlock([Requirement("a.b/y", "v1", [])])

  lemma ExamplePieces()
    ensures IsPiece(MODULE_PIECE) && IsPiece(EXCLUDE_PIECE) && IsPiece(REQUIRE_PIECE)
  {
    assert Words.IsWord("a.b/m") && Words.IsWord("a.b/x") && Words.IsWord("a.b/y") && Words.IsWord("v1");
  }

  lemma ExampleIsTelling()
    ensures IsTelling(MODULE_PIECE) && IsTelling(EXCLUDE_PIECE) && IsTelling(REQUIRE_PIECE)
  {
    assert "a.b/y"[1] == '.';
  }

  lemma ExampleIsPlain()
    ensures IsPlain([MODULE_PIECE]) && IsPlain([MODULE_PIECE, REQUIRE_PIECE]) && DeclaredBy(REQUIRE_PIECE) != []
  {
    OneRequired(REQUIRE_PIECE.requirements[0]);
  }

  /**
   The same three pieces in two orders: an exclude before the require block hides it, and one after it does no harm.
   */
  lemma HiddenBlockWitness()
    ensures var pieces := [MODULE_PIECE, EXCLUDE_PIECE, REQUIRE_PIECE]; Reported(pieces) != Finish(Declared(pieces))
    ensures var pieces := [MODULE_PIECE, REQUIRE_PIECE, EXCLUDE_PIECE]; Reported(pieces) == Finish(Declared(pieces))
  {
    hide Reported, Finish, Declared, ReadAsMeant, IsPiece, IsTelling, IsPlain, DeclaredBy;
    ExamplePieces();
    ExampleIsTelling();
    ExampleIsPlain();
    var hidden, harmless := [MODULE_PIECE, EXCLUDE_PIECE, REQUIRE_PIECE], [MODULE_PIECE, REQUIRE_PIECE, EXCLUDE_PIECE];
    assert hidden[0].ModuleLine? && harmless[0].ModuleLine?;
    HidesTheNext([MODULE_PIECE], EXCLUDE_PIECE, REQUIRE_PIECE);
    assert [MODULE_PIECE] + [EXCLUDE_PIECE] + [REQUIRE_PIECE] == hidden;
    HarmlessAtEnd([MODULE_PIECE, REQUIRE_PIECE], EXCLUDE_PIECE);
    assert [MODULE_PIECE, REQUIRE_PIECE] + [EXCLUDE_PIECE] == harmless;
    ReportedIff(hidden);
    ReportedIff(harmless);
  }

  /** A requirement on the line of its directive, in an otherwise plain file. */
  lemma MissesInline(pieces: seq<Piece>, piece: Piece)
    requires piece.InlineRequire? && piece.requirement.Requirement?
    ensures !ReadAsMeant(pieces + [piece])
  {
    var all := pieces + [piece];
    assert all[..|pieces|] == pieces;
    OneRequired(piece.requirement);
    assert !Fine(all, |pieces|);
  }

  /** A comment in a require block that nothing hides. */
  lemma TakesRemark(pieces: seq<Piece>, piece: Piece)
    requires !Hiding(pieces) && HasRemark(piece)
    ensures !ReadAsMeant(pieces + [piece])
  {
    var all := pieces + [piece];
    assert all[..|pieces|] == pieces;
    assert !Fine(all, |pieces|);
  }

  const INLINE_PIECE := InlineRequire(Requirement("a.b/y", "v1", []))
  const REMARKED_PIECE := RequireBlock([Remark(["//", "direct"]), Requirement("a.b/y", "v1", [])])

  lemma InlineExample()
    ensures IsPiece(INLINE_PIECE) && IsTelling(INLINE_PIECE) && INLINE_PIECE.requirement.Requirement?
  {
    assert Words.IsWord("a.b/y") && Words.IsWord("v1") && "a.b/y"[1] == '.';
  }

  lemma RemarkedExample()
    ensures IsPiece(REMARKED_PIECE) && IsTelling(REMARKED_PIECE) && HasRemark(REMARKED_PIECE)
  {
    assert Words.IsWord("a.b/y") && Words.IsWord("v1") && "a.b/y"[1] == '.';
    assert Words.IsWord("//") && Words.IsWord("direct") && "//"[0] == '/';
    assert REMARKED_PIECE.requirements[0].Remark?;
  }

  lemma ReportedWrong(piece: Piece)
    requires IsPiece(piece) && IsTelling(piece) && !ReadAsMeant([MODULE_PIECE] + [piece])
    ensures Reported([MODULE_PIECE, piece]) != Finish(Declared([MODULE_PIECE, piece]))
  {
    hide Reported, Finish, Declared, ReadAsMeant, IsPiece, IsTelling;
    ExamplePieces();
    ExampleIsTelling();
    var pieces := [MODULE_PIECE, piece];
    assert [MODULE_PIECE] + [piece] == pieces && pieces[0].ModuleLine?;
    ReportedIff(pieces);
  }

  /** A file with its requirement on one line, and one with a comment in its require block: both are reported wrong. */
  lemma MisreadWitness()
    ensures var pieces := [MODULE_PIECE, INLINE_PIECE]; Reported(pieces) != Finish(Declared(pieces))
    ensures var pieces := [MODULE_PIECE, REMARKED_PIECE]; Reported(pieces) != Finish(Declared(pieces))
  {
    hide Reported, Finish, Declared, ReadAsMeant, IsPiece, IsTelling, IsPlain, HasRemark, Hiding, Visible;
    ExampleIsPlain();
    PlainIsReadAsMeant([MODULE_PIECE]);
    InlineExample();
    MissesInline([MODULE_PIECE], INLINE_PIECE);
    ReportedWrong(INLINE_PIECE);
    RemarkedExample();
    TakesRemark([MODULE_PIECE], REMARKED_PIECE);
    ReportedWrong(REMARKED_PIECE);
  }
}
