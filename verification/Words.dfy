/**
 Splitting text at runs of separator characters, and trimming, as the go.mod extractor does.

 A printed file is a list of lines, each with some words and with white space before and after them. Splitting the
 text at runs of newlines gives the lines back, but for empty ones; trimming a line and splitting it at runs of
 white space gives its words back. White space is what JavaScript's regular expressions take for it, and a run
 of separators at an end leaves an empty piece there, as in JavaScript.
 */
module Words {

  /** White space as JavaScript's trim and \s have it. */
  predicate IsSpace(c: char) {
    || '\t' <= c <= '\r'
    || c in {' ', '\U{A0}', '\U{1680}', '\U{2028}', '\U{2029}', '\U{202F}', '\U{205F}', '\U{3000}', '\U{FEFF}'}
    || '\U{2000}' <= c <= '\U{200A}'
  }

  /** By code points: the control characters from tab on, the spaces, the two separators and the byte order mark. */
  lemma SpacesAre(c: char)
    ensures IsSpace(c) <==> 9 <= c as int <= 13 || 0x2000 <= c as int <= 0x200A
                            || c as int in {32, 160, 0x1680, 0x2028, 0x2029, 0x202F, 0x205F, 0x3000, 0xFEFF}
  {
  }

  predicate IsNewline(c: char) {
    c == '\n'
  }

  function DropRun(text: string, isSep: char -> bool): (rest: string)
    ensures |rest| <= |text|
  {
    if text != [] && isSep(text[0]) then DropRun(text[1..], isSep) else text
  }

  /** The pieces between runs of separators; a run at an end leaves an empty piece there. */
  function SplitRuns(text: string, isSep: char -> bool): (pieces: seq<string>)
    ensures |pieces| > 0
    decreases |text|
  {
    if text == [] then [[]]
    else if isSep(text[0]) then [[]] + SplitRuns(DropRun(text[1..], isSep), isSep)
    else
      var rest := SplitRuns(text[1..], isSep);
      [[text[0]] + rest[0]] + rest[1..]
  }

  function TrimEnd(text: string): string {
    if text != [] && IsSpace(text[|text| - 1]) then TrimEnd(text[..|text| - 1]) else text
  }

  function Trim(text: string): string {
    TrimEnd(DropRun(text, IsSpace))
  }

  function Split(line: string): (words: seq<string>)
    ensures words != []
  {
    SplitRuns(line, IsSpace)
  }

  // ---- Lines of words ----

  predicate IsWord(word: string) {
    word != "" && forall i :: 0 <= i < |word| ==> !IsSpace(word[i])
  }

  ghost predicate AreWords(words: seq<string>) {
    forall i :: 0 <= i < |words| ==> IsWord(words[i])
  }

  ghost predicate AllSpace(text: string) {
    forall i :: 0 <= i < |text| ==> IsSpace(text[i]) && text[i] != '\n'
  }

  function Sentence(words: seq<string>): string {
    if words == [] then [] else if |words| == 1 then words[0] else words[0] + " " + Sentence(words[1..])
  }

  /** A line of words with white space before and after. Without words it is blank. */
  datatype Line = Line(indent: string, words: seq<string>, trailing: string)

  function Render(line: Line): string {
    line.indent + Sentence(line.words) + line.trailing
  }

  ghost predicate IsLine(line: Line) {
    AllSpace(line.indent) && AreWords(line.words) && AllSpace(line.trailing)
  }

  lemma {:induction false} DropIndent(indent: string, text: string)
    requires AllSpace(indent) && (text == [] || !IsSpace(text[0]))
    ensures DropRun(indent + text, IsSpace) == text
  {
    if indent == [] {
      assert indent + text == text;
    } else {
      assert (indent + text)[1..] == indent[1..] + text;
      DropIndent(indent[1..], text);
    }
  }

  lemma {:induction false} DropAll(text: string)
    requires AllSpace(text)
    ensures DropRun(text, IsSpace) == []
  {
    if text != [] { DropAll(text[1..]); }
  }

  lemma {:induction false} TrimTrailing(text: string, trailing: string)
    requires AllSpace(trailing) && (text == [] || !IsSpace(text[|text| - 1]))
    ensures TrimEnd(text + trailing) == text
  {
    if trailing == [] {
      assert text + trailing == text;
    } else {
      assert (text + trailing)[..|text + trailing| - 1] == text + trailing[..|trailing| - 1];
      TrimTrailing(text, trailing[..|trailing| - 1]);
    }
  }

  lemma {:induction false} SentenceEnds(words: seq<string>)
    requires AreWords(words) && words != []
    ensures var text := Sentence(words); text != [] && !IsSpace(text[0]) && !IsSpace(text[|text| - 1])
    ensures Sentence(words)[0] == words[0][0]
  {
    assert IsWord(words[0]);
    if |words| > 1 { SentenceEnds(words[1..]); }
  }

  /** Trimming a line leaves its words. */
  lemma TrimLine(line: Line)
    requires IsLine(line)
    ensures Trim(Render(line)) == Sentence(line.words)
  {
    var text := Sentence(line.words);
    if line.words == [] {
      assert Render(line) == line.indent + line.trailing;
      DropAll(line.indent + line.trailing);
    } else {
      SentenceEnds(line.words);
      assert Render(line) == line.indent + (text + line.trailing);
      DropIndent(line.indent, text + line.trailing);
      TrimTrailing(text, line.trailing);
    }
  }

  lemma {:induction false} SplitWord(word: string)
    requires forall i :: 0 <= i < |word| ==> !IsSpace(word[i])
    ensures Split(word) == [word]
  {
    if word != [] {
      SplitWord(word[1..]);
      assert [word[0]] + word[1..] == word;
    }
  }

  lemma {:induction false} SplitAtSpace(word: string, rest: string)
    requires forall i :: 0 <= i < |word| ==> !IsSpace(word[i])
    requires rest == [] || !IsSpace(rest[0])
    ensures Split(word + " " + rest) == [word] + Split(rest)
  {
    var text := word + " " + rest;
    if word == [] {
      assert text[1..] == rest;
    } else {
      SplitAtSpace(word[1..], rest);
      assert text[1..] == word[1..] + " " + rest;
      assert [word[0]] + word[1..] == word;
    }
  }

  /** Splitting a sentence gives its words back. */
  lemma {:induction false} SplitSentence(words: seq<string>)
    requires AreWords(words) && words != []
    ensures Split(Sentence(words)) == words
  {
    assert IsWord(words[0]);
    if |words| == 1 {
      SplitWord(words[0]);
      assert words == [words[0]];
    } else {
      SentenceEnds(words[1..]);
      SplitSentence(words[1..]);
      SplitAtSpace(words[0], Sentence(words[1..]));
      assert words == [words[0]] + words[1..];
    }
  }

  // ---- Text of lines ----

  function Text(lines: seq<Line>): string {
    if lines == [] then [] else Render(lines[0]) + "\n" + Text(lines[1..])
  }

  lemma {:induction false} SplitAtNewline(line: string, rest: string)
    requires '\n' !in line
    ensures SplitRuns(line + "\n" + rest, IsNewline) == [line] + SplitRuns(DropRun(rest, IsNewline), IsNewline)
  {
    var text := line + "\n" + rest;
    if line == [] {
      assert text[1..] == rest;
    } else {
      SplitAtNewline(line[1..], rest);
      assert text[1..] == line[1..] + "\n" + rest;
      assert [line[0]] + line[1..] == line;
    }
  }

  lemma {:induction false} NoNewline(words: seq<string>)
    requires AreWords(words)
    ensures '\n' !in Sentence(words)
  {
    if words != [] {
      assert IsWord(words[0]);
      NoNewline(words[1..]);
    }
  }

  lemma LineHasNoNewline(line: Line)
    requires IsLine(line)
    ensures '\n' !in Render(line)
  {
    NoNewline(line.words);
  }
}
