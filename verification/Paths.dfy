/** Splitting a path at its separators and joining names with them. */
module Paths {

  /** A list of names, from the root down. */
  type Parts = seq<string>

  /** The pieces between separators; there is always one. */
  function Split(sep: char, text: string): (parts: Parts)
    ensures |parts| > 0
  {
    if text == [] then [[]]
    else
      var rest := Split(sep, text[1..]);
      if text[0] == sep then [[]] + rest else [[text[0]] + rest[0]] + rest[1..]
  }

  function Join(sep: char, parts: Parts): string {
    if parts == [] then [] else if |parts| == 1 then parts[0] else parts[0] + [sep] + Join(sep, parts[1..])
  }

  predicate SepFree(sep: char, name: string) {
    sep !in name
  }

  ghost predicate AllSepFree(sep: char, parts: Parts) {
    forall i :: 0 <= i < |parts| ==> SepFree(sep, parts[i])
  }

  lemma {:induction false} SplitIsSepFree(sep: char, text: string)
    ensures AllSepFree(sep, Split(sep, text))
  {
    if text != [] {
      SplitIsSepFree(sep, text[1..]);
    }
  }

  lemma {:induction false} SplitOfName(sep: char, name: string)
    requires SepFree(sep, name)
    ensures Split(sep, name) == [name]
  {
    if name != [] {
      SplitOfName(sep, name[1..]);
      assert [name[0]] + name[1..] == name;
    }
  }

  lemma {:induction false} SplitAtSep(sep: char, name: string, rest: string)
    requires SepFree(sep, name)
    ensures Split(sep, name + [sep] + rest) == [name] + Split(sep, rest)
  {
    var text := name + [sep] + rest;
    if name == [] {
      assert text[1..] == rest;
    } else {
      SplitAtSep(sep, name[1..], rest);
      assert text[1..] == name[1..] + [sep] + rest;
      assert [name[0]] + name[1..] == name;
    }
  }

  /** Splitting undoes joining, for names without separators. */
  lemma {:induction false} SplitJoin(sep: char, parts: Parts)
    requires parts != [] && AllSepFree(sep, parts)
    ensures Split(sep, Join(sep, parts)) == parts
  {
    if |parts| == 1 {
      assert parts == [parts[0]];
      SplitOfName(sep, parts[0]);
    } else {
      SplitJoin(sep, parts[1..]);
      SplitAtSep(sep, parts[0], Join(sep, parts[1..]));
      assert parts == [parts[0]] + parts[1..];
    }
  }

  /** Joining undoes splitting, for every text. */
  lemma {:induction false} JoinSplit(sep: char, text: string)
    ensures Join(sep, Split(sep, text)) == text
  {
    if text != [] {
      var rest := Split(sep, text[1..]);
      JoinSplit(sep, text[1..]);
      if text[0] == sep {
        assert ([[]] + rest)[1..] == rest;
        assert text == [] + [sep] + text[1..];
      } else {
        var parts := [[text[0]] + rest[0]] + rest[1..];
        assert parts[1..] == rest[1..];
        if |rest| > 1 {
          assert [text[0]] + (rest[0] + [sep] + Join(sep, rest[1..]))
            == ([text[0]] + rest[0]) + [sep] + Join(sep, rest[1..]);
        }
        assert text == [text[0]] + text[1..];
      }
    }
  }

  lemma JoinFirst(sep: char, c: char, rest: Parts)
    requires rest != []
    ensures Join(sep, [[]] + rest) == [sep] + Join(sep, rest)
    ensures Join(sep, [[c] + rest[0]] + rest[1..]) == [c] + Join(sep, rest)
  {
    assert ([[]] + rest)[1..] == rest;
    assert ([[c] + rest[0]] + rest[1..])[1..] == rest[1..];
    assert [c] + (rest[0] + [sep] + Join(sep, rest[1..])) == ([c] + rest[0]) + [sep] + Join(sep, rest[1..]);
  }

  /** Joining with another character what was split at the separator replaces the one by the other. */
  lemma {:induction false} JoinReplaces(sep: char, other: char, text: string)
    ensures |Join(other, Split(sep, text))| == |text|
    ensures forall i :: 0 <= i < |text| ==>
      Join(other, Split(sep, text))[i] == if text[i] == sep then other else text[i]
  {
    hide Join;
    if text == [] {
      JoinOfNothing(other);
    } else {
      JoinReplaces(sep, other, text[1..]);
      JoinFirst(other, text[0], Split(sep, text[1..]));
    }
  }

  lemma JoinOfNothing(sep: char)
    ensures Join(sep, [[]]) == []
  {
  }

  /** One more name at the end of a path. */
  lemma {:induction false} JoinAppend(sep: char, parts: Parts, name: string)
    requires parts != []
    ensures Join(sep, parts + [name]) == Join(sep, parts) + [sep] + name
  {
    if |parts| == 1 {
      assert (parts + [name])[1..] == [name];
    } else {
      JoinAppend(sep, parts[1..], name);
      assert (parts + [name])[1..] == parts[1..] + [name];
      assert parts[0] + [sep] + (Join(sep, parts[1..]) + [sep] + name)
        == (parts[0] + [sep] + Join(sep, parts[1..])) + [sep] + name;
    }
  }

  ghost predicate Names(sep: char, parts: Parts) {
    forall i :: 0 <= i < |parts| ==> parts[i] != "" && SepFree(sep, parts[i])
  }

  /** Different lists of names make different paths. */
  lemma JoinIsInjective(sep: char, a: Parts, b: Parts)
    requires Names(sep, a) && Names(sep, b) && Join(sep, a) == Join(sep, b)
    ensures a == b
  {
    JoinIsEmpty(sep, a);
    JoinIsEmpty(sep, b);
    if a != [] && b != [] {
      SplitJoin(sep, a);
      SplitJoin(sep, b);
    }
  }

  lemma JoinIsEmpty(sep: char, parts: Parts)
    requires Names(sep, parts)
    ensures Join(sep, parts) == "" <==> parts == []
  {
    if |parts| == 1 { assert parts[0] != ""; }
  }
}
