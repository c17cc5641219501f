/** Facts about finite collections that several components share. */
module Collections {

  datatype Option<+T> = None | Some(value: T)
  {
    function GetOr(default: T): T {
      if Some? then value else default
    }
  }

  ghost predicate Distinct<T>(s: seq<T>) {
    forall i, j :: 0 <= i < j < |s| ==> s[i] != s[j]
  }

  /** LIMIT and OFFSET of a query: a negative offset counts as zero. */
  function Window<T>(rows: seq<T>, limit: nat, offset: int): seq<T> {
    var from := if offset < 0 then 0 else if offset > |rows| then |rows| else offset;
    rows[from..if from + limit < |rows| then from + limit else |rows|]
  }

  /** `s` lists every element of `xs` exactly once, in some order. */
  ghost predicate Enumerates<T>(s: seq<T>, xs: set<T>) {
    && Distinct(s)
    && |s| == |xs|
    && (forall i :: 0 <= i < |s| ==> s[i] in xs)
    && (forall x :: x in xs ==> x in s)
  }

  /** Extending an enumeration by one new element. */
  lemma EnumeratesAppend<T>(s: seq<T>, xs: set<T>, x: T)
    requires Enumerates(s, xs) && x !in xs
    ensures Enumerates(s + [x], xs + {x})
  {
    forall y | y in xs + {x} ensures y in s + [x] {
      if y != x {
        assert y in s;
        var i :| 0 <= i < |s| && s[i] == y;
        assert (s + [x])[i] == y;
      } else {
        assert (s + [x])[|s|] == y;
      }
    }
  }

  /** `ks` lists, in increasing order, exactly the positions below n that satisfy `keep`. */
  ghost predicate Selects(ks: seq<int>, n: nat, keep: int -> bool) {
    && (forall i, j :: 0 <= i < j < |ks| ==> ks[i] < ks[j])
    && (forall k :: k in ks <==> 0 <= k < n && keep(k))
  }

  lemma SelectsStep(ks: seq<int>, n: nat, keep: int -> bool)
    requires Selects(ks, n, keep)
    ensures Selects(if keep(n) then ks + [n] else ks, n + 1, keep)
  {
    assert forall k :: k in ks + [n] <==> k in ks || k == n;
    forall i | 0 <= i < |ks| ensures ks[i] < n { assert ks[i] in ks; }
  }

  /** Lists the elements of a set in an arbitrary order, as ranging over a map or over the rows of a query does. */
  method SetToSeq<T(==)>(xs: set<T>) returns (s: seq<T>)
    ensures Enumerates(s, xs)
  {
    s := [];
    var todo := xs;
    while todo != {}
      invariant todo <= xs
      invariant Enumerates(s, xs - todo)
      decreases |todo|
    {
      var x :| x in todo;
      EnumeratesAppend(s, xs - todo, x);
      assert xs - todo + {x} == xs - (todo - {x});
      s := s + [x];
      todo := todo - {x};
    }
    assert xs - todo == xs;
  }
}
