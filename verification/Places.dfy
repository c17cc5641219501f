/** What a request says at its places, and what is said last about a key. */
module Places {

  /** A place in a request: a position in one of its files. Places are ordered as they are gone through. */
  datatype Place = Place(file: int, pos: int)

  predicate Before(p: Place, q: Place) {
    p.file < q.file || (p.file == q.file && p.pos < q.pos)
  }

  /** `says(p, pk, data)` is what is said at each place. */
  type Saying<!P, !D> = (Place, P, D) -> bool

  ghost predicate SaidUpTo<P, D(!new)>(says: Saying<P, D>, end: Place, pk: P) {
    exists p, data :: Before(p, end) && says(p, pk, data)
  }

  /** Of all that is said before `end` about `pk`, this is the last. */
  ghost predicate LastUpTo<P, D(!new)>(says: Saying<P, D>, end: Place, pk: P, data: D) {
    exists p :: IsLast(says, end, pk, data, p)
  }

  ghost predicate IsLast<P, D(!new)>(says: Saying<P, D>, end: Place, pk: P, data: D, p: Place) {
    Before(p, end) && says(p, pk, data) && forall q, d :: Before(p, q) && Before(q, end) ==> !says(q, pk, d)
  }

  /** `idx` holds, for each key that is mentioned before `end`, what is said last about it. */
  ghost predicate Holds<P(!new), D(!new)>(idx: map<P, D>, says: Saying<P, D>, end: Place) {
    && (forall pk :: pk in idx <==> SaidUpTo(says, end, pk))
    && (forall pk, data :: pk in idx && idx[pk] == data <==> LastUpTo(says, end, pk, data))
  }

  /** `idx` holds what is said at one place. */
  ghost predicate HoldsAt<P(!new), D(!new)>(idx: map<P, D>, says: Saying<P, D>, p: Place) {
    forall pk, data :: pk in idx && idx[pk] == data <==> says(p, pk, data)
  }

  /** Nothing is said from `a` up to `b`. */
  ghost predicate Silent<P(!new), D(!new)>(says: Saying<P, D>, a: Place, b: Place) {
    !Before(b, a) && forall q, pk, d :: !Before(q, a) && Before(q, b) ==> !says(q, pk, d)
  }

  lemma NothingSaid<P(!new), D(!new)>(says: Saying<P, D>, end: Place)
    requires forall q, pk, d :: Before(q, end) ==> !says(q, pk, d)
    ensures Holds(map[], says, end)
  {
  }

  lemma Skip<P(!new), D(!new)>(idx: map<P, D>, says: Saying<P, D>, a: Place, b: Place)
    requires Holds(idx, says, a) && Silent(says, a, b)
    ensures Holds(idx, says, b)
  {
    forall pk ensures SaidUpTo(says, a, pk) <==> SaidUpTo(says, b, pk) {}
    forall pk, data ensures LastUpTo(says, a, pk, data) <==> LastUpTo(says, b, pk, data) {
      forall p ensures IsLast(says, a, pk, data, p) <==> IsLast(says, b, pk, data, p) {}
    }
  }

  /** What is said at the next place overrides what was said before it. */
  lemma Step<P(!new), D(!new)>(idx: map<P, D>, says: Saying<P, D>, p: Place, said: map<P, D>)
    requires Holds(idx, says, p) && HoldsAt(said, says, p)
    ensures Holds(idx + said, says, p.(pos := p.pos + 1))
  {
    var end := p.(pos := p.pos + 1);
    assert forall q :: Before(q, end) <==> Before(q, p) || q == p;
    forall pk ensures SaidUpTo(says, end, pk) <==> pk in idx || pk in said {
      if pk in said { assert says(p, pk, said[pk]); }
      if SaidUpTo(says, p, pk) {
        var q, d :| Before(q, p) && says(q, pk, d);
        assert Before(q, end);
      }
    }
    forall pk, data ensures (pk in idx + said && (idx + said)[pk] == data) <==> LastUpTo(says, end, pk, data) {
      if pk in said {
        assert says(p, pk, said[pk]);
        assert IsLast(says, end, pk, said[pk], p);
      } else if LastUpTo(says, p, pk, data) {
        var q :| IsLast(says, p, pk, data, q);
        assert IsLast(says, end, pk, data, q);
      } else if LastUpTo(says, end, pk, data) {
        var q :| IsLast(says, end, pk, data, q);
        assert IsLast(says, p, pk, data, q);
      }
    }
  }
}
