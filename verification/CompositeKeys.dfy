/** The string keys that the services index items by, and when they tell different items apart. */
module CompositeKeys {
  import opened BaseEncoding

  ghost predicate DashFree(text: string) {
    forall i :: 0 <= i < |text| ==> text[i] != '-'
  }

  /** The v1alpha diff key: the item type and the three keys in raw base64, joined by three dashes. */
  function ReadableKey(itemType: string, k1: seq<Byte>, k2: seq<Byte>, k3: seq<Byte>): string {
    itemType + "---" + EncodeRaw(Base64, k1) + "---" + EncodeRaw(Base64, k2) + "---" + EncodeRaw(Base64, k3)
  }

  /** The v1beta diff key: the two end points and the edge's own key, joined by slashes. */
  function EdgeKey(from: seq<Byte>, to: seq<Byte>, key: seq<Byte>): seq<Byte> {
    from + [0x2F] + to + [0x2F] + key
  }

  lemma SplitAtDashes(a: string, x: string, b: string, y: string)
    requires DashFree(a) && DashFree(b) && a + "---" + x == b + "---" + y
    ensures a == b && x == y
  {
    var s, t := a + "---" + x, b + "---" + y;
    assert s[|a|] == '-' && t[|b|] == '-';
    assert |a| == |b|;
    assert a == s[..|a|] && b == t[..|b|];
    assert x == s[|a| + 3..] && y == t[|b| + 3..];
  }

  lemma EncodeRawIsInjective(base: Base, a: seq<Byte>, b: seq<Byte>)
    requires EncodeRaw(base, a) == EncodeRaw(base, b)
    ensures a == b
  {
    RawRoundTrip(base, a);
    RawRoundTrip(base, b);
  }

  lemma EncodedIsDashFree(bytes: seq<Byte>)
    ensures DashFree(EncodeRaw(Base64, bytes))
  {
    forall i | 0 <= i < |EncodeRaw(Base64, bytes)| ensures EncodeRaw(Base64, bytes)[i] != '-' {
      RawAlphabet(Base64, bytes, i);
    }
  }

  lemma JoinAssociates(a: string, b: string, c: string, d: string)
    ensures a + "---" + b + "---" + c + "---" + d == a + "---" + (b + "---" + (c + "---" + d))
  {
  }

  /** Items with the same diff key have the same type and keys, for item types without dashes. */
  lemma ReadableKeyIsInjective(s: string, a1: seq<Byte>, a2: seq<Byte>, a3: seq<Byte>, t: string, b1: seq<Byte>,
                      b2: seq<Byte>, b3: seq<Byte>)
    requires DashFree(s) && DashFree(t) && ReadableKey(s, a1, a2, a3) == ReadableKey(t, b1, b2, b3)
    ensures s == t && a1 == b1 && a2 == b2 && a3 == b3
  {
    var p1, p2, p3 := EncodeRaw(Base64, a1), EncodeRaw(Base64, a2), EncodeRaw(Base64, a3);
    var q1, q2, q3 := EncodeRaw(Base64, b1), EncodeRaw(Base64, b2), EncodeRaw(Base64, b3);
    EncodedIsDashFree(a1);
    EncodedIsDashFree(a2);
    EncodedIsDashFree(b1);
    EncodedIsDashFree(b2);
    JoinAssociates(s, p1, p2, p3);
    JoinAssociates(t, q1, q2, q3);
    SplitAtDashes(s, p1 + "---" + (p2 + "---" + p3), t, q1 + "---" + (q2 + "---" + q3));
    SplitAtDashes(p1, p2 + "---" + p3, q1, q2 + "---" + q3);
    SplitAtDashes(p2, p3, q2, q3);
    EncodeRawIsInjective(Base64, a1, b1);
    EncodeRawIsInjective(Base64, a2, b2);
    EncodeRawIsInjective(Base64, a3, b3);
  }

  /**
   Edges with end points of 32 bytes, such as digests, have the same diff key only if they are the same, slashes or not.
   */
  lemma EdgeKeyIsInjective(from: seq<Byte>, to: seq<Byte>, key: seq<Byte>, from': seq<Byte>, to': seq<Byte>,
                      key': seq<Byte>)
    requires |from| == |from'| == |to| == |to'| == 32
    requires EdgeKey(from, to, key) == EdgeKey(from', to', key')
    ensures from == from' && to == to' && key == key'
  {
    var s, t := EdgeKey(from, to, key), EdgeKey(from', to', key');
    assert from == s[..32] && from' == t[..32];
    assert to == s[33..65] && to' == t[33..65];
    assert key == s[66..] && key' == t[66..];
  }

  /** Without a fixed length the end points can run into each other. */
  lemma EdgeKeyNeedsLength()
    ensures exists from, to, key, from', to' :: EdgeKey(from, to, key) == EdgeKey(from', to', key) && from != from'
  {
    var from: seq<Byte>, to: seq<Byte> := [1, 0x2F, 2], [3];
    var from': seq<Byte>, to': seq<Byte> := [1], [2, 0x2F, 3];
    assert EdgeKey(from, to, []) == EdgeKey(from', to', []);
    assert |from| != |from'|;
  }
}
