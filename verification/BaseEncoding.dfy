/**
 The base32 and base64 encodings of RFC 4648, sections 4 and 6: the bits of the input, most significant first,
 are cut into groups of 5 or 6, the last one filled up with zeros, and each group is written as one character.
 */
module BaseEncoding {
  import opened Collections

  type Byte = x: int | 0 <= x < 256

  datatype Base = Base32 | Base64

  /** The number of bits that one character stands for. */
  function Width(base: Base): nat {
    if base == Base32 then 5 else 6
  }

  /** The number of characters that padding fills up to. */
  function Quantum(base: Base): nat {
    if base == Base32 then 8 else 4
  }

  function Pow2(n: nat): (p: nat)
    ensures p > 0
  {
    if n == 0 then 1 else 2 * Pow2(n - 1)
  }

  // ---- Numbers and bits ----

  function ToBits(n: nat, width: nat): (bits: seq<bool>)
    ensures |bits| == width
  {
    if width == 0 then [] else ToBits(n / 2, width - 1) + [n % 2 == 1]
  }

  function FromBits(bits: seq<bool>): (n: nat)
    ensures n < Pow2(|bits|)
  {
    if bits == [] then 0 else 2 * FromBits(bits[..|bits| - 1]) + (if bits[|bits| - 1] then 1 else 0)
  }

  lemma {:induction false} FromToBits(n: nat, width: nat)
    requires n < Pow2(width)
    ensures FromBits(ToBits(n, width)) == n
  {
    if width > 0 {
      FromToBits(n / 2, width - 1);
      assert ToBits(n, width)[..width - 1] == ToBits(n / 2, width - 1);
    }
  }

  lemma {:induction false} ToFromBits(bits: seq<bool>)
    ensures ToBits(FromBits(bits), |bits|) == bits
  {
    if bits != [] {
      ToFromBits(bits[..|bits| - 1]);
      assert bits == bits[..|bits| - 1] + [bits[|bits| - 1]];
    }
  }

  // ---- Bytes ----

  function BytesBits(bytes: seq<Byte>): (bits: seq<bool>)
    ensures |bits| == 8 * |bytes|
  {
    if bytes == [] then [] else ToBits(bytes[0], 8) + BytesBits(bytes[1..])
  }

  lemma Pow2Of8()
    ensures Pow2(8) == 256
  {
    assert Pow2(4) == 16;
  }

  function BitsByte(bits: seq<bool>): Byte
    requires |bits| == 8
  {
    Pow2Of8();
    FromBits(bits)
  }

  /** The whole bytes that the bits make up. */
  function BitsBytes(bits: seq<bool>): (bytes: seq<Byte>)
    ensures |bytes| == |bits| / 8
  {
    if |bits| < 8 then [] else [BitsByte(bits[..8])] + BitsBytes(bits[8..])
  }

  /** The bytes come back from their bits, whatever fewer than eight bits follow. */
  lemma {:induction false} BytesComeBack(bytes: seq<Byte>, rest: seq<bool>)
    requires |rest| < 8
    ensures BitsBytes(BytesBits(bytes) + rest) == bytes
  {
    if bytes != [] {
      var bits := BytesBits(bytes) + rest;
      assert bits[..8] == ToBits(bytes[0], 8);
      assert bits[8..] == BytesBits(bytes[1..]) + rest;
      Pow2Of8();
      FromToBits(bytes[0], 8);
      BytesComeBack(bytes[1..], rest);
    }
  }

  // ---- Groups ----

  function Zeros(n: nat): (bits: seq<bool>)
    ensures |bits| == n
  {
    seq(n, _ => false)
  }

  /** The bits cut into groups of the given width, as numbers. */
  function Groups(bits: seq<bool>, width: nat): (groups: seq<nat>)
    requires width > 0
    ensures forall i :: 0 <= i < |groups| ==> groups[i] < Pow2(width)
  {
    if bits == [] then []
    else if |bits| <= width then [FromBits(bits + Zeros(width - |bits|))]
    else [FromBits(bits[..width])] + Groups(bits[width..], width)
  }

  function GroupsBits(groups: seq<nat>, width: nat): seq<bool> {
    if groups == [] then [] else ToBits(groups[0], width) + GroupsBits(groups[1..], width)
  }

  lemma GroupsOfOne(bits: seq<bool>, width: nat)
    requires width > 0 && bits != [] && |bits| <= width
    ensures GroupsBits(Groups(bits, width), width) == bits + Zeros(width - |bits|)
  {
    var group := bits + Zeros(width - |bits|);
    ToFromBits(group);
    assert GroupsBits([], width) == [];
    assert [FromBits(group)][1..] == [];
    assert GroupsBits([FromBits(group)], width) == ToBits(FromBits(group), width) + [];
  }

  lemma GroupsOfMore(bits: seq<bool>, width: nat)
    requires 0 < width < |bits|
    ensures GroupsBits(Groups(bits, width), width) == bits[..width] + GroupsBits(Groups(bits[width..], width), width)
  {
    var rest := Groups(bits[width..], width);
    ToFromBits(bits[..width]);
    assert ([FromBits(bits[..width])] + rest)[1..] == rest;
  }

  /** The bits come back from their groups, followed by fewer zeros than a group has bits. */
  lemma {:induction false} GroupsComeBack(bits: seq<bool>, width: nat) returns (rest: seq<bool>)
    requires width > 0
    ensures |rest| < width && GroupsBits(Groups(bits, width), width) == bits + rest
  {
    if bits == [] {
      rest := [];
    } else if |bits| <= width {
      GroupsOfOne(bits, width);
      rest := Zeros(width - |bits|);
    } else {
      rest := GroupsComeBack(bits[width..], width);
      GroupsOfMore(bits, width);
      assert bits == bits[..width] + bits[width..];
    }
  }

  // ---- Characters ----

  function CharOf(base: Base, group: nat): char
    requires group < Pow2(Width(base))
  {
    assert Pow2(5) == 32 && Pow2(6) == 64 by { assert Pow2(4) == 16; }
    if group < 26 then ('A' as int + group) as char
    else if base == Base32 then ('2' as int + (group - 26)) as char
    else if group < 52 then ('a' as int + (group - 26)) as char
    else if group < 62 then ('0' as int + (group - 52)) as char
    else if group == 62 then '+' else '/'
  }

  function GroupOf(base: Base, c: char): Option<nat> {
    if 'A' <= c <= 'Z' then Some(c as int - 'A' as int)
    else if base == Base32 then (if '2' <= c <= '7' then Some(26 + (c as int - '2' as int)) else None)
    else if 'a' <= c <= 'z' then Some(26 + (c as int - 'a' as int))
    else if '0' <= c <= '9' then Some(52 + (c as int - '0' as int))
    else if c == '+' then Some(62) else if c == '/' then Some(63) else None
  }

  lemma CharComesBack(base: Base, group: nat)
    requires group < Pow2(Width(base))
    ensures GroupOf(base, CharOf(base, group)) == Some(group)
    ensures CharOf(base, group) !in {'=', '-', '\r', '\n'} && CharOf(base, group) as int < 128
  {
    assert Pow2(5) == 32 && Pow2(6) == 64 by { assert Pow2(4) == 16; }
  }

  // ---- The encodings ----

  /** The encoding without padding. */
  function EncodeRaw(base: Base, bytes: seq<Byte>): string {
    var groups := Groups(BytesBits(bytes), Width(base));
    seq(|groups|, i requires 0 <= i < |groups| => CharOf(base, groups[i]))
  }

  function Padding(base: Base, length: nat): nat {
    (Quantum(base) - length % Quantum(base)) % Quantum(base)
  }

  /** The encoding with padding. */
  function Encode(base: Base, bytes: seq<Byte>): string {
    EncodeRaw(base, bytes) + seq(Padding(base, |EncodeRaw(base, bytes)|), _ => '=')
  }

  function CharGroups(base: Base, text: string): Option<seq<nat>> {
    if text == [] then Some([]) else
      match (GroupOf(base, text[0]), CharGroups(base, text[1..]))
      case (Some(group), Some(groups)) => Some([group] + groups)
      case _ => None
  }

  function DecodeRaw(base: Base, text: string): Option<seq<Byte>> {
    match CharGroups(base, text)
    case None => None
    case Some(groups) => Some(BitsBytes(GroupsBits(groups, Width(base))))
  }

  /** The text without the padding characters at its end. */
  function Unpadded(text: string): string {
    if text != [] && text[|text| - 1] == '=' then Unpadded(text[..|text| - 1]) else text
  }

  /** Line breaks in the text are skipped before it is decoded. */
  function WithoutLineBreaks(text: string): string {
    if text == [] then []
    else (if text[0] == '\r' || text[0] == '\n' then [] else [text[0]]) + WithoutLineBreaks(text[1..])
  }

  /** The characters end with the last whole byte: no character stands for left-over bits alone. */
  predicate EndsWithByte(base: Base, length: nat) {
    length * Width(base) % 8 < Width(base)
  }

  /**
   Decoding fails on a character outside the alphabet, on a stray last character and on the wrong amount of padding.
   */
  function Decode(base: Base, text: string): Option<seq<Byte>> {
    var clean := WithoutLineBreaks(text);
    var body := Unpadded(clean);
    if EndsWithByte(base, |body|) && |clean| - |body| == Padding(base, |body|) then DecodeRaw(base, body) else None
  }

  // ---- Round trips ----

  lemma {:induction false} CharGroupsOf(base: Base, groups: seq<nat>, text: string)
    requires |text| == |groups|
    requires forall i :: 0 <= i < |groups| ==> groups[i] < Pow2(Width(base)) && text[i] == CharOf(base, groups[i])
    ensures CharGroups(base, text) == Some(groups)
  {
    if groups != [] {
      CharComesBack(base, groups[0]);
      CharGroupsOf(base, groups[1..], text[1..]);
      assert groups == [groups[0]] + groups[1..];
    }
  }

  lemma RawRoundTrip(base: Base, bytes: seq<Byte>)
    ensures DecodeRaw(base, EncodeRaw(base, bytes)) == Some(bytes)
  {
    var groups := Groups(BytesBits(bytes), Width(base));
    CharGroupsOf(base, groups, EncodeRaw(base, bytes));
    var rest := GroupsComeBack(BytesBits(bytes), Width(base));
    BytesComeBack(bytes, rest);
  }

  lemma {:induction false} UnpaddedOf(text: string, n: nat)
    requires text == [] || text[|text| - 1] != '='
    ensures Unpadded(text + seq(n, _ => '=')) == text
  {
    var padded := text + seq(n, _ => '=');
    if n == 0 {
      assert padded == text;
    } else {
      assert padded[..|padded| - 1] == text + seq(n - 1, _ => '=');
      UnpaddedOf(text, n - 1);
    }
  }

  /** What an encoding writes contains no padding, no dashes and no line breaks. */
  lemma RawAlphabet(base: Base, bytes: seq<Byte>, i: nat)
    requires i < |EncodeRaw(base, bytes)|
    ensures EncodeRaw(base, bytes)[i] !in {'=', '-', '\r', '\n'} && EncodeRaw(base, bytes)[i] as int < 128
  {
    CharComesBack(base, Groups(BytesBits(bytes), Width(base))[i]);
  }

  lemma {:induction false} NoLineBreaks(text: string)
    requires forall i :: 0 <= i < |text| ==> text[i] != '\r' && text[i] != '\n'
    ensures WithoutLineBreaks(text) == text
  {
    if text != [] {
      NoLineBreaks(text[1..]);
      assert text == [text[0]] + text[1..];
    }
  }

  lemma {:induction false} GroupCount(base: Base, bits: seq<bool>)
    ensures |Groups(bits, Width(base))| == (|bits| + Width(base) - 1) / Width(base)
  {
    if |bits| > Width(base) {
      GroupCount(base, bits[Width(base)..]);
    }
  }

  /** The number of characters without padding, from the number of bytes. */
  lemma RawLength(base: Base, bytes: seq<Byte>)
    ensures |EncodeRaw(base, bytes)| == if base == Base32 then (8 * |bytes| + 4) / 5 else (8 * |bytes| + 5) / 6
  {
    GroupCount(base, BytesBits(bytes));
  }

  lemma Remainder(q: nat, rest: nat)
    ensures rest < 8 ==> (8 * q + rest) % 8 == rest
    ensures rest < 4 ==> (4 * q + rest) % 4 == rest
  {
  }

  lemma Lengths32(n: nat, length: nat)
    requires length == (8 * n + 4) / 5
    ensures 5 * length % 8 < 5 && length + Padding(Base32, length) == 8 * ((n + 4) / 5)
  {
    var q, r := n / 5, n % 5;
    assert n == 5 * q + r;
    var rest := if r == 0 then 0 else if r == 1 then 2 else if r == 2 then 4 else if r == 3 then 5 else 7;
    assert length == 8 * q + rest;
    Remainder(q, rest);
    Remainder(5 * q + 5 * rest / 8, 5 * rest % 8);
    assert (n + 4) / 5 == if r == 0 then q else q + 1;
  }

  lemma Lengths64(n: nat, length: nat)
    requires length == (8 * n + 5) / 6
    ensures 6 * length % 8 < 6 && length + Padding(Base64, length) == 4 * ((n + 2) / 3)
  {
    var q, r := n / 3, n % 3;
    assert n == 3 * q + r;
    var rest := if r == 0 then 0 else r + 1;
    assert length == 4 * q + rest;
    Remainder(q, rest);
    Remainder(3 * q + 6 * rest / 8, 6 * rest % 8);
    assert (n + 2) / 3 == if r == 0 then q else q + 1;
  }

  lemma EncodedEndsWithByte(base: Base, bytes: seq<Byte>)
    ensures EndsWithByte(base, |EncodeRaw(base, bytes)|)
  {
    hide EncodeRaw, Padding;
    var length := |EncodeRaw(base, bytes)|;
    RawLength(base, bytes);
    if base == Base32 { Lengths32(|bytes|, length); } else { Lengths64(|bytes|, length); }
  }

  lemma DecodePadded(base: Base, text: string)
    requires text == [] || text[|text| - 1] != '='
    requires forall i :: 0 <= i < |text| ==> text[i] != '\r' && text[i] != '\n'
    requires EndsWithByte(base, |text|)
    ensures Decode(base, text + seq(Padding(base, |text|), _ => '=')) == DecodeRaw(base, text)
  {
    NoLineBreaks(text + seq(Padding(base, |text|), _ => '='));
    UnpaddedOf(text, Padding(base, |text|));
  }

  /** Decoding undoes encoding, for both bases and every input. */
  lemma RoundTrip(base: Base, bytes: seq<Byte>)
    ensures Decode(base, Encode(base, bytes)) == Some(bytes)
  {
    var text := EncodeRaw(base, bytes);
    forall i | 0 <= i < |text| ensures text[i] !in {'=', '-', '\r', '\n'} { RawAlphabet(base, bytes, i); }
    EncodedEndsWithByte(base, bytes);
    DecodePadded(base, text);
    RawRoundTrip(base, bytes);
  }

  /** The number of bytes whose bits fill up a quantum of characters. */
  function BytesPerQuantum(base: Base): nat {
    if base == Base32 then 5 else 3
  }

  /** An encoding has one quantum of characters for each quantum of bytes that is begun. */
  lemma EncodedLength(base: Base, bytes: seq<Byte>)
    ensures |Encode(base, bytes)| == Quantum(base) * ((|bytes| + BytesPerQuantum(base) - 1) / BytesPerQuantum(base))
  {
    hide EncodeRaw, Padding;
    var length := |EncodeRaw(base, bytes)|;
    RawLength(base, bytes);
    if base == Base32 { Lengths32(|bytes|, length); } else { Lengths64(|bytes|, length); }
  }

  // ---- Which character stands for which bits ----

  /** Characters that follow each other, such as the ten digits from '0' on. */
  function Following(first: char, n: nat): (chars: string)
    requires first as int + n <= 128
    ensures |chars| == n
  {
    seq(n, i requires 0 <= i < n => (first as int + i) as char)
  }

  /** The tables of RFC 4648: letters before digits, and in base64 also the small letters and two signs. */
  function Alphabet(base: Base): (alphabet: string)
    ensures |alphabet| == Pow2(Width(base))
  {
    assert Pow2(5) == 32 && Pow2(6) == 64 by { assert Pow2(4) == 16; }
    if base == Base32 then Following('A', 26) + Following('2', 6)
    else Following('A', 26) + Following('a', 26) + Following('0', 10) + "+/"
  }

  lemma CharIs(base: Base, group: nat)
    requires group < Pow2(Width(base))
    ensures CharOf(base, group) == Alphabet(base)[group]
  {
    assert Pow2(5) == 32 && Pow2(6) == 64 by { assert Pow2(4) == 16; }
  }

  /** The k-th of `width` bits of a number, the most significant first. */
  predicate Bit(n: nat, width: nat, k: nat)
    requires k < width
  {
    n / Pow2(width - 1 - k) % 2 == 1
  }

  /** The bits of the bytes one after the other, followed by zeros. */
  predicate StreamBit(bytes: seq<Byte>, b: nat) {
    b < 8 * |bytes| && Bit(bytes[b / 8], 8, b % 8)
  }

  lemma SmallMultiple(p: int, d: int)
    requires -p < p * d < p
    ensures d == 0
  {
  }

  lemma Regroup(d: int, p: int, a: int, s: int)
    ensures d * (p * a + s) == d * p * a + d * s
  {
  }

  lemma Bounded(d: int, p: int, s: int, r: int)
    requires 0 <= s < p && 0 <= r < d
    ensures 0 <= d * s + r < d * p
  {
    assert d * s <= d * (p - 1);
  }

  lemma QuotientIs(n: int, p: int, q: int, r: int)
    requires 0 <= r < p && n == p * q + r
    ensures n / p == q
  {
    Difference(p, n / p, q);
    SmallMultiple(p, n / p - q);
  }

  lemma Difference(p: int, a: int, b: int)
    ensures p * (a - b) == p * a - p * b
  {
  }

  /** Dividing twice is dividing by the product. */
  lemma DivideTwice(n: nat, d: nat, p: nat)
    requires d > 0 && p > 0
    ensures d * p > 0 && n / d / p == n / (d * p)
  {
    var a, s := n / d / p, n / d % p;
    Bounded(d, p, s, n % d);
    Regroup(d, p, a, s);
    Remains(n, d, p, a, s);
    QuotientIs(n, d * p, a, d * s + n % d);
  }

  lemma Remains(n: int, d: int, p: int, a: int, s: int)
    requires d > 0 && p > 0 && a == n / d / p && s == n / d % p
    ensures n == d * (p * a + s) + n % d
  {
    var q := n / d;
    assert q == p * a + s;
    assert n == d * q + n % d;
  }

  lemma {:induction false} ToBitsAt(n: nat, width: nat, k: nat)
    requires k < width
    ensures ToBits(n, width)[k] <==> Bit(n, width, k)
  {
    if k < width - 1 {
      ToBitsAt(n / 2, width - 1, k);
      DivideTwice(n, 2, Pow2(width - 2 - k));
    }
  }

  lemma {:induction false} BytesBitsAt(bytes: seq<Byte>, b: nat)
    requires b < 8 * |bytes|
    ensures BytesBits(bytes)[b] == ToBits(bytes[b / 8], 8)[b % 8]
  {
    if b >= 8 {
      BytesBitsAt(bytes[1..], b - 8);
      assert (b - 8) / 8 == b / 8 - 1 && (b - 8) % 8 == b % 8;
    }
  }

  lemma FirstGroupAt(bits: seq<bool>, width: nat, k: nat)
    requires 0 < width && bits != [] && k < width
    ensures Groups(bits, width) != []
    ensures ToBits(Groups(bits, width)[0], width)[k] <==> k < |bits| && bits[k]
  {
    hide ToBits, FromBits;
    ToFromBits(if |bits| <= width then bits + Zeros(width - |bits|) else bits[..width]);
  }

  lemma {:induction false} GroupBitsAt(bits: seq<bool>, width: nat, i: nat, k: nat)
    requires 0 < width && i < |Groups(bits, width)| && k < width
    ensures ToBits(Groups(bits, width)[i], width)[k] <==> width * i + k < |bits| && bits[width * i + k]
  {
    hide ToBits, FromBits, Zeros;
    if i == 0 {
      FirstGroupAt(bits, width, k);
    } else {
      var rest := bits[width..];
      assert Groups(bits, width)[i] == Groups(rest, width)[i - 1];
      GroupBitsAt(rest, width, i - 1, k);
      assert width * (i - 1) + k == width * i + k - width;
    }
  }

  /** The i-th character is that of the table for the i-th group of bits. */
  lemma EncodedChar(base: Base, bytes: seq<Byte>, i: nat) returns (group: nat)
    requires i < |EncodeRaw(base, bytes)|
    ensures group < Pow2(Width(base)) && EncodeRaw(base, bytes)[i] == Alphabet(base)[group]
    ensures forall k :: 0 <= k < Width(base) ==>
      (Bit(group, Width(base), k) <==> StreamBit(bytes, Width(base) * i + k))
  {
    hide CharOf, Alphabet, ToBits, Groups, BytesBits, Bit;
    var width, bits := Width(base), BytesBits(bytes);
    group := Groups(bits, width)[i];
    CharIs(base, group);
    forall k | 0 <= k < width ensures Bit(group, width, k) <==> StreamBit(bytes, width * i + k) {
      var b := width * i + k;
      GroupBitsAt(bits, width, i, k);
      ToBitsAt(group, width, k);
      if b < 8 * |bytes| {
        BytesBitsAt(bytes, b);
        ToBitsAt(bytes[b / 8], 8, b % 8);
      }
    }
  }

  // ---- Which texts are decoded ----

  /** The number of characters for so many bytes, without padding. */
  function RawCount(base: Base, bytes: nat): nat {
    (8 * bytes + Width(base) - 1) / Width(base)
  }

  /** The character stands for the bits of the bytes from bit `at` on, whatever it says beyond their last bit. */
  ghost predicate StandsFor(base: Base, c: char, bytes: seq<Byte>, at: nat) {
    exists group: nat :: group < Pow2(Width(base)) && c == Alphabet(base)[group] && HasBits(base, group, bytes, at)
  }

  ghost predicate HasBits(base: Base, group: nat, bytes: seq<Byte>, at: nat) {
    forall k :: 0 <= k < Width(base) && at + k < 8 * |bytes| ==>
      (Bit(group, Width(base), k) <==> StreamBit(bytes, at + k))
  }

  /** `text` encodes the bytes, up to bits of its last character that are not used. */
  ghost predicate IsEncodingOf(base: Base, text: string, bytes: seq<Byte>) {
    var n := RawCount(base, |bytes|);
    && |text| == n + Padding(base, n)
    && (forall i :: 0 <= i < n ==> StandsFor(base, text[i], bytes, Width(base) * i))
    && (forall i :: n <= i < |text| ==> text[i] == '=')
  }

  lemma {:induction false} GroupsBitsAt(groups: seq<nat>, width: nat, i: nat, k: nat)
    requires i < |groups| && k < width
    ensures 0 <= width * i + k < |GroupsBits(groups, width)|
    ensures GroupsBits(groups, width)[width * i + k] <==> Bit(groups[i], width, k)
  {
    hide ToBits, Bit;
    if i == 0 {
      ToBitsAt(groups[0], width, k);
    } else {
      GroupsBitsAt(groups[1..], width, i - 1, k);
      assert width * i == width * (i - 1) + width;
    }
  }

  lemma {:induction false} GroupsBitsCount(groups: seq<nat>, width: nat)
    ensures |GroupsBits(groups, width)| == width * |groups|
  {
    if groups != [] {
      GroupsBitsCount(groups[1..], width);
      assert width * |groups| == width + width * |groups[1..]|;
    }
  }

  /** The bits of the bytes are those that the bytes are made of. */
  lemma {:induction false} BitsComeBack(bits: seq<bool>)
    ensures BytesBits(BitsBytes(bits)) == bits[..8 * (|bits| / 8)]
  {
    if |bits| >= 8 {
      BitsComeBack(bits[8..]);
      ToFromBits(bits[..8]);
      assert |bits[8..]| / 8 == |bits| / 8 - 1;
      assert bits[..8 * (|bits| / 8)] == bits[..8] + bits[8..][..8 * (|bits[8..]| / 8)];
      var byte, rest := BitsByte(bits[..8]), BitsBytes(bits[8..]);
      assert ([byte] + rest)[1..] == rest;
    }
  }

  lemma GroupIs(base: Base, c: char, group: nat)
    ensures GroupOf(base, c) == Some(group) <==> group < Pow2(Width(base)) && c == Alphabet(base)[group]
  {
    assert Pow2(5) == 32 && Pow2(6) == 64 by { assert Pow2(4) == 16; }
    if group < Pow2(Width(base)) {
      CharIs(base, group);
      CharComesBack(base, group);
    }
  }

  lemma {:induction false} CharGroupsAre(base: Base, text: string)
    ensures CharGroups(base, text).Some? <==> forall i :: 0 <= i < |text| ==> GroupOf(base, text[i]).Some?
    ensures CharGroups(base, text).Some? ==>
      && |CharGroups(base, text).value| == |text|
      && forall i :: 0 <= i < |text| ==> GroupOf(base, text[i]) == Some(CharGroups(base, text).value[i])
  {
    hide GroupOf;
    if text != [] {
      CharGroupsAre(base, text[1..]);
      assert text == [text[0]] + text[1..];
    }
  }

  lemma CountsAgree(base: Base, chars: nat, bytes: nat)
    requires EndsWithByte(base, chars)
    ensures Width(base) * chars / 8 == bytes <==> chars == RawCount(base, bytes)
  {
  }

  /** What the bits of a text say, against the bits of some bytes. */
  lemma SameBits(base: Base, groups: seq<nat>, bytes: seq<Byte>)
    requires |groups| == RawCount(base, |bytes|) && Width(base) * |groups| / 8 == |bytes|
    ensures BitsBytes(GroupsBits(groups, Width(base))) == bytes
       <==> forall i :: 0 <= i < |groups| ==> HasBits(base, groups[i], bytes, Width(base) * i)
  {
    hide ToBits, Bit, GroupsBits, BytesBits, BitsBytes, StreamBit;
    var width := Width(base);
    var bits := GroupsBits(groups, width);
    GroupsBitsCount(groups, width);
    BitsComeBack(bits);
    if BitsBytes(bits) == bytes {
      forall i | 0 <= i < |groups| ensures HasBits(base, groups[i], bytes, width * i) {
        forall k | 0 <= k < width && width * i + k < 8 * |bytes|
          ensures Bit(groups[i], width, k) <==> StreamBit(bytes, width * i + k)
        {
          GroupsBitsAt(groups, width, i, k);
          StreamBitIs(bytes, width * i + k);
        }
      }
    } else if forall i :: 0 <= i < |groups| ==> HasBits(base, groups[i], bytes, width * i) {
      forall x | 0 <= x < 8 * |bytes| ensures bits[x] == BytesBits(bytes)[x] {
        var i, k := x / width, x % width;
        assert x == width * i + k && i < |groups|;
        GroupsBitsAt(groups, width, i, k);
        StreamBitIs(bytes, x);
        assert HasBits(base, groups[i], bytes, width * i);
      }
      assert bits[..8 * |bytes|] == BytesBits(bytes);
      SameBytes(BitsBytes(bits), bytes);
    }
  }

  lemma StreamBitIs(bytes: seq<Byte>, b: nat)
    requires b < 8 * |bytes|
    ensures BytesBits(bytes)[b] <==> StreamBit(bytes, b)
  {
    hide ToBits, Bit, BytesBits;
    BytesBitsAt(bytes, b);
    ToBitsAt(bytes[b / 8], 8, b % 8);
  }

  lemma SameBytes(a: seq<Byte>, b: seq<Byte>)
    requires BytesBits(a) == BytesBits(b)
    ensures a == b
  {
    BytesComeBack(a, []);
    BytesComeBack(b, []);
  }

  lemma DecodesRawIff(base: Base, body: string, bytes: seq<Byte>)
    requires EndsWithByte(base, |body|)
    ensures DecodeRaw(base, body) == Some(bytes) <==>
      |body| == RawCount(base, |bytes|)
      && forall i :: 0 <= i < |body| ==> StandsFor(base, body[i], bytes, Width(base) * i)
  {
    hide GroupOf, GroupsBits, BitsBytes, HasBits, RawCount, Alphabet, EndsWithByte, CharGroups;
    CharGroupsAre(base, body);
    CountsAgree(base, |body|, |bytes|);
    forall i, group: nat | 0 <= i < |body|
      ensures GroupOf(base, body[i]) == Some(group) <==> group < Pow2(Width(base)) && body[i] == Alphabet(base)[group]
    {
      GroupIs(base, body[i], group);
    }
    match CharGroups(base, body)
    case None =>
    case Some(groups) =>
      GroupsBitsCount(groups, Width(base));
      if |body| == RawCount(base, |bytes|) { SameBits(base, groups, bytes); }
  }

  lemma {:induction false} UnpaddedIs(text: string)
    ensures Unpadded(text) <= text
    ensures forall i :: |Unpadded(text)| <= i < |text| ==> text[i] == '='
  {
    if text != [] && text[|text| - 1] == '=' { UnpaddedIs(text[..|text| - 1]); }
  }

  lemma RawCountEndsWithByte(base: Base, bytes: nat)
    ensures EndsWithByte(base, RawCount(base, bytes))
  {
    hide Padding;
    if base == Base32 { Lengths32(bytes, RawCount(base, bytes)); } else { Lengths64(bytes, RawCount(base, bytes)); }
  }

  lemma NoPaddingStands(base: Base, bytes: seq<Byte>, at: nat)
    ensures !StandsFor(base, '=', bytes, at)
  {
    forall group: nat | group < Pow2(Width(base)) ensures Alphabet(base)[group] != '=' {
      CharIs(base, group);
      CharComesBack(base, group);
    }
  }

  /** A text decodes to these bytes if and only if it encodes them, line breaks and unused bits aside. */
  lemma DecodesIff(base: Base, text: string, bytes: seq<Byte>)
    ensures Decode(base, text) == Some(bytes) <==> IsEncodingOf(base, WithoutLineBreaks(text), bytes)
  {
    hide DecodeRaw, StandsFor, RawCount, EndsWithByte, Padding, WithoutLineBreaks, Unpadded;
    var clean, n := WithoutLineBreaks(text), RawCount(base, |bytes|);
    UnpaddedIs(clean);
    RawCountEndsWithByte(base, |bytes|);
    if IsEncodingOf(base, clean, bytes) {
      assert clean == clean[..n] + seq(Padding(base, n), _ => '=');
      if n > 0 { NoPaddingStands(base, bytes, Width(base) * (n - 1)); }
      UnpaddedOf(clean[..n], Padding(base, n));
    }
    var body := Unpadded(clean);
    if EndsWithByte(base, |body|) { DecodesRawIff(base, body, bytes); }
  }
}
