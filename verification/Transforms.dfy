/**
 The v1beta graph store's nodes and edges, and the rows they are stored as. Keys are modelled as in v1alpha:
 the empty key, or the tuple that a digest is made from. Bodies are opaque bytes with a type URL.
 */
module Transforms {
  import opened SoftTable
  import opened BaseEncoding
  import opened Collections

  datatype Key = NoKey | SourceKey(url: string) | ModuleKey(language: string, name: string)

  datatype Body = Body(typeUrl: string, value: seq<Byte>)

  datatype Node = Node(key: Key, body: Body)

  datatype Edge = Edge(fromKey: Key, toKey: Key, key: Key, body: Body)

  datatype Encoding = Unspecified | Json | ProtocolBuffers

  datatype PrimaryKey = PrimaryKey(k1: Key, k2: Key, k3: Key)

  datatype Data = Data(kind: string, encoding: Encoding, text: seq<Byte>)

  type GraphData = Item<PrimaryKey, Data>

  type GraphTable = Table<PrimaryKey, Data>

  datatype Converted = ANode(node: Node) | AnEdge(edge: Edge) | Undecodable

  // ---- Text and bytes ----

  function TextBytes(text: string): seq<Byte> {
    seq(|text|, i requires 0 <= i < |text| => text[i] as int % 256)
  }

  function BytesText(bytes: seq<Byte>): string {
    seq(|bytes|, i requires 0 <= i < |bytes| => bytes[i] as char)
  }

  function EncodeData(data: seq<Byte>, encoding: Encoding): seq<Byte> {
    if encoding == ProtocolBuffers then TextBytes(Encode(Base64, data)) else data
  }

  function DecodeData(data: seq<Byte>, encoding: Encoding): Option<seq<Byte>> {
    if encoding == ProtocolBuffers then Decode(Base64, BytesText(data)) else Some(data)
  }

  lemma DataComesBack(data: seq<Byte>, encoding: Encoding)
    ensures DecodeData(EncodeData(data, encoding), encoding) == Some(data)
  {
    var text := Encode(Base64, data);
    forall i | 0 <= i < |text| ensures text[i] as int < 256 {
      if i < |EncodeRaw(Base64, data)| { RawAlphabet(Base64, data, i); }
    }
    assert BytesText(TextBytes(text)) == text;
    RoundTrip(Base64, data);
  }

  /** Bodies are stored as their base64 text if they are protocol buffers, and as they are otherwise. */
  lemma DataIsBase64(data: seq<Byte>, encoding: Encoding)
    ensures encoding == ProtocolBuffers ==> IsEncodingOf(Base64, BytesText(EncodeData(data, encoding)), data)
    ensures encoding != ProtocolBuffers ==> EncodeData(data, encoding) == data
  {
    hide IsEncodingOf;
    var text := Encode(Base64, data);
    forall i | 0 <= i < |text| ensures text[i] as int < 256 && text[i] !in {'\r', '\n'} {
      if i < |EncodeRaw(Base64, data)| { RawAlphabet(Base64, data, i); }
    }
    assert BytesText(TextBytes(text)) == text;
    RoundTrip(Base64, data);
    NoLineBreaks(text);
    DecodesIff(Base64, text, data);
  }

  // ---- Conversions ----

  function ConvertNode(node: Node, encoding: Encoding): GraphData {
    Item(PrimaryKey(node.key, node.key, NoKey),
      Data(node.body.typeUrl, encoding, EncodeData(node.body.value, encoding)))
  }

  function ConvertEdge(edge: Edge, encoding: Encoding): GraphData {
    Item(PrimaryKey(edge.fromKey, edge.toKey, edge.key),
      Data(edge.body.typeUrl, encoding, EncodeData(edge.body.value, encoding)))
  }

  function ConvertGraphData(item: GraphData): Converted {
    match DecodeData(item.data.text, item.data.encoding)
    case None => Undecodable
    case Some(value) =>
      var body := Body(item.data.kind, value);
      if item.key.k1 == item.key.k2 then ANode(Node(item.key.k1, body))
      else AnEdge(Edge(item.key.k1, item.key.k2, item.key.k3, body))
  }

  /** A node comes back from its row. */
  lemma NodeComesBack(node: Node, encoding: Encoding)
    ensures ConvertGraphData(ConvertNode(node, encoding)) == ANode(node)
  {
    DataComesBack(node.body.value, encoding);
  }

  /** An edge comes back from its row if and only if its end points differ; otherwise a node comes back. */
  lemma EdgeComesBack(edge: Edge, encoding: Encoding)
    ensures ConvertGraphData(ConvertEdge(edge, encoding)) == AnEdge(edge) <==> edge.fromKey != edge.toKey
    ensures edge.fromKey == edge.toKey ==>
      ConvertGraphData(ConvertEdge(edge, encoding)) == ANode(Node(edge.fromKey, edge.body))
  {
    DataComesBack(edge.body.value, encoding);
  }
}
