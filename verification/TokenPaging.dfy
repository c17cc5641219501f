/**
 Paging by token: the v1beta List call, whose token is the next offset as eight bytes in base32.

 Offsets are int64: the eight bytes are read as an unsigned number and converted, and the next offset is computed
 with wrap-around. A token that is not base32 is ignored, and one of fewer than eight bytes makes the decoder panic,
 as does a negative page size. The driver asks for one row more than the page holds, and a page has a next token
 exactly if that row came. SQLite takes a negative offset for zero.

 The rows of a kind are a sequence in the order of the store, which is taken to stay the same from page to page.
 Rows that do not decode are skipped, and do not make their page longer.
 */
module TokenPaging {
  import opened Collections
  import opened SoftTable
  import opened BaseEncoding
  import opened Transforms

  /** The rows that List reads from: the live rows of one kind, in the order in which the store returns them. */
  ghost predicate ListsKind(t: GraphTable, kind: string, rows: seq<GraphData>) {
    && Distinct(rows)
    && forall item :: item in rows <==> Live(t, item.key) && t[item.key].data == item.data && item.data.kind == kind
  }

  datatype ListResponse = ListResponse(nextPageToken: string, nodes: seq<Node>, edges: seq<Edge>)

  // ---- Offsets as tokens ----

  const TWO63 := 0x8000_0000_0000_0000
  const TWO64 := 0x1_0000_0000_0000_0000

  function Int64(n: int): int {
    (n + TWO63) % TWO64 - TWO63
  }

  /** The last n bytes of a number, the most significant first. */
  function BigEndian(value: nat, n: nat): (bytes: seq<Byte>)
    ensures |bytes| == n
  {
    if n == 0 then [] else BigEndian(value / 256, n - 1) + [value % 256]
  }

  function FromBigEndian(bytes: seq<Byte>): nat {
    if bytes == [] then 0 else 256 * FromBigEndian(bytes[..|bytes| - 1]) + bytes[|bytes| - 1]
  }

  function Pow256(n: nat): (p: nat)
    ensures p > 0
  {
    if n == 0 then 1 else 256 * Pow256(n - 1)
  }

  lemma {:induction false} BigEndianComesBack(value: nat, n: nat)
    requires value < Pow256(n)
    ensures FromBigEndian(BigEndian(value, n)) == value
  {
    if n > 0 {
      BigEndianComesBack(value / 256, n - 1);
      assert BigEndian(value, n)[..n - 1] == BigEndian(value / 256, n - 1);
    }
  }

  /** The i-th byte counts 256 to the power of the number of bytes after it. */
  lemma {:induction false} BigEndianAt(value: nat, n: nat, i: nat)
    requires i < n
    ensures BigEndian(value, n)[i] == value / Pow256(n - 1 - i) % 256
  {
    if i < n - 1 {
      BigEndianAt(value / 256, n - 1, i);
      DivideTwice(value, 256, Pow256(n - 2 - i));
    }
  }

  function Token(offset: int): string {
    Encode(Base32, BigEndian(offset % TWO64, 8))
  }

  /**
   The offset to read from and the token for the next page. None stands for the panic on a token of less than eight
   bytes.
   */
  function Paginate(lastToken: string, pageSize: int): Option<(int, string)> {
    if lastToken == "" then Some((0, Token(Int64(pageSize)))) else
      match Decode(Base32, lastToken)
      case None => Some((0, ""))
      case Some(data) =>
        if |data| < 8 then None else
          var offset := Int64(FromBigEndian(data[..8]));
          Some((offset, Token(Int64(offset + pageSize))))
  }

  lemma EightBytes()
    ensures Pow256(8) == TWO64
  {
    assert Pow256(2) == 65536;
    assert Pow256(4) == 65536 * 65536;
    assert Pow256(6) == 65536 * 65536 * 65536;
  }

  /** All tokens have sixteen characters, so no token is taken for that of the first page. */
  lemma TokenLength(offset: int)
    ensures |Token(offset)| == 16
  {
    hide BigEndian, Encode;
    var bytes := BigEndian(offset % TWO64, 8);
    EncodedLength(Base32, bytes);
    assert |bytes| == 8;
  }

  /** A token is the base32 text of the eight bytes of its offset, as a number of 64 bits, the highest byte first. */
  lemma TokenBytes(offset: int) returns (bytes: seq<Byte>)
    ensures Token(offset) == Encode(Base32, bytes) && |bytes| == 8
    ensures forall i :: 0 <= i < 8 ==> bytes[i] == offset % TWO64 / Pow256(7 - i) % 256
  {
    hide BigEndian, Encode, Pow256;
    bytes := BigEndian(offset % TWO64, 8);
    forall i | 0 <= i < 8 ensures bytes[i] == offset % TWO64 / Pow256(7 - i) % 256 {
      BigEndianAt(offset % TWO64, 8, i);
    }
  }

  /** An offset comes back from its token, for all offsets that fit an int64. */
  lemma OffsetComesBack(offset: nat, pageSize: int)
    requires offset < TWO63
    ensures Token(offset) != ""
    ensures Paginate(Token(offset), pageSize) == Some((offset, Token(Int64(offset + pageSize))))
  {
    hide BigEndian, FromBigEndian, Encode, Decode, Pow256;
    var bytes := BigEndian(offset, 8);
    EightBytes();
    BigEndianComesBack(offset, 8);
    RoundTrip(Base32, bytes);
    assert bytes[..8] == bytes;
    TokenLength(offset);
    assert offset % TWO64 == offset && Int64(offset) == offset;
  }

  // ---- One page ----

  function NodesOf(items: seq<GraphData>): seq<Node> {
    if items == [] then [] else
      match ConvertGraphData(items[|items| - 1])
      case ANode(node) => NodesOf(items[..|items| - 1]) + [node]
      case _ => NodesOf(items[..|items| - 1])
  }

  function EdgesOf(items: seq<GraphData>): seq<Edge> {
    if items == [] then [] else
      match ConvertGraphData(items[|items| - 1])
      case AnEdge(edge) => EdgesOf(items[..|items| - 1]) + [edge]
      case _ => EdgesOf(items[..|items| - 1])
  }

  /** What List answers. None stands for a panic: on a short token, or on a negative page size. */
  function Listed(rows: seq<GraphData>, pageSize: int, token: string): Option<ListResponse> {
    match Paginate(token, pageSize)
    case None => None
    case Some((offset, nextToken)) =>
      if pageSize < 0 then None else
        var results := Window(rows, pageSize, offset);
        var hasNext := |Window(rows, pageSize + 1, offset)| > pageSize;
        Some(ListResponse(if hasNext then nextToken else "", NodesOf(results), EdgesOf(results)))
  }

  /** The driver reads up to `limit` rows off the cursor, which holds one more if there is one. */
  method DriverList(rows: seq<GraphData>, offset: int, limit: nat) returns (results: seq<GraphData>, hasNext: bool)
    ensures results == Window(rows, limit, offset)
    ensures hasNext <==> |Window(rows, limit + 1, offset)| > limit
  {
    var cursor := Window(rows, limit + 1, offset);
    results := [];
    var i := 0;
    while i < limit && i < |cursor|
      invariant i <= limit && i <= |cursor| && results == cursor[..i]
    {
      results := results + [cursor[i]];
      i := i + 1;
    }
    hasNext := i < |cursor|;
    assert i == |Window(rows, limit, offset)|;
    assert cursor[..i] == Window(rows, limit, offset);
  }

  /** List on the rows of one kind. */
  method List(rows: seq<GraphData>, pageSize: int, pageToken: string) returns (r: Option<ListResponse>)
    ensures r == Listed(rows, pageSize, pageToken)
  {
    hide ConvertGraphData, Paginate, Window;
    var paginated := Paginate(pageToken, pageSize);
    if paginated.None? || pageSize < 0 { return None; }
    var (offset, nextPageToken) := paginated.value;
    var results, hasNext := DriverList(rows, offset, pageSize);
    if !hasNext {
      nextPageToken := "";
    }
    var nodes, edges := [], [];
    for i := 0 to |results|
      invariant nodes == NodesOf(results[..i]) && edges == EdgesOf(results[..i])
    {
      assert results[..i + 1][..i] == results[..i];
      match ConvertGraphData(results[i])
      case Undecodable =>
      case ANode(node) => nodes := nodes + [node];
      case AnEdge(edge) => edges := edges + [edge];
    }
    assert results[..|results|] == results;
    r := Some(ListResponse(nextPageToken, nodes, edges));
  }

  /** List panics on a negative page size, and on a token that is base32 but of too few bytes, and on nothing else. */
  lemma PanicsIff(rows: seq<GraphData>, pageSize: int, token: string)
    ensures Listed(rows, pageSize, token).None?
       <==> pageSize < 0 || (token != "" && Decode(Base32, token).Some? && |Decode(Base32, token).value| < 8)
  {
    hide Decode, NodesOf, EdgesOf, FromBigEndian, BigEndian;
  }

  /** A token that is not base32 gives the first page, with no token for a next one. */
  lemma StartsOver(rows: seq<GraphData>, pageSize: nat, token: string)
    requires token != "" && Decode(Base32, token).None?
    ensures var end := if pageSize < |rows| then pageSize else |rows|;
      Listed(rows, pageSize, token) == Some(ListResponse("", NodesOf(rows[..end]), EdgesOf(rows[..end])))
  {
    hide Decode, NodesOf, EdgesOf;
  }

  // ---- Page after page ----

  /** The responses that a client gets that starts at a token and follows the tokens until there is none. */
  ghost predicate Follows(rows: seq<GraphData>, pageSize: int, token: string, responses: seq<ListResponse>)
    decreases |responses|
  {
    && responses != []
    && Listed(rows, pageSize, token) == Some(responses[0])
    && (if responses[0].nextPageToken == "" then |responses| == 1
        else Follows(rows, pageSize, responses[0].nextPageToken, responses[1..]))
  }

  function AllNodes(responses: seq<ListResponse>): seq<Node> {
    if responses == [] then [] else responses[0].nodes + AllNodes(responses[1..])
  }

  function AllEdges(responses: seq<ListResponse>): seq<Edge> {
    if responses == [] then [] else responses[0].edges + AllEdges(responses[1..])
  }

  lemma {:induction false} NodesOfConcat(a: seq<GraphData>, b: seq<GraphData>)
    ensures NodesOf(a + b) == NodesOf(a) + NodesOf(b)
  {
    hide ConvertGraphData;
    if b == [] {
      assert a + b == a;
    } else {
      NodesOfConcat(a, b[..|b| - 1]);
      assert (a + b)[..|a + b| - 1] == a + b[..|b| - 1];
      assert (a + b)[|a + b| - 1] == b[|b| - 1];
    }
  }

  lemma {:induction false} EdgesOfConcat(a: seq<GraphData>, b: seq<GraphData>)
    ensures EdgesOf(a + b) == EdgesOf(a) + EdgesOf(b)
  {
    hide ConvertGraphData;
    if b == [] {
      assert a + b == a;
    } else {
      EdgesOfConcat(a, b[..|b| - 1]);
      assert (a + b)[..|a + b| - 1] == a + b[..|b| - 1];
      assert (a + b)[|a + b| - 1] == b[|b| - 1];
    }
  }

  lemma SplitAt(rows: seq<GraphData>, from: nat, to: nat)
    requires from <= to <= |rows|
    ensures NodesOf(rows[from..]) == NodesOf(rows[from..to]) + NodesOf(rows[to..])
    ensures EdgesOf(rows[from..]) == EdgesOf(rows[from..to]) + EdgesOf(rows[to..])
  {
    NodesOfConcat(rows[from..to], rows[to..]);
    EdgesOfConcat(rows[from..to], rows[to..]);
    assert rows[from..] == rows[from..to] + rows[to..];
  }

  /** The token that leads to an offset. */
  function TokenAt(offset: nat): string {
    if offset == 0 then "" else Token(offset)
  }

  /** The page at an offset: the next rows, and the token of the offset after them if there are rows left. */
  lemma PageAt(rows: seq<GraphData>, pageSize: nat, offset: nat)
    requires offset <= |rows| < TWO63 && (offset < |rows| || offset == 0)
    ensures offset + pageSize < |rows| ==> Listed(rows, pageSize, TokenAt(offset)) == Some(ListResponse(
      Token(offset + pageSize), NodesOf(rows[offset..offset + pageSize]), EdgesOf(rows[offset..offset + pageSize])))
    ensures offset + pageSize >= |rows| ==> Listed(rows, pageSize, TokenAt(offset)) == Some(ListResponse(
      "", NodesOf(rows[offset..]), EdgesOf(rows[offset..])))
  {
    hide Token, NodesOf, EdgesOf, Decode;
    if offset > 0 { OffsetComesBack(offset, pageSize); }
    assert Paginate(TokenAt(offset), pageSize).Some? && Paginate(TokenAt(offset), pageSize).value.0 == offset;
    assert Window(rows, pageSize, offset) ==
      if offset + pageSize < |rows| then rows[offset..offset + pageSize] else rows[offset..];
    assert offset + pageSize < |rows| ==> Int64(offset + pageSize) == offset + pageSize;
  }

  function PagesFrom(left: nat, pageSize: nat): nat
    requires pageSize > 0
  {
    if left <= pageSize then 1 else 1 + PagesFrom(left - pageSize, pageSize)
  }

  lemma {:induction false} PagesFromIs(left: nat, pageSize: nat)
    requires pageSize > 0
    ensures left == 0 ==> PagesFrom(left, pageSize) == 1
    ensures left > 0 ==> pageSize * (PagesFrom(left, pageSize) - 1) < left <= pageSize * PagesFrom(left, pageSize)
  {
    if left > pageSize {
      PagesFromIs(left - pageSize, pageSize);
      var rest := PagesFrom(left - pageSize, pageSize);
      assert pageSize * (rest + 1) == pageSize * rest + pageSize;
      assert pageSize * rest == pageSize * (rest - 1) + pageSize;
    }
  }

  lemma FirstResponse(rows: seq<GraphData>, pageSize: int, token: string, responses: seq<ListResponse>)
    requires Follows(rows, pageSize, token, responses)
    ensures responses != [] && Listed(rows, pageSize, token) == Some(responses[0])
    ensures responses[0].nextPageToken == "" ==> |responses| == 1
    ensures responses[0].nextPageToken != "" ==> Follows(rows, pageSize, responses[0].nextPageToken, responses[1..])
    ensures AllNodes(responses) == responses[0].nodes + AllNodes(responses[1..])
    ensures AllEdges(responses) == responses[0].edges + AllEdges(responses[1..])
    ensures |responses| == 1 ==> AllNodes(responses) == responses[0].nodes && AllEdges(responses) == responses[0].edges
  {
    hide Listed;
    if |responses| == 1 {
      assert responses[1..] == [];
      assert responses[0].nodes + [] == responses[0].nodes && responses[0].edges + [] == responses[0].edges;
    }
  }

  lemma {:induction false} FollowsFrom(rows: seq<GraphData>, pageSize: nat, offset: nat, responses: seq<ListResponse>)
    requires pageSize > 0 && offset <= |rows| < TWO63 && (offset < |rows| || offset == 0)
    requires Follows(rows, pageSize, TokenAt(offset), responses)
    ensures |responses| == PagesFrom(|rows| - offset, pageSize)
    ensures AllNodes(responses) == NodesOf(rows[offset..]) && AllEdges(responses) == EdgesOf(rows[offset..])
    decreases |rows| - offset
  {
    hide Listed, NodesOf, EdgesOf, Token, Follows, AllNodes, AllEdges, Paginate;
    PageAt(rows, pageSize, offset);
    FirstResponse(rows, pageSize, TokenAt(offset), responses);
    if offset + pageSize < |rows| {
      OffsetComesBack(offset + pageSize, pageSize);
      FollowsFrom(rows, pageSize, offset + pageSize, responses[1..]);
      SplitAt(rows, offset, offset + pageSize);
    }
  }

  lemma {:induction false} CanFollow(rows: seq<GraphData>, pageSize: nat, offset: nat)
    returns (responses: seq<ListResponse>)
    requires pageSize > 0 && offset <= |rows| < TWO63 && (offset < |rows| || offset == 0)
    ensures Follows(rows, pageSize, TokenAt(offset), responses)
    decreases |rows| - offset
  {
    hide Listed, NodesOf, EdgesOf, Token;
    PageAt(rows, pageSize, offset);
    var first := Listed(rows, pageSize, TokenAt(offset)).value;
    if offset + pageSize < |rows| {
      OffsetComesBack(offset + pageSize, pageSize);
      var rest := CanFollow(rows, pageSize, offset + pageSize);
      responses := [first] + rest;
      assert responses[1..] == rest;
    } else {
      responses := [first];
    }
  }

  /**
   Following the tokens from the first page reads every decodable row of the kind once and in order,
   in as many pages as the rows fill, and one if there are none.
   */
  lemma PagesRefineTheList(rows: seq<GraphData>, pageSize: nat, responses: seq<ListResponse>)
    requires pageSize > 0 && |rows| < TWO63 && Follows(rows, pageSize, "", responses)
    ensures AllNodes(responses) == NodesOf(rows) && AllEdges(responses) == EdgesOf(rows)
    ensures rows == [] ==> |responses| == 1
    ensures rows != [] ==> pageSize * (|responses| - 1) < |rows| <= pageSize * |responses|
  {
    hide Follows, NodesOf, EdgesOf;
    FollowsFrom(rows, pageSize, 0, responses);
    PagesFromIs(|rows|, pageSize);
    assert rows[0..] == rows;
  }

  /** With an empty page the token never advances. */
  lemma {:induction false} EmptyPagesRepeat(rows: seq<GraphData>, token: string, responses: seq<ListResponse>)
    requires 0 < |rows| < TWO63 && (token == "" || token == Token(0))
    ensures !Follows(rows, 0, token, responses)
    decreases |responses|
  {
    hide Decode, Token, NodesOf, EdgesOf;
    OffsetComesBack(0, 0);
    if Follows(rows, 0, token, responses) {
      assert responses[0].nextPageToken == Token(0);
      EmptyPagesRepeat(rows, Token(0), responses[1..]);
    }
  }

  /** Some sequence of responses gets to the end. */
  ghost predicate Ends(rows: seq<GraphData>, pageSize: nat) {
    exists responses :: Follows(rows, pageSize, "", responses)
  }

  lemma FullPagesEnd(rows: seq<GraphData>, pageSize: nat)
    requires pageSize > 0 && |rows| < TWO63
    ensures Ends(rows, pageSize)
  {
    hide Follows, Listed;
    var responses := CanFollow(rows, pageSize, 0);
    assert Follows(rows, pageSize, "", responses);
  }

  lemma NoRowsEnd(rows: seq<GraphData>, pageSize: nat)
    requires rows == []
    ensures Ends(rows, pageSize)
  {
    PageAt(rows, pageSize, 0);
    var responses := [Listed(rows, pageSize, "").value];
    assert Follows(rows, pageSize, "", responses);
  }

  /** A client that follows the tokens gets to the end if and only if its pages hold rows or there are none. */
  lemma FollowingEnds(rows: seq<GraphData>, pageSize: nat)
    requires |rows| < TWO63
    ensures Ends(rows, pageSize) <==> pageSize > 0 || rows == []
  {
    if pageSize > 0 {
      FullPagesEnd(rows, pageSize);
    } else if rows == [] {
      NoRowsEnd(rows, pageSize);
    } else {
      forall responses ensures !Follows(rows, pageSize, "", responses) { EmptyPagesRepeat(rows, "", responses); }
    }
  }

  // ---- All live rows of a kind ----

  lemma {:induction false} NodesOfAre(items: seq<GraphData>, node: Node)
    ensures node in NodesOf(items) <==> exists i :: 0 <= i < |items| && ConvertGraphData(items[i]) == ANode(node)
  {
    hide ConvertGraphData;
    if items != [] {
      var front := items[..|items| - 1];
      NodesOfAre(front, node);
      assert forall i :: 0 <= i < |front| ==> front[i] == items[i];
    }
  }

  lemma {:induction false} EdgesOfAre(items: seq<GraphData>, edge: Edge)
    ensures edge in EdgesOf(items) <==> exists i :: 0 <= i < |items| && ConvertGraphData(items[i]) == AnEdge(edge)
  {
    hide ConvertGraphData;
    if items != [] {
      var front := items[..|items| - 1];
      EdgesOfAre(front, edge);
      assert forall i :: 0 <= i < |front| ==> front[i] == items[i];
    }
  }

  /** A live row of a kind, as a listing shows it. */
  ghost predicate Shows(t: GraphTable, kind: string, pk: PrimaryKey, converted: Converted) {
    Live(t, pk) && t[pk].data.kind == kind && ConvertGraphData(Item(pk, t[pk].data)) == converted
  }

  /** Following the tokens finds exactly the nodes and edges of the live rows of the kind. */
  lemma PagesShowTheKind(t: GraphTable, kind: string, rows: seq<GraphData>, pageSize: nat, responses: seq<ListResponse>)
    requires ListsKind(t, kind, rows) && pageSize > 0 && |rows| < TWO63 && Follows(rows, pageSize, "", responses)
    ensures forall node :: node in AllNodes(responses) <==> exists pk :: Shows(t, kind, pk, ANode(node))
    ensures forall edge :: edge in AllEdges(responses) <==> exists pk :: Shows(t, kind, pk, AnEdge(edge))
  {
    hide ConvertGraphData, Follows, NodesOf, EdgesOf, AllNodes, AllEdges;
    PagesRefineTheList(rows, pageSize, responses);
    forall node ensures node in NodesOf(rows) <==> exists pk :: Shows(t, kind, pk, ANode(node)) {
      NodesOfAre(rows, node);
      RowsShow(t, kind, rows, ANode(node));
    }
    forall edge ensures edge in EdgesOf(rows) <==> exists pk :: Shows(t, kind, pk, AnEdge(edge)) {
      EdgesOfAre(rows, edge);
      RowsShow(t, kind, rows, AnEdge(edge));
    }
  }

  lemma RowsShow(t: GraphTable, kind: string, rows: seq<GraphData>, converted: Converted)
    requires ListsKind(t, kind, rows)
    ensures (exists i :: 0 <= i < |rows| && ConvertGraphData(rows[i]) == converted)
      <==> exists pk :: Shows(t, kind, pk, converted)
  {
    hide ConvertGraphData;
    if i :| 0 <= i < |rows| && ConvertGraphData(rows[i]) == converted {
      assert rows[i] in rows && rows[i] == Item(rows[i].key, rows[i].data);
      assert Shows(t, kind, rows[i].key, converted);
    }
    if pk :| Shows(t, kind, pk, converted) {
      assert Item(pk, t[pk].data) in rows;
    }
  }
}
