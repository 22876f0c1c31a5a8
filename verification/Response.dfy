/** Responses and their three serialized forms. */
module Responses {
  import opened CaseFold
  import opened Text

  datatype Header = Header(name: string, value: string)

  /** The headers are listed in iteration order, known names in their canonical spelling; `room` is the
      place in that order which a known header set next takes (the first hole among the known slots). */
  datatype Response =
    Response(status: int, reason: string, headers: seq<Header>, room: nat, body: string, chunked: bool)

  const CHUNK_SIZE: nat := 4096
  const SMALL_CONTIGUOUS_RESPONSE_BODY_THRESHOLD: nat := 256

  predicate Contains(headers: seq<Header>, name: string) {
    exists i :: 0 <= i < |headers| && CiEqual(headers[i].name, name, true)
  }

  /** The headers of a name, in order. */
  function Of(headers: seq<Header>, name: string): seq<Header> {
    if headers == [] then []
    else
      Of(headers[..|headers| - 1], name)
      + if CiEqual(headers[|headers| - 1].name, name, true) then [headers[|headers| - 1]] else []
  }

  /** The headers of all other names, in order. */
  function Others(headers: seq<Header>, name: string): seq<Header> {
    if headers == [] then []
    else
      Others(headers[..|headers| - 1], name)
      + if CiEqual(headers[|headers| - 1].name, name, true) then [] else [headers[|headers| - 1]]
  }

  lemma {:induction false} OfConcat(a: seq<Header>, b: seq<Header>, name: string)
    ensures Of(a + b, name) == Of(a, name) + Of(b, name)
    ensures Others(a + b, name) == Others(a, name) + Others(b, name)
  {
    hide CiEqual;
    if b == [] {
      assert a + b == a;
    } else {
      var n := |b| - 1;
      OfConcat(a, b[..n], name);
      assert (a + b)[..|a + b| - 1] == a + b[..n] && (a + b)[|a + b| - 1] == b[n];
    }
  }

  lemma {:induction false} NoneOf(headers: seq<Header>, name: string)
    ensures !Contains(headers, name) <==> Of(headers, name) == []
    ensures !Contains(headers, name) ==> Others(headers, name) == headers
  {
    hide CiEqual;
    if headers != [] {
      var n := |headers| - 1;
      NoneOf(headers[..n], name);
      assert headers == headers[..n] + [headers[n]];
      assert Contains(headers, name) <==> Contains(headers[..n], name) || CiEqual(headers[n].name, name, true);
    }
  }

  function StatusLine(r: Response): string {
    "HTTP/1.1 " + Decimal(r.status) + " " + r.reason + CRLF
  }

  function HeaderLine(h: Header): string {
    h.name + ": " + h.value + CRLF
  }

  function HeaderLines(headers: seq<Header>): string {
    if headers == [] then ""
    else HeaderLines(headers[..|headers| - 1]) + HeaderLine(headers[|headers| - 1])
  }

  function WithoutLength(headers: seq<Header>): seq<Header> {
    if headers == [] then []
    else
      WithoutLength(headers[..|headers| - 1])
      + if headers[|headers| - 1].name == "Content-Length" then [] else [headers[|headers| - 1]]
  }

  function LengthLine(r: Response): string {
    if Contains(r.headers, "Content-Length") then ""
    else HeaderLine(Header("Content-Length", ToChars(|r.body|, 10)))
  }

  function Head(r: Response): string {
    StatusLine(r) + HeaderLines(r.headers) + LengthLine(r) + CRLF
  }

  function Chunk(data: string): string {
    ToChars(|data|, 16) + CRLF + data + CRLF
  }

  /** The chunked coding of section 7.1 of RFC 9112, without extensions and trailers. */
  function ChunkedBody(body: string, chunkSize: nat): string
    requires chunkSize >= 1
    decreases |body|
  {
    if body == "" then "0\r\n\r\n"
    else
      var n := if chunkSize <= |body| then chunkSize else |body|;
      Chunk(body[..n]) + ChunkedBody(body[n..], chunkSize)
  }

  function ChunkedHead(r: Response): string {
    StatusLine(r) + HeaderLines(WithoutLength(r.headers)) + "Transfer-Encoding: chunked\r\n\r\n"
  }

  /** The octets of the whole response. */
  function Wire(r: Response): string {
    if r.chunked then ChunkedHead(r) + ChunkedBody(r.body, CHUNK_SIZE) else Head(r) + r.body
  }

  lemma WireIsNotEmpty(r: Response)
    ensures Wire(r) != ""
  {
  }

  method AppendHeaders(headers: seq<Header>, out: string) returns (result: string)
    ensures result == out + HeaderLines(headers)
  {
    result := out;
    for i := 0 to |headers|
      invariant result == out + HeaderLines(headers[..i])
    {
      assert headers[..i + 1][..i] == headers[..i];
      result := result + headers[i].name;
      result := result + ": ";
      result := result + headers[i].value;
      result := result + CRLF;
      assert result == out + HeaderLines(headers[..i]) + HeaderLine(headers[i]);
    }
    assert headers[..|headers|] == headers;
  }

  method AppendHeadersWithoutLength(headers: seq<Header>, out: string) returns (result: string)
    ensures result == out + HeaderLines(WithoutLength(headers))
  {
    result := out;
    for i := 0 to |headers|
      invariant result == out + HeaderLines(WithoutLength(headers[..i]))
    {
      assert headers[..i + 1][..i] == headers[..i];
      var before := WithoutLength(headers[..i]);
      if headers[i].name != "Content-Length" {
        assert (before + [headers[i]])[..|before|] == before;
        result := result + HeaderLine(headers[i]);
      } else {
        assert before + [] == before;
      }
    }
    assert headers[..|headers|] == headers;
  }

  method SerializeChunked(r: Response, chunkSize: nat) returns (out: string)
    requires chunkSize >= 1
    ensures out == ChunkedHead(r) + ChunkedBody(r.body, chunkSize)
  {
    out := StatusLine(r);
    out := AppendHeadersWithoutLength(r.headers, out);
    out := out + "Transfer-Encoding: chunked\r\n\r\n";
    out := AppendChunks(r.body, chunkSize, out);
  }

  method AppendChunks(body: string, chunkSize: nat, out: string) returns (result: string)
    requires chunkSize >= 1
    ensures result == out + ChunkedBody(body, chunkSize)
  {
    hide Chunk;
    result := out;
    var offset := 0;
    assert body[0..] == body;
    ghost var goal := out + ChunkedBody(body, chunkSize);
    while offset < |body|
      invariant 0 <= offset <= |body|
      invariant result + ChunkedBody(body[offset..], chunkSize) == goal
    {
      var current := if chunkSize <= |body| - offset then chunkSize else |body| - offset;
      ChunkStep(result, body, offset, current, chunkSize);
      result := result + Chunk(body[offset..offset + current]);
      offset := offset + current;
    }
    assert body[offset..] == "";
    result := result + "0\r\n\r\n";
  }

  lemma {:induction false} ChunkStep(out: string, body: string, offset: nat, n: nat, chunkSize: nat)
    requires chunkSize >= 1 && offset < |body| &&
             n == if chunkSize <= |body| - offset then chunkSize else |body| - offset
    ensures out + Chunk(body[offset..offset + n]) + ChunkedBody(body[offset + n..], chunkSize)
         == out + ChunkedBody(body[offset..], chunkSize)
  {
    hide Chunk;
    var rest := body[offset..];
    assert rest[..n] == body[offset..offset + n] && rest[n..] == body[offset + n..];
    assert ChunkedBody(rest, chunkSize) == Chunk(rest[..n]) + ChunkedBody(rest[n..], chunkSize);
  }

  method SerializeHeadInto(r: Response) returns (out: string)
    ensures out == if r.chunked then Wire(r) else Head(r)
  {
    if r.chunked {
      out := SerializeChunked(r, CHUNK_SIZE);
      return;
    }
    out := StatusLine(r);
    out := AppendHeaders(r.headers, out);
    if !Contains(r.headers, "Content-Length") {
      out := out + HeaderLine(Header("Content-Length", ToChars(|r.body|, 10)));
    }
    out := out + CRLF;
  }

  method SerializeInto(r: Response) returns (out: string)
    ensures out == Wire(r)
  {
    if r.chunked {
      out := SerializeChunked(r, CHUNK_SIZE);
      return;
    }
    out := SerializeHeadInto(r);
    out := out + r.body;
  }

  /** Small or chunked responses are stored in one piece, large ones as head and body; either way the
      two pieces together are the octets of the response. */
  method PrepareResponseStorage(r: Response) returns (head: string, body: string)
    ensures head + body == Wire(r)
    ensures body != "" <==> !r.chunked && |r.body| > SMALL_CONTIGUOUS_RESPONSE_BODY_THRESHOLD
  {
    if r.chunked || |r.body| <= SMALL_CONTIGUOUS_RESPONSE_BODY_THRESHOLD {
      head := SerializeInto(r);
      body := "";
    } else {
      head := SerializeHeadInto(r);
      body := r.body;
    }
  }
}
