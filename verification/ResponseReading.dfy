/** What a client reads in the octets of a response: status, reason, headers and body, line by line. */
module ResponseReading {
  import opened ChunkedCoding
  import opened Messages
  import opened Options
  import opened ParserModel
  import opened Responses
  import opened Text

  datatype Reading = Reading(status: nat, reason: string, headers: seq<Header>, bodyAt: nat)

  /** The header lines from i on and where the body begins; None when a line is no "name: value". */
  function ReadFields(w: string, i: nat): Option<(seq<Header>, nat)>
    requires i <= |w|
    decreases |w| - i
  {
    var q := FindCrlf(w, i);
    if q.None? then None
    else if q.value == i then Some(([], i + 2))
    else
      var h := ReadField(w[i..q.value]);
      var more := ReadFields(w, q.value + 2);
      if h.None? || more.None? then None else Some(([h.value] + more.value.0, more.value.1))
  }

  function ReadField(line: string): Option<Header> {
    var colon := IndexOf(line, ':', 0);
    if colon.None? || colon.value + 2 > |line| || line[colon.value + 1] != ' ' then None
    else Some(Header(line[..colon.value], line[colon.value + 2..]))
  }

  /** The status code and the reason. */
  function ReadStatus(line: string): Option<(nat, string)> {
    if |line| < 9 || line[..9] != "HTTP/1.1 " then None
    else
      var n := FromChars(line[9..], 10);
      if n.None? then None
      else
        var k := 9 + n.value.1;
        if k == |line| || line[k] != ' ' then None else Some((n.value.0, line[k + 1..]))
  }

  function ReadHead(w: string): Option<Reading> {
    var q := FindCrlf(w, 0);
    if q.None? then None
    else
      var status, fields := ReadStatus(w[..q.value]), ReadFields(w, q.value + 2);
      if status.None? || fields.None? then None
      else Some(Reading(status.value.0, status.value.1, fields.value.0, fields.value.1))
  }

  /** No header splits its line, and no name its header. */
  predicate IsPlainHeader(h: Header) {
    '\r' !in h.name && ':' !in h.name && '\r' !in h.value
  }

  predicate IsPlainResponse(r: Response) {
    0 <= r.status < WORD64 && '\r' !in r.reason && forall i :: 0 <= i < |r.headers| ==> IsPlainHeader(r.headers[i])
  }

  // ----- Lines -----

  lemma CrlfOfLine(w: string, i: nat, line: string, rest: string)
    requires i <= |w| && w[i..] == line + (CRLF + rest) && '\r' !in line
    ensures FindCrlf(w, i) == Some(i + |line|) && i + |line| + 2 <= |w|
    ensures w[i..i + |line|] == line && w[i + |line| + 2..] == rest
  {
    LineAt(w, i, line, rest);
    FindCrlfAfter(w, i, i + |line|);
  }

  lemma FieldReadsBack(h: Header)
    requires IsPlainHeader(h)
    ensures var line := h.name + ": " + h.value; '\r' !in line && line != "" && ReadField(line) == Some(h)
  {
    var line, k := h.name + ": " + h.value, |h.name|;
    assert forall j :: 0 <= j < k ==> line[j] == h.name[j];
    assert line[k] == ':' && line[k + 1] == ' ';
    FirstIs(line, ':', k);
    assert line[..k] == h.name && line[k + 2..] == h.value;
  }

  lemma {:induction false} HeaderLinesConcat(a: seq<Header>, b: seq<Header>)
    ensures HeaderLines(a + b) == HeaderLines(a) + HeaderLines(b)
  {
    hide Responses.HeaderLine;
    if b == [] {
      assert a + b == a;
    } else {
      var n := |b| - 1;
      HeaderLinesConcat(a, b[..n]);
      assert (a + b)[..|a + b| - 1] == a + b[..n] && (a + b)[|a + b| - 1] == b[n];
      Associative(HeaderLines(a), HeaderLines(b[..n]), Responses.HeaderLine(b[n]));
    }
  }

  lemma OneHeaderLine(h: Header)
    ensures HeaderLines([h]) == h.name + ": " + h.value + CRLF
  {
    assert [h][..0] == [];
  }

  lemma FirstHeaderLine(headers: seq<Header>, rest: string)
    requires headers != []
    ensures var h := headers[0];
            HeaderLines(headers) + rest == (h.name + ": " + h.value) + (CRLF + (HeaderLines(headers[1..]) + rest))
    ensures |HeaderLines(headers)| ==
            |headers[0].name + ": " + headers[0].value| + 2 + |HeaderLines(headers[1..])|
  {
    assert headers == [headers[0]] + headers[1..];
    HeaderLinesConcat([headers[0]], headers[1..]);
    OneHeaderLine(headers[0]);
    hide HeaderLines;
  }

  /** Header lines read back as the headers, in order. */
  lemma {:induction false} FieldsReadBack(w: string, i: nat, headers: seq<Header>, rest: string)
    requires forall k :: 0 <= k < |headers| ==> IsPlainHeader(headers[k])
    requires i <= |w| && w[i..] == HeaderLines(headers) + (CRLF + rest)
    ensures ReadFields(w, i) == Some((headers, i + |HeaderLines(headers)| + 2))
    decreases |headers|
  {
    hide HeaderLines, ReadField, FindCrlf, IsPlainHeader;
    if headers == [] {
      NoHeaderLines();
      assert w[i..] == "" + (CRLF + rest);
      CrlfOfLine(w, i, "", rest);
    } else {
      var h := headers[0];
      var line, more := h.name + ": " + h.value, HeaderLines(headers[1..]) + (CRLF + rest);
      FirstHeaderLine(headers, CRLF + rest);
      FieldReadsBack(h);
      CrlfOfLine(w, i, line, more);
      FieldsReadBack(w, i + |line| + 2, headers[1..], rest);
      assert headers == [h] + headers[1..];
    }
  }

  lemma NoHeaderLines()
    ensures HeaderLines([]) == ""
  {
  }

  lemma StatusReadsBack(r: Response)
    requires IsPlainResponse(r)
    ensures var line := "HTTP/1.1 " + Decimal(r.status) + " " + r.reason;
            '\r' !in line && ReadStatus(line) == Some((r.status, r.reason))
  {
    hide ToChars;
    var digits, rest := ToChars(r.status, 10), " " + r.reason;
    var line := "HTTP/1.1 " + digits + " " + r.reason;
    NumberRoundTrip(r.status, 10, rest);
    assert line[..9] == "HTTP/1.1 " && line[9..] == digits + rest;
    var k := 9 + |digits|;
    assert line[k] == ' ' && line[k + 1..] == r.reason;
    NoReturnInDigits(r.status);
  }

  lemma NoReturnInDigits(n: nat)
    ensures '\r' !in ToChars(n, 10)
  {
    hide ToChars;
    var s := ToChars(n, 10);
    forall i | 0 <= i < |s|
      ensures s[i] != '\r'
    {
      assert IsDigit(s[i], 10);
    }
  }

  lemma HeadLayout(r: Response, headers: string, rest: string)
    ensures StatusLine(r) + headers + (CRLF + rest) ==
            ("HTTP/1.1 " + Decimal(r.status) + " " + r.reason) + (CRLF + (headers + (CRLF + rest)))
    ensures |StatusLine(r)| == |"HTTP/1.1 " + Decimal(r.status) + " " + r.reason| + 2
  {
    hide Decimal;
  }

  lemma LinesReadBack(w: string, line: string, status: nat, reason: string, headers: seq<Header>, rest: string)
    requires w == line + (CRLF + (HeaderLines(headers) + (CRLF + rest)))
    requires '\r' !in line && ReadStatus(line) == Some((status, reason))
    requires forall k :: 0 <= k < |headers| ==> IsPlainHeader(headers[k])
    ensures ReadHead(w) == Some(Reading(status, reason, headers, |line| + 2 + |HeaderLines(headers)| + 2))
  {
    hide IsPlainHeader, HeaderLines, ReadFields, ReadStatus, FindCrlf;
    assert w[0..] == w;
    CrlfOfLine(w, 0, line, HeaderLines(headers) + (CRLF + rest));
    FieldsReadBack(w, |line| + 2, headers, rest);
  }

  /** A head written as a status line and headers reads back as these. */
  lemma HeadReadsBack(r: Response, headers: seq<Header>, w: string, rest: string)
    requires IsPlainResponse(r) && forall k :: 0 <= k < |headers| ==> IsPlainHeader(headers[k])
    requires w == StatusLine(r) + HeaderLines(headers) + (CRLF + rest)
    ensures var at := |StatusLine(r)| + |HeaderLines(headers)| + 2;
            && ReadHead(w) == Some(Reading(r.status, r.reason, headers, at))
            && at <= |w| && w[at..] == rest
  {
    hide IsPlainResponse, IsPlainHeader, HeaderLines, ReadHead, ReadStatus, Decimal, StatusLine;
    StatusIsNatural(r);
    StatusReadsBack(r);
    HeadLayout(r, HeaderLines(headers), rest);
    LinesReadBack(w, "HTTP/1.1 " + Decimal(r.status) + " " + r.reason, r.status, r.reason, headers, rest);
    BodyAfter(w, StatusLine(r) + HeaderLines(headers), rest);
  }

  lemma StatusIsNatural(r: Response)
    requires IsPlainResponse(r)
    ensures 0 <= r.status
  {
  }

  lemma BodyAfter(w: string, head: string, rest: string)
    requires w == head + (CRLF + rest)
    ensures |head| + 2 <= |w| && w[|head| + 2..] == rest
  {
  }

  // ----- The two forms of a response -----

  /** A Content-Length is added exactly if the handler has set none. */
  function LengthHeader(r: Response): seq<Header> {
    if Contains(r.headers, "Content-Length") then [] else [Header("Content-Length", ToChars(|r.body|, 10))]
  }

  lemma LengthLineIs(r: Response)
    ensures LengthLine(r) == HeaderLines(LengthHeader(r))
    ensures forall k :: 0 <= k < |LengthHeader(r)| ==> IsPlainHeader(LengthHeader(r)[k])
  {
    NoReturnInDigits(|r.body|);
    OneHeaderLine(Header("Content-Length", ToChars(|r.body|, 10)));
    hide ToChars, Contains;
  }

  lemma PlainWire(r: Response)
    requires !r.chunked
    ensures Wire(r) == StatusLine(r) + HeaderLines(r.headers + LengthHeader(r)) + (CRLF + r.body)
  {
    LengthLineIs(r);
    HeaderLinesConcat(r.headers, LengthHeader(r));
    hide ToChars, Contains, HeaderLines, StatusLine, LengthLine, LengthHeader;
  }

  lemma LengthHeaderReads(r: Response)
    requires |r.body| < WORD64
    ensures if Contains(r.headers, "Content-Length") then LengthHeader(r) == []
            else |LengthHeader(r)| == 1 && LengthHeader(r)[0].name == "Content-Length"
                 && WholeNumber(LengthHeader(r)[0].value, 10) == Some(|r.body|)
  {
    NumberRoundTrip(|r.body|, 10, "");
    assert ToChars(|r.body|, 10) + "" == ToChars(|r.body|, 10);
    hide ToChars, Contains, FromChars;
  }

  /** An unchunked response reads back: the status and the reason, the handler's headers, a
      Content-Length that is the size of the body if there was none, and the body. */
  lemma PlainReadsBack(r: Response)
    requires IsPlainResponse(r) && !r.chunked && |r.body| < WORD64
    ensures var w, read := Wire(r), ReadHead(Wire(r));
            && read.Some? && read.value.status == r.status && read.value.reason == r.reason
            && read.value.bodyAt <= |w| && w[read.value.bodyAt..] == r.body
            && r.headers <= read.value.headers
            && var added := read.value.headers[|r.headers|..];
               if Contains(r.headers, "Content-Length") then added == []
               else |added| == 1 && added[0].name == "Content-Length"
                    && WholeNumber(added[0].value, 10) == Some(|r.body|)
  {
    hide Contains, HeaderLines, StatusLine, WholeNumber, ReadHead, IsPlainResponse, IsPlainHeader, Wire, LengthHeader;
    PlainWire(r);
    LengthLineIs(r);
    LengthHeaderReads(r);
    PlainHeaders(r);
    HeadReadsBack(r, r.headers + LengthHeader(r), Wire(r), r.body);
  }

  lemma PlainHeaders(r: Response)
    requires IsPlainResponse(r)
    ensures forall k :: 0 <= k < |r.headers| ==> IsPlainHeader(r.headers[k])
  {
  }

  /** Leaving out Content-Length: headers of exactly that name go, all others stay in order. */
  lemma {:induction false} WithoutLengthExact(a: seq<Header>, b: seq<Header>, h: Header)
    ensures WithoutLength(a + b) == WithoutLength(a) + WithoutLength(b)
    ensures WithoutLength([h]) == if h.name == "Content-Length" then [] else [h]
  {
    assert [h][..0] == [];
    if b == [] {
      assert a + b == a;
    } else {
      var n := |b| - 1;
      WithoutLengthExact(a, b[..n], h);
      assert (a + b)[..|a + b| - 1] == a + b[..n] && (a + b)[|a + b| - 1] == b[n];
    }
  }

  lemma {:induction false} WithoutLengthIsPlain(headers: seq<Header>, kept: seq<Header>)
    requires kept == WithoutLength(headers) && forall k :: 0 <= k < |headers| ==> IsPlainHeader(headers[k])
    ensures forall k :: 0 <= k < |kept| ==> IsPlainHeader(kept[k])
  {
    hide IsPlainHeader;
    if headers != [] {
      WithoutLengthIsPlain(headers[..|headers| - 1], WithoutLength(headers[..|headers| - 1]));
    }
  }

  lemma ChunkedWire(r: Response)
    requires r.chunked
    ensures Wire(r) == StatusLine(r)
                       + HeaderLines(WithoutLength(r.headers) + [Header("Transfer-Encoding", "chunked")])
                       + (CRLF + ChunkedBody(r.body, CHUNK_SIZE))
  {
    HeaderLinesConcat(WithoutLength(r.headers), [Header("Transfer-Encoding", "chunked")]);
    OneHeaderLine(Header("Transfer-Encoding", "chunked"));
    assert "Transfer-Encoding: chunked\r\n\r\n" == "Transfer-Encoding" + ": " + "chunked" + CRLF + CRLF;
    hide HeaderLines, StatusLine, WithoutLength, ChunkedBody;
  }

  /** A chunked response reads back: no Content-Length is left, the coding is announced, and the chunks
      decode to the body. */
  lemma ChunkedReadsBack(r: Response, known: set<string>, c: Core)
    requires IsPlainResponse(r) && r.chunked && |r.body| <= MAX_BODY_SIZE
    requires c.phase == ChunkSize && c.chunkBody == ""
    ensures var w, read := Wire(r), ReadHead(Wire(r));
            && read.Some? && read.value.status == r.status && read.value.reason == r.reason
            && read.value.headers == WithoutLength(r.headers) + [Header("Transfer-Encoding", "chunked")]
            && read.value.bodyAt <= |w|
            && var done := Loop(known, c.(pos := read.value.bodyAt), w);
               done.Some? && done.value.phase == Complete && done.value.body == r.body && done.value.pos == |w|
  {
    hide HeaderLines, StatusLine, ReadHead, IsPlainResponse, IsPlainHeader, WithoutLength, ChunkedBody, Loop, Wire;
    var last := Header("Transfer-Encoding", "chunked");
    var headers, body := WithoutLength(r.headers) + [last], ChunkedBody(r.body, CHUNK_SIZE);
    PlainHeaders(r);
    WithoutLengthIsPlain(r.headers, WithoutLength(r.headers));
    ChunkedIsPlain();
    ChunkedWire(r);
    HeadReadsBack(r, headers, Wire(r), body);
    var start := ReadHead(Wire(r)).value.bodyAt;
    assert body + "" == body;
    ChunkedRoundTrip(known, c.(pos := start), Wire(r), r.body, CHUNK_SIZE, "");
    assert "" + r.body == r.body;
  }

  lemma ChunkedIsPlain()
    ensures IsPlainHeader(Header("Transfer-Encoding", "chunked"))
  {
  }
}
