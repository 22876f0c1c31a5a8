/** The chunked coding of section 7.1 of RFC 9112: what the serializer writes, the parser reads back. */
module ChunkedCoding {
  import opened Options
  import opened Text
  import opened Responses
  import opened ParserModel

  lemma {:induction false} FindCrlfAfter(b: string, i: nat, q: nat)
    requires i <= q && CrlfAt(b, q) && forall k :: i <= k < q ==> b[k] != '\r'
    ensures FindCrlf(b, i) == Some(q)
    decreases q - i
  {
    if i < q {
      FindCrlfAfter(b, i + 1, q);
    }
  }

  lemma {:induction false} NoIndexOf(s: string, c: char, i: nat)
    requires i <= |s| && c !in s
    ensures IndexOf(s, c, i) == None
    decreases |s| - i
  {
    if i < |s| {
      NoIndexOf(s, c, i + 1);
    }
  }

  lemma {:induction false} HexIsPlain(n: nat)
    ensures var s := ToChars(n, 16);
            forall i :: 0 <= i < |s| ==> s[i] != '\r' && s[i] != ';' && !IsBlank(s[i])
  {
    hide ToChars;
    var s := ToChars(n, 16);
    forall i | 0 <= i < |s|
      ensures s[i] != '\r' && s[i] != ';' && !IsBlank(s[i])
    {
      assert IsDigit(s[i], 16);
    }
  }

  /** A chunk size line in hexadecimal is read as the size. */
  lemma {:induction false} SizeLine(n: nat)
    requires n < WORD64
    ensures WholeNumber(TrimOws(ToChars(n, 16)), 16) == Some(n)
    ensures IndexOf(ToChars(n, 16), ';', 0) == None
  {
    hide ToChars, FromChars;
    var s := ToChars(n, 16);
    HexIsPlain(n);
    NoIndexOf(s, ';', 0);
    NumberRoundTrip(n, 16, "");
    assert s + "" == s;
  }

  /** Where the size line of a chunk is in the buffer. */
  lemma {:induction false} SizeLineAt(b: string, pos: nat, n: nat)
    requires pos <= |b| && ToChars(n, 16) + CRLF <= b[pos..]
    ensures var q := pos + |ToChars(n, 16)|;
            q + 2 <= |b| && FindCrlf(b, pos) == Some(q) && b[pos..q] == ToChars(n, 16)
  {
    hide ToChars;
    var line := ToChars(n, 16);
    var q := pos + |line|;
    forall k | 0 <= k < |line| + 2
      ensures b[pos + k] == (line + CRLF)[k]
    {
      assert b[pos..][k] == (line + CRLF)[k];
    }
    HexIsPlain(n);
    assert b[pos..q] == line;
    assert CrlfAt(b, q) by {
      assert b[pos + |line|] == '\r' && b[pos + (|line| + 1)] == '\n';
    }
    forall k | pos <= k < q
      ensures b[k] != '\r'
    {
      assert b[pos + (k - pos)] == line[k - pos];
    }
    FindCrlfAfter(b, pos, q);
  }

  lemma {:induction false} SizeStep(known: set<string>, s: Core, b: string, n: nat)
    requires s.phase == ChunkSize && s.pos <= |b| && 1 <= n && |s.chunkBody| + n <= MAX_BODY_SIZE
    requires ToChars(n, 16) + CRLF <= b[s.pos..]
    ensures Step(known, s, b) == Moved(s.(chunkSize := n, phase := ChunkData, pos := s.pos + |ToChars(n, 16)| + 2))
  {
    hide ToChars, FindCrlf, WholeNumber, TrimOws, IndexOf;
    SizeLineAt(b, s.pos, n);
    SizeLine(n);
  }

  lemma {:induction false} DataStep(known: set<string>, s: Core, b: string, data: string)
    requires s.phase == ChunkData && s.pos <= |b| && s.chunkSize == |data|
    requires data + CRLF <= b[s.pos..]
    ensures Step(known, s, b) ==
                Moved(s.(chunkBody := s.chunkBody + data, phase := ChunkSize, pos := s.pos + |data| + 2))
  {
    var end := s.pos + |data|;
    assert b[s.pos..][..|data| + 2] == data + CRLF;
    assert b[s.pos..end] == data;
    assert b[end] == (data + CRLF)[|data|] && b[end + 1] == (data + CRLF)[|data| + 1];
  }

  lemma {:induction false} TwoSteps(known: set<string>, s: Core, b: string, t: Core, u: Core)
    requires s.pos <= |b| && s.phase != Complete && t.pos <= |b| && t.phase != Complete && u.pos <= |b|
    ensures Step(known, s, b) == Moved(t) && Step(known, t, b) == Moved(u) ==> Loop(known, s, b) == Loop(known, u, b)
  {
    hide Step;
  }

  lemma {:induction false} EndSteps(known: set<string>, s: Core, b: string)
    requires s.phase == ChunkSize && s.pos <= |b| && "0\r\n\r\n" <= b[s.pos..]
    ensures Loop(known, s, b) == Some(s.(chunkSize := 0, body := s.chunkBody, phase := Complete, pos := s.pos + 5))
  {
    hide WholeNumber, TrimOws, IndexOf;
    var tail := b[s.pos..];
    assert forall k :: 0 <= k < 5 ==> b[s.pos + k] == tail[k];
    assert ToChars(0, 16) == "0";
    assert ToChars(0, 16) + CRLF <= tail;
    SizeLineAt(b, s.pos, 0);
    SizeLine(0);
    var trailer := s.(chunkSize := 0, phase := ChunkTrailer, pos := s.pos + 3);
    assert Step(known, s, b) == Moved(trailer);
    assert CrlfAt(b, s.pos + 3);
    var done := s.(chunkSize := 0, body := s.chunkBody, phase := Complete, pos := s.pos + 5);
    assert Step(known, trailer, b) == Moved(done);
    TwoSteps(known, s, b, trailer, done);
  }

  lemma {:induction false} FirstChunk(rest: string, tail: string, body: string, chunkSize: nat, n: nat)
    requires chunkSize >= 1 && body != "" && n == if chunkSize <= |body| then chunkSize else |body|
    requires rest == ChunkedBody(body, chunkSize) + tail
    ensures var size := ToChars(n, 16) + CRLF;
            && size <= rest
            && body[..n] + CRLF <= rest[|size|..]
            && rest[|size|..][n + 2..] == ChunkedBody(body[n..], chunkSize) + tail
            && |ChunkedBody(body, chunkSize)| == |size| + n + 2 + |ChunkedBody(body[n..], chunkSize)|
  {
    hide ToChars;
    var size, data, more := ToChars(n, 16) + CRLF, body[..n] + CRLF, ChunkedBody(body[n..], chunkSize);
    assert Chunk(body[..n]) == size + data;
    assert rest == size + (data + (more + tail));
    assert rest[|size|..] == data + (more + tail);
  }

  lemma LastChunk(chunkSize: nat)
    requires chunkSize >= 1
    ensures ChunkedBody("", chunkSize) == "0\r\n\r\n"
  {
  }

  /** For every body within the limit and every chunk size, the parser turns the coded octets into
      exactly that body, completes, and leaves what follows untouched. */
  lemma {:induction false} ChunkedRoundTrip(known: set<string>, s: Core, b: string, body: string, chunkSize: nat,
                                            tail: string)
    requires chunkSize >= 1 && s.phase == ChunkSize && s.pos <= |b|
    requires |s.chunkBody| + |body| <= MAX_BODY_SIZE
    requires b[s.pos..] == ChunkedBody(body, chunkSize) + tail
    ensures var whole := s.chunkBody + body;
            Loop(known, s, b) == Some(s.(chunkSize := 0, chunkBody := whole, body := whole, phase := Complete,
                                         pos := s.pos + |ChunkedBody(body, chunkSize)|))
    decreases |body|
  {
    hide Loop, Step, ToChars, ChunkedBody;
    if body == "" {
      LastChunk(chunkSize);
      assert s.chunkBody + body == s.chunkBody;
      EndSteps(known, s, b);
    } else {
      var n := if chunkSize <= |body| then chunkSize else |body|;
      var size := ToChars(n, 16) + CRLF;
      FirstChunk(b[s.pos..], tail, body, chunkSize, n);
      SizeStep(known, s, b, n);
      var t := s.(chunkSize := n, phase := ChunkData, pos := s.pos + |size|);
      assert b[t.pos..] == b[s.pos..][|size|..];
      DataStep(known, t, b, body[..n]);
      var u := t.(chunkBody := s.chunkBody + body[..n], phase := ChunkSize, pos := t.pos + n + 2);
      assert b[u.pos..] == b[t.pos..][n + 2..];
      TwoSteps(known, s, b, t, u);
      ChunkedRoundTrip(known, u, b, body[n..], chunkSize, tail);
      assert s.chunkBody + body[..n] + body[n..] == s.chunkBody + body;
    }
  }

  /** A message whose last chunk has been read ends after the next line, whatever that line holds. */
  lemma {:induction false} EndsAfterOneLine(known: set<string>, s: Core, b: string, line: string, tail: string)
    requires s.phase == ChunkTrailer && s.pos <= |b| && '\r' !in line
    requires b[s.pos..] == line + CRLF + tail
    ensures Loop(known, s, b) == Some(s.(body := s.chunkBody, phase := Complete, pos := s.pos + |line| + 2))
  {
    var q := s.pos + |line|;
    var rest := b[s.pos..];
    forall k | s.pos <= k < q
      ensures b[k] != '\r'
    {
      assert b[k] == rest[k - s.pos] == line[k - s.pos];
    }
    assert b[q] == rest[|line|] && b[q + 1] == rest[|line| + 1];
    FindCrlfAfter(b, s.pos, q);
    var done := s.(body := s.chunkBody, phase := Complete, pos := q + 2);
    assert Step(known, s, b) == Moved(done);
  }

  /** What follows the last chunk in section 7.1: field lines, each ended by CRLF, and one more CRLF. */
  function TrailerText(lines: seq<string>): string {
    if lines == [] then CRLF else lines[0] + CRLF + TrailerText(lines[1..])
  }

  /** The message is always taken to be complete, and its end is found where section 7.1 has it if and
      only if there are no trailer fields; the body is right either way. */
  lemma {:induction false} TrailerIsOneLine(known: set<string>, s: Core, b: string, lines: seq<string>, tail: string)
    requires s.phase == ChunkTrailer && s.pos <= |b|
    requires forall i :: 0 <= i < |lines| ==> lines[i] != "" && '\r' !in lines[i]
    requires b[s.pos..] == TrailerText(lines) + tail
    ensures var r := Loop(known, s, b);
            && r.Some? && r.value.phase == Complete && r.value.body == s.chunkBody
            && (r.value.pos == s.pos + |TrailerText(lines)| <==> lines == [])
  {
    hide Loop;
    if lines == [] {
      assert "" + CRLF + tail == TrailerText(lines) + tail;
      EndsAfterOneLine(known, s, b, "", tail);
    } else {
      var rest := TrailerText(lines[1..]);
      TrailerEnds(lines[1..]);
      assert TrailerText(lines) + tail == lines[0] + CRLF + (rest + tail);
      EndsAfterOneLine(known, s, b, lines[0], rest + tail);
    }
  }

  lemma {:induction false} TrailerEnds(lines: seq<string>)
    ensures |TrailerText(lines)| >= 2
  {
    if lines != [] {
      TrailerEnds(lines[1..]);
    }
  }

  /** A last chunk with one trailer field: eleven octets by section 7.1, nine for the parser. */
  lemma {:induction false} TrailerFieldIsLeftOver(known: set<string>, s: Core)
    requires s.phase == ChunkSize && s.pos == 0
    ensures "0\r\nA: b\r\n\r\n" == "0" + CRLF + TrailerText(["A: b"])
    ensures |"0\r\nA: b\r\n\r\n"| == 11
    ensures var r := Loop(known, s, "0\r\nA: b\r\n\r\n");
            r.Some? && r.value.phase == Complete && r.value.pos == 9
  {
    hide WholeNumber, TrimOws, IndexOf, FindCrlf;
    var b := "0\r\nA: b\r\n\r\n";
    assert ToChars(0, 16) == "0";
    assert ["A: b"][1..] == [];
    SizeLineAt(b, 0, 0);
    SizeLine(0);
    var t := s.(chunkSize := 0, phase := ChunkTrailer, pos := 3);
    assert Step(known, s, b) == Moved(t);
    assert b[3..] == "A: b" + CRLF + CRLF;
    EndsAfterOneLine(known, t, b, "A: b", CRLF);
  }

  /** A chunk that would take the body past the limit is refused at its size line. */
  lemma {:induction false} OversizedChunkIsRefused(known: set<string>, s: Core, b: string, n: nat)
    requires s.phase == ChunkSize && s.pos <= |b| && 1 <= n < WORD64 && |s.chunkBody| + n > MAX_BODY_SIZE
    requires ToChars(n, 16) + CRLF <= b[s.pos..]
    ensures Loop(known, s, b) == None
  {
    hide ToChars, FindCrlf, WholeNumber, TrimOws, IndexOf;
    SizeLineAt(b, s.pos, n);
    SizeLine(n);
    assert Step(known, s, b) == Error;
  }

  lemma CrlfSlice(b: string, i: nat)
    requires i + 2 <= |b|
    ensures CrlfAt(b, i) <==> b[i..i + 2] == CRLF
  {
  }

  /** Chunk data that does not end in CRLF is refused. */
  lemma {:induction false} OverrunChunkIsRefused(known: set<string>, s: Core, b: string)
    requires s.phase == ChunkData && s.pos + s.chunkSize + 2 <= |b|
    requires b[s.pos + s.chunkSize..s.pos + s.chunkSize + 2] != CRLF
    ensures Loop(known, s, b) == None
  {
    var end := s.pos + s.chunkSize;
    CrlfSlice(b, end);
    assert Step(known, s, b) == Error;
    hide Step;
  }

  /** What follows a semicolon on a size line does not matter. */
  lemma {:induction false} ExtensionIsIgnored(c: Core, n: nat, extension: string)
    requires n < WORD64
    ensures ChunkLine(c, ToChars(n, 16) + ";" + extension) == ChunkLine(c, ToChars(n, 16))
  {
    hide ToChars, WholeNumber, TrimOws, IndexOf;
    var size := ToChars(n, 16);
    var line := size + ";" + extension;
    SizeLine(n);
    HexIsPlain(n);
    assert forall i :: 0 <= i < |size| ==> line[i] == size[i];
    FirstIs(line, ';', |size|);
    assert line[..|size|] == size;
  }

  lemma FirstIs(s: string, c: char, k: nat)
    requires k < |s| && s[k] == c && forall j :: 0 <= j < k ==> s[j] != c
    ensures IndexOf(s, c, 0) == Some(k)
  {
    hide IndexOf;
    assert IndexOf(s, c, 0).Some?;
  }
}
