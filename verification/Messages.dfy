/**
 Whole messages: what the parser makes of the octets of a request, said in terms of the request line, the
 header fields and the body that were written, as section 2.1 of RFC 9112 puts them together.
 */
module Messages {
  import opened CaseFold
  import opened ChunkedCoding
  import opened Http
  import opened Options
  import opened ParserModel
  import opened ParserStability
  import opened RequestLines
  import opened Responses
  import opened Text

  /** A header field as written: blanks may stand before and after the value. */
  datatype Field = Field(name: string, before: string, value: string, after: string)

  predicate IsField(f: Field) {
    && f.name != "" && AllOf(f.name, IsTokenChar)
    && AllOf(f.before, IsBlank) && AllOf(f.after, IsBlank) && AllOf(f.value, IsValueChar)
    && (f.value != "" ==> !IsBlank(f.value[0]) && !IsBlank(f.value[|f.value| - 1]))
  }

  function FieldLine(f: Field): string {
    f.name + (":" + (f.before + (f.value + f.after)))
  }

  function FieldLines(fields: seq<Field>): (lines: seq<string>)
    ensures |lines| == |fields|
  {
    if fields == [] then [] else [FieldLine(fields[0])] + FieldLines(fields[1..])
  }

  function LinesText(lines: seq<string>): string {
    if lines == [] then "" else lines[0] + (CRLF + LinesText(lines[1..]))
  }

  /** The last value given under a name, in any of its spellings. */
  function LastValue(fields: seq<Field>, name: string): Option<string> {
    if fields == [] then None
    else
      var later := LastValue(fields[1..], name);
      if later.Some? then later else if CiEqual(fields[0].name, name, true) then Some(fields[0].value) else None
  }

  datatype Message = Message(verb: Method, uri: string, fields: seq<Field>, body: string, coded: string)

  function HeadLines(m: Message): seq<string> {
    [RequestLineOf(m.verb, m.uri)] + FieldLines(m.fields)
  }

  function HeadSize(m: Message): nat {
    |LinesText(HeadLines(m))| + 2
  }

  function MessageText(m: Message): string {
    LinesText(HeadLines(m)) + (CRLF + m.coded)
  }

  predicate IsPlain(m: Message) {
    m.verb != Unknown && IsTarget(m.uri) && forall i :: 0 <= i < |m.fields| ==> IsField(m.fields[i])
  }

  /** Within the limits of the parser. */
  predicate IsHead(m: Message) {
    IsPlain(m) && HeadSize(m) <= MAX_HEADER_SIZE && |m.fields| <= MAX_HEADER_COUNT
  }

  predicate IsChunked(m: Message) {
    var te := LastValue(m.fields, "Transfer-Encoding");
    te.Some? && CiEqual(te.value, "chunked", true)
  }

  /** A Content-Length that the parser takes: decimal digits, within the limit. */
  predicate IsLength(value: string) {
    value != "" && AllDigits(value, 10) && ValueOf(value, 10) <= MAX_BODY_SIZE
  }

  /** How the octets after the blank line stand for the body: chunked, counted, or none. */
  ghost predicate IsCoded(m: Message) {
    var cl := LastValue(m.fields, "Content-Length");
    if IsChunked(m) then |m.body| <= MAX_BODY_SIZE && exists n :: n >= 1 && m.coded == ChunkedBody(m.body, n)
    else if cl.Some? then m.coded == m.body && IsLength(cl.value) && ValueOf(cl.value, 10) == |m.body|
    else m.coded == m.body == ""
  }

  ghost predicate IsMessage(m: Message) {
    IsHead(m) && IsCoded(m)
  }

  // ----- Trimming -----

  lemma {:induction false} TrimLeftBlanks(before: string, s: string)
    requires AllOf(before, IsBlank)
    ensures TrimLeft(before + s) == TrimLeft(s)
  {
    if before == "" {
      assert before + s == s;
    } else {
      assert (before + s)[1..] == before[1..] + s;
      TrimLeftBlanks(before[1..], s);
    }
  }

  lemma {:induction false} TrimRightBlanks(s: string, after: string)
    requires AllOf(after, IsBlank)
    ensures TrimRight(s + after) == TrimRight(s)
  {
    if after == "" {
      assert s + after == s;
    } else {
      var n := |after| - 1;
      assert (s + after)[..|s| + n] == s + after[..n];
      assert IsBlank(after[n]);
      TrimRightBlanks(s, after[..n]);
    }
  }

  /** Trimming takes off the blanks around a value and nothing of the value. */
  lemma TrimExact(before: string, value: string, after: string)
    requires AllOf(before, IsBlank) && AllOf(after, IsBlank)
    requires value != "" ==> !IsBlank(value[0]) && !IsBlank(value[|value| - 1])
    ensures TrimOws(before + (value + after)) == value
  {
    hide TrimLeft, TrimRight, AllOf;
    TrimLeftBlanks(before, value + after);
    if value == "" {
      assert value + after == after == after + "";
      TrimLeftBlanks(after, "");
      TrimLeftStops("");
    } else {
      assert (value + after)[0] == value[0];
      TrimLeftStops(value + after);
      TrimRightBlanks(value, after);
    }
    TrimRightStops(value);
  }

  // ----- Lines -----

  lemma AllOfConcat(a: string, b: string, p: char -> bool)
    ensures AllOf(a + b, p) <==> AllOf(a, p) && AllOf(b, p)
  {
    if AllOf(a + b, p) {
      assert forall i :: 0 <= i < |a| ==> (a + b)[i] == a[i];
      assert forall i :: 0 <= i < |b| ==> (a + b)[|a| + i] == b[i];
    }
  }

  lemma AllOfWeaker(s: string, p: char -> bool, q: char -> bool)
    requires AllOf(s, p) && forall c :: p(c) ==> q(c)
    ensures AllOf(s, q)
  {
  }

  predicate IsLine(line: string) {
    line != "" && AllOf(line, IsValueChar)
  }

  lemma PartsArePlain(f: Field)
    requires IsField(f)
    ensures AllOf(f.name, IsValueChar) && AllOf(f.before, IsValueChar) && AllOf(f.value, IsValueChar)
    ensures AllOf(f.after, IsValueChar) && f.name != "" && !IsBlank(f.name[0])
  {
    AllOfWeaker(f.name, IsTokenChar, IsValueChar);
    AllOfWeaker(f.before, IsBlank, IsValueChar);
    AllOfWeaker(f.after, IsBlank, IsValueChar);
    assert IsTokenChar(f.name[0]);
  }

  lemma FieldIsLine(f: Field)
    requires IsField(f)
    ensures IsLine(FieldLine(f)) && !IsBlank(FieldLine(f)[0])
  {
    hide AllOf, IsField, IsBlank;
    PartsArePlain(f);
    ColonIsPlain();
    var end := f.value + f.after;
    AllOfConcat(f.value, f.after, IsValueChar);
    AllOfConcat(f.before, end, IsValueChar);
    AllOfConcat(":", f.before + end, IsValueChar);
    AllOfConcat(f.name, ":" + (f.before + end), IsValueChar);
    assert FieldLine(f)[0] == f.name[0];
  }

  lemma ColonIsPlain()
    ensures AllOf(":", IsValueChar) && AllOf(" ", IsValueChar) && AllOf(" HTTP/1.1", IsValueChar)
  {
  }

  lemma NameIsPlain(m: Method)
    ensures AllOf(MethodName(m), IsValueChar)
  {
  }

  lemma RequestLineIsLine(verb: Method, uri: string)
    requires verb != Unknown && IsTarget(uri)
    ensures IsLine(RequestLineOf(verb, uri))
  {
    NameIsPlain(verb);
    ColonIsPlain();
    AllOfWeaker(uri, IsUriChar, IsValueChar);
    hide AllOf, MethodName;
    AllOfConcat(MethodName(verb), " ", IsValueChar);
    AllOfConcat(MethodName(verb) + " ", uri, IsValueChar);
    AllOfConcat(MethodName(verb) + " " + uri, " HTTP/1.1", IsValueChar);
  }

  lemma {:induction false} FieldLinesAreLines(fields: seq<Field>)
    requires forall i :: 0 <= i < |fields| ==> IsField(fields[i])
    ensures forall i :: 0 <= i < |fields| ==> IsLine(FieldLines(fields)[i])
  {
    hide IsField, IsLine, FieldLine;
    if fields != [] {
      FieldIsLine(fields[0]);
      FieldLinesAreLines(fields[1..]);
    }
  }

  lemma HeadIsLines(m: Message)
    requires IsPlain(m)
    ensures forall i :: 0 <= i < |HeadLines(m)| ==> IsLine(HeadLines(m)[i])
  {
    hide IsField, IsLine, FieldLines, RequestLineOf;
    RequestLineIsLine(m.verb, m.uri);
    FieldLinesAreLines(m.fields);
  }

  /** Where a line, its CRLF and what follows stand in the buffer. */
  lemma LineAt(b: string, pos: nat, line: string, rest: string)
    requires pos <= |b| && b[pos..] == line + (CRLF + rest)
    ensures var q := pos + |line|;
            && q + 2 <= |b| && b[pos..q] == line && CrlfAt(b, q) && b[q + 2..] == rest
            && (forall k :: pos <= k < q ==> b[k] == line[k - pos])
  {
    var q, tail := pos + |line|, b[pos..];
    assert tail[..|line|] == line && tail[|line|..] == CRLF + rest;
    assert b[pos..q] == tail[..|line|];
    assert b[q..] == CRLF + rest;
    assert b[q] == b[q..][0] && b[q + 1] == b[q..][1];
    assert b[q + 2..] == b[q..][2..];
    forall k | pos <= k < q
      ensures b[k] == line[k - pos]
    {
      assert b[k] == b[pos..q][k - pos];
    }
  }

  lemma AfterLine(b: string, pos: nat, line: string, rest: string)
    requires pos <= |b| && b[pos..] == line + (CRLF + rest)
    ensures pos + |line| + 2 <= |b| && b[pos + |line| + 2..] == rest
  {
    LineAt(b, pos, line, rest);
  }

  lemma LineEnds(b: string, pos: nat, line: string, rest: string)
    requires pos <= |b| && b[pos..] == line + (CRLF + rest)
    ensures var q := pos + |line|;
            q + 2 <= |b| && CrlfAt(b, q) && (rest != "" ==> q + 2 < |b| && b[q + 2] == rest[0])
  {
    LineAt(b, pos, line, rest);
  }

  lemma NoReturnIn(b: string, pos: nat, line: string, rest: string)
    requires IsLine(line) && pos <= |b| && b[pos..] == line + (CRLF + rest)
    ensures forall k :: pos <= k < pos + |line| ==> k < |b| && b[k] != '\r'
  {
    LineAt(b, pos, line, rest);
    forall k | pos <= k < pos + |line|
      ensures b[k] != '\r'
    {
      assert IsValueChar(line[k - pos]);
    }
  }

  /** No blank line begins in or after a line that another line follows. */
  lemma LineIsPassed(b: string, pos: nat, line: string, rest: string)
    requires IsLine(line) && pos <= |b| && b[pos..] == line + (CRLF + rest) && rest != "" && rest[0] != '\r'
    ensures Terminator(b, pos) == Terminator(b, pos + |line| + 2)
  {
    hide IsLine, Terminator;
    NoReturnIn(b, pos, line, rest);
    LineEnds(b, pos, line, rest);
    TerminatorSkips(b, pos, pos + |line| + 2);
  }

  lemma LineIsLast(b: string, pos: nat, line: string, rest: string)
    requires IsLine(line) && pos <= |b| && b[pos..] == line + (CRLF + (CRLF + rest))
    ensures Terminator(b, pos) == pos + |line| + 4
  {
    LineAt(b, pos, line, CRLF + rest);
    NoReturnIn(b, pos, line, CRLF + rest);
    var q := pos + |line|;
    assert b[q + 2..] == CRLF + rest;
    assert b[q + 2] == b[q + 2..][0] && b[q + 3] == b[q + 2..][1];
    hide IsLine;
    TerminatorSkips(b, pos, q);
  }

  /** The first blank line is the one at the end of the lines. */
  lemma {:induction false} TerminatorOfLines(b: string, pos: nat, lines: seq<string>, rest: string)
    requires lines != [] && forall i :: 0 <= i < |lines| ==> IsLine(lines[i])
    requires pos <= |b| && b[pos..] == LinesText(lines) + (CRLF + rest)
    ensures Terminator(b, pos) == pos + |LinesText(lines)| + 2
    decreases |lines|
  {
    hide IsLine, Terminator, LinesText;
    var line, more := lines[0], LinesText(lines[1..]) + (CRLF + rest);
    LinesBegin(lines, rest);
    if |lines| == 1 {
      LineIsLast(b, pos, line, rest);
    } else {
      MoreBegins(lines[1..], rest);
      LineIsPassed(b, pos, line, more);
      AfterLine(b, pos, line, more);
      TerminatorOfLines(b, pos + |line| + 2, lines[1..], rest);
    }
  }

  lemma LinesBegin(lines: seq<string>, rest: string)
    requires lines != []
    ensures LinesText(lines) + (CRLF + rest) == lines[0] + (CRLF + (LinesText(lines[1..]) + (CRLF + rest)))
    ensures |LinesText(lines)| == |lines[0]| + 2 + |LinesText(lines[1..])|
    ensures |lines| == 1 ==> LinesText(lines[1..]) == "" && LinesText(lines[1..]) + (CRLF + rest) == CRLF + rest
  {
    SizeOfLines(lines);
    Regroup(lines[0], LinesText(lines[1..]), rest);
    if |lines| == 1 {
      NoLines(lines[1..]);
      assert "" + (CRLF + rest) == CRLF + rest;
    }
  }

  lemma MoreBegins(lines: seq<string>, rest: string)
    requires lines != [] && IsLine(lines[0])
    ensures var more := LinesText(lines) + (CRLF + rest); more != "" && more[0] != '\r'
  {
    FirstOfLines(lines);
  }

  lemma Regroup(line: string, more: string, rest: string)
    ensures line + (CRLF + more) + (CRLF + rest) == line + (CRLF + (more + (CRLF + rest)))
  {
  }

  lemma NoLines(lines: seq<string>)
    requires lines == []
    ensures LinesText(lines) == ""
  {
  }

  lemma FirstOfLines(lines: seq<string>)
    requires lines != [] && IsLine(lines[0])
    ensures LinesText(lines) != "" && LinesText(lines)[0] != '\r'
  {
    assert LinesText(lines)[0] == lines[0][0] && IsValueChar(lines[0][0]);
  }

  lemma SizeOfLines(lines: seq<string>)
    requires lines != []
    ensures LinesText(lines) == lines[0] + (CRLF + LinesText(lines[1..]))
  {
  }

  lemma LineIsClean(b: string, pos: nat, line: string, rest: string)
    requires AllOf(line, IsValueChar) && pos <= |b| && b[pos..] == line + (CRLF + rest)
    ensures pos + |line| + 2 <= |b| && Clean(b, pos, pos + |line| + 2)
  {
    LineAt(b, pos, line, rest);
    var q := pos + |line|;
    forall i | pos <= i < q + 2
      ensures CleanAt(b, i)
    {
      if i < q {
        assert IsValueChar(line[i - pos]);
      }
    }
  }

  lemma {:induction false} LinesAreClean(b: string, pos: nat, lines: seq<string>, rest: string)
    requires forall i :: 0 <= i < |lines| ==> IsLine(lines[i])
    requires pos <= |b| && b[pos..] == LinesText(lines) + (CRLF + rest)
    ensures pos + |LinesText(lines)| + 2 <= |b| && Clean(b, pos, pos + |LinesText(lines)| + 2)
    decreases |lines|
  {
    if lines == [] {
      assert b[pos..] == "" + (CRLF + rest);
      LineIsClean(b, pos, "", rest);
    } else {
      var line, more := lines[0], LinesText(lines[1..]);
      Regroup(line, more, rest);
      AfterLine(b, pos, line, more + (CRLF + rest));
      LineIsClean(b, pos, line, more + (CRLF + rest));
      LinesAreClean(b, pos + |line| + 2, lines[1..], rest);
      SizeOfLines(lines);
      hide LinesText, CleanAt;
    }
  }

  /** The header part of a message passes the checks made before parsing if and only if it is not too long. */
  lemma HeadIsAdmitted(m: Message, b: string)
    requires IsPlain(m) && b == MessageText(m)
    ensures Terminator(b, 0) == HeadSize(m) && (Admitted(b) <==> HeadSize(m) <= MAX_HEADER_SIZE)
  {
    hide LinesText, Clean, Terminator, IsLine, HeadLines, IsPlain;
    HeadIsLines(m);
    HeadHasLines(m);
    assert b[0..] == b;
    TerminatorOfLines(b, 0, HeadLines(m), m.coded);
    LinesAreClean(b, 0, HeadLines(m), m.coded);
  }

  lemma HeadHasLines(m: Message)
    ensures HeadLines(m) != [] && HeadLines(m)[0] == RequestLineOf(m.verb, m.uri)
    ensures HeadLines(m)[1..] == FieldLines(m.fields)
  {
  }

  // ----- Reading line by line -----

  /** A complete line moves the parser past its CRLF. */
  lemma LineMoves(known: set<string>, c: Core, b: string, line: string, rest: string)
    requires c.phase in {RequestLine, Headers} && c.pos <= |b| && b[c.pos..] == line + (CRLF + rest)
    requires AllOf(line, IsValueChar) && LineStep(known, c, line).Some?
    ensures c.pos + |line| + 2 <= |b|
    ensures Step(known, c, b) == Moved(LineStep(known, c, line).value.(pos := c.pos + |line| + 2))
  {
    hide LineStep;
    var q := c.pos + |line|;
    LineAt(b, c.pos, line, rest);
    LineIsClean(b, c.pos, line, rest);
    forall k | c.pos <= k < q
      ensures b[k] != '\r'
    {
      assert IsValueChar(line[k - c.pos]);
    }
    FindCrlfAfter(b, c.pos, q);
    assert Clean(b, c.pos, q + 1);
  }

  /** What reading a field changes. */
  predicate Reads(c: Core, d: Core) {
    d == c.(headers := d.headers, lastName := d.lastName, headerCount := d.headerCount,
            contentLength := d.contentLength, pos := d.pos)
  }

  lemma ColonOfField(f: Field)
    requires IsField(f)
    ensures var line, k := FieldLine(f), |f.name|;
            && IndexOf(line, ':', 0) == Some(k) && k < |line|
            && line[..k] == f.name && line[k + 1..] == f.before + (f.value + f.after)
  {
    var line, k := FieldLine(f), |f.name|;
    forall j | 0 <= j < k
      ensures line[j] != ':'
    {
      assert line[j] == f.name[j] && IsTokenChar(f.name[j]);
    }
    assert line[k] == ':';
    IndexOfIs(line, ':', 0, k);
    assert line[k..] == ":" + (f.before + (f.value + f.after));
    assert line[k + 1..] == line[k..][1..];
  }

  /** A field is read as its value, without the blanks around it. */
  lemma FieldIsRead(known: set<string>, c: Core, f: Field)
    requires c.phase == Headers && IsField(f) && c.headerCount < MAX_HEADER_COUNT
    ensures var d := LineStep(known, c, FieldLine(f));
            && d.Some? && Reads(c, d.value) && d.value.headerCount == c.headerCount + 1
            && d.value.headers == c.headers[KeyOf(f.name) := f.value]
  {
    hide IndexOf, TrimOws, KeyOf, FromChars, FieldLine, AllOf, CiEqual;
    FieldIsLine(f);
    ColonOfField(f);
    TrimExact(f.before, f.value, f.after);
  }

  /** The map that the fields make, read in order. */
  function Read(headers: map<string, string>, fields: seq<Field>): map<string, string>
    decreases |fields|
  {
    if fields == [] then headers else Read(headers[KeyOf(fields[0].name) := fields[0].value], fields[1..])
  }

  lemma {:induction false} FieldsAreRead(known: set<string>, c: Core, b: string, fields: seq<Field>, rest: string)
    returns (d: Core)
    requires c.phase == Headers && c.pos <= |b| && c.headerCount + |fields| <= MAX_HEADER_COUNT
    requires forall i :: 0 <= i < |fields| ==> IsField(fields[i])
    requires b[c.pos..] == LinesText(FieldLines(fields)) + rest
    ensures d.pos == c.pos + |LinesText(FieldLines(fields))| <= |b| && b[d.pos..] == rest
    ensures Reads(c, d) && d.headers == Read(c.headers, fields) && d.headerCount == c.headerCount + |fields|
    ensures Loop(known, c, b) == Loop(known, d, b)
    decreases |fields|
  {
    hide Loop, Step, LineStep, IsField, FieldLine;
    if fields == [] {
      d := c;
      assert b[c.pos..] == rest;
    } else {
      var line, more := FieldLine(fields[0]), LinesText(FieldLines(fields[1..]));
      FieldIsLine(fields[0]);
      FirstFieldLine(fields);
      assert b[c.pos..] == line + (CRLF + (more + rest));
      FieldIsRead(known, c, fields[0]);
      AfterLine(b, c.pos, line, more + rest);
      LineMoves(known, c, b, line, more + rest);
      var e := LineStep(known, c, line).value.(pos := c.pos + |line| + 2);
      LoopOnce(known, c, b, e);
      d := FieldsAreRead(known, e, b, fields[1..], rest);
    }
  }

  lemma FirstFieldLine(fields: seq<Field>)
    requires fields != []
    ensures LinesText(FieldLines(fields)) == FieldLine(fields[0]) + (CRLF + LinesText(FieldLines(fields[1..])))
  {
    assert FieldLines(fields)[1..] == FieldLines(fields[1..]);
  }

  lemma LoopOnce(known: set<string>, c: Core, b: string, next: Core)
    requires c.pos <= |b| && c.phase != Complete && Step(known, c, b) == Moved(next)
    ensures next.pos <= |b| && Loop(known, c, b) == Loop(known, next, b)
  {
    hide Step;
  }

  /** The headers read are, under each name, the last value given. */
  lemma {:induction false} ReadIsLast(headers: map<string, string>, fields: seq<Field>, name: string)
    ensures var m, last := Read(headers, fields), LastValue(fields, name);
            if last.Some? then KeyOf(name) in m && m[KeyOf(name)] == last.value
            else (KeyOf(name) in m <==> KeyOf(name) in headers)
                 && (KeyOf(name) in m ==> m[KeyOf(name)] == headers[KeyOf(name)])
    decreases |fields|
  {
    hide KeyOf;
    if fields != [] {
      ReadIsLast(headers[KeyOf(fields[0].name) := fields[0].value], fields[1..], name);
      SameKey(fields[0].name, name);
    }
  }

  lemma SameKey(a: string, b: string)
    ensures KeyOf(a) == KeyOf(b) <==> CiEqual(a, b, true)
  {
    if KeyOf(a) == KeyOf(b) {
      assert |Key(a, true)| == |Key(b, true)|;
    }
  }

  /** The core after the request line. */
  lemma RequestLineIsPassed(known: set<string>, m: Message, b: string) returns (e: Core)
    requires IsPlain(m) && b == MessageText(m)
    ensures e == INIT.(verb := m.verb, uri := m.uri, phase := Headers, pos := |RequestLineOf(m.verb, m.uri)| + 2)
    ensures e.pos <= |b| && b[e.pos..] == LinesText(FieldLines(m.fields)) + (CRLF + m.coded)
    ensures Loop(known, INIT, b) == Loop(known, e, b)
  {
    hide LinesText, IsField, IsLine, Loop, Step, FieldLines, RequestLineOf, ProcessRequestLine;
    var line, rest := RequestLineOf(m.verb, m.uri), LinesText(FieldLines(m.fields)) + (CRLF + m.coded);
    LinesOfHead(m);
    RequestLineIsLine(m.verb, m.uri);
    WrittenLineIsRead(m.verb, m.uri);
    assert b[0..] == b;
    AfterLine(b, 0, line, rest);
    assert AllOf(line, IsValueChar) by {
      LineIsPlain(line);
    }
    LineMoves(known, INIT, b, line, rest);
    e := INIT.(verb := m.verb, uri := m.uri, phase := Headers, pos := |line| + 2);
    LoopOnce(known, INIT, b, e);
  }

  /** The core at the blank line. */
  lemma HeadIsRead(known: set<string>, m: Message, b: string) returns (d: Core)
    requires IsPlain(m) && |m.fields| <= MAX_HEADER_COUNT && b == MessageText(m)
    ensures d.phase == Headers && d.verb == m.verb && d.uri == m.uri && d.chunkBody == "" && d.body == ""
    ensures d.headers == Read(map[], m.fields)
    ensures d.pos + 2 == HeadSize(m) <= |b| && b[d.pos..] == CRLF + m.coded
    ensures Loop(known, INIT, b) == Loop(known, d, b)
  {
    hide LinesText, IsField, Loop, FieldLines, RequestLineOf, MessageText;
    var e := RequestLineIsPassed(known, m, b);
    LinesOfHead(m);
    d := FieldsAreRead(known, e, b, m.fields, CRLF + m.coded);
  }

  lemma LineIsPlain(line: string)
    requires IsLine(line)
    ensures AllOf(line, IsValueChar)
  {
  }

  lemma LinesOfHead(m: Message)
    ensures MessageText(m) ==
            RequestLineOf(m.verb, m.uri) + (CRLF + (LinesText(FieldLines(m.fields)) + (CRLF + m.coded)))
    ensures LinesText(HeadLines(m)) == RequestLineOf(m.verb, m.uri) + (CRLF + LinesText(FieldLines(m.fields)))
  {
    HeadHasLines(m);
    hide FieldLines, RequestLineOf;
  }

  // ----- The body -----

  /** Exactly the numbers of decimal digits are read as a length. */
  lemma LengthIsRead(value: string)
    requires value != "" ==> !IsBlank(value[|value| - 1])
    ensures var n := WholeNumber(TrimRight(value), 10);
            if IsLength(value) then n == Some(ValueOf(value, 10)) else n.None? || n.value > MAX_BODY_SIZE
  {
    TrimRightStops(value);
    hide ValueOf;
    if value != "" && AllDigits(value, 10) {
      RunOfDigits(value, "", 10);
      assert value + "" == value;
      assert value[..|value|] == value;
    } else {
      assert value[..|value|] == value;
    }
  }

  lemma {:induction false} LastIsTrimmed(fields: seq<Field>, name: string)
    requires forall i :: 0 <= i < |fields| ==> IsField(fields[i])
    ensures var last := LastValue(fields, name);
            last.Some? && last.value != "" ==> !IsBlank(last.value[|last.value| - 1])
  {
    hide CiEqual;
    if fields != [] {
      LastIsTrimmed(fields[1..], name);
      assert IsField(fields[0]);
    }
  }

  /** How the blank line leaves the parser. */
  lemma BlankLine(known: set<string>, m: Message, d: Core)
    requires IsPlain(m) && d.phase == Headers && d.headers == Read(map[], m.fields)
    ensures var cl, end := LastValue(m.fields, "Content-Length"), LineStep(known, d, "");
            if IsChunked(m) then end == Some(d.(chunked := true, phase := ChunkSize))
            else if cl.None? then end == Some(d.(phase := Complete))
            else if IsLength(cl.value) then end == Some(d.(contentLength := ValueOf(cl.value, 10), phase := Body))
            else end == None
  {
    hide KeyOf, CiEqual, IsLength, WholeNumber, TrimRight, Read, LastValue, IsField;
    ReadIsLast(map[], m.fields, "Transfer-Encoding");
    ReadIsLast(map[], m.fields, "Content-Length");
    LastIsTrimmed(m.fields, "Content-Length");
    var cl := LastValue(m.fields, "Content-Length");
    if cl.Some? {
      LengthIsRead(cl.value);
    }
    LengthIsSmall();
  }

  lemma LengthIsSmall()
    ensures forall v :: IsLength(v) ==> ValueOf(v, 10) <= MAX_BODY_SIZE
  {
  }

  lemma BlankLineMoves(known: set<string>, d: Core, b: string, coded: string) returns (e: Core)
    requires d.phase == Headers && d.pos <= |b| && b[d.pos..] == CRLF + coded && LineStep(known, d, "").Some?
    ensures e == LineStep(known, d, "").value.(pos := d.pos + 2)
    ensures e.pos <= |b| && b[e.pos..] == coded && Loop(known, d, b) == Loop(known, e, b)
  {
    hide Loop, LineStep, Step;
    assert b[d.pos..] == "" + (CRLF + coded);
    AfterLine(b, d.pos, "", coded);
    LineMoves(known, d, b, "", coded);
    e := LineStep(known, d, "").value.(pos := d.pos + 2);
    LoopOnce(known, d, b, e);
  }

  /** The core after the blank line. */
  lemma HeadIsPassed(known: set<string>, m: Message, b: string) returns (e: Core)
    requires IsMessage(m) && b == MessageText(m)
    ensures e.pos <= |b| && b[e.pos..] == m.coded && e.chunkBody == e.body == ""
    ensures e.verb == m.verb && e.uri == m.uri && e.headers == Read(map[], m.fields)
    ensures var cl := LastValue(m.fields, "Content-Length");
            if IsChunked(m) then e.phase == ChunkSize
            else if cl.None? then e.phase == Complete
            else e.phase == Body && IsLength(cl.value) && e.contentLength == ValueOf(cl.value, 10)
    ensures Loop(known, INIT, b) == Loop(known, e, b)
  {
    hide Loop, IsPlain, Read, LineStep, Step, ChunkedBody, IsChunked, LastValue, IsLength, ValueOf, MessageText;
    var d := HeadIsRead(known, m, b);
    BlankLine(known, m, d);
    e := BlankLineMoves(known, d, b, m.coded);
  }

  /** A whole message is read as what was written. */
  lemma MessageIsParsed(known: set<string>, m: Message)
    requires IsMessage(m)
    ensures var c := Parse(known, MessageText(m));
            && c.Some? && c.value.phase == Complete && c.value.pos == |MessageText(m)|
            && c.value.verb == m.verb && c.value.uri == m.uri && c.value.body == m.body
            && c.value.headers == Read(map[], m.fields)
  {
    hide Loop, IsPlain, IsCoded, Read, MessageText, Admitted;
    var b := MessageText(m);
    HeadIsAdmitted(m, b);
    var e := HeadIsPassed(known, m, b);
    BodyIsRead(known, m, b, e);
  }

  lemma BodyIsRead(known: set<string>, m: Message, b: string, e: Core)
    requires IsCoded(m) && e.pos <= |b| && b[e.pos..] == m.coded && e.chunkBody == e.body == ""
    requires var cl := LastValue(m.fields, "Content-Length");
             if IsChunked(m) then e.phase == ChunkSize
             else if cl.None? then e.phase == Complete
             else e.phase == Body && IsLength(cl.value) && e.contentLength == ValueOf(cl.value, 10)
    ensures var c := Loop(known, e, b);
            && c.Some? && c.value.phase == Complete && c.value.pos == |b| && c.value.body == m.body
            && c.value.verb == e.verb && c.value.uri == e.uri && c.value.headers == e.headers
  {
    hide IsChunked, LastValue, ChunkedBody, IsLength, ValueOf, Loop;
    if IsChunked(m) {
      var n :| n >= 1 && m.coded == ChunkedBody(m.body, n);
      assert m.coded + "" == m.coded;
      ChunkedRoundTrip(known, e, b, m.body, n, "");
      assert "" + m.body == m.body;
    } else if LastValue(m.fields, "Content-Length").None? {
      LoopStops(known, e, b);
    } else {
      CountedBody(known, e, b, m.body);
    }
  }

  lemma LoopStops(known: set<string>, e: Core, b: string)
    requires e.pos <= |b| && e.phase == Complete
    ensures Loop(known, e, b) == Some(e)
  {
  }

  lemma CountedBody(known: set<string>, e: Core, b: string, body: string)
    requires e.pos <= |b| && e.phase == Body && e.contentLength == |body| && b[e.pos..] == body
    ensures Loop(known, e, b) == Some(e.(body := body, pos := |b|, phase := Complete))
  {
    assert b[e.pos..e.pos + |body|] == b[e.pos..];
    var done := e.(body := body, pos := |b|, phase := Complete);
    assert Step(known, e, b) == Moved(done);
    hide Step;
    LoopOnce(known, e, b, done);
    LoopStops(known, done, b);
  }

  function RequestOf(m: Message): Request {
    Request(m.verb, m.uri, Read(map[], m.fields), m.body)
  }

  /** Whatever follows it, a message is framed as the request that was written; and each part of it is
      part of a request. */
  lemma MessageIsFramed(known: set<string>, m: Message, tail: string)
    requires IsMessage(m)
    ensures FrameOf(known, MessageText(m) + tail) == Whole(|MessageText(m)|, RequestOf(m))
    ensures forall k :: 0 <= k < |MessageText(m)| ==> FrameOf(known, MessageText(m)[..k]).Partial?
    ensures forall name :: match LastValue(m.fields, name)
                           case Some(v) => KeyOf(name) in RequestOf(m).headers
                                           && RequestOf(m).headers[KeyOf(name)] == v
                           case None => KeyOf(name) !in RequestOf(m).headers
  {
    hide Parse, IsMessage, MessageText, Read, LastValue, KeyOf;
    var text := MessageText(m);
    MessageIsParsed(known, m);
    assert Agree(text, text + tail, |text|) by {
      assert (text + tail)[..|text|] == text == text[..|text|];
    }
    CompleteIsStable(known, text, text + tail);
    forall k | 0 <= k < |text|
      ensures FrameOf(known, text[..k]).Partial?
    {
      PartIsPartial(known, text, k);
    }
    forall name
      ensures match LastValue(m.fields, name)
              case Some(v) => KeyOf(name) in RequestOf(m).headers && RequestOf(m).headers[KeyOf(name)] == v
              case None => KeyOf(name) !in RequestOf(m).headers
    {
      ReadIsLast(map[], m.fields, name);
    }
  }

  lemma PartIsPartial(known: set<string>, text: string, k: nat)
    requires k < |text| && Parse(known, text).Some? && Parse(known, text).value.phase == Complete
    requires Parse(known, text).value.pos == |text|
    ensures FrameOf(known, text[..k]).Partial?
  {
    hide Parse;
    var part := text[..k];
    if Parse(known, part).None? {
      ParseExtends(known, part, text);
    } else if Parse(known, part).value.phase == Complete {
      var n := Parse(known, part).value.pos;
      assert part[..n] == text[..n];
      CompleteIsStable(known, part, text);
    }
  }

  /** Without the chunked coding, a Content-Length that is no number within the limit is refused. */
  lemma LengthIsRefused(known: set<string>, m: Message, tail: string)
    requires IsHead(m) && !IsChunked(m)
    requires LastValue(m.fields, "Content-Length").Some? && !IsLength(LastValue(m.fields, "Content-Length").value)
    ensures FrameOf(known, MessageText(m) + tail).Bad?
  {
    hide Loop, LinesText, IsPlain, Read, LineStep, IsChunked, IsLength, LastValue, ParserModel.Parse;
    var b := MessageText(m);
    HeadIsAdmitted(m, b);
    var d := HeadIsRead(known, m, b);
    BlankLine(known, m, d);
    assert b[d.pos..] == "" + (CRLF + m.coded);
    LineFails(known, d, b, "", m.coded);
    assert Parse(known, b) == None by {
      RefusedAt(known, b);
    }
    ParseExtends(known, b, b + tail);
  }

  /** Until the whole of a body of known length is there, the header part is all that has been worked off. */
  lemma BodyIsAwaited(known: set<string>, m: Message)
    requires IsHead(m) && !IsChunked(m)
    requires var cl := LastValue(m.fields, "Content-Length");
             cl.Some? && IsLength(cl.value) && |m.coded| < ValueOf(cl.value, 10)
    ensures FrameOf(known, MessageText(m)) == Partial(HeadSize(m))
  {
    hide Loop, LinesText, IsPlain, Read, LineStep, Step, IsChunked, IsLength, LastValue, ValueOf, Admitted, MessageText;
    var b := MessageText(m);
    HeadIsAdmitted(m, b);
    var d := HeadIsRead(known, m, b);
    BlankLine(known, m, d);
    var e := BlankLineMoves(known, d, b, m.coded);
    LoopWaits(known, e, b);
  }

  lemma LoopWaits(known: set<string>, e: Core, b: string)
    requires e.pos <= |b| && e.phase == Body && |b| - e.pos < e.contentLength
    ensures Loop(known, e, b) == Some(e)
  {
    assert Step(known, e, b) == Stuck;
    hide Step;
  }

  lemma RefusedAt(known: set<string>, b: string)
    requires Loop(known, INIT, b) == None
    ensures Parse(known, b) == None
  {
    hide Loop;
  }

  lemma LineFails(known: set<string>, c: Core, b: string, line: string, rest: string)
    requires c.phase in {RequestLine, Headers} && c.pos <= |b| && b[c.pos..] == line + (CRLF + rest)
    requires AllOf(line, IsValueChar) && LineStep(known, c, line).None?
    ensures Loop(known, c, b) == None
  {
    hide LineStep;
    var q := c.pos + |line|;
    LineAt(b, c.pos, line, rest);
    LineIsClean(b, c.pos, line, rest);
    forall k | c.pos <= k < q
      ensures b[k] != '\r'
    {
      assert IsValueChar(line[k - c.pos]);
    }
    FindCrlfAfter(b, c.pos, q);
    assert Clean(b, c.pos, q + 1);
  }

  // ----- What is refused -----

  lemma BlankRun(c: char, blanks: string)
    ensures AllOf("", IsBlank)
    ensures IsBlank(c) && AllOf(blanks, IsBlank) ==> AllOf([c] + blanks, IsBlank) && AllOf(blanks + [c], IsBlank)
  {
  }

  lemma {:induction false} TakeLeft(s: string) returns (before: string, rest: string)
    ensures s == before + rest && AllOf(before, IsBlank) && rest == TrimLeft(s)
  {
    hide TrimLeft, AllOf, IsBlank;
    if s != "" && IsBlank(s[0]) {
      TrimOneLeft(s);
      var blanks: string;
      blanks, rest := TakeLeft(s[1..]);
      before := [s[0]] + blanks;
      BlankRun(s[0], blanks);
      Associative([s[0]], blanks, rest);
    } else {
      TrimLeftStops(s);
      before, rest := "", s;
      BlankRun(' ', "");
    }
  }

  lemma {:induction false} TakeRight(s: string) returns (rest: string, after: string)
    ensures s == rest + after && AllOf(after, IsBlank) && rest == TrimRight(s)
  {
    hide AllOf, IsBlank;
    if s != "" && IsBlank(s[|s| - 1]) {
      var blanks: string;
      rest, blanks := TakeRight(s[..|s| - 1]);
      after := blanks + [s[|s| - 1]];
      BlankRun(s[|s| - 1], blanks);
      Associative(rest, blanks, [s[|s| - 1]]);
    } else {
      rest, after := s, "";
      BlankRun(' ', "");
    }
  }

  /** A line is accepted as a header exactly if it is a field, and the headers are not too many. */
  lemma FieldLineExact(known: set<string>, c: Core, line: string)
    requires c.phase == Headers
    ensures ProcessHeaderLine(known, c, line).Some? <==>
            c.headerCount < MAX_HEADER_COUNT && exists f :: IsField(f) && FieldLine(f) == line
  {
    hide TrimLeft, TrimRight, FieldLine, KeyOf, FromChars, CiEqual;
    if ProcessHeaderLine(known, c, line).Some? {
      var f := FieldOf(known, c, line);
    }
    if c.headerCount < MAX_HEADER_COUNT && exists f :: IsField(f) && FieldLine(f) == line {
      var f :| IsField(f) && FieldLine(f) == line;
      FieldIsAccepted(known, c, f);
    }
  }

  lemma FieldIsAccepted(known: set<string>, c: Core, f: Field)
    requires c.headerCount < MAX_HEADER_COUNT && IsField(f)
    ensures ProcessHeaderLine(known, c, FieldLine(f)).Some?
  {
    ColonOfField(f);
    TrimExact(f.before, f.value, f.after);
    hide IndexOf, TrimOws, FieldLine, AllOf, KeyOf, FromChars, CiEqual;
  }

  /** A text is its trimmed form with blanks around it. */
  lemma Untrim(s: string) returns (before: string, after: string)
    ensures s == before + (TrimOws(s) + after) && AllOf(before, IsBlank) && AllOf(after, IsBlank)
    ensures TrimOws(s) != "" ==> !IsBlank(TrimOws(s)[0]) && !IsBlank(TrimOws(s)[|TrimOws(s)| - 1])
  {
    hide AllOf;
    var tail, value: string;
    before, tail := TakeLeft(s);
    value, after := TakeRight(tail);
    if value != "" {
      assert tail[0] == value[0];
    }
  }

  lemma AcceptedParts(known: set<string>, c: Core, line: string) returns (k: nat)
    requires ProcessHeaderLine(known, c, line).Some?
    ensures k < |line| && line[k] == ':' && line[..k] != "" && AllOf(line[..k], IsTokenChar)
    ensures AllOf(TrimOws(line[k + 1..]), IsValueChar)
  {
    hide TrimOws, KeyOf, FromChars, CiEqual, AllOf;
    k := IndexOf(line, ':', 0).value;
  }

  lemma FieldOf(known: set<string>, c: Core, line: string) returns (f: Field)
    requires ProcessHeaderLine(known, c, line).Some?
    ensures IsField(f) && FieldLine(f) == line
  {
    hide TrimOws, ProcessHeaderLine, AllOf;
    var k := AcceptedParts(known, c, line);
    var before, after := Untrim(line[k + 1..]);
    f := Field(line[..k], before, TrimOws(line[k + 1..]), after);
    assert line == line[..k] + ([line[k]] + line[k + 1..]);
  }

  lemma {:induction false} FieldLinesSplit(fields: seq<Field>, n: nat)
    requires n <= |fields|
    ensures LinesText(FieldLines(fields)) == LinesText(FieldLines(fields[..n])) + LinesText(FieldLines(fields[n..]))
  {
    hide FieldLine;
    if n == 0 {
      assert fields[..0] == [] && fields[0..] == fields;
    } else {
      FirstFieldLine(fields);
      FirstFieldLine(fields[..n]);
      FieldLinesSplit(fields[1..], n - 1);
      assert fields[1..][..n - 1] == fields[..n][1..] && fields[1..][n - 1..] == fields[n..];
      hide LinesText, FieldLines;
    }
  }

  /** A header part that is too long, or has too many fields, is refused. */
  lemma HeadIsRefused(known: set<string>, m: Message, tail: string)
    requires IsPlain(m) && (HeadSize(m) > MAX_HEADER_SIZE || |m.fields| > MAX_HEADER_COUNT)
    ensures FrameOf(known, MessageText(m) + tail).Bad?
  {
    hide Loop, LinesText, IsPlain, Admitted, MessageText;
    var b := MessageText(m);
    HeadIsAdmitted(m, b);
    if HeadSize(m) <= MAX_HEADER_SIZE {
      TooManyFields(known, m, b);
    }
    assert Parse(known, b) == None;
    hide ParserModel.Parse;
    ParseExtends(known, b, b + tail);
  }

  lemma TooManyFields(known: set<string>, m: Message, b: string)
    requires IsPlain(m) && |m.fields| > MAX_HEADER_COUNT && b == MessageText(m)
    ensures Loop(known, INIT, b) == None
  {
    hide LinesText, IsField, Loop, FieldLines, RequestLineOf, MessageText, FieldLine, LineStep;
    var n, f := MAX_HEADER_COUNT, m.fields[MAX_HEADER_COUNT];
    var e := RequestLineIsPassed(known, m, b);
    FieldLinesSplit(m.fields, n);
    FirstFieldLine(m.fields[n..]);
    var more := LinesText(FieldLines(m.fields[n..][1..])) + (CRLF + m.coded);
    var front, line := LinesText(FieldLines(m.fields[..n])), FieldLine(f);
    assert b[e.pos..] == front + (line + (CRLF + more));
    var d := FieldsAreRead(known, e, b, m.fields[..n], line + (CRLF + more));
    assert d.headerCount == n;
    FieldIsLine(f);
    assert LineStep(known, d, line).None? by {
      FullHeadersRefuse(known, d, line);
    }
    LineFails(known, d, b, line, more);
  }

  lemma FullHeadersRefuse(known: set<string>, d: Core, line: string)
    requires d.phase == Headers && d.headerCount >= MAX_HEADER_COUNT && line != "" && !IsBlank(line[0])
    ensures LineStep(known, d, line).None?
  {
  }

  // ----- What the request asks of the connection -----

  /** The connection is to be closed exactly if the last Connection field, in any spelling of the name,
      says close or Close. */
  lemma ClosesExactly(m: Message)
    ensures WantsClose(RequestOf(m)) <==> LastValue(m.fields, "connection") in {Some("close"), Some("Close")}
  {
    hide Read, LastValue;
    ReadIsLast(map[], m.fields, "connection");
    assert KeyOf("connection") == Key("connection", true);
  }

  /** The spellings of a name without '^' and '~' are those that differ in case. */
  lemma PlainNamesFold(a: string, b: string)
    requires AllOf(a, IsTokenChar) && AllOf(b, IsTokenChar) && '^' !in b && '~' !in b
    ensures CiEqual(a, b, true) <==> |a| == |b| && forall i :: 0 <= i < |a| ==> Lower(a[i]) == Lower(b[i])
  {
    hide Key, Lower;
    if |a| == |b| {
      ComparisonIsCaseFolding(a, b, true);
    }
  }
}
