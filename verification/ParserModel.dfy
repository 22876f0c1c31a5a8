/**
 The request parser as a function of the octets in its buffer: one step of the seven-state machine,
 the loop over steps, and the checks made before them. Captured views are strings.
 */
module ParserModel {
  import opened Options
  import opened CaseFold
  import opened Text
  import opened Http

  const MAX_HEADER_SIZE: nat := 8192
  const MAX_BODY_SIZE: nat := 10 * 1024 * 1024
  const MAX_URI_LENGTH: nat := 2048
  const MAX_HEADER_COUNT: nat := 100
  const MAX_BUFFER_SIZE: nat := MAX_HEADER_SIZE + MAX_BODY_SIZE
  const COMPACT_THRESHOLD: nat := 2048

  predicate IsBlank(c: char) {
    c == ' ' || c == '\t'
  }

  predicate IsValueChar(c: char) {
    c == '\t' || ' ' <= c <= '~'
  }

  predicate IsUriChar(c: char) {
    '!' <= c <= '~'
  }

  predicate AllOf(s: string, p: char -> bool) {
    forall i :: 0 <= i < |s| ==> p(s[i])
  }

  function TrimLeft(s: string): (r: string)
    ensures |r| <= |s| && r == s[|s| - |r|..]
    ensures r != "" ==> !IsBlank(r[0])
  {
    if s != "" && IsBlank(s[0]) then TrimLeft(s[1..]) else s
  }

  function TrimRight(s: string): (r: string)
    ensures r <= s
    ensures r != "" ==> !IsBlank(r[|r| - 1])
  {
    if s != "" && IsBlank(s[|s| - 1]) then TrimRight(s[..|s| - 1]) else s
  }

  function TrimOws(s: string): string {
    TrimRight(TrimLeft(s))
  }

  /** The first c at or after i. */
  function IndexOf(s: string, c: char, i: nat): (r: Option<nat>)
    requires i <= |s|
    ensures r.Some? ==> i <= r.value < |s| && s[r.value] == c
    ensures forall k :: i <= k < (if r.Some? then r.value else |s|) ==> s[k] != c
    decreases |s| - i
  {
    if i == |s| then None else if s[i] == c then Some(i) else IndexOf(s, c, i + 1)
  }

  predicate CrlfAt(b: string, i: nat) {
    i + 2 <= |b| && b[i] == '\r' && b[i + 1] == '\n'
  }

  /** The first CRLF at or after i. */
  function FindCrlf(b: string, i: nat): (r: Option<nat>)
    ensures r.Some? ==> i <= r.value && CrlfAt(b, r.value)
    decreases |b| - i
  {
    if i + 2 > |b| then None else if CrlfAt(b, i) then Some(i) else FindCrlf(b, i + 1)
  }

  predicate TerminatorAt(b: string, i: nat) {
    i + 4 <= |b| && CrlfAt(b, i) && CrlfAt(b, i + 2)
  }

  /** The end of the first blank line at or after i, or 0. */
  function Terminator(b: string, i: nat): (t: nat)
    ensures t != 0 ==> i + 4 <= t <= |b| && TerminatorAt(b, t - 4)
    decreases |b| - i
  {
    if i + 4 > |b| then 0 else if TerminatorAt(b, i) then i + 4 else Terminator(b, i + 1)
  }

  /** Neither NUL nor eight bits, and no LF without CR. */
  predicate CleanAt(b: string, i: nat)
    requires i < |b|
  {
    0 as char < b[i] < 128 as char && (b[i] == '\n' ==> i > 0 && b[i - 1] == '\r')
  }

  predicate Clean(b: string, from: nat, to: nat)
    requires to <= |b|
  {
    forall i :: from <= i < to ==> CleanAt(b, i)
  }

  function ParseMethod(s: string): Method {
    if s == "GET" then Get
    else if s == "POST" then Post
    else if s == "PUT" then Put
    else if s == "DELETE" then Delete
    else if s == "PATCH" then Patch
    else if s == "HEAD" then Head
    else if s == "OPTIONS" then Options
    else Unknown
  }

  /** A request line: method, target, version. */
  function ProcessRequestLine(line: string): Option<(Method, string)> {
    if line == "" || IsBlank(line[0]) || IsBlank(line[|line| - 1]) then None
    else
      var first := IndexOf(line, ' ', 0);
      if first.None? then None
      else
        var verb := ParseMethod(line[..first.value]);
        if verb == Unknown then None
        else
          var second := IndexOf(line, ' ', first.value + 1);
          if second.None? then None
          else
            var uri := line[first.value + 1..second.value];
            if |uri| > MAX_URI_LENGTH || !AllOf(uri, IsUriChar) || line[second.value + 1..] != "HTTP/1.1" then None
            else Some((verb, uri))
  }

  datatype Phase = RequestLine | Headers | Body | ChunkSize | ChunkData | ChunkTrailer | Complete

  datatype Core = Core(phase: Phase, pos: nat, verb: Method, uri: string, headers: map<string, string>,
                       body: string, lastName: Option<string>, headerCount: nat, contentLength: nat,
                       chunkSize: nat, chunked: bool, chunkBody: string)

  const INIT: Core := Core(RequestLine, 0, Unknown, "", map[], "", None, 0, 0, 0, false, "")

  /** The key under which a header is stored: two spellings have one key when ci_equal takes them as equal. */
  function KeyOf(name: string): string {
    Key(name, true)
  }

  /** A header line "name: value". `known` holds the keys of the names in the field table. */
  function ProcessHeaderLine(known: set<string>, c: Core, line: string): Option<Core> {
    if c.headerCount >= MAX_HEADER_COUNT then None
    else
      var colon := IndexOf(line, ':', 0);
      if colon.None? then None
      else
        var name, value := line[..colon.value], TrimOws(line[colon.value + 1..]);
        if name == "" || !AllOf(name, IsTokenChar) || !AllOf(value, IsValueChar) then None
        else
          Some(c.(headers := c.headers[KeyOf(name) := value],
                  lastName := if KeyOf(name) in known then None else Some(name),
                  headerCount := c.headerCount + 1,
                  contentLength := if CiEqual(name, "Content-Length", true) && FromChars(value, 10).Some?
                                   then FromChars(value, 10).value.0 else c.contentLength))
  }

  /** A continuation line: it is joined to the last header, if that one's name is not in the table. */
  function FoldHeaderLine(c: Core, line: string): Option<Core> {
    if c.lastName.None? || KeyOf(c.lastName.value) !in c.headers then None
    else
      var key, folded := KeyOf(c.lastName.value), TrimOws(TrimLeft(line));
      if !AllOf(folded, IsValueChar) then None
      else Some(c.(headers := c.headers[key := c.headers[key] + " " + folded]))
  }

  /** A number that takes the whole text. */
  function WholeNumber(s: string, base: nat): Option<nat>
    requires 2 <= base <= 16
  {
    var n := FromChars(s, base);
    if n.None? || n.value.1 != |s| then None else Some(n.value.0)
  }

  /** The blank line: how the body, if any, is framed. */
  function EndOfHeaders(c: Core): Option<Core> {
    var te, cl := KeyOf("Transfer-Encoding"), KeyOf("Content-Length");
    if te in c.headers && CiEqual(c.headers[te], "chunked", true) then Some(c.(chunked := true, phase := ChunkSize))
    else if cl in c.headers then
      var n := WholeNumber(TrimRight(c.headers[cl]), 10);
      if n.None? || n.value > MAX_BODY_SIZE then None else Some(c.(contentLength := n.value, phase := Body))
    else Some(c.(phase := Complete))
  }

  function HeaderLine(known: set<string>, c: Core, line: string): Option<Core> {
    if line == "" then EndOfHeaders(c)
    else if IsBlank(line[0]) then FoldHeaderLine(c, line)
    else ProcessHeaderLine(known, c, line)
  }

  function ChunkLine(c: Core, line: string): Option<Core> {
    var semicolon := IndexOf(line, ';', 0);
    var size := WholeNumber(TrimOws(if semicolon.Some? then line[..semicolon.value] else line), 16);
    if size.None? || size.value > MAX_BODY_SIZE then None
    else if size.value == 0 then Some(c.(chunkSize := 0, phase := ChunkTrailer))
    else if |c.chunkBody| + size.value > MAX_BODY_SIZE then None
    else Some(c.(chunkSize := size.value, phase := ChunkData))
  }

  function RequestLineStep(c: Core, line: string): Option<Core> {
    var r := ProcessRequestLine(line);
    if r.None? then None else Some(c.(verb := r.value.0, uri := r.value.1, phase := Headers))
  }

  /** What a complete line does in the states that work line by line. */
  function LineStep(known: set<string>, c: Core, line: string): Option<Core> {
    if c.phase == RequestLine then RequestLineStep(c, line)
    else if c.phase == Headers then HeaderLine(known, c, line)
    else if c.phase == ChunkSize then ChunkLine(c, line)
    else Some(c.(body := c.chunkBody, phase := Complete))
  }

  /** A step fails, finds too little input, or moves on. */
  datatype Outcome = Error | Stuck | Moved(next: Core)

  function Step(known: set<string>, c: Core, b: string): (r: Outcome)
    requires c.pos <= |b| && c.phase != Complete
    ensures r.Moved? ==> c.pos <= r.next.pos <= |b| && (c.pos < r.next.pos || r.next.phase == Complete)
  {
    if c.phase == Body then
      if |b| - c.pos < c.contentLength then Stuck
      else Moved(c.(body := b[c.pos..c.pos + c.contentLength], pos := c.pos + c.contentLength, phase := Complete))
    else if c.phase == ChunkData then
      var end := c.pos + c.chunkSize;
      if |b| < end + 2 then Stuck
      else if !CrlfAt(b, end) then Error
      else Moved(c.(chunkBody := c.chunkBody + b[c.pos..end], pos := end + 2, phase := ChunkSize))
    else
      var q := FindCrlf(b, c.pos);
      if q.None? then Stuck
      else if c.phase in {RequestLine, Headers} && !Clean(b, c.pos, q.value + 1) then Error
      else
        var next := LineStep(known, c, b[c.pos..q.value]);
        if next.None? then Error else Moved(next.value.(pos := q.value + 2))
  }

  /** As many steps as the input allows. */
  function Loop(known: set<string>, c: Core, b: string): (r: Option<Core>)
    requires c.pos <= |b|
    ensures r.Some? ==> c.pos <= r.value.pos <= |b|
    ensures r.Some? && r.value.phase != Complete ==> Step(known, r.value, b).Stuck?
    decreases c.phase != Complete, |b| - c.pos
  {
    if c.phase == Complete then Some(c)
    else
      match Step(known, c, b)
      case Error => None
      case Stuck => Some(c)
      case Moved(next) => Loop(known, next, b)
  }

  /** The checks on the header part, all at once. */
  predicate Admitted(b: string) {
    var t := Terminator(b, 0);
    var end := if t != 0 then t else |b|;
    end <= MAX_HEADER_SIZE && Clean(b, 0, end)
  }

  /** The simple form of the parser: the whole input at once. */
  function Parse(known: set<string>, b: string): (r: Option<Core>)
    ensures r.Some? ==> r.value.pos <= |b|
  {
    if Admitted(b) then Loop(known, INIT, b) else None
  }

  function FrameOf(known: set<string>, b: string): Frame {
    match Parse(known, b)
    case None => Bad
    case Some(c) =>
      if c.phase == Complete then Whole(c.pos, Request(c.verb, c.uri, c.headers, c.body)) else Partial(c.pos)
  }

  function FramerOf(known: set<string>): string -> Frame {
    b => FrameOf(known, b)
  }
}
