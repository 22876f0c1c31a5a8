/**
 The incremental parser: it remembers how far the buffer has been searched for the blank line and
 validated, and resumes there. Fed in pieces of any size it agrees with the parser of the whole input.
 */
module ParserSplit {
  import opened Options
  import opened ParserModel
  import opened ParserStability

  datatype Incremental = Incremental(buffer: string, headerEnd: nat, scanned: nat, validated: nat, core: Core)

  const START: Incremental := Incremental("", 0, 0, 0, INIT)

  predicate InHeader(c: Core) {
    c.phase == RequestLine || c.phase == Headers
  }

  /** Three octets are looked at again, for a blank line that began in them. */
  function ScanFrom(scanned: nat): nat {
    if scanned > 3 then scanned - 3 else 0
  }

  function ValidateFrom(validated: nat): nat {
    if validated > 0 then validated - 1 else 0
  }

  function HeaderEnd(s: Incremental): nat {
    if InHeader(s.core) && s.headerEnd == 0 then Terminator(s.buffer, ScanFrom(s.scanned)) else s.headerEnd
  }

  function Limit(buffer: string, headerEnd: nat): nat {
    if headerEnd != 0 then headerEnd else |buffer|
  }

  predicate SizesAllowed(buffer: string, headerEnd: nat, c: Core) {
    if c.phase == Body || c.phase == ChunkData then |buffer| <= MAX_BUFFER_SIZE
    else Limit(buffer, headerEnd) <= MAX_HEADER_SIZE
  }

  predicate InBounds(s: Incremental) {
    s.core.pos <= |s.buffer| && s.headerEnd <= |s.buffer|
  }

  /** Works off what the buffer holds; None is an error. */
  function ParseAvailable(known: set<string>, s: Incremental): (r: Option<Incremental>)
    requires InBounds(s)
    ensures r.Some? ==> InBounds(r.value) && r.value.buffer == s.buffer
  {
    var headerEnd := HeaderEnd(s);
    var limit := Limit(s.buffer, headerEnd);
    if InHeader(s.core) && !Clean(s.buffer, ValidateFrom(s.validated), limit) then None
    else if !SizesAllowed(s.buffer, headerEnd, s.core) then None
    else
      var c := Loop(known, s.core, s.buffer);
      if c.None? then None
      else
        Some(Incremental(s.buffer, headerEnd,
                         if InHeader(s.core) && s.headerEnd == 0 then |s.buffer| else s.scanned,
                         if InHeader(s.core) then limit else s.validated,
                         c.value))
  }

  /** The parser stands where a parser that was given all of `seen` at once would stand. */
  predicate Tracks(known: set<string>, s: Incremental, seen: string) {
    && seen <= s.buffer
    && Parse(known, seen) == Some(s.core)
    && s.headerEnd == Terminator(seen, 0)
    && (InHeader(s.core) && s.headerEnd == 0 ==> s.scanned == |seen|)
    && (InHeader(s.core) ==> s.validated == Limit(seen, s.headerEnd))
  }

  lemma {:induction false} HeaderEndResumes(known: set<string>, s: Incremental, seen: string)
    requires Tracks(known, s, seen)
    ensures HeaderEnd(s) == Terminator(s.buffer, 0)
  {
    hide Parse, Terminator;
    if s.headerEnd == 0 {
      if InHeader(s.core) {
        TerminatorResumes(seen, s.buffer, ScanFrom(s.scanned));
      } else {
        PastHeader(known, seen);
      }
    } else {
      TerminatorAgree(seen, s.buffer, 0);
    }
  }

  lemma {:induction false} PastHeader(known: set<string>, b: string)
    requires Parse(known, b).Some? && !InHeader(Parse(known, b).value)
    ensures 0 < Terminator(b, 0) <= Parse(known, b).value.pos
  {
    hide Loop, Terminator;
    LoopHeaded(known, INIT, b);
  }

  lemma {:induction false} CleanResumes(seen: string, b: string, validated: nat, limit: nat)
    requires seen <= b && validated <= |seen| && Clean(seen, 0, validated) && validated <= limit <= |b|
    ensures Clean(b, ValidateFrom(validated), limit) <==> Clean(b, 0, limit)
  {
    CleanAgree(seen, b, |seen|, 0, validated);
  }

  /** The resumed checks pass exactly when the checks on the whole buffer do. */
  lemma {:induction false} ChecksResume(known: set<string>, s: Incremental, seen: string)
    requires Tracks(known, s, seen) && |s.buffer| <= MAX_BUFFER_SIZE
    ensures var headerEnd := HeaderEnd(s);
            Admitted(s.buffer) <==>
            && (InHeader(s.core) ==> Clean(s.buffer, ValidateFrom(s.validated), Limit(s.buffer, headerEnd)))
            && SizesAllowed(s.buffer, headerEnd, s.core)
  {
    hide Loop, Terminator, Clean;
    HeaderEndResumes(known, s, seen);
    if InHeader(s.core) {
      if s.headerEnd == 0 {
        TerminatorIsLate(seen, s.buffer);
      }
      CleanResumes(seen, s.buffer, s.validated, Limit(s.buffer, HeaderEnd(s)));
    } else {
      PastHeader(known, seen);
      AdmittedAgree(seen, s.buffer);
    }
  }

  /** Resuming gives what parsing the whole buffer from its start gives. */
  lemma {:induction false} ResumeIsParse(known: set<string>, s: Incremental, seen: string)
    requires Tracks(known, s, seen) && |s.buffer| <= MAX_BUFFER_SIZE
    requires InBounds(s)
    ensures match ParseAvailable(known, s) {
              case None => Parse(known, s.buffer) == None
              case Some(t) => t.buffer == s.buffer && Tracks(known, t, s.buffer)
            }
  {
    hide Loop, Terminator, Clean, Admitted, SizesAllowed;
    HeaderEndResumes(known, s, seen);
    ChecksResume(known, s, seen);
    ParseExtends(known, seen, s.buffer);
    var r := ParseAvailable(known, s);
    if r.Some? {
      assert Parse(known, s.buffer) == Loop(known, s.core, s.buffer);
      if !InHeader(s.core) {
        StaysPast(known, s.core, s.buffer);
      }
    }
  }

  lemma {:induction false} StaysPast(known: set<string>, s: Core, b: string)
    requires s.pos <= |b| && Loop(known, s, b).Some? && !InHeader(s)
    ensures !InHeader(Loop(known, s, b).value)
    decreases s.phase != Complete, |b| - s.pos
  {
    hide LineStep, Clean, FindCrlf;
    if s.phase != Complete && Step(known, s, b).Moved? {
      if s.phase !in {Body, ChunkData} {
        LinePhase(known, s, b[s.pos..FindCrlf(b, s.pos).value]);
      }
      StaysPast(known, Step(known, s, b).next, b);
    }
  }

  /** One more piece of input. */
  function Feed(known: set<string>, s: Incremental, piece: string): Option<Incremental>
    requires InBounds(s)
  {
    ParseAvailable(known, s.(buffer := s.buffer + piece))
  }

  function Join(pieces: seq<string>): string {
    if pieces == [] then "" else pieces[0] + Join(pieces[1..])
  }

  /** Piece after piece, up to the first error. */
  function FeedAll(known: set<string>, s: Incremental, pieces: seq<string>): Option<Incremental>
    requires InBounds(s)
    decreases |pieces|
  {
    if pieces == [] then Some(s)
    else
      match Feed(known, s, pieces[0])
      case None => None
      case Some(t) => FeedAll(known, t, pieces[1..])
  }

  lemma {:induction false} TracksBounds(known: set<string>, s: Incremental, seen: string)
    requires Tracks(known, s, seen)
    ensures InBounds(s)
  {
    hide Loop, Terminator, Admitted;
  }

  lemma {:induction false} FeedIsParse(known: set<string>, s: Incremental, piece: string)
    requires Tracks(known, s, s.buffer) && |s.buffer + piece| <= MAX_BUFFER_SIZE
    ensures InBounds(s)
    ensures match Feed(known, s, piece) {
              case None => Parse(known, s.buffer + piece) == None
              case Some(t) => t.buffer == s.buffer + piece && Tracks(known, t, t.buffer)
            }
  {
    hide Parse, ParseAvailable;
    TracksBounds(known, s, s.buffer);
    ResumeIsParse(known, s.(buffer := s.buffer + piece), s.buffer);
  }

  /** Fed in pieces, cut anywhere, the parser fails exactly when it fails on the whole input, and
      otherwise ends in the same state with the same request. */
  lemma {:induction false} SplitTheorem(known: set<string>, s: Incremental, pieces: seq<string>)
    requires Tracks(known, s, s.buffer) && |s.buffer + Join(pieces)| <= MAX_BUFFER_SIZE
    ensures InBounds(s)
    ensures match FeedAll(known, s, pieces) {
              case None => Parse(known, s.buffer + Join(pieces)) == None
              case Some(t) => t.buffer == s.buffer + Join(pieces) && Parse(known, t.buffer) == Some(t.core)
            }
    decreases |pieces|
  {
    hide Parse, Feed;
    TracksBounds(known, s, s.buffer);
    if pieces == [] {
      assert s.buffer + "" == s.buffer;
    } else {
      FeedIsParse(known, s, pieces[0]);
      assert s.buffer + pieces[0] + Join(pieces[1..]) == s.buffer + Join(pieces);
      match Feed(known, s, pieces[0])
      case None => ParseExtends(known, s.buffer + pieces[0], s.buffer + Join(pieces));
      case Some(t) =>
        TracksBounds(known, t, t.buffer);
        SplitTheorem(known, t, pieces[1..]);
    }
  }

  /** Any two ways to cut the same input give the same result. */
  lemma {:induction false} SplitsAgree(known: set<string>, pieces: seq<string>, others: seq<string>)
    requires Join(pieces) == Join(others) && |Join(pieces)| <= MAX_BUFFER_SIZE
    ensures match (FeedAll(known, START, pieces), FeedAll(known, START, others)) {
              case (None, None) => true
              case (Some(s), Some(t)) => s.buffer == t.buffer && s.core == t.core
              case _ => false
            }
  {
    hide Parse, FeedAll;
    StartTracks(known);
    assert START.buffer + Join(pieces) == Join(pieces);
    SplitTheorem(known, START, pieces);
    SplitTheorem(known, START, others);
  }

  lemma {:induction false} StartTracks(known: set<string>)
    ensures Tracks(known, START, "")
  {
    hide Parse;
    ParseNothing(known);
  }
}
