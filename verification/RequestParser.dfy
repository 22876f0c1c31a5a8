/** The request parser as it works: a growing buffer, loops that resume, and compaction. */
module RequestParser {
  import opened Options
  import opened ParserModel
  import opened ParserStability
  import opened ParserSplit

  /** What compact_buffer leaves of a parser: the octets worked off are dropped if they are all there
      is, or many. */
  function Compacted(s: Incremental): (r: Incremental)
    requires s.core.pos <= |s.buffer|
    ensures r.core.pos <= |r.buffer| && r.buffer[r.core.pos..] == s.buffer[s.core.pos..]
  {
    var n := s.core.pos;
    if n >= |s.buffer| then Incremental("", 0, 0, 0, s.core.(pos := 0))
    else if n > COMPACT_THRESHOLD / 2 then
      Incremental(s.buffer[n..], Less(s.headerEnd, n), Less(s.scanned, n), Less(s.validated, n), s.core.(pos := 0))
    else s
  }

  function Less(position: nat, n: nat): nat {
    if position > n then position - n else 0
  }

  /** A parser that waits for input with a long buffer is compacted. */
  function Rested(s: Incremental): Incremental
    requires s.core.pos <= |s.buffer|
  {
    if s.core.phase != Complete && (s.core.pos > COMPACT_THRESHOLD || |s.buffer| > MAX_HEADER_SIZE * 2)
    then Compacted(s)
    else s
  }

  class Parser {
    const known: set<string>
    var buffer: string
    var headerEnd: nat
    var scanned: nat
    var validated: nat
    var core: Core

    /** The value of the parser. */
    ghost function State(): Incremental
      reads this
    {
      Incremental(buffer, headerEnd, scanned, validated, core)
    }

    ghost predicate Valid()
      reads this
    {
      InBounds(State()) && validated <= |buffer|
    }

    function Buffered(): nat
      reads this
      requires core.pos <= |buffer|
    {
      |buffer| - core.pos
    }

    constructor (known: set<string>)
      ensures Valid() && State() == START && this.known == known && Tracks(known, State(), "")
    {
      this.known := known;
      buffer, headerEnd, scanned, validated, core := "", 0, 0, 0, INIT;
      new;
      StartTracks(known);
    }

    /** Looks for a blank line from `from` on, one CR at a time. */
    method FindHeaderTerminator(from: nat) returns (t: nat)
      ensures t == Terminator(buffer, from)
    {
      if |buffer| < 4 || from + 3 >= |buffer| {
        return 0;
      }
      var scan, end := from, |buffer| - 3;
      while scan < end
        invariant from <= scan <= end
        invariant Terminator(buffer, scan) == Terminator(buffer, from)
      {
        var hit := IndexOf(buffer, '\r', scan);
        if hit.None? || hit.value >= end {
          TerminatorSkips(buffer, scan, end);
          return 0;
        }
        TerminatorSkips(buffer, scan, hit.value);
        if buffer[hit.value + 1] == '\n' && buffer[hit.value + 2] == '\r' && buffer[hit.value + 3] == '\n' {
          return hit.value + 4;
        }
        scan := hit.value + 1;
      }
      t := 0;
    }

    method Validate(from: nat, to: nat) returns (ok: bool)
      requires to <= |buffer|
      ensures ok == Clean(buffer, from, to)
    {
      var i := from;
      while i < to
        invariant from <= i
        invariant Clean(buffer, from, if i < to then i else to)
      {
        if buffer[i] == 0 as char || buffer[i] >= 128 as char {
          assert !CleanAt(buffer, i);
          return false;
        }
        if buffer[i] == '\n' && (i == 0 || buffer[i - 1] != '\r') {
          assert !CleanAt(buffer, i);
          return false;
        }
        i := i + 1;
      }
      ok := true;
    }

    /** Drops the octets worked off, when they are many; the octets not yet worked off stay. The core
        holds what was captured as values: views into the buffer, which the move would carry off, are
        outside this model. */
    method CompactBuffer()
      requires Valid()
      modifies this
      ensures Valid() && State() == Compacted(old(State()))
      ensures buffer[core.pos..] == old(buffer[core.pos..])
    {
      if core.pos >= |buffer| {
        buffer, headerEnd, scanned, validated := "", 0, 0, 0;
        core := core.(pos := 0);
      } else if core.pos > COMPACT_THRESHOLD / 2 {
        var consumed := core.pos;
        buffer := buffer[consumed..];
        validated := if validated > consumed then validated - consumed else 0;
        headerEnd := if headerEnd > consumed then headerEnd - consumed else 0;
        scanned := if scanned > consumed then scanned - consumed else 0;
        core := core.(pos := 0);
      }
    }

    /** Steps until a request is complete, the input runs out or is wrong; when the input runs out a
        long buffer is compacted. */
    method RunStates() returns (ok: bool)
      requires Valid()
      modifies this
      ensures Valid()
      ensures match Loop(known, old(core), old(buffer)) {
                case None => !ok
                case Some(c) => ok && State() == Rested(old(State()).(core := c))
              }
    {
      hide Step, Compacted;
      while core.phase != Complete
        invariant Valid() && State() == old(State()).(core := core)
        invariant Loop(known, core, buffer) == Loop(known, old(core), old(buffer))
        decreases core.phase != Complete, |buffer| - core.pos
      {
        match Step(known, core, buffer)
        case Error =>
          return false;
        case Stuck =>
          if core.pos > COMPACT_THRESHOLD || |buffer| > MAX_HEADER_SIZE * 2 {
            CompactBuffer();
          }
          return true;
        case Moved(next) =>
          core := next;
      }
      ok := true;
    }

    method ParseAvailable() returns (ok: bool)
      requires Valid()
      modifies this
      ensures Valid()
      ensures match ParserSplit.ParseAvailable(known, old(State())) {
                case None => !ok
                case Some(s) => ok && State() == Rested(s)
              }
    {
      hide Loop, Terminator, Clean, Rested;
      if core.phase == RequestLine || core.phase == Headers {
        if headerEnd == 0 {
          headerEnd := FindHeaderTerminator(ScanFrom(scanned));
          scanned := |buffer|;
        }
        var limit := if headerEnd != 0 then headerEnd else |buffer|;
        ok := Validate(ValidateFrom(validated), limit);
        if !ok {
          return;
        }
        validated := limit;
      }
      if core.phase != Body && core.phase != ChunkData {
        if (headerEnd == 0 && |buffer| > MAX_HEADER_SIZE) || (headerEnd != 0 && headerEnd > MAX_HEADER_SIZE) {
          return false;
        }
      } else if |buffer| > MAX_HEADER_SIZE + MAX_BODY_SIZE {
        return false;
      }
      ok := RunStates();
    }

    /** More input. `seen` is what was parsed before (nothing, at the start of a request): up to the
        compaction threshold the parser stands, after any number of pieces, where the simple form
        stands after all of them. */
    method Parse(data: string, ghost seen: string) returns (ok: bool)
      requires Valid() && Tracks(known, State(), seen)
      modifies this
      ensures Valid()
      ensures |old(buffer) + data| <= COMPACT_THRESHOLD ==>
                match ParserModel.Parse(known, old(buffer) + data) {
                  case None => !ok
                  case Some(c) => ok && core == c && buffer == old(buffer) + data && Tracks(known, State(), buffer)
                }
    {
      hide Loop, ParserModel.Parse, ParserSplit.ParseAvailable;
      ghost var before := State();
      buffer := buffer + data;
      assert State() == before.(buffer := before.buffer + data);
      ok := ParseAvailable();
      if |before.buffer + data| <= COMPACT_THRESHOLD {
        ResumeIsParse(known, before.(buffer := before.buffer + data), seen);
      }
    }

    /** The rest of the buffer begins the next request. */
    method PrepareForNextRequest()
      requires Valid()
      modifies this
      ensures Valid() && buffer == old(buffer[core.pos..]) && Tracks(known, State(), "")
    {
      StartTracks(known);
      buffer := buffer[core.pos..];
      headerEnd, scanned, validated, core := 0, 0, 0, INIT;
    }
  }
}
