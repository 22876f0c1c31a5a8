/**
 A pipelined connection: small responses are batched in the active buffer, at most one response is
 queued behind it, and writes may stop anywhere and resume on a later event.
 */
module Connections {
  import opened Options
  import opened Http
  import opened Responses
  import opened Pipeline
  import opened Text

  const PIPELINE_RESPONSE_BATCH_LIMIT: nat := 64 * 1024

  /** What one attempt to read gives; NoRoom is a parser buffer that cannot take more input. */
  datatype Received = Data(octets: string) | WouldBlock | Eof | ReadError | NoRoom

  /** How many octets one attempt to write puts on the wire, and whether it then reports an error. */
  datatype Accept = Takes(count: nat) | Fails(count: nat)

  /** What the peer and the kernel do between two events. */
  datatype Round = Round(incoming: seq<Received>, accepts: seq<Accept>)

  datatype Events = Readable | Writable
  datatype Reason = CloseHeader | ReadEnded | ReadFailed | WriteFailed | BufferFull
  datatype Watch = Armed(events: Events) | Dropped(reason: Reason)
  datatype FlushResult = Complete | Blocked | Failed

  /** The octets that a script of reads delivers. */
  function Payload(events: seq<Received>): string {
    if events == [] then ""
    else (if events[0].Data? then events[0].octets else "") + Payload(events[1..])
  }

  function PayloadOf(rounds: seq<Round>): string {
    if rounds == [] then "" else PayloadOf(rounds[..|rounds| - 1]) + Payload(rounds[|rounds| - 1].incoming)
  }

  lemma {:induction false} PayloadConcat(a: seq<Received>, b: seq<Received>)
    ensures Payload(a + b) == Payload(a) + Payload(b)
  {
    if a == [] {
      assert a + b == b;
    } else {
      assert (a + b)[1..] == a[1..] + b && (a + b)[0] == a[0];
      PayloadConcat(a[1..], b);
      Associative(if a[0].Data? then a[0].octets else "", Payload(a[1..]), Payload(b));
    }
  }

  function Least(a: nat, b: nat): nat {
    if a <= b then a else b
  }

  /** Writing n octets to a socket that takes them as scripted: how many it takes, what is left of the
      script, and how it ends: it takes all, takes none at some attempt, or fails. */
  function Drain(accepts: seq<Accept>, n: nat): (r: (nat, seq<Accept>, FlushResult))
    ensures r.0 <= n && |r.1| <= |accepts|
    ensures r.2.Blocked? ==> r.0 < n
    ensures r.2.Complete? ==> r.0 == n
    ensures n > 0 && accepts != [] ==> |r.1| < |accepts|
    decreases |accepts|
  {
    if n == 0 then (0, accepts, Complete)
    else if accepts == [] then (0, [], Blocked)
    else
      var k := Least(accepts[0].count, n);
      if accepts[0].Fails? then (k, accepts[1..], Failed)
      else if k == 0 then (0, accepts[1..], Blocked)
      else
        var r := Drain(accepts[1..], n - k);
        (k + r.0, r.1, r.2)
  }

  /** What the next attempt to write n octets puts on the wire. */
  function Offered(accepts: seq<Accept>, n: nat): (k: nat)
    ensures k <= n
  {
    if accepts == [] then 0 else Least(accepts[0].count, n)
  }

  lemma {:induction false} DrainStep(accepts: seq<Accept>, n: nat)
    requires n > 0
    ensures accepts == [] ==> Offered(accepts, n) == 0
    ensures var k := Offered(accepts, n);
            Drain(accepts, n) ==
            if accepts == [] then (0, [], Blocked)
            else if accepts[0].Fails? then (k, accepts[1..], Failed)
            else if k == 0 then (0, accepts[1..], Blocked)
            else
              var r := Drain(accepts[1..], n - k);
              (k + r.0, r.1, r.2)
  {
  }

  /** `done` octets are taken and `accepts` is what is left of the script. */
  predicate Draining(before: seq<Accept>, n: nat, accepts: seq<Accept>, done: nat) {
    && done <= n
    && var rest := Drain(accepts, n - done); Drain(before, n) == (done + rest.0, rest.1, rest.2)
  }

  lemma {:induction false} DrainMore(before: seq<Accept>, n: nat, accepts: seq<Accept>, done: nat)
    requires Draining(before, n, accepts, done) && done < n
    ensures var k := Offered(accepts, n - done);
            if accepts == [] then k == 0 && Drain(before, n) == (done, [], Blocked)
            else if accepts[0].Fails? then Drain(before, n) == (done + k, accepts[1..], Failed)
            else if k == 0 then Drain(before, n) == (done, accepts[1..], Blocked)
            else Draining(before, n, accepts[1..], done + k)
  {
    DrainStep(accepts, n - done);
    assert n - (done + Offered(accepts, n - done)) == n - done - Offered(accepts, n - done);
    hide Drain;
  }

  lemma {:induction false} DrainStart(accepts: seq<Accept>, n: nat)
    ensures Draining(accepts, n, accepts, 0)
  {
  }

  lemma {:induction false} DrainAll(before: seq<Accept>, n: nat, accepts: seq<Accept>)
    requires Draining(before, n, accepts, n)
    ensures Drain(before, n) == (n, accepts, Complete)
  {
  }

  /** The socket takes no more: the script is at its end, or its last attempt took nothing. */
  predicate Refused(before: seq<Accept>, after: seq<Accept>) {
    after == [] || (|after| < |before| && before[|before| - |after| - 1].count == 0)
  }

  predicate IsSuffix<T(==)>(after: seq<T>, before: seq<T>) {
    |after| <= |before| && after == before[|before| - |after|..]
  }

  lemma {:induction false} SuffixOfSuffix<T>(a: seq<T>, b: seq<T>, c: seq<T>)
    requires IsSuffix(b, a) && IsSuffix(c, b)
    ensures IsSuffix(c, a)
    ensures |c| < |b| ==> a[|a| - |c| - 1] == b[|b| - |c| - 1]
  {
  }

  lemma RefusedLater(a: seq<Accept>, b: seq<Accept>, c: seq<Accept>)
    requires IsSuffix(b, a) && IsSuffix(c, b)
    ensures IsSuffix(c, a) && (Refused(b, c) ==> Refused(a, c))
  {
    SuffixOfSuffix(a, b, c);
  }

  lemma OwnSuffix(a: seq<Accept>)
    ensures IsSuffix(a, a)
  {
  }

  lemma {:induction false} DrainIsRefused(accepts: seq<Accept>, n: nat)
    ensures IsSuffix(Drain(accepts, n).1, accepts)
    ensures Drain(accepts, n).2.Blocked? && n > 0 ==> Refused(accepts, Drain(accepts, n).1)
    decreases |accepts|
  {
    if n > 0 {
      var k := Offered(accepts, n);
      DrainStep(accepts, n);
      hide Drain, Offered;
      if accepts != [] {
        DropOne(accepts);
        if accepts[0].Takes? && k > 0 {
          DrainIsRefused(accepts[1..], n - k);
          var rest := Drain(accepts[1..], n - k).1;
          SuffixOfSuffix(accepts, accepts[1..], rest);
          if k < n && Drain(accepts[1..], n - k).2.Blocked? {
            StillRefused(accepts, rest);
          }
        } else if accepts[0].Takes? {
          NoneTaken(accepts, n);
        }
      }
    }
  }

  lemma {:induction false} DropOne(accepts: seq<Accept>)
    requires accepts != []
    ensures IsSuffix(accepts[1..], accepts) && |accepts[1..]| < |accepts|
  {
  }

  lemma {:induction false} StillRefused(accepts: seq<Accept>, after: seq<Accept>)
    requires accepts != [] && Refused(accepts[1..], after)
    ensures Refused(accepts, after)
  {
  }

  lemma {:induction false} NoneTaken(accepts: seq<Accept>, n: nat)
    requires accepts != [] && n > 0 && Offered(accepts, n) == 0
    ensures Refused(accepts, accepts[1..])
  {
  }

  /** How a read that is not input ends the connection, if it does. */
  function EndOf(event: Received): Option<Reason> {
    match event
    case Eof => Some(ReadEnded)
    case ReadError => Some(ReadFailed)
    case NoRoom => Some(BufferFull)
    case _ => None
  }

  predicate IsInput(event: Received) {
    event.Data? && event.octets != ""
  }

  /** All reads but perhaps the last gave input. */
  predicate ReadTo(before: seq<Received>, after: seq<Received>) {
    && IsSuffix(after, before)
    && forall i :: 0 <= i < |before| - |after| - 1 ==> IsInput(before[i])
  }

  predicate AllInput(before: seq<Received>, after: seq<Received>) {
    IsSuffix(after, before) && forall i :: 0 <= i < |before| - |after| ==> IsInput(before[i])
  }

  /** Nothing more could be read. */
  predicate OutOfInput(before: seq<Received>, after: seq<Received>) {
    after == [] || (|after| < |before| && !IsInput(before[|before| - |after| - 1]))
  }

  /** The last read gave this reason to end. */
  predicate EndedBy(before: seq<Received>, after: seq<Received>, reason: Reason) {
    |after| < |before| && EndOf(before[|before| - |after| - 1]) == Some(reason)
  }

  lemma {:induction false} ReadOne(before: seq<Received>, now: seq<Received>, next: seq<Received>)
    requires AllInput(before, now) && next == if now == [] then [] else now[1..]
    ensures forall reason :: now != [] && EndOf(now[0]) == Some(reason) ==> EndedBy(before, next, reason)
    ensures ReadTo(before, now) && ReadTo(before, next)
    ensures now != [] && IsInput(now[0]) ==> AllInput(before, next)
    ensures now == [] || !IsInput(now[0]) ==> OutOfInput(before, next)
    ensures before == [] || |next| < |before|
  {
  }

  /** A non-blocking socket whose peer behaves as scripted. */
  class Socket {
    var wire: string
    var incoming: seq<Received>
    var accepts: seq<Accept>

    constructor ()
      ensures wire == "" && incoming == [] && accepts == []
    {
      wire, incoming, accepts := "", [], [];
    }

    method Read() returns (r: Received)
      modifies `incoming
      ensures old(incoming) == [] ==> r == WouldBlock && incoming == []
      ensures old(incoming) != [] ==> r == old(incoming)[0] && incoming == old(incoming)[1..]
      ensures Payload(old(incoming)) == (if r.Data? then r.octets else "") + Payload(incoming)
    {
      r := WouldBlock;
      if incoming != [] {
        r, incoming := incoming[0], incoming[1..];
      }
    }

    /** The number of octets written, or None on an error; even then some may have been sent. */
    method Write(data: string) returns (r: Option<nat>)
      modifies `wire, `accepts
      ensures r.Some? ==> r.value <= |data| && wire == old(wire) + data[..r.value]
      ensures old(wire) <= wire <= old(wire) + data
      ensures old(accepts) == [] ==> r == Some(0) && accepts == []
      ensures old(accepts) != [] ==>
                && accepts == old(accepts)[1..]
                && r == (if old(accepts)[0].Takes? then Some(Least(old(accepts)[0].count, |data|)) else None)
                && wire == old(wire) + data[..Least(old(accepts)[0].count, |data|)]
    {
      if accepts == [] {
        return Some(0);
      }
      var n := Least(accepts[0].count, |data|);
      wire := wire + data[..n];
      r := if accepts[0].Takes? then Some(n) else None;
      accepts := accepts[1..];
    }
  }

  /** What is remembered about a stored response (or batch) agrees with the replies it holds. */
  ghost predicate Booked(close: bool, count: nat, log: seq<Reply>) {
    close == Closing(log) && count == CountRequests(log)
  }

  /** The replies earned so far: log[..sent] written, log[sent..staged] active, log[staged..] queued. */
  ghost predicate Ordered(log: seq<Reply>, sent: nat, staged: nat) {
    && sent <= staged <= |log| <= staged + 1
    && (staged < |log| ==> sent < staged)
    && OnlyLastCloses(log)
    && (forall i :: 0 <= i < |log| ==> log[i].octets != "")
  }

  ghost predicate Batched(head: string, body: string, replies: nat) {
    replies >= 2 ==> body == "" && |head| <= PIPELINE_RESPONSE_BATCH_LIMIT
  }

  /** The connection was given up at a read, not at a write. */
  predicate EndsReading(reason: Reason) {
    reason == ReadEnded || reason == ReadFailed || reason == BufferFull
  }

  /** The wire carries the written replies and the first `writePos` octets of the active ones; once
      the connection is dropped, no more than the replies due, and all of them after a close reply. */
  ghost predicate Carries(wire: string, watch: Watch, log: seq<Reply>, sent: nat, staged: nat,
                          pending: string, writePos: nat)
    requires sent <= staged <= |log|
  {
    match watch
    case Armed(_) =>
      && pending == Octets(log[sent..staged])
      && (writePos < |pending| || (pending == "" && writePos == 0))
      && wire == Octets(log[..sent]) + pending[..writePos]
      && !Closing(log[..sent])
    case Dropped(reason) =>
      && Octets(log[..sent]) <= wire <= Octets(log)
      && (reason == CloseHeader ==> wire == Octets(log) && Closing(log))
      && (EndsReading(reason) ==> Held(wire, log, sent, staged, pending))
  }

  /** The active replies are all that are not written, and none of their octets is. */
  ghost predicate Held(wire: string, log: seq<Reply>, sent: nat, staged: nat, pending: string)
    requires sent <= staged <= |log|
  {
    staged == |log| && wire == Octets(log[..sent]) && Octets(log) == wire + pending
  }

  lemma {:induction false} OneReply(r: Reply)
    ensures Octets([r]) == r.octets && CountRequests([r]) == (if r.request then 1 else 0) && Closing([r]) == r.close
  {
    assert [r][..0] == [];
  }

  lemma {:induction false} OneMore(log: seq<Reply>, r: Reply)
    ensures Octets(log + [r]) == Octets(log) + r.octets
    ensures CountRequests(log + [r]) == CountRequests(log) + if r.request then 1 else 0
    ensures Closing(log + [r]) == r.close
  {
    Concat(log, [r]);
    OneReply(r);
  }

  lemma {:induction false} Split(log: seq<Reply>, k: nat)
    requires k <= |log|
    ensures Octets(log) == Octets(log[..k]) + Octets(log[k..])
    ensures CountRequests(log) == CountRequests(log[..k]) + CountRequests(log[k..])
  {
    assert log == log[..k] + log[k..];
    Concat(log[..k], log[k..]);
  }

  lemma {:induction false} NotSilent(log: seq<Reply>)
    requires forall i :: 0 <= i < |log| ==> log[i].octets != ""
    ensures Octets(log) == "" <==> log == []
  {
  }

  lemma {:induction false} Blocks(log: seq<Reply>, sent: nat, staged: nat)
    requires sent <= staged <= |log|
    ensures Octets(log[..staged]) == Octets(log[..sent]) + Octets(log[sent..staged])
    ensures Octets(log[..staged]) <= Octets(log)
    ensures CountRequests(log[..staged]) == CountRequests(log[..sent]) + CountRequests(log[sent..staged])
  {
    Split(log, staged);
    Split(log[..staged], sent);
    assert log[..staged][..sent] == log[..sent] && log[..staged][sent..] == log[sent..staged];
  }

  /** A write of the octets after `writePos` that stopped early. */
  lemma {:induction false} WroteSome(before: string, wire: string, watch: Watch, log: seq<Reply>, sent: nat,
                                     staged: nat, pending: string, writePos: nat, next: nat)
    requires sent <= staged <= |log| && watch.Armed?
    requires Carries(before, watch, log, sent, staged, pending, writePos)
    requires Sent(before, wire, pending, writePos, next) && next < |pending|
    ensures Carries(wire, Armed(Writable), log, sent, staged, pending, next)
  {
    hide Octets, Closing;
    assert pending[..writePos] + pending[writePos..next] == pending[..next];
    Associative(Octets(log[..sent]), pending[..writePos], pending[writePos..next]);
  }

  /** A write that failed somewhere. */
  lemma {:induction false} WroteUnknown(before: string, wire: string, watch: Watch, log: seq<Reply>, sent: nat,
                                        staged: nat, pending: string, writePos: nat, last: nat, next: nat)
    requires sent <= staged <= |log| && watch.Armed?
    requires Carries(before, watch, log, sent, staged, pending, writePos)
    requires Sent(before, wire, pending, writePos, last)
    ensures Carries(wire, Dropped(WriteFailed), log, sent, staged, pending, next)
  {
    hide Octets, Closing;
    SentIs(before, wire, pending, writePos, last);
    Blocks(log, sent, staged);
    Rejoin(Octets(log[..sent]), pending, writePos);
  }

  /** What is stored, counted and logged agrees: `noted` requests are answered in full, `count` are
      active and `queuedCount` queued, and together they are those dispatched. */
  ghost predicate Ledger(log: seq<Reply>, sent: nat, staged: nat, head: string, body: string, count: nat,
                         queued: string, queuedClose: bool, queuedCount: nat, noted: nat, dispatched: nat)
  {
    && Ordered(log, sent, staged)
    && Batched(head, body, staged - sent)
    && queued == Octets(log[staged..])
    && Booked(queuedClose, queuedCount, log[staged..])
    && noted == CountRequests(log[..sent])
    && count == CountRequests(log[sent..staged])
    && dispatched == CountRequests(log)
  }

  lemma {:induction false} Conserved(log: seq<Reply>, sent: nat, staged: nat, head: string, body: string, count: nat,
                                     queued: string, queuedClose: bool, queuedCount: nat, noted: nat, dispatched: nat)
    requires Ledger(log, sent, staged, head, body, count, queued, queuedClose, queuedCount, noted, dispatched)
    ensures noted + count + queuedCount == dispatched
  {
    Split(log, staged);
    Blocks(log, sent, staged);
  }

  /** All of the active response is written, and it does not close: the queued one takes its place. */
  lemma {:induction false} TurnLedger(log: seq<Reply>, sent: nat, staged: nat, head: string, body: string, count: nat,
                                      queued: string, queuedClose: bool, queuedCount: nat, noted: nat, dispatched: nat,
                                      queuedHead: string, queuedBody: string)
    requires Ledger(log, sent, staged, head, body, count, queued, queuedClose, queuedCount, noted, dispatched)
    ensures Ledger(log, staged, |log|, queuedHead, queuedBody, queuedCount, "", false, 0, noted + count, dispatched)
    ensures Booked(queuedClose, queuedCount, log[staged..|log|])
    ensures queued == "" ==> !queuedClose && queuedCount == 0
    ensures queued == Octets(log[staged..]) && (staged == |log| ==> queued == "")
    ensures Ordered(log, sent, staged)
  {
    Blocks(log, sent, staged);
    NotSilent(log[staged..]);
    assert log[staged..|log|] == log[staged..];
  }

  lemma {:induction false} WroteAll(before: string, wire: string, watch: Watch, log: seq<Reply>, sent: nat,
                                    staged: nat, pending: string, writePos: nat)
    requires sent <= staged <= |log| && watch.Armed?
    requires Carries(before, watch, log, sent, staged, pending, writePos)
    requires Sent(before, wire, pending, writePos, |pending|)
    ensures wire == Octets(log[..staged])
  {
    SentIs(before, wire, pending, writePos, |pending|);
    Blocks(log, sent, staged);
    assert pending[..writePos] + pending[writePos..] == pending;
  }

  lemma {:induction false} TurnWire(before: string, wire: string, watch: Watch, log: seq<Reply>, sent: nat,
                                    staged: nat, pending: string, writePos: nat, queued: string)
    requires Ordered(log, sent, staged) && sent < staged && watch.Armed?
    requires Carries(before, watch, log, sent, staged, pending, writePos)
    requires Sent(before, wire, pending, writePos, |pending|) && !Closing(log[sent..staged])
    requires queued == Octets(log[staged..])
    ensures Carries(wire, watch, log, staged, |log|, queued, 0)
  {
    WroteAll(before, wire, watch, log, sent, staged, pending, writePos);
    NotSilent(log[staged..]);
    assert log[staged..|log|] == log[staged..];
    assert wire + queued[..0] == wire;
  }

  /** Giving up at a read leaves the active replies unwritten, whole. */
  lemma {:induction false} GaveUp(wire: string, watch: Watch, log: seq<Reply>, sent: nat, pending: string,
                                  reason: Reason)
    requires sent <= |log| && watch.Armed? && EndsReading(reason)
    requires Carries(wire, watch, log, sent, |log|, pending, 0)
    ensures Carries(wire, Dropped(reason), log, sent, |log|, pending, 0)
  {
    Blocks(log, sent, |log|);
    assert log[..|log|] == log;
    assert Octets(log[..sent]) + pending[..0] == Octets(log[..sent]);
  }

  /** All of a closing response is written: it was the last. */
  lemma {:induction false} CloseWire(before: string, wire: string, watch: Watch, log: seq<Reply>, sent: nat,
                                     staged: nat, pending: string, writePos: nat)
    requires Ordered(log, sent, staged) && sent < staged && watch.Armed?
    requires Carries(before, watch, log, sent, staged, pending, writePos)
    requires Sent(before, wire, pending, writePos, |pending|) && Closing(log[sent..staged])
    ensures staged == |log| && Carries(wire, Dropped(CloseHeader), log, staged, staged, "", 0)
  {
    WroteAll(before, wire, watch, log, sent, staged, pending, writePos);
    assert log[..|log|] == log;
  }

  /** Of `data`, the octets from a to b have been put on a wire that carried `start`. */
  ghost predicate Sent(start: string, wire: string, data: string, a: nat, b: nat) {
    a <= b <= |data| && wire == start + data[a..b]
  }

  lemma {:induction false} NothingSent(wire: string, data: string, a: nat)
    requires a <= |data|
    ensures Sent(wire, wire, data, a, a)
  {
    assert wire + data[a..a] == wire;
  }

  lemma {:induction false} SentIs(start: string, wire: string, data: string, a: nat, b: nat)
    requires Sent(start, wire, data, a, b)
    ensures a <= b <= |data| && wire == start + data[a..b] && start <= wire <= start + data[a..]
    ensures b == |data| ==> wire == start + data[a..]
  {
    assert data[a..] == data[a..b] + data[b..];
    Associative(start, data[a..b], data[b..]);
  }

  lemma {:induction false} SentMore(start: string, before: string, wire: string, data: string, a: nat, b: nat, c: nat)
    requires Sent(start, before, data, a, b) && b <= c <= |data| && wire == before + data[b..c]
    ensures Sent(start, wire, data, a, c)
  {
    Cut(data, a, b, c);
  }

  lemma {:induction false} Cut(s: string, a: nat, b: nat, c: nat)
    requires a <= b <= c <= |s|
    ensures s[a..b] + s[b..c] == s[a..c]
  {
  }

  lemma {:induction false} CutRest(s: string, b: nat, c: nat)
    requires b <= c <= |s|
    ensures s[b..|s|][..c - b] == s[b..c] && s[b..|s|] == s[b..]
  {
  }

  lemma Appended(log: seq<Reply>, sent: nat, r: Reply)
    requires sent <= |log|
    ensures var more := log + [r];
            && more[..sent] == log[..sent] && more[sent..|log| + 1] == log[sent..|log|] + [r]
            && more[sent..|log|] == log[sent..|log|] && more[|log|..] == [r] && more[|log| + 1..] == []
  {
  }

  lemma NoReplies()
    ensures Octets([]) == "" && CountRequests([]) == 0 && !Closing([])
  {
  }

  lemma OneFits(head: string, body: string)
    ensures Batched(head, body, 1)
  {
  }

  lemma OrderedMore(log: seq<Reply>, sent: nat, r: Reply, staged: nat)
    requires Ordered(log, sent, |log|) && !Closing(log) && r.octets != ""
    requires staged == |log| + 1 || (staged == |log| && sent < staged)
    ensures sent <= |log| && Ordered(log + [r], sent, staged)
  {
  }

  /** One more reply, at the end of the active ones. */
  lemma {:induction false} StageLedger(log: seq<Reply>, sent: nat, head: string, body: string, count: nat,
                                       noted: nat, dispatched: nat, r: Reply, newHead: string, newBody: string)
    requires Ledger(log, sent, |log|, head, body, count, "", false, 0, noted, dispatched)
    requires !Closing(log) && r.octets != "" && Batched(newHead, newBody, |log| + 1 - sent)
    ensures var n := if r.request then 1 else 0;
            Ledger(log + [r], sent, |log| + 1, newHead, newBody, count + n, "", false, 0, noted, dispatched + n)
    ensures Closing((log + [r])[sent..|log| + 1]) == r.close
  {
    hide Octets, CountRequests, Closing, Ordered, Batched;
    OrderedMore(log, sent, r, |log| + 1);
    Appended(log, sent, r);
    NoReplies();
    OneMore(log, r);
    OneMore(log[sent..|log|], r);
  }

  lemma {:induction false} StageWire(wire: string, watch: Watch, log: seq<Reply>, sent: nat, pending: string,
                                     writePos: nat, r: Reply)
    requires sent <= |log| && watch.Armed? && r.octets != ""
    requires Carries(wire, watch, log, sent, |log|, pending, writePos)
    ensures Carries(wire, watch, log + [r], sent, |log| + 1, pending + r.octets, writePos)
  {
    hide Octets, Closing;
    Appended(log, sent, r);
    OneMore(log[sent..|log|], r);
    assert (pending + r.octets)[..writePos] == pending[..writePos];
  }

  /** One more reply, in the queue. */
  lemma {:induction false} QueueLedger(log: seq<Reply>, sent: nat, head: string, body: string, count: nat,
                                       noted: nat, dispatched: nat, r: Reply)
    requires Ledger(log, sent, |log|, head, body, count, "", false, 0, noted, dispatched)
    requires !Closing(log) && r.octets != "" && sent < |log|
    ensures var n := if r.request then 1 else 0;
            Ledger(log + [r], sent, |log|, head, body, count, r.octets, r.close, n, noted, dispatched + n)
    ensures (log + [r])[sent..|log|] == log[sent..|log|]
  {
    hide Octets, CountRequests, Closing, Ordered, Batched;
    OrderedMore(log, sent, r, |log|);
    Appended(log, sent, r);
    OneMore(log, r);
    OneReply(r);
  }

  lemma {:induction false} QueueWire(wire: string, watch: Watch, log: seq<Reply>, sent: nat, pending: string,
                                     writePos: nat, r: Reply)
    requires sent <= |log| && watch.Armed?
    requires Carries(wire, watch, log, sent, |log|, pending, writePos)
    ensures Carries(wire, watch, log + [r], sent, |log|, pending, writePos)
  {
    hide Octets, Closing;
    Appended(log, sent, r);
  }

  /** The replies logged are due, and all that are due if nothing more can be answered yet. */
  lemma {:induction false} DueIsLogged(frame: string -> Frame, handle: Request -> Response, badRequest: Response,
                                       consumed: string, unread: string, log: seq<Reply>)
    requires Accounted(frame, handle, badRequest, consumed, log)
    ensures var due := Octets(Replies(frame, handle, badRequest, consumed + unread));
            Octets(log) <= due && (Closing(log) || frame(unread).Partial? ==> due == Octets(log))
  {
    var rest := if Closing(log) then [] else Replies(frame, handle, badRequest, unread);
    assert Replies(frame, handle, badRequest, consumed + unread) == log + rest;
    Concat(log, rest);
    if rest == [] {
      assert log + rest == log;
    }
  }

  lemma {:induction false} WireIsLogged(wire: string, watch: Watch, log: seq<Reply>, sent: nat, staged: nat,
                                        pending: string, writePos: nat)
    requires sent <= staged <= |log| && Carries(wire, watch, log, sent, staged, pending, writePos)
    ensures Octets(log[..sent]) <= wire <= Octets(log)
    ensures watch == Dropped(CloseHeader) ==> wire == Octets(log) && Closing(log)
    ensures watch.Armed? && sent == |log| ==> wire == Octets(log)
  {
    if watch.Armed? {
      Blocks(log, sent, staged);
      assert pending[..writePos] <= pending;
      assert log[..|log|] == log;
    }
  }

  lemma {:induction false} AllAccounted(wire: string, watch: Watch, log: seq<Reply>, sent: nat, staged: nat,
                                        pending: string, writePos: nat, queued: string, queuedBody: string)
    requires sent <= staged <= |log| && watch.Armed?
    requires Carries(wire, watch, log, sent, staged, pending, writePos) && queued + queuedBody == Octets(log[staged..])
    ensures writePos <= |pending| && wire + pending[writePos..] + queued + queuedBody == Octets(log)
  {
    hide Octets;
    Blocks(log, sent, staged);
    Split(log, staged);
    Rejoin(Octets(log[..sent]), pending, writePos);
    Associative(wire + pending[writePos..], queued, queuedBody);
  }

  /** What the wire carries does not depend on the events waited for. */
  lemma {:induction false} Rearmed(wire: string, watch: Watch, log: seq<Reply>, sent: nat, staged: nat,
                                   pending: string, writePos: nat)
    requires sent <= staged <= |log| && watch.Armed? && Carries(wire, watch, log, sent, staged, pending, writePos)
    ensures Carries(wire, Armed(Readable), log, sent, staged, pending, writePos)
  {
    hide Octets, Closing;
  }

  lemma {:induction false} Rejoin(start: string, s: string, i: nat)
    requires i <= |s|
    ensures start + s[..i] + s[i..] == start + s
  {
    assert s[..i] + s[i..] == s;
  }

  class Connection {
    const frame: string -> Frame
    const handle: Request -> Response
    const badRequest: Response
    const socket: Socket
    var active: string
    var activeBody: string
    var queued: string
    var queuedBody: string
    var scratch: string
    var writePos: nat
    var buf: string
    var parsed: nat
    var watch: Watch
    var closeRequested: bool
    var activeCount: nat
    var queuedClose: bool
    var queuedCount: nat
    var noted: nat
    var dispatched: nat
    ghost var log: seq<Reply>
    ghost var sent: nat
    ghost var staged: nat
    ghost var received: string
    ghost var consumed: string
    ghost var unread: string

    ghost predicate Stored()
      reads `active, `activeBody, `queued, `queuedBody, `activeCount, `queuedClose, `queuedCount
      reads `noted, `dispatched, `log, `sent, `staged
    {
      Ledger(log, sent, staged, active, activeBody, activeCount, queued + queuedBody, queuedClose, queuedCount,
             noted, dispatched)
    }

    ghost predicate Written()
      reads `active, `activeBody, `writePos, `watch, `log, `sent, `staged, `closeRequested, `activeCount, socket`wire
    {
      && sent <= staged <= |log|
      && (watch.Armed? ==> closeRequested == Closing(log[sent..staged]))
      && Carries(socket.wire, watch, log, sent, staged, active + activeBody, writePos)
    }

    ghost predicate Parsed()
      reads `buf, `parsed, `log, `received, `consumed, `unread
    {
      && Accounted(frame, handle, badRequest, consumed, log)
      && received == consumed + unread
      && (!Closing(log) ==> unread == buf)
      && parsed <= |buf|
      && (parsed > 0 ==> frame(buf) == Partial(parsed))
    }

    ghost predicate Valid()
      reads this, socket`wire
    {
      IsFramer(frame) && Stored() && Written() && Parsed()
    }

    predicate HasPending()
      reads this
    {
      writePos < |active| + |activeBody|
    }

    predicate HasQueued()
      reads this
    {
      |queued| + |queuedBody| != 0 || queuedCount != 0
    }

    function Buffered(): nat
      reads this
      requires parsed <= |buf|
    {
      |buf| - parsed
    }

    /** Nothing queued, no separate body, nothing half-written, no close pending. */
    ghost predicate Dispatching()
      reads `watch, `staged, `log, `activeBody, `writePos
    {
      watch.Armed? && staged == |log| && activeBody == "" && writePos == 0 && !Closing(log)
    }

    /** The point at which requests are parsed. Responses are held back only for input already there. */
    ghost predicate Ready()
      reads this, socket`wire
    {
      Valid() && Dispatching() && (HasPending() ==> buf != "")
    }

    constructor (frame: string -> Frame, handle: Request -> Response, badRequest: Response)
      requires IsFramer(frame)
      ensures Settled() && fresh(socket) && received == "" && watch == Armed(Readable) && !HasPending()
      ensures this.frame == frame && this.handle == handle && this.badRequest == badRequest
    {
      this.frame, this.handle, this.badRequest := frame, handle, badRequest;
      socket := new Socket();
      active, activeBody, queued, queuedBody, scratch := "", "", "", "", "";
      writePos, buf, parsed, watch := 0, "", 0, Armed(Readable);
      closeRequested, activeCount, queuedClose, queuedCount, noted, dispatched := false, 0, false, 0, 0, 0;
      log, sent, staged, received, consumed, unread := [], 0, 0, "", "", "";
      new;
      AccountedAtStart(frame, handle, badRequest);
    }

    lemma PendingIsActive()
      requires Stored() && Written() && watch.Armed?
      ensures HasPending() <==> sent < staged
    {
      NotSilent(log[sent..staged]);
    }

    /** Nothing is queued when everything earned is active or written. */
    lemma QueueIsEmpty()
      requires Stored() && staged == |log|
      ensures queued == "" && queuedBody == "" && queued + queuedBody == "" && !queuedClose && queuedCount == 0
    {
      assert log[|log|..] == [];
    }

    lemma AllSent()
      requires Stored() && Written() && watch.Armed? && !HasPending()
      ensures sent == staged == |log| && active == "" && activeBody == "" && writePos == 0 && !Closing(log)
      ensures activeCount == 0
    {
      PendingIsActive();
      assert log[..|log|] == log;
      assert log[|log|..] == [];
    }

    /** What is handed to the socket: the rest of the head and the body, or the rest of the body. */
    method Unsent() returns (piece: string)
      requires writePos < |active| + |activeBody|
      ensures piece == (active + activeBody)[writePos..|active| + |activeBody|]
    {
      piece := if activeBody == "" then active[writePos..]
        else if writePos < |active| then active[writePos..] + activeBody
        else activeBody[writePos - |active|..];
    }

    /** One attempt to write. */
    method WriteOnce() returns (written: Option<nat>)
      requires writePos < |active| + |activeBody|
      modifies socket`wire, socket`accepts
      ensures var n := Offered(old(socket.accepts), |active| + |activeBody| - writePos);
              && socket.wire == old(socket.wire) + (active + activeBody)[writePos..writePos + n]
              && (written.Some? ==> written.value == n)
              && (written.None? <==> old(socket.accepts) != [] && old(socket.accepts)[0].Fails?)
      ensures socket.accepts == if old(socket.accepts) == [] then [] else old(socket.accepts)[1..]
    {
      var piece := Unsent();
      CutRest(active + activeBody, writePos, writePos + Offered(socket.accepts, |piece|));
      ghost var before, n := socket.wire, Offered(socket.accepts, |piece|);
      written := socket.Write(piece);
      assert socket.wire == before + piece[..n];
      assert piece[..n] == (active + activeBody)[writePos..writePos + n];
    }

    /** Writes what is left of the active response, in as many steps as the socket needs: as much of
        it as the socket takes. */
    method FlushActive() returns (r: FlushResult)
      requires writePos < |active| + |activeBody|
      modifies this`active, this`activeBody, this`writePos, socket`wire, socket`accepts
      ensures var taken := Drain(old(socket.accepts), old(|active| + |activeBody| - writePos));
              && r == taken.2 && socket.accepts == taken.1
              && Sent(old(socket.wire), socket.wire, old(active + activeBody), old(writePos), old(writePos) + taken.0)
              && (r.Blocked? ==> writePos == old(writePos) + taken.0)
      ensures if r.Complete? then active == "" && activeBody == "" && writePos == 0
              else active == old(active) && activeBody == old(activeBody)
    {
      hide Drain, Draining, Offered, Sent;
      NothingSent(socket.wire, active + activeBody, writePos);
      DrainStart(socket.accepts, |active| + |activeBody| - writePos);
      var total := |active| + |activeBody|;
      ghost var data := active + activeBody;
      while writePos < total
        invariant active == old(active) && activeBody == old(activeBody)
        invariant old(writePos) <= writePos <= total
        invariant Sent(old(socket.wire), socket.wire, data, old(writePos), writePos)
        invariant Draining(old(socket.accepts), total - old(writePos), socket.accepts, writePos - old(writePos))
      {
        ghost var n := Offered(socket.accepts, total - writePos);
        DrainMore(old(socket.accepts), total - old(writePos), socket.accepts, writePos - old(writePos));
        ghost var before := socket.wire;
        var written := WriteOnce();
        SentMore(old(socket.wire), before, socket.wire, data, old(writePos), writePos, writePos + n);
        if written.None? {
          return Failed;
        }
        if written.value == 0 {
          return Blocked;
        }
        writePos := writePos + written.value;
      }
      DrainAll(old(socket.accepts), total - old(writePos), socket.accepts);
      active, activeBody, writePos := "", "", 0;
      r := Complete;
    }

    method PromoteQueued()
      modifies this`active, this`activeBody, this`writePos, this`closeRequested, this`activeCount
      modifies this`queued, this`queuedBody, this`queuedClose, this`queuedCount
      ensures active == old(queued) && activeBody == old(queuedBody) && writePos == 0
      ensures closeRequested == old(queuedClose) && activeCount == old(queuedCount)
      ensures queued == "" && queuedBody == "" && !queuedClose && queuedCount == 0
    {
      active, activeBody, writePos := queued, queuedBody, 0;
      closeRequested, activeCount := queuedClose, queuedCount;
      queued, queuedBody, queuedClose, queuedCount := "", "", false, 0;
    }

    /** The active response is on the wire: its requests are noted, and the connection is closed if
        it asks for that, or the queued response takes its place. */
    method SettleActive(ghost head: string, ghost body: string, ghost before: string, ghost pos: nat) returns (ok: bool)
      requires watch.Armed? && sent < staged <= |log| && closeRequested == Closing(log[sent..staged])
      requires Ledger(log, sent, staged, head, body, activeCount, queued + queuedBody, queuedClose, queuedCount,
                      noted, dispatched)
      requires Carries(before, watch, log, sent, staged, head + body, pos)
      requires Sent(before, socket.wire, head + body, pos, |head + body|)
      requires active == "" && activeBody == "" && writePos == 0
      modifies this`active, this`activeBody, this`writePos, this`closeRequested, this`activeCount
      modifies this`queued, this`queuedBody, this`queuedClose, this`queuedCount
      modifies this`watch, this`noted, this`sent, this`staged
      ensures Stored() && Written()
      ensures ok ==> watch == old(watch) && sent > old(sent)
      ensures !ok ==> watch == Dropped(CloseHeader)
    {
      hide Ledger, Carries, Octets, CountRequests, Closing, Ordered, Sent;
      TurnLedger(log, sent, staged, head, body, activeCount, queued + queuedBody, queuedClose, queuedCount,
                 noted, dispatched, queued, queuedBody);
      assert active + activeBody == "";
      if closeRequested {
        CloseWire(before, socket.wire, watch, log, sent, staged, head + body, pos);
      } else {
        TurnWire(before, socket.wire, watch, log, sent, staged, head + body, pos, queued + queuedBody);
      }
      noted := noted + activeCount;
      activeCount := 0;
      sent, staged := staged, |log|;
      ok := !closeRequested;
      if closeRequested {
        watch := Dropped(CloseHeader);
      } else if HasQueued() {
        PromoteQueued();
      }
    }

    /** The socket took only the octets up to `last`, or fails. */
    method StopWriting(blocked: bool, ghost before: string, ghost pos: nat, ghost last: nat)
      requires watch.Armed? && sent <= staged <= |log| && closeRequested == Closing(log[sent..staged])
      requires Ledger(log, sent, staged, active, activeBody, activeCount, queued + queuedBody, queuedClose,
                      queuedCount, noted, dispatched)
      requires Carries(before, watch, log, sent, staged, active + activeBody, pos)
      requires Sent(before, socket.wire, active + activeBody, pos, last)
      requires blocked ==> writePos == last < |active + activeBody|
      modifies this`watch
      ensures Stored() && Written() && watch == if blocked then Armed(Writable) else Dropped(WriteFailed)
    {
      hide Ledger, Octets, Closing, Carries, Sent;
      if blocked {
        WroteSome(before, socket.wire, watch, log, sent, staged, active + activeBody, pos, writePos);
        watch := Armed(Writable);
      } else {
        WroteUnknown(before, socket.wire, watch, log, sent, staged, active + activeBody, pos, last, writePos);
        watch := Dropped(WriteFailed);
      }
    }

    /** What the stored state says before a write. */
    lemma FlushBegins()
      requires Stored() && Written() && watch.Armed? && HasPending()
      ensures sent < staged <= |log| && closeRequested == Closing(log[sent..staged])
      ensures Ledger(log, sent, staged, active, activeBody, activeCount, queued + queuedBody, queuedClose, queuedCount,
                     noted, dispatched)
      ensures Carries(socket.wire, watch, log, sent, staged, active + activeBody, writePos)
    {
      PendingIsActive();
      hide Ledger, Closing, Carries;
    }

    /** One attempt to write the active response out. */
    method FlushStep() returns (ok: bool)
      requires Stored() && Written() && watch.Armed? && HasPending()
      modifies this`active, this`activeBody, this`writePos, this`closeRequested, this`activeCount
      modifies this`queued, this`queuedBody, this`queuedClose, this`queuedCount
      modifies this`watch, this`noted, this`sent, this`staged, socket`wire, socket`accepts
      ensures Stored() && Written() && IsSuffix(socket.accepts, old(socket.accepts))
      ensures ok ==> watch == old(watch) && sent > old(sent)
      ensures !ok ==> (watch == Armed(Writable) && HasPending() && Refused(old(socket.accepts), socket.accepts))
                      || watch == Dropped(WriteFailed) || watch == Dropped(CloseHeader)
    {
      hide Ledger, Octets, CountRequests, Closing, Carries, Stored, Written;
      FlushBegins();
      ghost var head, body, before, pos := active, activeBody, socket.wire, writePos;
      DrainIsRefused(socket.accepts, |head + body| - pos);
      hide Refused, IsSuffix, Drain, Sent, HasPending;
      ghost var last := pos + Drain(socket.accepts, |head + body| - pos).0;
      var r := FlushActive();
      if r.Complete? {
        ok := SettleActive(head, body, before, pos);
      } else {
        StopWriting(r.Blocked?, before, pos, last);
        ok := false;
      }
    }

    /** Writes all that can be written now. */
    method FlushReady() returns (ok: bool)
      requires Valid() && watch.Armed?
      modifies this`active, this`activeBody, this`writePos, this`closeRequested, this`activeCount
      modifies this`queued, this`queuedBody, this`queuedClose, this`queuedCount
      modifies this`watch, this`noted, this`sent, this`staged, socket`wire, socket`accepts
      ensures Valid()
      ensures ok ==> Ready() && sent == |log| && watch == old(watch)
      ensures !ok ==> (watch == Armed(Writable) && HasPending() && Refused(old(socket.accepts), socket.accepts))
                      || watch == Dropped(WriteFailed) || watch == Dropped(CloseHeader)
    {
      hide Ledger, Carries, Accounted, IsFramer, IsSuffix, Refused, Closing;
      OwnSuffix(socket.accepts);
      while HasPending()
        invariant Stored() && Written() && watch == old(watch) && IsSuffix(socket.accepts, old(socket.accepts))
        decreases |log| - sent
      {
        ghost var accepts := socket.accepts;
        ok := FlushStep();
        RefusedLater(old(socket.accepts), accepts, socket.accepts);
        if !ok {
          return;
        }
      }
      AllSent();
      ok := true;
    }

    /** A small response joins the batch. */
    method AppendToActive(ghost r: Reply)
      requires Stored() && Written() && watch.Armed? && staged == |log| && !Closing(log)
      requires r.octets == scratch != "" && r.request && !r.close && activeBody == ""
      requires |active| + |scratch| <= PIPELINE_RESPONSE_BATCH_LIMIT
      modifies this`active, this`activeCount, this`dispatched, this`log, this`staged
      ensures Stored() && Written() && log == old(log) + [r] && staged == |log|
      ensures active == old(active) + scratch
    {
      hide Ledger, Carries, Octets, CountRequests;
      QueueIsEmpty();
      StageLedger(log, sent, active, activeBody, activeCount, noted, dispatched, r, active + scratch, activeBody);
      StageWire(socket.wire, watch, log, sent, active + activeBody, writePos, r);
      assert active + activeBody + r.octets == active + scratch + activeBody;
      active := active + scratch;
      activeCount := activeCount + 1;
      dispatched := dispatched + 1;
      log, staged := log + [r], staged + 1;
    }

    /** With nothing pending, a response becomes the active one. */
    method SetActive(head: string, body: string, close: bool, count: nat, ghost r: Reply)
      requires Stored() && Written() && watch.Armed? && staged == |log| && !Closing(log) && !HasPending()
      requires r.octets == head + body != "" && r.close == close && count == if r.request then 1 else 0
      modifies this`active, this`activeBody, this`activeCount, this`closeRequested, this`writePos
      modifies this`dispatched, this`log, this`staged
      ensures Stored() && Written() && log == old(log) + [r] && staged == |log|
    {
      hide Ledger, Carries, Octets, CountRequests, Closing, Batched;
      QueueIsEmpty();
      AllSent();
      OneFits(head, body);
      StageLedger(log, sent, active, activeBody, activeCount, noted, dispatched, r, head, body);
      StageWire(socket.wire, watch, log, sent, active + activeBody, writePos, r);
      assert active + activeBody + r.octets == head + body;
      active, activeBody, writePos := head, body, 0;
      closeRequested, activeCount := close, count;
      dispatched := dispatched + count;
      log, staged := log + [r], staged + 1;
    }

    /** With something pending, a response is queued. */
    method SetQueued(head: string, body: string, close: bool, count: nat, ghost r: Reply)
      requires Stored() && Written() && watch.Armed? && staged == |log| && !Closing(log) && HasPending()
      requires r.octets == head + body != "" && r.close == close && count == if r.request then 1 else 0
      modifies this`queued, this`queuedBody, this`queuedClose, this`queuedCount, this`dispatched, this`log
      ensures Stored() && Written() && log == old(log) + [r]
    {
      hide Ledger, Carries, Octets, CountRequests;
      QueueIsEmpty();
      PendingIsActive();
      QueueLedger(log, sent, active, activeBody, activeCount, noted, dispatched, r);
      QueueWire(socket.wire, watch, log, sent, active + activeBody, writePos, r);
      queued, queuedBody, queuedClose, queuedCount := head, body, close, count;
      dispatched := dispatched + count;
      log := log + [r];
    }

    /** The parser is made ready for what follows the first n octets. */
    method NextRequest(n: nat)
      requires n <= |buf| && unread == buf && received == consumed + unread
      requires Accounted(frame, handle, badRequest, consumed + buf[..n], log)
      modifies this`buf, this`parsed, this`consumed, this`unread
      ensures Parsed() && parsed == 0 && buf == old(buf)[n..]
    {
      assert consumed + buf == consumed + buf[..n] + buf[n..];
      consumed, unread := consumed + buf[..n], buf[n..];
      buf, parsed := buf[n..], 0;
    }

    lemma {:induction false} Earned()
      requires IsFramer(frame) && Parsed() && !Closing(log) && frame(buf).Whole?
      ensures 1 <= frame(buf).length <= |buf| && unread == buf && received == consumed + unread
      ensures var r := Answer(handle, frame(buf).request);
              && Accounted(frame, handle, badRequest, consumed + buf[..frame(buf).length], log + [r])
              && r.octets == Wire(Finished(handle(frame(buf).request), r.close)) != ""
              && r.request && r.close == WantsClose(frame(buf).request)
    {
      hide IsFramer, Wire, Accounted;
      var r := Answer(handle, frame(buf).request);
      WholeEarnsAnswer(frame, handle, badRequest, buf);
      WholeIsStable(frame, buf, "");
      AccountOne(frame, handle, badRequest, consumed, log, buf[..frame(buf).length], r);
      WireIsNotEmpty(Finished(handle(frame(buf).request), WantsClose(frame(buf).request)));
    }

    /** A small response is batched if the batch has room, and otherwise queued or made active. */
    method StoreSmall(ghost r: Reply) returns (batched: bool)
      requires Stored() && Written() && Dispatching()
      requires r.octets == scratch != "" && r.request && !r.close
      modifies this`active, this`activeBody, this`writePos, this`closeRequested, this`activeCount
      modifies this`queued, this`queuedBody, this`queuedClose, this`queuedCount
      modifies this`dispatched, this`log, this`staged, this`scratch
      ensures Stored() && Written() && log == old(log) + [r]
      ensures batched ==> Dispatching()
      ensures batched <==> |old(active)| + |r.octets| <= PIPELINE_RESPONSE_BATCH_LIMIT
    {
      hide Ledger, Carries, Octets, CountRequests;
      QueueIsEmpty();
      batched := |active| + |activeBody| + |scratch| <= PIPELINE_RESPONSE_BATCH_LIMIT && !HasQueued();
      if batched {
        AppendToActive(r);
      } else if HasPending() {
        SetQueued(scratch, "", false, 1, r);
        scratch := "";
      } else {
        SetActive(scratch, "", false, 1, r);
        scratch := "";
      }
    }

    /** Any other response is queued or made active. */
    method StoreLarge(head: string, body: string, close: bool, count: nat, ghost r: Reply)
      requires Stored() && Written() && Dispatching()
      requires r.octets == head + body != "" && r.close == close && count == if r.request then 1 else 0
      modifies this`active, this`activeBody, this`writePos, this`closeRequested, this`activeCount
      modifies this`queued, this`queuedBody, this`queuedClose, this`queuedCount
      modifies this`dispatched, this`log, this`staged
      ensures Stored() && Written() && log == old(log) + [r]
    {
      hide Ledger, Carries, Octets, CountRequests;
      if HasPending() {
        SetQueued(head, body, close, count, r);
      } else {
        SetActive(head, body, close, count, r);
      }
    }

    /** Small responses may join the batch; closing, chunked and large ones may not. */
    method Store(response: Response, close: bool, ghost r: Reply) returns (batched: bool)
      requires Stored() && Written() && Dispatching()
      requires r.octets == Wire(response) != "" && r.request && r.close == close
      modifies this`active, this`activeBody, this`writePos, this`closeRequested, this`activeCount
      modifies this`queued, this`queuedBody, this`queuedClose, this`queuedCount
      modifies this`dispatched, this`log, this`staged, this`scratch
      ensures Stored() && Written() && log == old(log) + [r]
      ensures batched ==> Dispatching()
      ensures batched <==> !close && !response.chunked
                           && |response.body| <= SMALL_CONTIGUOUS_RESPONSE_BODY_THRESHOLD
                           && |old(active)| + |r.octets| <= PIPELINE_RESPONSE_BATCH_LIMIT
    {
      hide Stored, Written, Wire, Closing;
      batched := false;
      if !close && !response.chunked && |response.body| <= SMALL_CONTIGUOUS_RESPONSE_BODY_THRESHOLD {
        scratch := SerializeInto(response);
        batched := StoreSmall(r);
      } else {
        var head, body := PrepareResponseStorage(response);
        StoreLarge(head, body, close, 1, r);
      }
    }

    /** How handling an event may end: dropped, waiting to write, or waiting to read. */
    ghost predicate Settled()
      reads this, socket
    {
      && Valid()
      && match watch
         case Dropped(reason) => EndsReading(reason) ==> frame(buf).Partial? && !Closing(log)
         case Armed(Writable) => HasPending()
         case Armed(Readable) => Ready() && frame(buf).Partial?
    }

    method AwaitInput()
      requires Ready()
      modifies this`watch
      ensures Ready() && watch == Armed(Readable)
    {
      hide IsFramer, Accounted, Ledger, Octets, Closing;
      Rearmed(socket.wire, watch, log, sent, staged, active + activeBody, writePos);
      hide Carries;
      watch := Armed(Readable);
    }

    /** Writes out what is stored; with input left over, parsing goes on. */
    method FlushAndGoOn() returns (again: bool)
      requires Valid() && watch.Armed?
      modifies this`active, this`activeBody, this`writePos, this`closeRequested, this`activeCount
      modifies this`queued, this`queuedBody, this`queuedClose, this`queuedCount
      modifies this`watch, this`noted, this`sent, this`staged, socket`wire, socket`accepts
      ensures again ==> Ready()
      ensures !again ==> Settled() && (watch == Armed(Readable) ==> parsed == |buf|)
      ensures watch.Dropped? ==> !EndsReading(watch.reason)
    {
      hide Stored, Written, Accounted;
      again := FlushReady();
      if again && Buffered() == 0 {
        AwaitInput();
        again := false;
      }
    }

    /** Answers the request at the start of the buffer. */
    method Respond() returns (again: bool)
      requires Ready() && frame(buf).Whole?
      modifies this`active, this`activeBody, this`writePos, this`closeRequested, this`activeCount
      modifies this`queued, this`queuedBody, this`queuedClose, this`queuedCount, this`scratch
      modifies this`dispatched, this`log, this`buf, this`parsed, this`consumed, this`unread
      modifies this`watch, this`noted, this`sent, this`staged, socket`wire, socket`accepts
      ensures again ==> Ready() && |buf| < |old(buf)|
      ensures !again ==> Settled() && (watch == Armed(Readable) ==> parsed == |buf|)
      ensures watch.Dropped? ==> !EndsReading(watch.reason)
      ensures log == old(log) + [Answer(handle, old(frame(buf).request))]
      ensures IsAnswer(handle, old(frame(buf).request), Answer(handle, old(frame(buf).request)))
      // A response that joins the batch is held back as long as more input is buffered.
      ensures var q, r := old(frame(buf).request), Answer(handle, old(frame(buf).request));
              && !r.close && !handle(q).chunked
              && |handle(q).body| <= SMALL_CONTIGUOUS_RESPONSE_BODY_THRESHOLD
              && |old(active)| + |r.octets| <= PIPELINE_RESPONSE_BATCH_LIMIT
              && old(frame(buf).length) < |old(buf)| ==>
              again && socket.wire == old(socket.wire)
    {
      hide Stored, Written, Parsed, Accounted, Answer, IsAnswer, Wire, IsFramer, Finished, WantsClose, Closing;
      var request, n := frame(buf).request, frame(buf).length;
      var close := WantsClose(request);
      var response := Finished(handle(request), close);
      ghost var r := Answer(handle, request);
      AnswerTells(handle, request);
      FinishedBody(handle(request), close);
      Earned();
      var batched := Store(response, close, r);
      NextRequest(n);
      if batched && Buffered() != 0 {
        return true;
      }
      again := FlushAndGoOn();
    }

    /** Input that is no request is refused, once all earlier replies are written. */
    method CloseWithParseError()
      requires Ready() && frame(buf).Bad?
      modifies this`active, this`activeBody, this`writePos, this`closeRequested, this`activeCount
      modifies this`queued, this`queuedBody, this`queuedClose, this`queuedCount
      modifies this`dispatched, this`log, this`consumed, this`unread
      modifies this`watch, this`noted, this`sent, this`staged, socket`wire, socket`accepts
      ensures Settled() && watch != Armed(Readable) && log == old(log) + [Refusal(badRequest)]
      ensures watch.Dropped? ==> !EndsReading(watch.reason)
    {
      hide Stored, Written, Accounted, Earns, Wire, IsFramer;
      ghost var r := Refusal(badRequest);
      BadEarnsRefusal(frame, handle, badRequest, buf);
      AccountOne(frame, handle, badRequest, consumed, log, buf, r);
      WireIsNotEmpty(badRequest);
      var head, body := PrepareResponseStorage(badRequest);
      StoreLarge(head, body, true, 0, r);
      consumed, unread := consumed + buf, "";
      var _ := FlushReady();
    }

    /** The connection is given up; replies not yet written are lost. */
    method Drop(reason: Reason)
      requires Ready() && frame(buf).Partial? && EndsReading(reason)
      modifies this`watch
      ensures Settled() && watch == Dropped(reason)
    {
      hide Ledger, Carries, Accounted, IsFramer, Octets;
      GaveUp(socket.wire, watch, log, sent, active + activeBody, reason);
      watch := Dropped(reason);
    }

    /** Input is added to the buffer and parsed. */
    method Commit(octets: string)
      requires IsFramer(frame) && Parsed() && !Closing(log)
      modifies this`buf, this`parsed, this`received, this`unread
      ensures Parsed() && buf == old(buf) + octets && received == old(received) + octets
    {
      hide Accounted, Closing;
      Associative(consumed, unread, octets);
      received, unread := received + octets, unread + octets;
      buf := buf + octets;
      parsed := if frame(buf).Partial? then frame(buf).parsed else 0;
    }

    /** Input is parsed, and refused at once if it is no request. */
    method TakeInput(octets: string) returns (again: bool)
      requires Ready()
      modifies this`active, this`activeBody, this`writePos, this`closeRequested, this`activeCount
      modifies this`queued, this`queuedBody, this`queuedClose, this`queuedCount
      modifies this`dispatched, this`log, this`buf, this`parsed, this`consumed, this`unread, this`received
      modifies this`watch, this`noted, this`sent, this`staged, socket`wire, socket`accepts
      ensures again ==> Ready()
      ensures !again ==> Settled() && watch != Armed(Readable)
      ensures watch.Dropped? ==> !EndsReading(watch.reason)
      ensures received == old(received) + octets
    {
      hide Stored, Written, Accounted;
      Commit(octets);
      again := !frame(buf).Bad?;
      if !again {
        CloseWithParseError();
      }
    }

    method NoteProgress()
      requires Ready() && frame(buf).Partial?
      modifies this`parsed
      ensures Ready()
    {
      hide Stored, Written, Accounted;
      parsed := frame(buf).parsed;
    }

    /** Reads once. */
    method Fill() returns (again: bool)
      requires Ready() && frame(buf).Partial?
      modifies this`active, this`activeBody, this`writePos, this`closeRequested, this`activeCount
      modifies this`queued, this`queuedBody, this`queuedClose, this`queuedCount
      modifies this`dispatched, this`log, this`buf, this`parsed, this`consumed, this`unread, this`received
      modifies this`watch, this`noted, this`sent, this`staged, socket`wire, socket`accepts, socket`incoming
      ensures again ==> Ready() && old(socket.incoming) != [] && IsInput(old(socket.incoming)[0])
      ensures !again ==> Settled()
      ensures socket.incoming == if old(socket.incoming) == [] then [] else old(socket.incoming)[1..]
      ensures old(socket.incoming) != [] && EndOf(old(socket.incoming)[0]).Some? ==>
                !again && watch == Dropped(EndOf(old(socket.incoming)[0]).value)
      ensures watch.Dropped? && EndsReading(watch.reason) ==>
                old(socket.incoming) != [] && EndOf(old(socket.incoming)[0]) == Some(watch.reason)
      ensures old(socket.incoming) == [] || old(socket.incoming)[0] in {WouldBlock, Data("")} ==>
                !again && watch == Armed(Readable)
      ensures !again && watch == Armed(Readable) ==> old(socket.incoming) == [] || !IsInput(old(socket.incoming)[0])
      ensures received + Payload(socket.incoming) == old(received + Payload(socket.incoming))
    {
      hide Stored, Written, Parsed, IsFramer, Payload;
      NoteProgress();
      ghost var before := received;
      var event := socket.Read();
      match event
      case NoRoom => Drop(BufferFull); again := false;
      case Eof => Drop(ReadEnded); again := false;
      case ReadError => Drop(ReadFailed); again := false;
      case WouldBlock => AwaitInput(); again := false;
      case Data(octets) =>
        if octets == "" {
          AwaitInput();
          return false;
        }
        again := TakeInput(octets);
        assert before + octets + Payload(socket.incoming) == before + (octets + Payload(socket.incoming));
    }

    /** One event on the connection: whatever is pending is written first, and then requests are read,
        answered and written until there is nothing to read or writing stops. */
    method HandleConnection()
      requires Settled() && watch.Armed?
      modifies this, socket
      ensures Settled() && received + Payload(socket.incoming) == old(received + Payload(socket.incoming))
      ensures ReadTo(old(socket.incoming), socket.incoming)
      ensures !old(HasPending()) && old(socket.incoming) != [] ==> |socket.incoming| < |old(socket.incoming)|
      ensures watch == Armed(Readable) ==> parsed == |buf| || OutOfInput(old(socket.incoming), socket.incoming)
      ensures watch.Dropped? && EndsReading(watch.reason) ==>
                EndedBy(old(socket.incoming), socket.incoming, watch.reason)
    {
      hide Stored, Written, Parsed, IsFramer, IsInput, Payload, Answer, IsAnswer;
      assert ReadTo(socket.incoming, socket.incoming) && AllInput(socket.incoming, socket.incoming);
      hide ReadTo, AllInput, OutOfInput, IsSuffix, EndedBy, EndOf;
      var again := true;
      if HasPending() {
        again := FlushAndGoOn();
      }
      while again
        invariant again ==> Ready()
        invariant !again ==> Settled()
        invariant ReadTo(old(socket.incoming), socket.incoming)
        invariant again ==> AllInput(old(socket.incoming), socket.incoming)
        invariant !old(HasPending()) ==> old(socket.incoming) == [] || |socket.incoming| < |old(socket.incoming)|
                                         || (again && frame(buf).Partial?)
        invariant !again && watch == Armed(Readable) ==>
                  parsed == |buf| || OutOfInput(old(socket.incoming), socket.incoming)
        invariant watch.Dropped? && EndsReading(watch.reason) ==>
                  EndedBy(old(socket.incoming), socket.incoming, watch.reason)
        invariant received + Payload(socket.incoming) == old(received + Payload(socket.incoming))
        decreases again, |socket.incoming|, |buf|
      {
        ghost var now := socket.incoming;
        ReadOne(old(socket.incoming), now, if now == [] then [] else now[1..]);
        match frame(buf)
        case Bad => CloseWithParseError(); again := false;
        case Partial(_) => again := Fill();
        case Whole(_, _) => again := Respond();
      }
    }

    /** What a peer sees. The wire never carries anything but the replies due for the octets received,
        in order and from the first octet on. When the connection waits for input with nothing left
        to write, and when it was closed by a reply, none is missing. A batch is held back only behind
        input already received; if the input ends there, exactly that batch is lost. */
    lemma {:induction false} InOrder()
      requires Settled()
      ensures var due := Octets(Replies(frame, handle, badRequest, received));
              && socket.wire <= due
              && (watch == Armed(Readable) && !HasPending() ==> socket.wire == due)
              && (watch == Dropped(CloseHeader) ==> socket.wire == due)
              && (watch == Armed(Readable) && HasPending() ==> buf != "")
              && (watch.Dropped? && EndsReading(watch.reason) ==> (socket.wire == due <==> active + activeBody == ""))
    {
      hide Accounted, IsFramer, Ledger, Octets;
      DueIsLogged(frame, handle, badRequest, consumed, unread, log);
      WireIsLogged(socket.wire, watch, log, sent, staged, active + activeBody, writePos);
      if watch == Armed(Readable) && !HasPending() {
        AllSent();
      }
    }

    /** Nothing is lost while the connection lives: the wire, the rest of the active response and the
        queued one are the replies earned so far. */
    lemma {:induction false} NothingLost()
      requires Valid() && watch.Armed?
      ensures writePos <= |active + activeBody|
      ensures socket.wire + (active + activeBody)[writePos..] + queued + queuedBody == Octets(log)
      ensures Octets(log) <= Octets(Replies(frame, handle, badRequest, received))
    {
      hide IsFramer, Ordered, Batched, Booked, CountRequests, Closing;
      AllAccounted(socket.wire, watch, log, sent, staged, active + activeBody, writePos, queued, queuedBody);
      hide Octets, Carries;
      DueIsLogged(frame, handle, badRequest, consumed, unread, log);
    }

    /** A request is noted only when all octets of its reply are on the wire, every request dispatched
        is noted, active or queued, and a batch of several replies keeps to the limit. */
    lemma {:induction false} Accounts()
      requires Valid()
      ensures noted == CountRequests(log[..sent]) && Octets(log[..sent]) <= socket.wire
      ensures noted + activeCount + queuedCount == dispatched == CountRequests(log)
      ensures staged - sent >= 2 ==> |active| + |activeBody| <= PIPELINE_RESPONSE_BATCH_LIMIT
    {
      WireIsLogged(socket.wire, watch, log, sent, staged, active + activeBody, writePos);
      Conserved(log, sent, staged, active, activeBody, activeCount, queued + queuedBody, queuedClose, queuedCount,
                noted, dispatched);
    }

    /** A whole run: any number of events, any reads, any writes. */
    method Serve(rounds: seq<Round>)
      requires Settled()
      modifies this, socket
      ensures Settled()
      ensures received + Payload(socket.incoming) == old(received + Payload(socket.incoming)) + PayloadOf(rounds)
      ensures var due := Octets(Replies(frame, handle, badRequest, received));
              && socket.wire <= due
              && (watch == Armed(Readable) && !HasPending() ==> socket.wire == due)
              && (watch == Dropped(CloseHeader) ==> socket.wire == due)
      ensures watch.Armed? ==>
                && writePos <= |active + activeBody|
                && socket.wire + (active + activeBody)[writePos..] + queued + queuedBody == Octets(log)
                && Octets(log) <= Octets(Replies(frame, handle, badRequest, received))
      ensures noted + activeCount + queuedCount == dispatched
    {
      hide Stored, Written, Parsed, Accounted, Payload, Octets, IsFramer;
      for i := 0 to |rounds|
        invariant Settled()
        invariant received + Payload(socket.incoming) ==
                  old(received + Payload(socket.incoming)) + PayloadOf(rounds[..i])
      {
        assert rounds[..i + 1][..i] == rounds[..i];
        PayloadConcat(socket.incoming, rounds[i].incoming);
        assert received + (Payload(socket.incoming) + Payload(rounds[i].incoming))
            == received + Payload(socket.incoming) + Payload(rounds[i].incoming);
        socket.incoming := socket.incoming + rounds[i].incoming;
        socket.accepts := rounds[i].accepts;
        if watch.Armed? {
          HandleConnection();
        }
      }
      assert rounds[..|rounds|] == rounds;
      InOrder();
      Accounts();
      if watch.Armed? {
        NothingLost();
      }
    }
  }
}
