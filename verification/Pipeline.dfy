/**
 The simple form of a pipelined connection: a function from the octets received to the replies due,
 in order, with nothing about buffers, batches, partial writes or events.
 */
module Pipeline {
  import opened Http
  import opened Responses
  import opened Text

  /** A reply: its octets, whether the connection closes after it, whether it answers a request. */
  datatype Reply = Reply(octets: string, close: bool, request: bool)

  /** The connection header is set from the request unless the handler has set one. */
  function Finished(r: Response, close: bool): Response {
    if Contains(r.headers, "Connection") then r
    else
      var i := if r.room <= |r.headers| then r.room else |r.headers|;
      r.(headers := r.headers[..i] + [Header("Connection", if close then "close" else "keep-alive")] + r.headers[i..])
  }

  /** What the handler returned is sent as it is if it has a Connection header; otherwise with one more
      header, a Connection header that tells whether the server closes. */
  ghost predicate IsFinished(r: Response, sent: Response, close: bool) {
    if Contains(r.headers, "Connection") then sent == r
    else
      var told := Of(sent.headers, "Connection");
      && |told| == 1 && told[0].name == "Connection"
      && (told[0].value == "close" <==> close) && (told[0].value == "keep-alive" <==> !close)
      && Others(sent.headers, "Connection") == r.headers
      && sent.(headers := r.headers) == r
  }

  lemma {:induction false} FinishedTells(r: Response, close: bool)
    ensures IsFinished(r, Finished(r, close), close)
  {
    hide Contains, Of, Others;
    if !Contains(r.headers, "Connection") {
      var i := if r.room <= |r.headers| then r.room else |r.headers|;
      assert r.headers[..i] + r.headers[i..] == r.headers;
      NoneOf(r.headers, "Connection");
      OneMoreHeader(r.headers[..i], Header("Connection", if close then "close" else "keep-alive"), r.headers[i..]);
    }
  }

  lemma FinishedBody(r: Response, close: bool)
    ensures Finished(r, close).body == r.body && Finished(r, close).chunked == r.chunked
  {
  }

  lemma OneMoreHeader(front: seq<Header>, h: Header, back: seq<Header>)
    requires Of(front + back, h.name) == []
    ensures Of(front + [h] + back, h.name) == [h]
    ensures Others(front + [h] + back, h.name) == Others(front + back, h.name)
  {
    OneHeader(h);
    hide Of, Others;
    OfConcat(front + [h], back, h.name);
    OfConcat(front, [h], h.name);
    OfConcat(front, back, h.name);
  }

  lemma OneHeader(h: Header)
    ensures Of([h], h.name) == [h] && Others([h], h.name) == []
  {
  }

  /** The reply to a request: it closes exactly if the request asks for that, and its octets are those of
      the handler's response, finished so as to say so. */
  ghost predicate IsAnswer(handle: Request -> Response, request: Request, reply: Reply) {
    && reply.request && reply.close == WantsClose(request)
    && exists sent :: IsFinished(handle(request), sent, reply.close) && reply.octets == Wire(sent)
  }

  lemma AnswerTells(handle: Request -> Response, request: Request)
    ensures IsAnswer(handle, request, Answer(handle, request))
  {
    hide IsFinished, Finished, Wire, WantsClose;
    FinishedTells(handle(request), WantsClose(request));
  }

  function Answer(handle: Request -> Response, request: Request): Reply {
    Reply(Wire(Finished(handle(request), WantsClose(request))), WantsClose(request), true)
  }

  function Refusal(badRequest: Response): Reply {
    Reply(Wire(badRequest), true, false)
  }

  function Replies(frame: string -> Frame, handle: Request -> Response, badRequest: Response, stream: string)
    : seq<Reply>
    decreases |stream|
  {
    match frame(stream)
    case Partial(_) => []
    case Bad => [Refusal(badRequest)]
    case Whole(n, request) =>
      if !(1 <= n <= |stream|) then []
      else
        var reply := Answer(handle, request);
        [reply] + if reply.close then [] else Replies(frame, handle, badRequest, stream[n..])
  }

  function Octets(replies: seq<Reply>): string {
    if replies == [] then "" else Octets(replies[..|replies| - 1]) + replies[|replies| - 1].octets
  }

  function CountRequests(replies: seq<Reply>): nat {
    if replies == [] then 0
    else CountRequests(replies[..|replies| - 1]) + if replies[|replies| - 1].request then 1 else 0
  }

  lemma {:induction false} Concat(a: seq<Reply>, b: seq<Reply>)
    ensures Octets(a + b) == Octets(a) + Octets(b)
    ensures CountRequests(a + b) == CountRequests(a) + CountRequests(b)
  {
    if b == [] {
      assert a + b == a;
    } else {
      var n := |b| - 1;
      Concat(a, b[..n]);
      assert (a + b)[..|a + b| - 1] == a + b[..n] && (a + b)[|a + b| - 1] == b[n];
      Associative(Octets(a), Octets(b[..n]), b[n].octets);
    }
  }

  /** The last reply closes the connection. */
  predicate Closing(replies: seq<Reply>) {
    replies != [] && replies[|replies| - 1].close
  }

  ghost predicate OnlyLastCloses(replies: seq<Reply>) {
    forall i :: 0 <= i < |replies| - 1 ==> !replies[i].close
  }

  /** `log` is what is due for the octets `consumed`, whatever comes next. */
  ghost predicate Accounted(frame: string -> Frame, handle: Request -> Response, badRequest: Response,
                            consumed: string, log: seq<Reply>)
  {
    forall rest {:trigger Replies(frame, handle, badRequest, consumed + rest)} ::
      Replies(frame, handle, badRequest, consumed + rest) ==
      log + if Closing(log) then [] else Replies(frame, handle, badRequest, rest)
  }

  lemma AccountedAtStart(frame: string -> Frame, handle: Request -> Response, badRequest: Response)
    ensures Accounted(frame, handle, badRequest, "", [])
  {
    forall rest
      ensures Replies(frame, handle, badRequest, "" + rest) == [] + Replies(frame, handle, badRequest, rest)
    {
      assert "" + rest == rest;
    }
  }

  /** A piece of the stream that earns exactly one reply, whatever comes next. */
  ghost predicate Earns(frame: string -> Frame, handle: Request -> Response, badRequest: Response,
                        piece: string, reply: Reply)
  {
    forall rest {:trigger Replies(frame, handle, badRequest, piece + rest)} ::
      Replies(frame, handle, badRequest, piece + rest) ==
      [reply] + if reply.close then [] else Replies(frame, handle, badRequest, rest)
  }

  lemma {:induction false} RepliesToWhole(frame: string -> Frame, handle: Request -> Response, badRequest: Response,
                                          stream: string, n: nat, request: Request, reply: Reply)
    requires frame(stream) == Whole(n, request) && 1 <= n <= |stream| && reply == Answer(handle, request)
    ensures Replies(frame, handle, badRequest, stream) ==
            [reply] + if reply.close then [] else Replies(frame, handle, badRequest, stream[n..])
  {
  }

  lemma {:induction false} WholeIsStable(frame: string -> Frame, buffer: string, rest: string)
    requires IsFramer(frame) && frame(buffer).Whole?
    ensures 1 <= frame(buffer).length <= |buffer|
    ensures frame(buffer[..frame(buffer).length] + rest) == frame(buffer)
  {
  }

  lemma {:induction false} WholeEarnsAnswer(frame: string -> Frame, handle: Request -> Response, badRequest: Response,
                                            buffer: string)
    requires IsFramer(frame) && frame(buffer).Whole?
    ensures frame(buffer).length <= |buffer|
    ensures Earns(frame, handle, badRequest, buffer[..frame(buffer).length], Answer(handle, frame(buffer).request))
  {
    hide IsFramer, Answer;
    WholeIsStable(frame, buffer, "");
    var n, reply := frame(buffer).length, Answer(handle, frame(buffer).request);
    forall rest
      ensures Replies(frame, handle, badRequest, buffer[..n] + rest) ==
              [reply] + if reply.close then [] else Replies(frame, handle, badRequest, rest)
    {
      var next := buffer[..n] + rest;
      WholeIsStable(frame, buffer, rest);
      RepliesToWhole(frame, handle, badRequest, next, n, frame(buffer).request, reply);
      assert next[n..] == rest;
    }
  }

  lemma {:induction false} BadEarnsRefusal(frame: string -> Frame, handle: Request -> Response, badRequest: Response,
                                           buffer: string)
    requires IsFramer(frame) && frame(buffer).Bad?
    ensures Earns(frame, handle, badRequest, buffer, Refusal(badRequest))
  {
    forall rest
      ensures Replies(frame, handle, badRequest, buffer + rest) == [Refusal(badRequest)]
    {
      assert frame(buffer + rest).Bad?;
    }
  }

  lemma {:induction false} AccountOne(frame: string -> Frame, handle: Request -> Response, badRequest: Response,
                                      consumed: string, log: seq<Reply>, piece: string, reply: Reply)
    requires Accounted(frame, handle, badRequest, consumed, log) && !Closing(log)
    requires Earns(frame, handle, badRequest, piece, reply)
    ensures Accounted(frame, handle, badRequest, consumed + piece, log + [reply])
  {
    hide Replies;
    forall rest
      ensures Replies(frame, handle, badRequest, consumed + piece + rest) ==
              log + [reply] + if reply.close then [] else Replies(frame, handle, badRequest, rest)
    {
      assert consumed + piece + rest == consumed + (piece + rest);
      var tail := if reply.close then [] else Replies(frame, handle, badRequest, rest);
      assert log + ([reply] + tail) == log + [reply] + tail;
    }
  }
}
