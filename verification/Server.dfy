/** The server: connections that parse HTTP. */
module Servers {
  import opened Http
  import opened Messages
  import opened Responses
  import opened ParserModel
  import opened Pipeline
  import opened ParserStability
  import opened Connections

  /** A connection for an accepted socket. What Connections promises of any framer holds of it. */
  method Accept(known: set<string>, handle: Request -> Response, badRequest: Response) returns (c: Connection)
    ensures fresh(c) && fresh(c.socket) && c.Settled() && c.watch == Armed(Readable) && c.received == ""
    ensures c.frame == FramerOf(known) && c.handle == handle && c.badRequest == badRequest
  {
    ParserIsFramer(known);
    hide IsFramer, FrameOf;
    c := new Connection(FramerOf(known), handle, badRequest);
  }

  function Texts(ms: seq<Message>): string {
    if ms == [] then "" else MessageText(ms[0]) + Texts(ms[1..])
  }

  /** The answers to messages in order, up to the first that asks to close. */
  function AnswersTo(handle: Request -> Response, ms: seq<Message>): seq<Reply> {
    if ms == [] then []
    else if WantsClose(RequestOf(ms[0])) then [Answer(handle, RequestOf(ms[0]))]
    else [Answer(handle, RequestOf(ms[0]))] + AnswersTo(handle, ms[1..])
  }

  predicate Closes(ms: seq<Message>) {
    exists i :: 0 <= i < |ms| && WantsClose(RequestOf(ms[i]))
  }

  lemma {:induction false} TextIsFramed(known: set<string>, m: Message, rest: string)
    requires IsMessage(m)
    ensures FramerOf(known)(MessageText(m) + rest) == Whole(|MessageText(m)|, RequestOf(m)) && 1 <= |MessageText(m)|
  {
    hide IsMessage, MessageText, FrameOf;
    MessageIsFramed(known, m, rest);
    ParserIsFramer(known);
    var b := MessageText(m) + rest;
    assert FramerOf(known)(b).Whole?;
  }

  /** The replies due for any messages written one after the other are their answers, in order: one for
      each up to the first that asks to close, and after that, or for what is no whole message, none. */
  lemma {:induction false} MessagesAreAnswered(known: set<string>, handle: Request -> Response, badRequest: Response,
                                               ms: seq<Message>, tail: string)
    requires forall i :: 0 <= i < |ms| ==> IsMessage(ms[i])
    ensures Replies(FramerOf(known), handle, badRequest, Texts(ms) + tail) ==
            AnswersTo(handle, ms)
            + if Closes(ms) then [] else Replies(FramerOf(known), handle, badRequest, tail)
    decreases |ms|
  {
    hide IsMessage, MessageText, FrameOf, FramerOf, WantsClose, Answer, RequestOf, Replies;
    if ms == [] {
      assert Texts(ms) + tail == tail;
    } else {
      var text, rest := MessageText(ms[0]), Texts(ms[1..]) + tail;
      assert Texts(ms) + tail == text + rest;
      TextIsFramed(known, ms[0], rest);
      assert (text + rest)[|text|..] == rest;
      RepliesToWhole(FramerOf(known), handle, badRequest, text + rest, |text|, RequestOf(ms[0]),
                     Answer(handle, RequestOf(ms[0])));
      AnswerCloses(handle, RequestOf(ms[0]));
      if WantsClose(RequestOf(ms[0])) {
        assert Closes(ms);
      } else {
        ClosesLater(ms);
        hide Closes, Texts;
        MessagesAreAnswered(known, handle, badRequest, ms[1..], tail);
      }
    }
  }

  lemma AnswerCloses(handle: Request -> Response, request: Request)
    ensures Answer(handle, request).close == WantsClose(request)
  {
  }

  lemma ClosesLater(ms: seq<Message>)
    requires ms != [] && !WantsClose(RequestOf(ms[0]))
    ensures Closes(ms) <==> Closes(ms[1..])
  {
    hide WantsClose, RequestOf;
    assert forall i :: 1 <= i < |ms| ==> ms[1..][i - 1] == ms[i];
  }
}
