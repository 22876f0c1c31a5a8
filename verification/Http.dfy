/** Requests, and what a byte stream looks like to a request framer. */
module Http {
  import opened CaseFold

  datatype Method = Get | Post | Put | Delete | Patch | Head | Options | Unknown

  function MethodName(m: Method): string {
    match m
    case Get => "GET"
    case Post => "POST"
    case Put => "PUT"
    case Delete => "DELETE"
    case Patch => "PATCH"
    case Head => "HEAD"
    case Options => "OPTIONS"
    case Unknown => "UNKNOWN"
  }

  /** Header values by the key of their name. */
  datatype Request = Request(verb: Method, uri: string, headers: map<string, string>, body: string)

  predicate WantsClose(r: Request) {
    var k := Key("connection", true);
    k in r.headers && (r.headers[k] == "close" || r.headers[k] == "Close")
  }

  /** What the octets at the start of a buffer amount to: part of a request (of which `parsed` octets
      have been worked off), a whole request of `length` octets, or no request. */
  datatype Frame = Partial(parsed: nat) | Whole(length: nat, request: Request) | Bad

  /** More octets never change a whole request or mend a bad one, and octets after a whole request
      play no part in it. */
  ghost predicate IsFramer(frame: string -> Frame) {
    && frame("") == Partial(0)
    && (forall b :: frame(b).Partial? ==> frame(b).parsed <= |b|)
    && (forall b :: frame(b).Whole? ==> 1 <= frame(b).length <= |b|)
    && (forall b, more {:trigger frame(b), frame(b[..frame(b).length] + more)} ::
          frame(b).Whole? && frame(b).length <= |b| ==> frame(b[..frame(b).length] + more) == frame(b))
    && (forall b, more {:trigger frame(b), frame(b + more)} :: frame(b).Bad? ==> frame(b + more).Bad?)
  }
}
