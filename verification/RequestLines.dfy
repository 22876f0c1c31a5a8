/** What the request line and header line parsers accept, said without them. */
module RequestLines {
  import opened Options
  import opened Http
  import opened ParserModel

  predicate IsTarget(uri: string) {
    |uri| <= MAX_URI_LENGTH && AllOf(uri, IsUriChar)
  }

  lemma {:induction false} IndexOfIs(s: string, c: char, i: nat, k: nat)
    requires i <= k < |s| && s[k] == c && forall j :: i <= j < k ==> s[j] != c
    ensures IndexOf(s, c, i) == Some(k)
  {
    hide IndexOf;
    var r := IndexOf(s, c, i);
    assert r.Some?;
  }

  lemma {:induction false} ParsedMethodIsNamed(s: string)
    requires ParseMethod(s) != Unknown
    ensures s == MethodName(ParseMethod(s))
  {
  }

  lemma {:induction false} NamedMethodIsParsed(m: Method)
    requires m != Unknown
    ensures var s := MethodName(m); s != "" && ParseMethod(s) == m && ' ' !in s && !IsBlank(s[0])
  {
  }

  function RequestLineOf(verb: Method, uri: string): string {
    MethodName(verb) + " " + uri + " HTTP/1.1"
  }

  lemma {:induction false} WrittenLineIsRead(verb: Method, uri: string)
    requires verb != Unknown && IsTarget(uri)
    ensures ProcessRequestLine(RequestLineOf(verb, uri)) == Some((verb, uri))
  {
    hide IndexOf, MethodName, ParseMethod;
    NamedMethodIsParsed(verb);
    var name, line := MethodName(verb), RequestLineOf(verb, uri);
    var k := |name| + 1 + |uri|;
    assert line[..|name|] == name && line[|name| + 1..k] == uri && line[k + 1..] == "HTTP/1.1";
    forall j | 0 <= j < |name|
      ensures line[j] != ' '
    {
      assert line[j] == name[j];
    }
    IndexOfIs(line, ' ', 0, |name|);
    forall j | |name| + 1 <= j < k
      ensures line[j] != ' '
    {
      assert line[j] == uri[j - |name| - 1];
    }
    IndexOfIs(line, ' ', |name| + 1, k);
    assert line[|line| - 1] == "HTTP/1.1"[7];
    assert line[0] == name[0];
  }

  /** A request line is accepted exactly when it is a known method, one space, a target without blanks
      or control characters, one space and the version. */
  lemma {:induction false} RequestLineExact(line: string, verb: Method, uri: string)
    ensures ProcessRequestLine(line) == Some((verb, uri)) <==>
            verb != Unknown && IsTarget(uri) && line == RequestLineOf(verb, uri)
  {
    if ProcessRequestLine(line) == Some((verb, uri)) {
      ReadLineIsWritten(line, verb, uri);
    } else if verb != Unknown && IsTarget(uri) && line == RequestLineOf(verb, uri) {
      WrittenLineIsRead(verb, uri);
    }
  }

  lemma {:induction false} ReadLineIsWritten(line: string, verb: Method, uri: string)
    requires ProcessRequestLine(line) == Some((verb, uri))
    ensures verb != Unknown && IsTarget(uri) && line == RequestLineOf(verb, uri)
  {
    hide IndexOf, MethodName, ParseMethod, AllOf;
    var first := IndexOf(line, ' ', 0).value;
    var second := IndexOf(line, ' ', first + 1).value;
    ParsedMethodIsNamed(line[..first]);
    LineOfPieces(line, first, second);
  }

  lemma {:induction false} LineOfPieces(line: string, i: nat, j: nat)
    requires i < j < |line| && line[i] == line[j] == ' ' && line[j + 1..] == "HTTP/1.1"
    ensures line == line[..i] + " " + line[i + 1..j] + " HTTP/1.1"
  {
    assert line[j..] == [line[j]] + line[j + 1..] == " HTTP/1.1";
    assert line == line[..i] + [line[i]] + line[i + 1..j] + line[j..];
  }

  lemma {:induction false} TrimLeftTwice(s: string)
    ensures TrimLeft(TrimLeft(s)) == TrimLeft(s)
  {
    hide TrimLeft;
    TrimLeftStops(TrimLeft(s));
  }

  lemma TrimLeftStops(s: string)
    requires s != "" ==> !IsBlank(s[0])
    ensures TrimLeft(s) == s
  {
  }

  /** After an accepted header line, a continuation line is accepted if and only if the name is not in
      the field table and the text has no control characters; it then extends that header's value by
      a space and the text, and changes nothing else. */
  lemma {:induction false} FoldingExact(known: set<string>, c: Core, line: string, fold: string)
    requires c.phase == Headers && line != "" && !IsBlank(line[0]) && fold != "" && IsBlank(fold[0])
    requires HeaderLine(known, c, line).Some?
    ensures IndexOf(line, ':', 0).Some?
    ensures var d, key, text :=
              HeaderLine(known, c, line).value, KeyOf(line[..IndexOf(line, ':', 0).value]), TrimOws(fold);
            && key in d.headers
            && HeaderLine(known, d, fold) ==
               if key !in known && AllOf(text, IsValueChar)
               then Some(d.(headers := d.headers[key := d.headers[key] + " " + text])) else None
  {
    hide IndexOf, TrimOws, TrimLeft, KeyOf, AllOf;
    var d := HeaderLine(known, c, line).value;
    assert TrimOws(TrimLeft(fold)) == TrimOws(fold) by {
      TrimOwsOfTrimLeft(fold);
    }
    var key := KeyOf(line[..IndexOf(line, ':', 0).value]);
    assert d.lastName == if key in known then None else Some(line[..IndexOf(line, ':', 0).value]);
  }

  lemma {:induction false} TrimOwsOfTrimLeft(s: string)
    ensures TrimOws(TrimLeft(s)) == TrimOws(s)
  {
    TrimLeftTwice(s);
  }

  lemma {:induction false} HostIsAccepted(known: set<string>, c: Core)
    requires c.phase == Headers && c.headerCount < MAX_HEADER_COUNT
    ensures HeaderLine(known, c, "Host: a").Some? && IndexOf("Host: a", ':', 0) == Some(4)
  {
    hide KeyOf, TrimOws, IndexOf;
    IndexOfIs("Host: a", ':', 0, 4);
    assert "Host: a"[..4] == "Host" && "Host: a"[5..] == [' ', 'a'];
    TrimOfWord('a');
  }

  /** A folded Host line is refused although Host is a header like any other. */
  lemma {:induction false} KnownHeaderIsNotFolded(c: Core)
    requires c.phase == Headers && c.headerCount < MAX_HEADER_COUNT
    ensures HeaderLine({KeyOf("Host")}, c, "Host: a").Some?
    ensures HeaderLine({KeyOf("Host")}, HeaderLine({KeyOf("Host")}, c, "Host: a").value, " b").None?
    ensures HeaderLine({}, c, "Host: a").Some? && HeaderLine({}, HeaderLine({}, c, "Host: a").value, " b").Some?
  {
    hide KeyOf, TrimOws, IndexOf, HeaderLine;
    HostIsAccepted({KeyOf("Host")}, c);
    HostIsAccepted({}, c);
    assert "Host: a"[..4] == "Host" && " b" == [' ', 'b'];
    TrimOfWord('b');
    FoldingExact({KeyOf("Host")}, c, "Host: a", " b");
    FoldingExact({}, c, "Host: a", " b");
  }

  lemma TrimRightStops(s: string)
    requires s != "" ==> !IsBlank(s[|s| - 1])
    ensures TrimRight(s) == s
  {
  }

  lemma {:induction false} TrimOneLeft(s: string)
    requires s != "" && IsBlank(s[0])
    ensures TrimLeft(s) == TrimLeft(s[1..])
  {
  }

  lemma {:induction false} TrimOfWord(c: char)
    requires !IsBlank(c)
    ensures TrimOws([' ', c]) == [c]
  {
    hide TrimLeft, TrimRight;
    TrimOneLeft([' ', c]);
    assert [' ', c][1..] == [c];
    TrimLeftStops([c]);
    TrimRightStops([c]);
  }
}
