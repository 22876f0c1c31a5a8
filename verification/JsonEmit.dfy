/** The JSON emitter, and what the cursor does with its output. */
module JsonEmit {
  import opened JsonStrings
  import opened JsonCursor

  datatype Tree = Scalar(text: string) | Object(fields: seq<(string, Tree)>) | Array(items: seq<Tree>)

  function TrimFront(s: string): string {
    if s != "" && IsSpace(s[0]) then TrimFront(s[1..]) else s
  }

  function TrimBack(s: string): string {
    if s != "" && IsSpace(s[|s| - 1]) then TrimBack(s[..|s| - 1]) else s
  }

  predicate IsLiteral(s: string) {
    s == "true" || s == "false" || s == "null"
  }

  function Unquoted(s: string): string {
    if |s| >= 2 && ((s[0] == '\"' && s[|s| - 1] == '\"') || (s[0] == '\'' && s[|s| - 1] == '\''))
    then s[1..|s| - 1] else s
  }

  function Quoted(s: string): string {
    "\"" + (Escape(s) + "\"")
  }

  function EmitScalar(text: string): string {
    var s := TrimBack(TrimFront(text));
    if IsLiteral(s) then s else Quoted(Unquoted(s))
  }

  function Comma(n: nat): string {
    if n == 0 then "" else ","
  }

  /** The first n fields of an object. */
  function EmitFields(t: Tree, n: nat): string
    requires t.Object? && n <= |t.fields|
    decreases t, n
  {
    if n == 0 then ""
    else EmitFields(t, n - 1) + (Comma(n - 1) + (Quoted(t.fields[n - 1].0) + (":" + Emit(t.fields[n - 1].1))))
  }

  function EmitItems(t: Tree, n: nat): string
    requires t.Array? && n <= |t.items|
    decreases t, n
  {
    if n == 0 then "" else EmitItems(t, n - 1) + (Comma(n - 1) + Emit(t.items[n - 1]))
  }

  function Emit(t: Tree): string
    decreases t
  {
    match t
    case Scalar(text) => EmitScalar(text)
    case Object(fields) => "{" + (EmitFields(t, |fields|) + "}")
    case Array(items) => "[" + (EmitItems(t, |items|) + "]")
  }

  method EmitQuoted(s: string, width: nat, out: string) returns (r: string)
    requires width >= 1
    ensures r == out + Quoted(s)
  {
    r := out + "\"";
    r := EscapeInto(s, width, r);
    r := r + "\"";
  }

  method EmitScalarInto(text: string, width: nat, out: string) returns (r: string)
    requires width >= 1
    ensures r == out + EmitScalar(text)
  {
    hide TrimBack, TrimFront, Quoted;
    var s := TrimBack(TrimFront(text));
    if IsLiteral(s) {
      return out + s;
    }
    r := EmitQuoted(Unquoted(s), width, out);
  }

  lemma {:induction false} Append(out: string, front: string, a: string, b: string)
    ensures out + front + a + b == out + (front + (a + b))
  {
  }

  lemma {:induction false} FieldStep(out: string, t: Tree, i: nat)
    requires t.Object? && i < |t.fields|
    ensures out + EmitFields(t, i) + Comma(i) + Quoted(t.fields[i].0) + ":" + Emit(t.fields[i].1)
                == out + EmitFields(t, i + 1)
  {
    hide Emit, Quoted, Comma;
    var key, item := Quoted(t.fields[i].0), Emit(t.fields[i].1);
    Append(out + EmitFields(t, i) + Comma(i), key, ":", item);
    Append(out, EmitFields(t, i), Comma(i), key + (":" + item));
  }

  lemma {:induction false} ItemStep(out: string, t: Tree, i: nat)
    requires t.Array? && i < |t.items|
    ensures out + EmitItems(t, i) + Comma(i) + Emit(t.items[i]) == out + EmitItems(t, i + 1)
  {
    hide Emit, Comma;
    Append(out, EmitItems(t, i), Comma(i), Emit(t.items[i]));
  }

  method AppendComma(i: nat, out: string) returns (r: string)
    ensures r == out + Comma(i)
  {
    r := out;
    if i != 0 {
      r := r + ",";
    }
  }

  method EmitFieldInto(t: Tree, i: nat, width: nat, out: string, ghost start: string) returns (r: string)
    requires width >= 1 && t.Object? && i < |t.fields| && out == start + EmitFields(t, i)
    ensures r == start + EmitFields(t, i + 1)
    decreases t, 0
  {
    hide Emit, Quoted, EmitFields, Comma;
    r := AppendComma(i, out);
    r := EmitQuoted(t.fields[i].0, width, r);
    r := r + ":";
    r := EmitInto(t.fields[i].1, width, r);
    FieldStep(start, t, i);
  }

  method EmitFieldsInto(t: Tree, width: nat, out: string) returns (r: string)
    requires width >= 1 && t.Object?
    ensures r == out + EmitFields(t, |t.fields|)
    decreases t, 1
  {
    hide Emit, EmitFields;
    NoFields(t);
    r := out;
    for i := 0 to |t.fields|
      invariant r == out + EmitFields(t, i)
    {
      r := EmitFieldInto(t, i, width, r, out);
    }
  }

  method EmitItemsInto(t: Tree, width: nat, out: string) returns (r: string)
    requires width >= 1 && t.Array?
    ensures r == out + EmitItems(t, |t.items|)
    decreases t, 0
  {
    hide Emit, EmitItems, Comma;
    NoItems(t);
    r := out;
    for i := 0 to |t.items|
      invariant r == out + EmitItems(t, i)
    {
      r := AppendComma(i, r);
      r := EmitInto(t.items[i], width, r);
      ItemStep(out, t, i);
    }
  }

  method EmitInto(t: Tree, width: nat, out: string) returns (r: string)
    requires width >= 1
    ensures r == out + Emit(t)
    decreases t
  {
    hide EmitScalar, EmitFields, EmitItems;
    match t
    case Scalar(text) =>
      r := EmitScalarInto(text, width, out);
    case Object(fields) =>
      r := EmitFieldsInto(t, width, out + "{");
      r := r + "}";
    case Array(items) =>
      r := EmitItemsInto(t, width, out + "[");
      r := r + "]";
  }

  lemma {:induction false} EscapedHasNoStop(d: string, i: nat, c: char)
    requires At(d, i, EscapeChar(c))
    ensures i + |EscapeChar(c)| <= |d|
    ensures i + |EscapeChar(c)| < |d| ==> StringStop(d, i) == StringStop(d, i + |EscapeChar(c)|)
  {
    var e := EscapeChar(c);
    AtIndex(d, i, e, 0);
    if NeedsEscape(c) {
      AtIndex(d, i, e, 1);
      if |e| == 6 {
        AtIndex(d, i, e, 2);
        AtIndex(d, i, e, 3);
        AtIndex(d, i, e, 4);
        AtIndex(d, i, e, 5);
        assert StringStop(d, i) == StringStop(d, i + 2) == StringStop(d, i + 3) == StringStop(d, i + 4);
        assert StringStop(d, i + 4) == StringStop(d, i + 5) == StringStop(d, i + 6);
      }
    }
  }

  /** The scan of a string stops at the quote that ends it, whatever the string. */
  lemma {:induction false} StopAtQuote(d: string, i: nat, s: string)
    requires At(d, i, Escape(s)) && At(d, i + |Escape(s)|, "\"")
    ensures i <= |d| && StringStop(d, i) == i + |Escape(s)|
    decreases |s|
  {
    hide EscapeChar;
    if s == "" {
      AtFirst(d, i, "\"");
    } else {
      var e, rest := EscapeChar(s[0]), Escape(s[1..]);
      AtConcat(d, i, e, rest);
      EscapedHasNoStop(d, i, s[0]);
      StopAtQuote(d, i + |e|, s[1..]);
    }
  }

  lemma {:induction false} AfterQuoted(d: string, i: nat, s: string)
    requires At(d, i, Quoted(s))
    ensures i < |d| && d[i] == '\"'
    ensures StringStop(d, i + 1) == i + 1 + |Escape(s)| && AfterString(d, i + 1) == i + |Quoted(s)| <= |d|
    ensures d[i + 1..StringStop(d, i + 1)] == Escape(s)
  {
    hide Escape;
    AtConcat(d, i, "\"", Escape(s) + "\"");
    AtConcat(d, i + 1, Escape(s), "\"");
    AtFirst(d, i, "\"");
    StopAtQuote(d, i + 1, s);
  }

  /** The brackets a nested skip counts. */
  predicate Brackets(open: char, close: char) {
    (open == '{' && close == '}') || (open == '[' && close == ']')
  }

  lemma {:induction false} PassChar(d: string, i: nat, c: string, open: char, close: char, depth: nat)
    requires Brackets(open, close) && depth >= 1 && At(d, i, c) && (c == "" || c == "," || c == ":")
    ensures i + |c| <= |d| && SkipNested(d, i, open, close, depth) == SkipNested(d, i + |c|, open, close, depth)
  {
    if c != "" {
      AtFirst(d, i, c);
    }
  }

  lemma {:induction false} PassQuoted(d: string, i: nat, s: string, open: char, close: char, depth: nat)
    requires Brackets(open, close) && depth >= 1 && At(d, i, Quoted(s))
    ensures i + |Quoted(s)| <= |d|
    ensures SkipNested(d, i, open, close, depth) == SkipNested(d, i + |Quoted(s)|, open, close, depth)
  {
    hide Quoted, AfterString;
    AfterQuoted(d, i, s);
  }

  lemma {:induction false} PassPlain(d: string, i: nat, s: string, open: char, close: char, depth: nat)
    requires Brackets(open, close) && depth >= 1 && At(d, i, s)
    requires forall k :: 0 <= k < |s| ==> s[k] !in "\"{}[]"
    ensures i + |s| <= |d| && SkipNested(d, i, open, close, depth) == SkipNested(d, i + |s|, open, close, depth)
    decreases |s|
  {
    if s != "" {
      AtFirst(d, i, s);
      AtConcat(d, i, s[..1], s[1..]);
      assert s == s[..1] + s[1..];
      PassPlain(d, i + 1, s[1..], open, close, depth);
    }
  }

  lemma {:induction false} LiteralIsPlain(s: string)
    requires IsLiteral(s)
    ensures forall k :: 0 <= k < |s| ==> s[k] !in "\"{}[]"
  {
  }

  lemma {:induction false} EmittedScalar(text: string)
    ensures var s := TrimBack(TrimFront(text));
            EmitScalar(text) == if IsLiteral(s) then s else Quoted(Unquoted(s))
  {
    hide TrimBack, TrimFront, Quoted, IsLiteral, Unquoted;
  }

  lemma {:induction false} PassScalar(d: string, i: nat, text: string, open: char, close: char, depth: nat)
    requires Brackets(open, close) && depth >= 1 && At(d, i, EmitScalar(text))
    ensures i + |EmitScalar(text)| <= |d|
    ensures SkipNested(d, i, open, close, depth) == SkipNested(d, i + |EmitScalar(text)|, open, close, depth)
  {
    hide TrimBack, TrimFront, Quoted, SkipNested, IsLiteral, Unquoted, EmitScalar, At, Brackets;
    EmittedScalar(text);
    var s := TrimBack(TrimFront(text));
    if IsLiteral(s) {
      LiteralIsPlain(s);
      PassPlain(d, i, s, open, close, depth);
    } else {
      PassQuoted(d, i, Unquoted(s), open, close, depth);
    }
  }

  function Deeper(depth: nat, first: char, open: char): nat {
    if first == open then depth + 1 else depth
  }

  /** A bracket pair around text that is passed over is passed over. */
  lemma {:induction false} PassPair(d: string, i: nat, j: nat, first: char, last: char, open: char, close: char,
                                    depth: nat)
    requires Brackets(open, close) && Brackets(first, last) && depth >= 1
             && i < j < |d| && d[i] == first && d[j] == last
    requires var more := Deeper(depth, first, open);
             SkipNested(d, i + 1, open, close, more) == SkipNested(d, j, open, close, more)
    ensures SkipNested(d, i, open, close, depth) == SkipNested(d, j + 1, open, close, depth)
  {
    var more := Deeper(depth, first, open);
    assert SkipNested(d, i, open, close, depth) == SkipNested(d, i + 1, open, close, more);
    assert SkipNested(d, j, open, close, more) == SkipNested(d, j + 1, open, close, depth);
  }

  lemma {:induction false} InBrackets(d: string, i: nat, first: string, inner: string, last: string)
    requires At(d, i, first + (inner + last)) && |first| == |last| == 1
    ensures At(d, i + 1, inner) && i + 1 + |inner| < |d| && d[i] == first[0] && d[i + 1 + |inner|] == last[0]
  {
    AtConcat(d, i, first, inner + last);
    AtConcat(d, i + 1, inner, last);
    AtFirst(d, i, first);
    AtFirst(d, i + 1 + |inner|, last);
  }

  /** Skipping what is nested passes over an emitted value as if it were not there. */
  lemma {:induction false} PassTree(d: string, i: nat, t: Tree, open: char, close: char, depth: nat)
    requires Brackets(open, close) && depth >= 1 && At(d, i, Emit(t))
    ensures i + |Emit(t)| <= |d|
    ensures SkipNested(d, i, open, close, depth) == SkipNested(d, i + |Emit(t)|, open, close, depth)
    decreases t
  {
    hide SkipNested, EmitScalar, EmitFields, EmitItems;
    match t
    case Scalar(text) => PassScalar(d, i, text, open, close, depth);
    case Object(fields) =>
      var inner := EmitFields(t, |fields|);
      InBrackets(d, i, "{", inner, "}");
      PassFields(d, i + 1, t, |fields|, open, close, Deeper(depth, '{', open));
      PassPair(d, i, i + 1 + |inner|, '{', '}', open, close, depth);
    case Array(items) =>
      var inner := EmitItems(t, |items|);
      InBrackets(d, i, "[", inner, "]");
      PassItems(d, i + 1, t, |items|, open, close, Deeper(depth, '[', open));
      PassPair(d, i, i + 1 + |inner|, '[', ']', open, close, depth);
  }

  lemma NoItems(t: Tree)
    requires t.Array?
    ensures EmitItems(t, 0) == ""
  {
  }

  lemma NoFields(t: Tree)
    requires t.Object?
    ensures EmitFields(t, 0) == ""
  {
  }

  /** Where the parts of the last item are. */
  lemma {:induction false} ItemParts(d: string, i: nat, t: Tree, n: nat)
    requires t.Array? && 0 < n <= |t.items| && At(d, i, EmitItems(t, n))
    ensures var a := i + |EmitItems(t, n - 1)|;
            var b := a + |Comma(n - 1)|;
            && At(d, i, EmitItems(t, n - 1)) && At(d, a, Comma(n - 1)) && At(d, b, Emit(t.items[n - 1]))
            && b + |Emit(t.items[n - 1])| == i + |EmitItems(t, n)|
  {
    hide Emit, Comma, At;
    var front, item := EmitItems(t, n - 1), Emit(t.items[n - 1]);
    AtConcat(d, i, front, Comma(n - 1) + item);
    AtConcat(d, i + |front|, Comma(n - 1), item);
  }

  lemma {:induction false} PassItems(d: string, i: nat, t: Tree, n: nat, open: char, close: char, depth: nat)
    requires Brackets(open, close) && depth >= 1 && t.Array? && n <= |t.items| && At(d, i, EmitItems(t, n))
    ensures i + |EmitItems(t, n)| <= |d|
    ensures SkipNested(d, i, open, close, depth) == SkipNested(d, i + |EmitItems(t, n)|, open, close, depth)
    decreases t, n
  {
    hide SkipNested, Emit, EmitItems, At, Brackets;
    if n == 0 {
      NoItems(t);
      AtBound(d, i, "");
    } else {
      ItemParts(d, i, t, n);
      var a := i + |EmitItems(t, n - 1)|;
      PassItems(d, i, t, n - 1, open, close, depth);
      PassChar(d, a, Comma(n - 1), open, close, depth);
      PassTree(d, a + |Comma(n - 1)|, t.items[n - 1], open, close, depth);
    }
  }

  /** Where the parts of the last field are. */
  lemma {:induction false} FieldParts(d: string, i: nat, t: Tree, n: nat)
    requires t.Object? && 0 < n <= |t.fields| && At(d, i, EmitFields(t, n))
    ensures var a := i + |EmitFields(t, n - 1)|;
            var b := a + |Comma(n - 1)|;
            var c := b + |Quoted(t.fields[n - 1].0)|;
            && At(d, i, EmitFields(t, n - 1)) && At(d, a, Comma(n - 1)) && At(d, b, Quoted(t.fields[n - 1].0))
            && At(d, c, ":") && At(d, c + 1, Emit(t.fields[n - 1].1))
            && c + 1 + |Emit(t.fields[n - 1].1)| == i + |EmitFields(t, n)|
  {
    hide Emit, Quoted, Comma, At;
    var front, key, item := EmitFields(t, n - 1), Quoted(t.fields[n - 1].0), Emit(t.fields[n - 1].1);
    AtConcat(d, i, front, Comma(n - 1) + (key + (":" + item)));
    AtConcat(d, i + |front|, Comma(n - 1), key + (":" + item));
    AtConcat(d, i + |front| + |Comma(n - 1)|, key, ":" + item);
    AtConcat(d, i + |front| + |Comma(n - 1)| + |key|, ":", item);
  }

  lemma {:induction false} PassFields(d: string, i: nat, t: Tree, n: nat, open: char, close: char, depth: nat)
    requires Brackets(open, close) && depth >= 1 && t.Object? && n <= |t.fields| && At(d, i, EmitFields(t, n))
    ensures i + |EmitFields(t, n)| <= |d|
    ensures SkipNested(d, i, open, close, depth) == SkipNested(d, i + |EmitFields(t, n)|, open, close, depth)
    decreases t, n
  {
    hide SkipNested, Emit, EmitFields, Quoted, At, Brackets;
    if n == 0 {
      NoFields(t);
      AtBound(d, i, "");
    } else {
      FieldParts(d, i, t, n);
      var a := i + |EmitFields(t, n - 1)|;
      var b := a + |Comma(n - 1)|;
      var c := b + |Quoted(t.fields[n - 1].0)|;
      PassFields(d, i, t, n - 1, open, close, depth);
      PassChar(d, a, Comma(n - 1), open, close, depth);
      PassQuoted(d, b, t.fields[n - 1].0, open, close, depth);
      PassChar(d, c, ":", open, close, depth);
      PassTree(d, c + 1, t.fields[n - 1].1, open, close, depth);
    }
  }

  /** An emitted value is skipped to its very end. Only a bare literal needs what follows it, and there
      the end of the input or a delimiter is needed and enough. */
  lemma {:induction false} SkipStopsAtEnd(d: string, i: nat, t: Tree)
    requires At(d, i, Emit(t)) && i + |Emit(t)| <= |d|
    ensures i <= |d|
    ensures var end := i + |Emit(t)|;
            ValueEnd(d, i) == end <==>
            (t.Scalar? && IsLiteral(Emit(t)) ==> end == |d| || d[end] in ",}]")
  {
    hide SkipNested, EmitScalar, AfterString, EmitFields, EmitItems, SkipPlain;
    match t
    case Scalar(text) => SkipScalar(d, i, text);
    case Object(fields) =>
      var inner := EmitFields(t, |fields|);
      InBrackets(d, i, "{", inner, "}");
      PassFields(d, i + 1, t, |fields|, '{', '}', 1);
      CloseLast(d, i + 1 + |inner|, '{', '}');
    case Array(items) =>
      var inner := EmitItems(t, |items|);
      InBrackets(d, i, "[", inner, "]");
      PassItems(d, i + 1, t, |items|, '[', ']', 1);
      CloseLast(d, i + 1 + |inner|, '[', ']');
  }

  lemma {:induction false} CloseLast(d: string, j: nat, open: char, close: char)
    requires Brackets(open, close) && j < |d| && d[j] == close
    ensures SkipNested(d, j, open, close, 1) == j + 1
  {
  }

  lemma {:induction false} PlainRun(d: string, i: nat, s: string)
    requires At(d, i, s) && forall k :: 0 <= k < |s| ==> !IsDelimiter(s[k])
    ensures i + |s| <= |d| && SkipPlain(d, i) == SkipPlain(d, i + |s|)
    decreases |s|
  {
    if s != "" {
      AtFirst(d, i, s);
      AtConcat(d, i, s[..1], s[1..]);
      assert s == s[..1] + s[1..];
      PlainRun(d, i + 1, s[1..]);
    }
  }

  lemma {:induction false} SkipLiteral(d: string, i: nat, s: string)
    requires IsLiteral(s) && At(d, i, s) && i + |s| <= |d|
    ensures i <= |d| && (ValueEnd(d, i) == i + |s| <==> i + |s| == |d| || IsDelimiter(d[i + |s|]))
  {
    AtFirst(d, i, s);
    assert !IsSpace(d[i]) && d[i] !in "{[\"";
    PlainRun(d, i, s);
    hide At, IsLiteral, SkipNested, AfterString;
  }

  lemma {:induction false} SkipQuoted(d: string, i: nat, s: string)
    requires At(d, i, Quoted(s)) && i + |Quoted(s)| <= |d|
    ensures i <= |d| && ValueEnd(d, i) == i + |Quoted(s)| && !IsLiteral(Quoted(s))
  {
    AfterQuoted(d, i, s);
    assert Quoted(s)[0] == '\"';
    hide At, SkipNested, AfterString, SkipPlain;
  }

  lemma {:induction false} SkipScalar(d: string, i: nat, text: string)
    requires At(d, i, EmitScalar(text)) && i + |EmitScalar(text)| <= |d|
    ensures i <= |d|
    ensures var end := i + |EmitScalar(text)|;
            ValueEnd(d, i) == end <==> (IsLiteral(EmitScalar(text)) ==> end == |d| || IsDelimiter(d[end]))
  {
    hide TrimBack, TrimFront, ValueEnd, At, Quoted, Unquoted, EmitScalar, IsLiteral;
    EmittedScalar(text);
    var s := TrimBack(TrimFront(text));
    if IsLiteral(s) {
      SkipLiteral(d, i, s);
    } else {
      SkipQuoted(d, i, Unquoted(s));
    }
  }
}
