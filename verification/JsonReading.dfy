/**
 Reading JSON back: a plain reader of section 2 of RFC 8259, without white space, and the tree that it
 makes of what the emitter wrote.
 */
module JsonReading {
  import opened Options
  import opened JsonStrings
  import opened JsonCursor
  import opened JsonEmit
  import opened JsonWalk

  datatype Json =
    | Word(word: string)
    | Text(text: string)
    | Members(members: seq<(string, Json)>)
    | Items(items: seq<Json>)

  /** true, false or null at i. */
  function ReadWord(d: string, i: nat): Option<string> {
    if At(d, i, "true") then Some("true")
    else if At(d, i, "false") then Some("false")
    else if At(d, i, "null") then Some("null")
    else None
  }

  /** A string at i, without its escapes, and where it ends. */
  function ReadString(d: string, i: nat): (r: Option<(string, nat)>)
    ensures r.Some? ==> i < r.value.1 <= |d|
  {
    if i >= |d| || d[i] != '\"' then None
    else
      var stop := StringStop(d, i + 1);
      if stop == |d| then None
      else
        var s := Unescape(d[i + 1..stop]);
        if s.None? then None else Some((s.value, stop + 1))
  }

  function ReadValue(d: string, i: nat): (r: Option<(Json, nat)>)
    requires i <= |d|
    ensures r.Some? ==> i < r.value.1 <= |d|
    decreases |d| - i, 1
  {
    if i == |d| then None
    else if d[i] == '{' then
      if i + 1 < |d| && d[i + 1] == '}' then Some((Members([]), i + 2))
      else
        var r := ReadMembers(d, i + 1);
        if r.None? then None else Some((Members(r.value.0), r.value.1))
    else if d[i] == '[' then
      if i + 1 < |d| && d[i + 1] == ']' then Some((Items([]), i + 2))
      else
        var r := ReadItems(d, i + 1);
        if r.None? then None else Some((Items(r.value.0), r.value.1))
    else if d[i] == '\"' then
      var s := ReadString(d, i);
      if s.None? then None else Some((Text(s.value.0), s.value.1))
    else
      var w := ReadWord(d, i);
      if w.None? then None else Some((Word(w.value), i + |w.value|))
  }

  /** One member or more, and the closing brace. */
  function ReadMembers(d: string, i: nat): (r: Option<(seq<(string, Json)>, nat)>)
    requires i <= |d|
    ensures r.Some? ==> i < r.value.1 <= |d|
    decreases |d| - i, 2
  {
    var key := ReadString(d, i);
    if key.None? || key.value.1 == |d| || d[key.value.1] != ':' then None
    else
      var value := ReadValue(d, key.value.1 + 1);
      if value.None? || value.value.1 == |d| then None
      else
        var end, one := value.value.1, [(key.value.0, value.value.0)];
        if d[end] == '}' then Some((one, end + 1))
        else if d[end] != ',' then None
        else
          var more := ReadMembers(d, end + 1);
          if more.None? then None else Some((one + more.value.0, more.value.1))
  }

  /** One item or more, and the closing bracket. */
  function ReadItems(d: string, i: nat): (r: Option<(seq<Json>, nat)>)
    requires i <= |d|
    ensures r.Some? ==> i < r.value.1 <= |d|
    decreases |d| - i, 2
  {
    var value := ReadValue(d, i);
    if value.None? || value.value.1 == |d| then None
    else
      var end, one := value.value.1, [value.value.0];
      if d[end] == ']' then Some((one, end + 1))
      else if d[end] != ',' then None
      else
        var more := ReadItems(d, end + 1);
        if more.None? then None else Some((one + more.value.0, more.value.1))
  }

  // ----- What a tree means -----

  /** A scalar without outer blanks is a word, or the text without its outer quotes. */
  function MeaningOf(text: string): Json {
    var s := TrimBack(TrimFront(text));
    if IsLiteral(s) then Word(s) else Text(Unquoted(s))
  }

  function Meaning(t: Tree): Json
    decreases t
  {
    match t
    case Scalar(text) => MeaningOf(text)
    case Object(fields) => Members(MembersFrom(t, 0))
    case Array(items) => Items(ItemsFrom(t, 0))
  }

  function MembersFrom(t: Tree, k: nat): seq<(string, Json)>
    requires t.Object? && k <= |t.fields|
    decreases t, |t.fields| - k
  {
    if k == |t.fields| then [] else [(t.fields[k].0, Meaning(t.fields[k].1))] + MembersFrom(t, k + 1)
  }

  function ItemsFrom(t: Tree, k: nat): seq<Json>
    requires t.Array? && k <= |t.items|
    decreases t, |t.items| - k
  {
    if k == |t.items| then [] else [Meaning(t.items[k])] + ItemsFrom(t, k + 1)
  }

  lemma {:induction false} TrimmedFront(blanks: string, s: string)
    requires (forall i :: 0 <= i < |blanks| ==> IsSpace(blanks[i])) && (s != "" ==> !IsSpace(s[0]))
    ensures TrimFront(blanks + s) == s
  {
    if blanks == "" {
      assert blanks + s == s;
    } else {
      assert (blanks + s)[1..] == blanks[1..] + s;
      TrimmedFront(blanks[1..], s);
    }
  }

  lemma {:induction false} TrimmedBack(s: string, blanks: string)
    requires (forall i :: 0 <= i < |blanks| ==> IsSpace(blanks[i])) && (s != "" ==> !IsSpace(s[|s| - 1]))
    ensures TrimBack(s + blanks) == s
  {
    if blanks == "" {
      assert s + blanks == s;
    } else {
      assert (s + blanks)[..|s + blanks| - 1] == s + blanks[..|blanks| - 1];
      TrimmedBack(s, blanks[..|blanks| - 1]);
    }
  }

  lemma Trimmed(before: string, s: string, after: string)
    requires forall i :: 0 <= i < |before| ==> IsSpace(before[i])
    requires forall i :: 0 <= i < |after| ==> IsSpace(after[i])
    requires s != "" && !IsSpace(s[0]) && !IsSpace(s[|s| - 1])
    ensures TrimBack(TrimFront(before + (s + after))) == s
  {
    assert (s + after)[0] == s[0];
    TrimmedFront(before, s + after);
    TrimmedBack(s, after);
  }

  lemma QuotesAreLeftOut(s: string, inner: string)
    requires s == "\"" + inner + "\"" || s == "'" + inner + "'"
    ensures !IsLiteral(s) && Unquoted(s) == inner
  {
    assert s[1..|s| - 1] == inner;
  }

  /** What a scalar means, said of the text itself: blanks around it do not count, true, false and null
      are words, one pair of quotes around it is left out, and all else is text as it stands. */
  lemma ScalarMeans(before: string, s: string, after: string, inner: string)
    requires forall i :: 0 <= i < |before| ==> before[i] in " \t\n\r"
    requires forall i :: 0 <= i < |after| ==> after[i] in " \t\n\r"
    requires s != "" && s[0] !in " \t\n\r" && s[|s| - 1] !in " \t\n\r"
    ensures var t := Scalar(before + (s + after));
            && (s in {"true", "false", "null"} ==> Meaning(t) == Word(s))
            && (s == "\"" + inner + "\"" || s == "'" + inner + "'" ==> Meaning(t) == Text(inner))
            && (s !in {"true", "false", "null"} && !(|s| >= 2 && s[0] == s[|s| - 1] && s[0] in "\"'")
                ==> Meaning(t) == Text(s))
  {
    Trimmed(before, s, after);
    hide TrimFront, TrimBack;
    if s == "\"" + inner + "\"" || s == "'" + inner + "'" {
      QuotesAreLeftOut(s, inner);
    }
  }

  // ----- Reading back -----

  lemma StringReadsBack(d: string, i: nat, s: string)
    requires At(d, i, Quoted(s))
    ensures ReadString(d, i) == Some((s, i + |Quoted(s)|))
  {
    hide Unescape, Escape, Quoted, AfterString, At;
    AfterQuoted(d, i, s);
    QuotedSize(s);
    UnescapeInvertsEscape(s);
  }

  lemma WordReadsBack(d: string, i: nat, s: string)
    requires IsLiteral(s) && At(d, i, s)
    ensures i < |d| && d[i] !in "{[\"" && ReadWord(d, i) == Some(s)
  {
    AtFirst(d, i, s);
    if At(d, i, "true") {
      AtFirst(d, i, "true");
    }
    if At(d, i, "false") {
      AtFirst(d, i, "false");
    }
    hide At;
  }

  lemma ScalarReadsBack(d: string, i: nat, text: string)
    requires At(d, i, EmitScalar(text))
    ensures i <= |d| && ReadValue(d, i) == Some((MeaningOf(text), i + |EmitScalar(text)|))
  {
    hide TrimBack, TrimFront, Quoted, IsLiteral, Unquoted, ReadString, ReadWord, EmitScalar, At;
    EmittedScalar(text);
    var s := TrimBack(TrimFront(text));
    if IsLiteral(s) {
      WordReadsBack(d, i, s);
    } else {
      StringReadsBack(d, i, Unquoted(s));
      QuoteAt(d, i, Unquoted(s));
    }
  }

  lemma QuoteAt(d: string, i: nat, s: string)
    requires At(d, i, Quoted(s))
    ensures i < |d| && d[i] == '\"'
  {
    AfterQuoted(d, i, s);
  }

  /** Where each item of an emitted array is, and what follows it. */
  lemma {:induction false} ItemAt(d: string, i: nat, t: Tree, n: nat, k: nat)
    requires t.Array? && k < n <= |t.items| && At(d, i, EmitItems(t, n))
    ensures At(d, i + |EmitItems(t, k)|, Comma(k) + Emit(t.items[k]))
    ensures |EmitItems(t, k + 1)| == |EmitItems(t, k)| + |Comma(k)| + |Emit(t.items[k])|
    decreases n
  {
    hide Emit, Comma;
    AtConcat(d, i, EmitItems(t, n - 1), Comma(n - 1) + Emit(t.items[n - 1]));
    if k < n - 1 {
      ItemAt(d, i, t, n - 1, k);
    }
  }

  lemma {:induction false} ItemSpot(d: string, i: nat, t: Tree, k: nat)
    requires t.Array? && k < |t.items| && At(d, i, EmitItems(t, |t.items|))
    requires var close := i + |EmitItems(t, |t.items|)|; close < |d| && d[close] == ']'
    ensures var p := i + |EmitItems(t, k)| + |Comma(k)|;
            var end := p + |Emit(t.items[k])|;
            && At(d, p, Emit(t.items[k])) && end == i + |EmitItems(t, k + 1)| < |d|
            && d[end] == if k + 1 < |t.items| then ',' else ']'
  {
    hide Emit, EmitItems;
    ItemAt(d, i, t, |t.items|, k);
    AtConcat(d, i + |EmitItems(t, k)|, Comma(k), Emit(t.items[k]));
    if k + 1 < |t.items| {
      ItemAt(d, i, t, |t.items|, k + 1);
      AtFirst(d, i + |EmitItems(t, k + 1)|, Comma(k + 1) + Emit(t.items[k + 1]));
    }
  }

  lemma MembersStep(d: string, p: nat, key: string, colon: nat, value: Json, end: nat)
    requires p <= |d| && ReadString(d, p) == Some((key, colon)) && colon < |d| && d[colon] == ':'
    requires colon + 1 <= |d| && ReadValue(d, colon + 1) == Some((value, end)) && end < |d|
    ensures d[end] == '}' ==> ReadMembers(d, p) == Some(([(key, value)], end + 1))
    ensures d[end] == ',' && ReadMembers(d, end + 1).Some? ==>
              var more := ReadMembers(d, end + 1).value;
              ReadMembers(d, p) == Some(([(key, value)] + more.0, more.1))
  {
    hide ReadString, ReadValue;
  }

  lemma ItemsStep(d: string, p: nat, value: Json, end: nat)
    requires p <= |d| && ReadValue(d, p) == Some((value, end)) && end < |d|
    ensures d[end] == ']' ==> ReadItems(d, p) == Some(([value], end + 1))
    ensures d[end] == ',' && ReadItems(d, end + 1).Some? ==>
              var more := ReadItems(d, end + 1).value;
              ReadItems(d, p) == Some(([value] + more.0, more.1))
  {
    hide ReadValue;
  }

  lemma MembersCons(t: Tree, k: nat)
    requires t.Object? && k < |t.fields|
    ensures MembersFrom(t, k) == [(t.fields[k].0, Meaning(t.fields[k].1))] + MembersFrom(t, k + 1)
    ensures k + 1 == |t.fields| ==> MembersFrom(t, k) == [(t.fields[k].0, Meaning(t.fields[k].1))]
  {
    hide Meaning;
  }

  lemma ItemsCons(t: Tree, k: nat)
    requires t.Array? && k < |t.items|
    ensures ItemsFrom(t, k) == [Meaning(t.items[k])] + ItemsFrom(t, k + 1)
    ensures k + 1 == |t.items| ==> ItemsFrom(t, k) == [Meaning(t.items[k])]
  {
    hide Meaning;
  }

  lemma {:induction false} MembersReadBack(d: string, i: nat, t: Tree, k: nat)
    requires t.Object? && k < |t.fields| && At(d, i, EmitFields(t, |t.fields|))
    requires var close := i + |EmitFields(t, |t.fields|)|; close < |d| && d[close] == '}'
    ensures var p := i + |EmitFields(t, k)| + |Comma(k)|;
            p <= |d| && ReadMembers(d, p) == Some((MembersFrom(t, k), i + |EmitFields(t, |t.fields|)| + 1))
    decreases t, |t.fields| - k
  {
    hide Emit, EmitFields, Quoted, ReadString, ReadValue, ReadMembers, Meaning, MembersFrom, At;
    var key, value := t.fields[k].0, t.fields[k].1;
    var p := i + |EmitFields(t, k)| + |Comma(k)|;
    var colon := p + |Quoted(key)|;
    FieldSpot(d, i, t, k);
    AtConcat(d, p, Quoted(key), ":" + Emit(value));
    AtConcat(d, colon, ":", Emit(value));
    AtFirst(d, colon, ":");
    StringReadsBack(d, p, key);
    ReadsBack(d, colon + 1, value);
    MembersStep(d, p, key, colon, Meaning(value), colon + 1 + |Emit(value)|);
    MembersCons(t, k);
    if k + 1 < |t.fields| {
      MembersReadBack(d, i, t, k + 1);
    }
  }

  lemma {:induction false} ItemsReadBack(d: string, i: nat, t: Tree, k: nat)
    requires t.Array? && k < |t.items| && At(d, i, EmitItems(t, |t.items|))
    requires var close := i + |EmitItems(t, |t.items|)|; close < |d| && d[close] == ']'
    ensures var p := i + |EmitItems(t, k)| + |Comma(k)|;
            p <= |d| && ReadItems(d, p) == Some((ItemsFrom(t, k), i + |EmitItems(t, |t.items|)| + 1))
    decreases t, |t.items| - k
  {
    hide Emit, EmitItems, ReadValue, ReadItems, Meaning, ItemsFrom, At;
    var p := i + |EmitItems(t, k)| + |Comma(k)|;
    ItemSpot(d, i, t, k);
    ReadsBack(d, p, t.items[k]);
    ItemsStep(d, p, Meaning(t.items[k]), p + |Emit(t.items[k])|);
    ItemsCons(t, k);
    if k + 1 < |t.items| {
      ItemsReadBack(d, i, t, k + 1);
    }
  }

  lemma EmptyReadsBack(d: string, i: nat)
    requires i + 1 < |d|
    ensures d[i] == '{' && d[i + 1] == '}' ==> ReadValue(d, i) == Some((Members([]), i + 2))
    ensures d[i] == '[' && d[i + 1] == ']' ==> ReadValue(d, i) == Some((Items([]), i + 2))
  {
  }

  lemma OpensMembers(d: string, i: nat)
    requires i + 1 < |d| && d[i] == '{' && ReadMembers(d, i + 1).Some?
    ensures ReadValue(d, i) == Some((Members(ReadMembers(d, i + 1).value.0), ReadMembers(d, i + 1).value.1))
  {
  }

  lemma OpensItems(d: string, i: nat)
    requires i + 1 < |d| && d[i] == '[' && ReadItems(d, i + 1).Some?
    ensures ReadValue(d, i) == Some((Items(ReadItems(d, i + 1).value.0), ReadItems(d, i + 1).value.1))
  {
  }

  /** An emitted tree reads back as what it means, wherever it stands and whatever follows it. */
  lemma {:induction false} ReadsBack(d: string, i: nat, t: Tree)
    requires At(d, i, Emit(t))
    ensures i <= |d| && ReadValue(d, i) == Some((Meaning(t), i + |Emit(t)|))
    decreases t
  {
    hide EmitScalar, EmitFields, EmitItems, ReadValue, ReadMembers, ReadItems, MembersFrom, ItemsFrom, MeaningOf;
    match t
    case Scalar(text) => ScalarReadsBack(d, i, text);
    case Object(fields) =>
      InBrackets(d, i, "{", EmitFields(t, |fields|), "}");
      FirstField(t);
      if fields == [] {
        EmptyReadsBack(d, i);
        NothingMeant(t);
      } else {
        MembersReadBack(d, i + 1, t, 0);
        OpensMembers(d, i);
      }
    case Array(items) =>
      InBrackets(d, i, "[", EmitItems(t, |items|), "]");
      NoItems(t);
      if items == [] {
        EmptyReadsBack(d, i);
        NothingMeant(t);
      } else {
        ItemsReadBack(d, i + 1, t, 0);
        OpensItems(d, i);
      }
  }

  lemma NothingMeant(t: Tree)
    ensures t.Object? && t.fields == [] ==> MembersFrom(t, 0) == []
    ensures t.Array? && t.items == [] ==> ItemsFrom(t, 0) == []
  {
  }
}
