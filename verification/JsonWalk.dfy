/** The walk over the fields of an object: key, colon, value, comma. */
module JsonWalk {
  import opened Options
  import opened JsonStrings
  import opened JsonCursor
  import opened JsonEmit

  function AfterComma(d: string, v: nat): (i: nat)
    requires v <= |d|
    ensures v <= i <= |d|
  {
    var i := SkipSpace(d, v);
    if i < |d| && d[i] == ',' then i + 1 else i
  }

  /** The raw keys whose values are skipped, from `from` to the closing brace or to where the text is
      not an object; characters that cannot begin a key are passed over. */
  function Walk(d: string, from: nat): (r: (seq<string>, nat))
    requires from <= |d|
    ensures r.1 <= |d|
    decreases |d| - from
  {
    var i := SkipSpace(d, from);
    if i == |d| then ([], i)
    else if d[i] == '}' then ([], i + 1)
    else if d[i] != '\"' then Walk(d, i + 1)
    else
      var stop := StringStop(d, i + 1);
      if stop == |d| then ([], stop)
      else
        var colon := SkipSpace(d, stop + 1);
        if colon == |d| || d[colon] != ':' then ([], colon)
        else
          var r := Walk(d, AfterComma(d, ValueEnd(d, colon + 1)));
          ([d[i + 1..stop]] + r.0, r.1)
  }

  /** One turn of the walk: whether it goes on, and the key of the value it skipped, if any. */
  method WalkTurn(cur: Cursor) returns (more: bool, key: Option<string>)
    requires cur.Valid()
    modifies cur
    ensures cur.Valid()
    ensures !more ==> Walk(cur.data, old(cur.ptr)) == ([], cur.ptr)
    ensures more ==> cur.ptr > old(cur.ptr)
    ensures more && key.None? ==> Walk(cur.data, old(cur.ptr)) == Walk(cur.data, cur.ptr)
    ensures more && key.Some? ==>
              var rest := Walk(cur.data, cur.ptr);
              Walk(cur.data, old(cur.ptr)) == ([key.value] + rest.0, rest.1)
  {
    hide ValueEnd, StringStop, SkipSpace;
    SkipSpaceTwice(cur.data, cur.ptr);
    cur.SkipWs();
    if cur.ptr == |cur.data| {
      return false, None;
    }
    var done := cur.Consume('}');
    if done {
      return false, None;
    }
    key := cur.String();
    if key.None? {
      if cur.ptr == |cur.data| {
        return false, None;
      }
      cur.ptr := cur.ptr + 1;
      return true, None;
    }
    var colon := cur.Consume(':');
    if !colon {
      return false, None;
    }
    cur.SkipValue();
    var _ := cur.Consume(',');
    more := true;
  }

  method WalkObject(cur: Cursor) returns (keys: seq<string>)
    requires cur.Valid()
    modifies cur
    ensures cur.Valid() && (keys, cur.ptr) == Walk(cur.data, old(cur.ptr))
  {
    hide Walk;
    keys := [];
    ghost var goal := Walk(cur.data, cur.ptr);
    assert [] + goal.0 == goal.0;
    var more := true;
    while more
      invariant cur.Valid()
      invariant if more then var r := Walk(cur.data, cur.ptr); (keys + r.0, r.1) == goal else (keys, cur.ptr) == goal
      decreases more, |cur.data| - cur.ptr
    {
      var key;
      more, key := WalkTurn(cur);
      assert keys + [] == keys;
      if more && key.Some? {
        ghost var rest := Walk(cur.data, cur.ptr).0;
        assert keys + ([key.value] + rest) == keys + [key.value] + rest;
        keys := keys + [key.value];
      }
    }
  }

  lemma {:induction false} SkipSpaceTwice(d: string, i: nat)
    requires i <= |d|
    ensures SkipSpace(d, SkipSpace(d, i)) == SkipSpace(d, i)
    decreases |d| - i
  {
    if i < |d| && IsSpace(d[i]) {
      SkipSpaceTwice(d, i + 1);
    }
  }

  function FieldText(t: Tree, k: nat): string
    requires t.Object? && k < |t.fields|
  {
    Comma(k) + (Quoted(t.fields[k].0) + (":" + Emit(t.fields[k].1)))
  }

  /** Where each field of an emitted object is. */
  lemma {:induction false} FieldAt(d: string, i: nat, t: Tree, n: nat, k: nat)
    requires t.Object? && k < n <= |t.fields| && At(d, i, EmitFields(t, n))
    ensures At(d, i + |EmitFields(t, k)|, FieldText(t, k))
    ensures |EmitFields(t, k + 1)| == |EmitFields(t, k)| + |FieldText(t, k)|
    decreases n
  {
    hide Emit, Quoted, Comma;
    AtConcat(d, i, EmitFields(t, n - 1), FieldText(t, n - 1));
    if k < n - 1 {
      FieldAt(d, i, t, n - 1, k);
    }
  }

  lemma {:induction false} NoSpace(d: string, i: nat)
    requires i < |d| && !IsSpace(d[i])
    ensures SkipSpace(d, i) == i
  {
  }

  lemma {:induction false} WalkOne(d: string, p: nat, stop: nat, colon: nat, next: nat)
    requires p < |d| && SkipSpace(d, p) == p && d[p] == '\"' && stop == StringStop(d, p + 1) < |d|
    requires colon == SkipSpace(d, stop + 1) < |d| && d[colon] == ':'
    requires next == AfterComma(d, ValueEnd(d, colon + 1))
    ensures Walk(d, p) == ([d[p + 1..stop]] + Walk(d, next).0, Walk(d, next).1)
  {
    hide SkipSpace, StringStop, ValueEnd, AfterComma;
  }

  /** One field: its key is read, its value skipped, and the walk stands after the comma or at the brace. */
  lemma {:induction false} FieldStep(d: string, p: nat, key: string, value: Tree)
    requires At(d, p, Quoted(key) + (":" + Emit(value)))
    requires var end := p + |Quoted(key)| + 1 + |Emit(value)|; end < |d| && (d[end] == ',' || d[end] == '}')
    ensures var end := p + |Quoted(key)| + 1 + |Emit(value)|;
            var next := if d[end] == ',' then end + 1 else end;
            && p <= |d| && next <= |d|
            && Walk(d, p) == ([Escape(key)] + Walk(d, next).0, Walk(d, next).1)
  {
    hide Emit, Quoted, ValueEnd, StringStop, SkipSpace, Walk, Escape, At, AfterString, IsLiteral;
    var c := p + |Quoted(key)|;
    AtConcat(d, p, Quoted(key), ":" + Emit(value));
    AtConcat(d, c, ":", Emit(value));
    AfterQuoted(d, p, key);
    QuotedSize(key);
    AtFirst(d, c, ":");
    NoSpace(d, p);
    NoSpace(d, c);
    SkipStopsAtEnd(d, c + 1, value);
    var end := c + 1 + |Emit(value)|;
    NoSpace(d, end);
    WalkOne(d, p, c - 1, c, if d[end] == ',' then end + 1 else end);
  }

  lemma {:induction false} QuotedSize(key: string)
    ensures |Quoted(key)| == |Escape(key)| + 2
  {
    hide Escape;
  }

  function KeysFrom(t: Tree, k: nat): seq<string>
    requires t.Object? && k <= |t.fields|
    decreases |t.fields| - k
  {
    if k == |t.fields| then [] else [Escape(t.fields[k].0)] + KeysFrom(t, k + 1)
  }

  lemma {:induction false} WalkEnd(d: string, a: nat)
    requires a < |d| && d[a] == '}'
    ensures Walk(d, a) == ([], a + 1)
  {
    NoSpace(d, a);
  }

  lemma LastKey(t: Tree)
    requires t.Object?
    ensures KeysFrom(t, |t.fields|) == []
  {
  }

  lemma {:induction false} NextKey(t: Tree, k: nat)
    requires t.Object? && k < |t.fields|
    ensures KeysFrom(t, k) == [Escape(t.fields[k].0)] + KeysFrom(t, k + 1)
  {
  }

  /** Where field k begins after its comma, and what follows it. */
  lemma {:induction false} FieldSpot(d: string, i: nat, t: Tree, k: nat)
    requires t.Object? && k < |t.fields| && At(d, i, EmitFields(t, |t.fields|))
    requires var close := i + |EmitFields(t, |t.fields|)|; close < |d| && d[close] == '}'
    ensures var p := i + |EmitFields(t, k)| + |Comma(k)|;
            var end := p + |Quoted(t.fields[k].0)| + 1 + |Emit(t.fields[k].1)|;
            && At(d, p, Quoted(t.fields[k].0) + (":" + Emit(t.fields[k].1)))
            && end == i + |EmitFields(t, k + 1)| < |d|
            && d[end] == if k + 1 < |t.fields| then ',' else '}'
  {
    hide Emit, Quoted, EmitFields;
    var a := i + |EmitFields(t, k)|;
    FieldAt(d, i, t, |t.fields|, k);
    AtConcat(d, a, Comma(k), Quoted(t.fields[k].0) + (":" + Emit(t.fields[k].1)));
    if k + 1 < |t.fields| {
      FieldAt(d, i, t, |t.fields|, k + 1);
      AtFirst(d, i + |EmitFields(t, k + 1)|, FieldText(t, k + 1));
    }
  }

  lemma {:induction false} WalkFrom(d: string, i: nat, t: Tree, k: nat)
    requires t.Object? && k <= |t.fields| && At(d, i, EmitFields(t, |t.fields|))
    requires var close := i + |EmitFields(t, |t.fields|)|; close < |d| && d[close] == '}'
    ensures var p := i + |EmitFields(t, k)| + if 0 < k < |t.fields| then 1 else 0;
            var close := i + |EmitFields(t, |t.fields|)|;
            p <= |d| && Walk(d, p) == (KeysFrom(t, k), close + 1)
    decreases |t.fields| - k
  {
    hide Emit, Quoted, EmitFields, Walk, KeysFrom, At;
    if k == |t.fields| {
      WalkEnd(d, i + |EmitFields(t, k)|);
      LastKey(t);
    } else {
      FieldSpot(d, i, t, k);
      FieldStep(d, i + |EmitFields(t, k)| + |Comma(k)|, t.fields[k].0, t.fields[k].1);
      WalkFrom(d, i, t, k + 1);
      NextKey(t, k);
    }
  }

  lemma FirstField(t: Tree)
    requires t.Object?
    ensures |EmitFields(t, 0)| == 0
  {
  }

  /** Walking an emitted object visits its keys, as they were escaped, in order and every one of them,
      and ends after its closing brace. */
  lemma {:induction false} WalkVisitsKeys(d: string, i: nat, t: Tree)
    requires t.Object? && At(d, i, Emit(t))
    ensures i + 1 <= |d| && Walk(d, i + 1) == (KeysFrom(t, 0), i + |Emit(t)|)
  {
    hide EmitFields;
    InBrackets(d, i, "{", EmitFields(t, |t.fields|), "}");
    FirstField(t);
    WalkFrom(d, i + 1, t, 0);
  }
}
