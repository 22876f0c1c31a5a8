/** The JSON cursor that skips values without building them, and the emitter it is used after. */
module JsonCursor {
  import opened Options
  import opened JsonStrings

  predicate IsSpace(c: char) {
    c == ' ' || c == '\t' || c == '\n' || c == '\r'
  }

  /** The text `s` stands at i. */
  predicate At(d: string, i: nat, s: string) {
    i + |s| <= |d| && d[i..i + |s|] == s
  }

  lemma {:induction false} AtConcat(d: string, i: nat, s: string, t: string)
    ensures At(d, i, s + t) <==> At(d, i, s) && At(d, i + |s|, t)
  {
    if At(d, i, s + t) {
      assert d[i..i + |s|] == d[i..i + |s + t|][..|s|];
      assert d[i + |s|..i + |s| + |t|] == d[i..i + |s + t|][|s|..];
    }
    if At(d, i, s) && At(d, i + |s|, t) {
      assert d[i..i + |s + t|] == d[i..i + |s|] + d[i + |s|..i + |s| + |t|];
    }
  }

  lemma AtBound(d: string, i: nat, s: string)
    requires At(d, i, s)
    ensures i + |s| <= |d|
  {
  }

  lemma {:induction false} AtFirst(d: string, i: nat, s: string)
    requires At(d, i, s) && s != ""
    ensures i < |d| && d[i] == s[0]
  {
    assert d[i..i + |s|][0] == d[i];
  }

  lemma {:induction false} AtIndex(d: string, i: nat, s: string, k: nat)
    requires At(d, i, s) && k < |s|
    ensures i + k < |d| && d[i + k] == s[k]
  {
    assert d[i..i + |s|][k] == d[i + k];
  }

  function SkipSpace(d: string, i: nat): (j: nat)
    requires i <= |d|
    ensures i <= j <= |d|
    decreases |d| - i
  {
    if i < |d| && IsSpace(d[i]) then SkipSpace(d, i + 1) else i
  }

  /** The closing quote of a string whose content begins at i, or the end. */
  function StringStop(d: string, i: nat): (j: nat)
    requires i <= |d|
    ensures i <= j <= |d| && (j < |d| ==> d[j] == '\"')
    decreases |d| - i
  {
    if i == |d| || d[i] == '\"' then i
    else if d[i] == '\\' && i + 1 < |d| then StringStop(d, i + 2)
    else StringStop(d, i + 1)
  }

  function AfterString(d: string, i: nat): (j: nat)
    requires i <= |d|
    ensures i <= j <= |d|
  {
    var stop := StringStop(d, i);
    if stop < |d| then stop + 1 else stop
  }

  /** Past the bracket that closes the innermost of `depth` open ones; brackets in strings do not
      count, and neither do those of the other kind. */
  function SkipNested(d: string, i: nat, open: char, close: char, depth: nat): (j: nat)
    requires i <= |d|
    ensures i <= j <= |d|
    decreases |d| - i
  {
    if i == |d| || depth == 0 then i
    else if d[i] == '\"' then SkipNested(d, AfterString(d, i + 1), open, close, depth)
    else if d[i] == open then SkipNested(d, i + 1, open, close, depth + 1)
    else if d[i] == close then SkipNested(d, i + 1, open, close, depth - 1)
    else SkipNested(d, i + 1, open, close, depth)
  }

  predicate IsDelimiter(c: char) {
    c == ',' || c == '}' || c == ']'
  }

  function SkipPlain(d: string, i: nat): (j: nat)
    requires i <= |d|
    ensures i <= j <= |d|
    decreases |d| - i
  {
    if i == |d| || IsDelimiter(d[i]) then i else SkipPlain(d, i + 1)
  }

  /** The end of the value at i. */
  function ValueEnd(d: string, from: nat): (j: nat)
    requires from <= |d|
    ensures from <= j <= |d|
  {
    var i := SkipSpace(d, from);
    if i == |d| then i
    else if d[i] == '{' then SkipNested(d, i + 1, '{', '}', 1)
    else if d[i] == '[' then SkipNested(d, i + 1, '[', ']', 1)
    else if d[i] == '\"' then AfterString(d, i + 1)
    else SkipPlain(d, i)
  }

  class Cursor {
    const data: string
    var ptr: nat

    predicate Valid()
      reads this
    {
      ptr <= |data|
    }

    constructor (data: string)
      ensures Valid() && ptr == 0 && this.data == data
    {
      this.data, ptr := data, 0;
    }

    method SkipWs()
      requires Valid()
      modifies this
      ensures Valid() && ptr == SkipSpace(data, old(ptr))
    {
      while ptr < |data| && IsSpace(data[ptr])
        invariant Valid() && SkipSpace(data, ptr) == SkipSpace(data, old(ptr))
        decreases |data| - ptr
      {
        ptr := ptr + 1;
      }
    }

    method Consume(c: char) returns (ok: bool)
      requires Valid()
      modifies this
      ensures Valid()
      ensures var i := SkipSpace(data, old(ptr));
              ok == (i < |data| && data[i] == c) && ptr == if ok then i + 1 else i
    {
      SkipWs();
      if ptr >= |data| || data[ptr] != c {
        return false;
      }
      ptr := ptr + 1;
      ok := true;
    }

    method String() returns (r: Option<string>)
      requires Valid()
      modifies this
      ensures Valid()
      ensures var i := SkipSpace(data, old(ptr));
              if i < |data| && data[i] == '\"' then
                && ptr == AfterString(data, i + 1)
                && r == if StringStop(data, i + 1) < |data| then Some(data[i + 1..StringStop(data, i + 1)]) else None
              else r == None && ptr == i
    {
      SkipWs();
      if ptr >= |data| || data[ptr] != '\"' {
        return None;
      }
      ptr := ptr + 1;
      var start := ptr;
      while ptr < |data| && data[ptr] != '\"'
        invariant start <= ptr <= |data| && StringStop(data, ptr) == StringStop(data, start)
        decreases |data| - ptr
      {
        if data[ptr] == '\\' && ptr + 1 < |data| {
          ptr := ptr + 2;
          continue;
        }
        ptr := ptr + 1;
      }
      if ptr >= |data| {
        return None;
      }
      var stop := ptr;
      ptr := ptr + 1;
      r := Some(data[start..stop]);
    }

    /** The rest of a string inside an object or array. */
    method SkipString()
      requires Valid()
      modifies this
      ensures Valid() && ptr == AfterString(data, old(ptr))
    {
      while ptr < |data|
        invariant Valid() && AfterString(data, ptr) == AfterString(data, old(ptr))
        decreases |data| - ptr
      {
        if data[ptr] == '\\' && ptr + 1 < |data| {
          ptr := ptr + 2;
          continue;
        }
        if data[ptr] == '\"' {
          ptr := ptr + 1;
          return;
        }
        ptr := ptr + 1;
      }
    }

    method SkipValue()
      requires Valid()
      modifies this
      ensures Valid() && ptr == ValueEnd(data, old(ptr))
    {
      SkipWs();
      if ptr >= |data| {
        return;
      }
      var ch := data[ptr];
      if ch == '{' || ch == '[' {
        var open, close := ch, if ch == '{' then '}' else ']';
        ptr := ptr + 1;
        var depth: nat := 1;
        ghost var start := ptr;
        while ptr < |data| && depth > 0
          invariant Valid() && SkipNested(data, ptr, open, close, depth) == SkipNested(data, start, open, close, 1)
          decreases |data| - ptr
        {
          ch := data[ptr];
          ptr := ptr + 1;
          if ch == '\"' {
            SkipString();
          } else if ch == open {
            depth := depth + 1;
          } else if ch == close {
            depth := depth - 1;
          }
        }
        return;
      }
      if ch == '\"' {
        var _ := String();
        return;
      }
      ghost var start := ptr;
      while ptr < |data| && !IsDelimiter(data[ptr])
        invariant Valid() && SkipPlain(data, ptr) == SkipPlain(data, start)
        decreases |data| - ptr
      {
        ptr := ptr + 1;
      }
    }
  }
}
