/** JSON strings: escaping octet by octet, the block-wise escaper, and reading back. */
module JsonStrings {
  import opened Options
  import opened Text

  predicate NeedsEscape(c: char) {
    c == '\\' || c == '\"' || c <= 0x1F as char
  }

  function EscapeOne(c: char): string {
    if c == '\\' then "\\\\"
    else if c == '\"' then "\\\""
    else if c == '\n' then "\\n"
    else if c == '\r' then "\\r"
    else if c == '\t' then "\\t"
    else ['\\', 'u', '0', '0', DigitChar(c as int / 16 % 16), DigitChar(c as int % 16)]
  }

  function EscapeChar(c: char): string {
    if NeedsEscape(c) then EscapeOne(c) else [c]
  }

  /** The scalar form of the escaper. */
  function Escape(s: string): string {
    if s == "" then "" else EscapeChar(s[0]) + Escape(s[1..])
  }

  lemma {:induction false} Reassociate(a: string, b: string, c: string, d: string)
    ensures a + b + c + d == a + (b + c + d)
    ensures a + b + c == a + (b + c)
  {
  }

  lemma {:induction false} EscapeConcat(s: string, t: string)
    ensures Escape(s + t) == Escape(s) + Escape(t)
  {
    hide EscapeChar;
    if s == "" {
      assert s + t == t;
    } else {
      assert (s + t)[1..] == s[1..] + t;
      EscapeConcat(s[1..], t);
      Reassociate(EscapeChar(s[0]), Escape(s[1..]), Escape(t), "");
    }
  }

  predicate IsClean(s: string) {
    forall i :: 0 <= i < |s| ==> !NeedsEscape(s[i])
  }

  lemma {:induction false} EscapeClean(s: string)
    requires IsClean(s)
    ensures Escape(s) == s
  {
    if s != "" {
      EscapeClean(s[1..]);
      assert s == [s[0]] + s[1..];
    }
  }

  lemma {:induction false} EscapeSingle(c: char)
    ensures Escape([c]) == EscapeChar(c)
  {
    assert [c][1..] == "";
  }

  lemma {:induction false} EscapeTail(s: string, a: nat, b: nat)
    requires a <= b <= |s| && IsClean(s[a..b])
    ensures Escape(s[..b]) == Escape(s[..a]) + s[a..b]
  {
    hide Escape, IsClean;
    assert s[..b] == s[..a] + s[a..b];
    EscapeConcat(s[..a], s[a..b]);
    EscapeClean(s[a..b]);
  }

  /** A clean run and then one escaped octet. */
  lemma {:induction false} EscapeRun(s: string, a: nat, b: nat)
    requires a <= b < |s| && IsClean(s[a..b]) && NeedsEscape(s[b])
    ensures Escape(s[..b + 1]) == Escape(s[..a]) + s[a..b] + EscapeOne(s[b])
  {
    hide EscapeOne, Escape, IsClean, NeedsEscape;
    EscapeTail(s, a, b);
    assert s[..b + 1] == s[..b] + [s[b]];
    EscapeConcat(s[..b], [s[b]]);
    EscapeSpecial(s[b]);
  }

  lemma {:induction false} EscapeSpecial(c: char)
    requires NeedsEscape(c)
    ensures Escape([c]) == EscapeOne(c)
  {
    hide EscapeOne;
    EscapeSingle(c);
  }

  /** The first octet at or after i, before `end`, that needs escaping. */
  method NextSpecial(s: string, i: nat, end: nat) returns (j: nat)
    requires i <= end <= |s|
    ensures i <= j <= end && IsClean(s[i..j]) && (j < end ==> NeedsEscape(s[j]))
  {
    j := i;
    while j < end && !NeedsEscape(s[j])
      invariant i <= j <= end && forall k :: i <= k < j ==> !NeedsEscape(s[k])
    {
      j := j + 1;
    }
  }

  /** One stretch: clean runs are appended whole, other octets one at a time. */
  method EscapeStretch(s: string, from: nat, to: nat, out: string, ghost start: string) returns (r: string)
    requires from <= to <= |s| && out == start + Escape(s[..from])
    ensures r == start + Escape(s[..to])
  {
    hide Escape, EscapeOne, IsClean, NeedsEscape;
    r := out;
    var last := from;
    while last < to
      invariant from <= last <= to && r == start + Escape(s[..last])
    {
      var idx := NextSpecial(s, last, to);
      if idx == to {
        EscapeTail(s, last, to);
        Reassociate(start, Escape(s[..last]), s[last..to], "");
        r := r + s[last..to];
        last := to;
      } else {
        EscapeRun(s, last, idx);
        Reassociate(start, Escape(s[..last]), s[last..idx], EscapeOne(s[idx]));
        r := r + s[last..idx] + EscapeOne(s[idx]);
        last := idx + 1;
      }
    }
  }

  /** The block-wise escaper: blocks of 16 or 32 octets, then the tail. */
  method EscapeBlocks(s: string, width: nat, out: string) returns (r: string)
    requires width >= 1
    ensures r == out + Escape(s)
  {
    hide Escape, EscapeOne, NeedsEscape;
    r := out;
    var pos := 0;
    assert s[..0] == "" && Escape("") == "" by { EscapeClean(""); }
    assert out + "" == out;
    while |s| - pos >= width
      invariant 0 <= pos <= |s| && r == out + Escape(s[..pos])
    {
      var special := NextSpecial(s, pos, pos + width);
      if special == pos + width {
        EscapeTail(s, pos, pos + width);
        Reassociate(out, Escape(s[..pos]), s[pos..pos + width], "");
        r := r + s[pos..pos + width];
      } else {
        r := EscapeStretch(s, pos, pos + width, r, out);
      }
      pos := pos + width;
    }
    r := EscapeStretch(s, pos, |s|, r, out);
    assert s[..|s|] == s;
  }

  /** Nothing to escape: the string is appended as it is. */
  method EscapeInto(s: string, width: nat, out: string) returns (r: string)
    requires width >= 1
    ensures r == out + Escape(s)
  {
    var special := NextSpecial(s, 0, |s|);
    if special == |s| {
      assert s[0..|s|] == s;
      EscapeClean(s);
      r := out + s;
    } else {
      r := EscapeBlocks(s, width, out);
    }
  }

  /** One possibly escaped character at the start of s, and the octets it takes (section 7 of RFC
      8259); escapes beyond 7F, which stand for several octets, are not decoded here. */
  function UnescapeOne(s: string): (r: Option<(char, nat)>)
    ensures r.Some? ==> 1 <= r.value.1 <= |s|
  {
    if s == "" || s[0] == '\"' || s[0] <= 0x1F as char then None
    else if s[0] != '\\' then Some((s[0], 1))
    else if |s| < 2 then None
    else if s[1] == '\"' || s[1] == '\\' || s[1] == '/' then Some((s[1], 2))
    else if s[1] == 'b' then Some((8 as char, 2))
    else if s[1] == 'f' then Some((12 as char, 2))
    else if s[1] == 'n' then Some(('\n', 2))
    else if s[1] == 'r' then Some(('\r', 2))
    else if s[1] == 't' then Some(('\t', 2))
    else if s[1] == 'u' && |s| >= 6 && s[2] == '0' && s[3] == '0'
            && 0 <= DigitValue(s[4]) < 8 && DigitValue(s[5]) >= 0 then
      Some(((DigitValue(s[4]) * 16 + DigitValue(s[5])) as char, 6))
    else None
  }

  function Unescape(s: string): Option<string> {
    if s == "" then Some("")
    else
      match UnescapeOne(s)
      case None => None
      case Some((c, n)) =>
        match Unescape(s[n..])
        case None => None
        case Some(rest) => Some([c] + rest)
  }

  lemma {:induction false} UnescapeFirst(c: char, rest: string)
    ensures UnescapeOne(EscapeChar(c) + rest) == Some((c, |EscapeChar(c)|))
  {
    if NeedsEscape(c) && EscapeOne(c)[1] == 'u' {
      DigitOfChar(c as int / 16 % 16);
      DigitOfChar(c as int % 16);
    }
  }

  /** Reading back what was escaped gives the original, for every string of octets. */
  lemma {:induction false} UnescapeInvertsEscape(s: string)
    ensures Unescape(Escape(s)) == Some(s)
  {
    hide EscapeChar, UnescapeOne;
    if s != "" {
      var rest := Escape(s[1..]);
      UnescapeFirst(s[0], rest);
      assert (EscapeChar(s[0]) + rest)[|EscapeChar(s[0])|..] == rest;
      UnescapeInvertsEscape(s[1..]);
      assert s == [s[0]] + s[1..];
    }
  }
}
