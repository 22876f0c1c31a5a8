/**
 Case-insensitive comparison of header names, as built for x86-64: names shorter than 16 characters
 and whole 16-character (32 with AVX2) blocks are compared after OR with 0x20, the rest letter by
 letter.
 */
module CaseFold {

  /** c | 0x20 on an octet */
  function OrFold(c: char): char {
    if c < 256 as char && (c as int / 32) % 2 == 0 then (c as int + 32) as char else c
  }

  function Lower(c: char): char {
    if 'A' <= c <= 'Z' then (c as int + 32) as char else c
  }

  /** How many leading characters of a name of length n are compared after OR with 0x20. */
  function BlockPrefix(n: nat, avx2: bool): (p: nat)
    ensures p <= n
  {
    if n < 16 then n
    else if avx2 && n >= 32 then n / 32 * 32
    else n / 16 * 16
  }

  /** Two names are equal for the headers exactly when their keys are. */
  function Key(name: string, avx2: bool): (k: string)
    ensures |k| == |name|
  {
    seq(|name|, i requires 0 <= i < |name| => if i < BlockPrefix(|name|, avx2) then OrFold(name[i]) else Lower(name[i]))
  }

  predicate CiEqual(a: string, b: string, avx2: bool) {
    |a| == |b| && Key(a, avx2) == Key(b, avx2)
  }

  function CharOf(c: char, i: nat, n: nat, avx2: bool): char {
    if i < BlockPrefix(n, avx2) then OrFold(c) else Lower(c)
  }

  lemma {:induction false} KeyAt(name: string, i: nat, avx2: bool)
    requires i < |name|
    ensures Key(name, avx2)[i] == CharOf(name[i], i, |name|, avx2)
  {
  }

  /** Names are equal when they agree at each place. */
  lemma {:induction false} CiEqualAt(a: string, b: string, avx2: bool)
    requires |a| == |b|
    ensures CiEqual(a, b, avx2) <==>
                forall i :: 0 <= i < |a| ==> CharOf(a[i], i, |a|, avx2) == CharOf(b[i], i, |a|, avx2)
  {
    hide CharOf, Key;
    forall i | 0 <= i < |a|
      ensures Key(a, avx2)[i] == CharOf(a[i], i, |a|, avx2) && Key(b, avx2)[i] == CharOf(b[i], i, |a|, avx2)
    {
      KeyAt(a, i, avx2);
      KeyAt(b, i, avx2);
    }
    if forall i :: 0 <= i < |a| ==> CharOf(a[i], i, |a|, avx2) == CharOf(b[i], i, |a|, avx2) {
      forall i | 0 <= i < |a|
        ensures Key(a, avx2)[i] == Key(b, avx2)[i]
      {
        assert CharOf(a[i], i, |a|, avx2) == CharOf(b[i], i, |a|, avx2);
      }
      assert Key(a, avx2) == Key(b, avx2);
    }
  }

  /** Whole blocks of `width` characters from `from` on, after OR with 0x20; `i` is where they end. */
  method CompareBlocks(a: string, b: string, width: nat) returns (same: bool, i: nat)
    requires |a| == |b| && (width == 16 || width == 32)
    ensures i <= |a| && |a| - i < width && i % width == 0
    ensures same <==> forall k :: 0 <= k < i ==> OrFold(a[k]) == OrFold(b[k])
  {
    hide OrFold;
    same, i := true, 0;
    while i + width <= |a|
      invariant i <= |a| && i % width == 0
      invariant same <==> forall k :: 0 <= k < i ==> OrFold(a[k]) == OrFold(b[k])
    {
      var j := 0;
      while j < width
        invariant j <= width
        invariant same <==> forall k :: 0 <= k < i + j ==> OrFold(a[k]) == OrFold(b[k])
      {
        same := same && OrFold(a[i + j]) == OrFold(b[i + j]);
        j := j + 1;
      }
      NextMultiple(i, width);
      i := i + width;
    }
  }

  lemma {:induction false} NextMultiple(i: nat, width: nat)
    requires (width == 16 || width == 32) && i % width == 0
    ensures (i + width) % width == 0
  {
    if width == 16 {
      assert (i + 16) % 16 == 0;
    } else {
      assert (i + 32) % 32 == 0;
    }
  }

  lemma {:induction false} BlocksEnd(n: nat, i: nat, width: nat)
    requires (width == 16 || width == 32) && i <= n && n - i < width && i % width == 0
    ensures i == n / width * width
  {
    if width == 16 {
      assert i == n / 16 * 16;
    } else {
      assert i == n / 32 * 32;
    }
  }

  /** The comparison as it is made: names of fewer than 16 characters in one block, longer ones block
      by block and then letter by letter. */
  method Compare(a: string, b: string, avx2: bool) returns (same: bool)
    ensures same == CiEqual(a, b, avx2)
  {
    hide OrFold, Lower, Key;
    if |a| != |b| {
      return false;
    }
    CiEqualAt(a, b, avx2);
    var i := 0;
    if |a| < 16 {
      same := true;
      while i < |a|
        invariant i <= |a|
        invariant same <==> forall k :: 0 <= k < i ==> OrFold(a[k]) == OrFold(b[k])
      {
        same := same && OrFold(a[i]) == OrFold(b[i]);
        i := i + 1;
      }
      return;
    }
    var width := if avx2 && |a| >= 32 then 32 else 16;
    same, i := CompareBlocks(a, b, width);
    BlocksEnd(|a|, i, width);
    while i < |a|
      invariant BlockPrefix(|a|, avx2) <= i <= |a|
      invariant same <==> forall k :: 0 <= k < i ==> CharOf(a[k], k, |a|, avx2) == CharOf(b[k], k, |a|, avx2)
    {
      same := same && Lower(a[i]) == Lower(b[i]);
      i := i + 1;
    }
  }

  predicate IsTokenChar(c: char) {
    'a' <= c <= 'z' || 'A' <= c <= 'Z' || '0' <= c <= '9' || c in "!#$%&'*+-.^_`|~"
  }

  /** The two token characters that OR with 0x20 cannot tell apart. */
  predicate Confused(c: char, d: char) {
    (c == '^' && d == '~') || (c == '~' && d == '^')
  }

  /** On token characters OR with 0x20 is lower case, except that it maps '^' to '~'. */
  lemma {:induction false} OrFoldOfToken(c: char)
    requires IsTokenChar(c)
    ensures OrFold(c) == if c == '^' then '~' else if c == '_' then 127 as char else Lower(c)
  {
    if c == '^' || c == '_' {
      assert c as int / 32 == 2;
    }
  }

  lemma {:induction false} OrFoldOfTokens(c: char, d: char)
    requires IsTokenChar(c) && IsTokenChar(d)
    ensures OrFold(c) == OrFold(d) <==> Lower(c) == Lower(d) || Confused(c, d)
  {
    OrFoldOfToken(c);
    OrFoldOfToken(d);
    hide OrFold;
  }

  /** For header names (section 5.1 of RFC 9110), comparison is ASCII case folding except that '^' and
      '~' are taken for each other inside blocks. */
  lemma {:induction false} ComparisonIsCaseFolding(a: string, b: string, avx2: bool)
    requires |a| == |b| && forall i :: 0 <= i < |a| ==> IsTokenChar(a[i]) && IsTokenChar(b[i])
    ensures CiEqual(a, b, avx2) <==>
            forall i :: 0 <= i < |a| ==>
              Lower(a[i]) == Lower(b[i]) || (i < BlockPrefix(|a|, avx2) && Confused(a[i], b[i]))
  {
    hide OrFold, Lower, Key, Confused;
    CiEqualAt(a, b, avx2);
    forall i | 0 <= i < |a|
      ensures CharOf(a[i], i, |a|, avx2) == CharOf(b[i], i, |a|, avx2) <==>
              Lower(a[i]) == Lower(b[i]) || (i < BlockPrefix(|a|, avx2) && Confused(a[i], b[i]))
    {
      OrFoldOfTokens(a[i], b[i]);
    }
  }

  /** Two different names that are one header. */
  lemma {:induction false} TildeIsCaret()
    ensures CiEqual("x-^", "x-~", true) && !(forall i :: 0 <= i < 3 ==> Lower("x-^"[i]) == Lower("x-~"[i]))
  {
    assert Lower("x-^"[2]) != Lower("x-~"[2]);
  }
}
