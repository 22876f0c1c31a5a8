/** Arrays of 32-bit integers as JSON text: formatted through a staging buffer, read back one by one. */
module IntArrays {
  import opened Options
  import opened Text
  import opened JsonCursor

  const WORD32: nat := 0x1_0000_0000
  const BUFFER_SIZE: nat := 512
  const MARGIN: nat := 16

  lemma {:induction false} DecimalStep(n: nat)
    requires n >= 10
    ensures ToChars(n, 10) == ToChars(n / 10, 10) + [DigitChar(n % 10)]
  {
  }

  lemma {:induction false} DecimalDigit(n: nat)
    requires n < 10
    ensures ToChars(n, 10) == [DigitChar(n)]
  {
  }

  /** Two characters of the digit table. */
  function TwoDigits(n: nat): string
    requires n < 100
  {
    [DigitChar(n / 10), DigitChar(n % 10)]
  }

  lemma {:induction false} DecimalHundreds(n: nat)
    requires n >= 100
    ensures ToChars(n, 10) == ToChars(n / 100, 10) + TwoDigits(n % 100)
  {
    hide ToChars;
    DecimalStep(n);
    DecimalStep(n / 10);
    assert n / 10 / 10 == n / 100 && n / 10 % 10 == n % 100 / 10 && n % 10 == n % 100 % 10;
  }

  lemma {:induction false} DecimalTens(n: nat)
    requires 10 <= n < 100
    ensures ToChars(n, 10) == TwoDigits(n)
  {
    hide ToChars;
    DecimalStep(n);
    DecimalDigit(n / 10);
  }

  lemma {:induction false} DecimalSize(n: nat, digits: nat, bound: nat)
    requires digits >= 1 && (digits == 1 ==> bound <= 10) && n < bound
    requires digits > 1 ==> bound <= 10 * Power(digits - 1)
    ensures |ToChars(n, 10)| <= digits
    decreases digits
  {
    hide ToChars;
    if n < 10 {
      DecimalDigit(n);
    } else {
      DecimalStep(n);
      DecimalSize(n / 10, digits - 1, Power(digits - 1));
    }
  }

  function Power(digits: nat): nat {
    if digits == 0 then 1 else 10 * Power(digits - 1)
  }

  lemma {:induction false} WordSize(n: nat)
    requires n < WORD32
    ensures |ToChars(n, 10)| <= 10
  {
    hide ToChars;
    assert Power(9) == 1000000000 by {
      assert Power(3) == 1000;
      assert Power(6) == 1000000;
    }
    DecimalSize(n, 10, WORD32);
  }

  /** Copies s into the buffer. */
  method Store(buf: array<char>, at: nat, s: string) returns (end: nat)
    requires at + |s| <= buf.Length
    modifies buf
    ensures end == at + |s| && buf[..end] == old(buf[..at]) + s
  {
    for i := 0 to |s|
      invariant buf[..at + i] == old(buf[..at]) + s[..i]
    {
      buf[at + i] := s[i];
    }
    assert s[..|s|] == s;
    end := at + |s|;
  }

  /** Up to four digits come from the digit table, longer numbers from to_chars. */
  method FormatUintFast(buf: array<char>, at: nat, val: nat) returns (end: nat)
    requires val < WORD32 && at + 10 <= buf.Length
    modifies buf
    ensures end == at + |ToChars(val, 10)| <= at + 10 && buf[..end] == old(buf[..at]) + ToChars(val, 10)
  {
    hide ToChars;
    WordSize(val);
    if val < 10 {
      DecimalDigit(val);
      end := Store(buf, at, [DigitChar(val)]);
    } else if val < 100 {
      DecimalTens(val);
      end := Store(buf, at, TwoDigits(val));
    } else if val < 1000 {
      DecimalHundreds(val);
      DecimalDigit(val / 100);
      end := Store(buf, at, [DigitChar(val / 100)] + TwoDigits(val % 100));
    } else if val < 10000 {
      DecimalHundreds(val);
      DecimalTens(val / 100);
      end := Store(buf, at, TwoDigits(val / 100) + TwoDigits(val % 100));
    } else {
      end := Store(buf, at, ToChars(val, 10));
    }
  }

  predicate IsWord(v: int) {
    -0x8000_0000 <= v < WORD32
  }

  function Separator(i: nat): string {
    if i == 0 then "" else ","
  }

  /** The first n elements, joined by commas. */
  function Joined(arr: seq<int>, n: nat): string
    requires n <= |arr|
  {
    if n == 0 then "" else Joined(arr, n - 1) + (Separator(n - 1) + Decimal(arr[n - 1]))
  }

  function ArrayText(arr: seq<int>): string {
    "[" + (Joined(arr, |arr|) + "]")
  }

  /** Negation in the unsigned domain, which also serves the least value. */
  function Magnitude(v: int): nat
    requires IsWord(v)
  {
    if v < 0 then (WORD32 - (v + WORD32) % WORD32) % WORD32 else v
  }

  lemma {:induction false} MagnitudeIsNegation(v: int)
    requires IsWord(v)
    ensures Magnitude(v) == if v < 0 then -v else v
  {
  }

  lemma {:induction false} Pieces(a: string, b: string, c: string, d: string)
    ensures a + b + c + d == a + (b + (c + d))
  {
  }

  /** One element in the staging buffer, which has at least the margin left. */
  method FormatElement(buf: array<char>, at: nat, i: nat, v: int) returns (end: nat)
    requires IsWord(v) && at + MARGIN < buf.Length
    modifies buf
    ensures at <= end <= at + 12 && buf[..end] == old(buf[..at]) + (Separator(i) + Decimal(v))
  {
    hide ToChars, Magnitude;
    ghost var start := buf[..at];
    end := Store(buf, at, Separator(i));
    MagnitudeIsNegation(v);
    if v < 0 {
      end := Store(buf, end, "-");
    }
    ghost var sign := if v < 0 then "-" else "";
    assert buf[..end] == start + Separator(i) + sign;
    end := FormatUintFast(buf, end, Magnitude(v));
    Pieces(start, Separator(i), sign, ToChars(Magnitude(v), 10));
    assert Decimal(v) == sign + ToChars(Magnitude(v), 10);
  }

  /** The array as text. The staging buffer is never overrun: every write is within its 512 octets. */
  method SerializeInto(arr: array<int>, out: string) returns (r: string)
    requires forall i :: 0 <= i < arr.Length ==> IsWord(arr[i])
    ensures r == out + ArrayText(arr[..])
  {
    hide Decimal;
    if arr.Length == 0 {
      return out + "[]";
    }
    var buf := new char[BUFFER_SIZE];
    var ptr, end := 0, BUFFER_SIZE - MARGIN;
    r := out + "[";
    ghost var text := arr[..];
    for i := 0 to arr.Length
      invariant arr[..] == text && fresh(buf) && buf.Length == BUFFER_SIZE && ptr <= BUFFER_SIZE
      invariant r + buf[..ptr] == out + "[" + Joined(text, i)
    {
      if ptr >= end {
        r := r + buf[..ptr];
        ptr := 0;
      }
      ghost var before := buf[..ptr];
      assert r + before == out + "[" + Joined(text, i);
      ptr := FormatElement(buf, ptr, i, arr[i]);
      Grow(r, before, out + "[", Joined(text, i), Separator(i) + Decimal(arr[i]));
    }
    r := r + buf[..ptr];
    r := r + "]";
  }

  lemma {:induction false} Grow(r: string, before: string, out: string, done: string, more: string)
    requires r + before == out + done
    ensures r + (before + more) == out + (done + more)
  {
    assert r + (before + more) == (r + before) + more;
  }

  /** Digits from i on, accumulated in 64 bits: where they end, and the value they leave. */
  function Accumulate(d: string, i: nat, acc: nat): (r: (nat, nat))
    requires i <= |d| && acc < WORD64
    ensures i <= r.0 <= |d| && r.1 < WORD64
    decreases |d| - i
  {
    if i < |d| && IsDigit(d[i], 10) then Accumulate(d, i + 1, (acc * 10 + DigitValue(d[i])) % WORD64) else (i, acc)
  }

  const INT64_MAX: nat := 0x7fff_ffff_ffff_ffff

  /** The signed number, if it fits 64 bits. */
  function Signed(negative: bool, magnitude: nat): Option<int> {
    var value: int := magnitude;
    if negative then (if value > INT64_MAX + 1 then None else Some(-value))
    else if value > INT64_MAX then None else Some(value)
  }

  /** from_chars for a signed number: an optional minus sign and decimal digits. */
  function FromCharsSigned(s: string): Option<int> {
    var negative := s != "" && s[0] == '-';
    var n := FromChars(if negative then s[1..] else s, 10);
    if n.None? then None else Signed(negative, n.value.0)
  }

  /** The integer at the cursor and where the cursor then stands. */
  function ParseInt64(d: string, from: nat): (r: (Option<int>, nat))
    requires from <= |d|
    ensures from <= r.1 <= |d|
    ensures r.0.Some? ==> from < r.1
  {
    var i := SkipSpace(d, from);
    if i == |d| then (None, i)
    else if d[i] == '\"' then
      var stop := StringStop(d, i + 1);
      (if stop == |d| then None else FromCharsSigned(d[i + 1..stop]), AfterString(d, i + 1))
    else
      var p := if d[i] == '-' || d[i] == '+' then i + 1 else i;
      if p == |d| || !IsDigit(d[p], 10) then (None, i)
      else
        var r := Accumulate(d, p, 0);
        (Signed(d[i] == '-', r.1), r.0)
  }

  lemma {:induction false} WrapStep(v: nat, digit: nat)
    ensures (v % WORD64 * 10 + digit) % WORD64 == (v * 10 + digit) % WORD64
  {
    var q := v / WORD64;
    var r := v % WORD64;
    assert v * 10 + digit == r * 10 + digit + 10 * q * WORD64;
    AddMultiple(r * 10 + digit, 10 * q);
  }

  lemma {:induction false} AddMultiple(x: nat, k: nat)
    ensures (x + k * WORD64) % WORD64 == x % WORD64
  {
  }

  /** The accumulator holds the number modulo 2^64. */
  lemma {:induction false} AccumulateIs(d: string, start: nat, i: nat, end: nat)
    requires start <= i <= end <= |d| && AllDigits(d[start..end], 10) && (end == |d| || !IsDigit(d[end], 10))
    ensures AllDigits(d[start..i], 10)
    ensures Accumulate(d, i, ValueOf(d[start..i], 10) % WORD64) == (end, ValueOf(d[start..end], 10) % WORD64)
    decreases end - i
  {
    hide ValueOf;
    assert forall k :: 0 <= k < i - start ==> d[start..i][k] == d[start..end][k];
    if i < end {
      assert d[start..end][i - start] == d[i];
      ValueSnoc(d[start..i], d[i], 10);
      assert d[start..i + 1] == d[start..i] + [d[i]];
      WrapStep(ValueOf(d[start..i], 10), DigitValue(d[i]));
      AccumulateIs(d, start, i + 1, end);
    }
  }

  method ReadDigits(d: string, start: nat) returns (end: nat, value: nat)
    requires start <= |d|
    ensures (end, value) == Accumulate(d, start, 0)
  {
    end, value := start, 0;
    while end < |d| && IsDigit(d[end], 10)
      invariant start <= end <= |d| && value < WORD64
      invariant Accumulate(d, end, value) == Accumulate(d, start, 0)
      decreases |d| - end
    {
      value := (value * 10 + DigitValue(d[end])) % WORD64;
      end := end + 1;
    }
  }

  method ParseQuoted(cur: Cursor) returns (r: Option<int>)
    requires cur.Valid() && cur.ptr < |cur.data| && cur.data[cur.ptr] == '\"'
    modifies cur
    ensures cur.Valid() && (r, cur.ptr) == ParseInt64(cur.data, old(cur.ptr))
  {
    hide FromCharsSigned, StringStop, AfterString;
    var s := cur.String();
    r := if s.Some? then FromCharsSigned(s.value) else None;
  }

  /** Leading space does not matter. */
  lemma {:induction false} AfterSpace(d: string, from: nat)
    requires from <= |d|
    ensures ParseInt64(d, SkipSpace(d, from)) == ParseInt64(d, from)
    decreases |d| - from
  {
    hide Accumulate, FromCharsSigned, StringStop, AfterString;
    if from < |d| && IsSpace(d[from]) {
      AfterSpace(d, from + 1);
    }
  }

  method ParseInteger(cur: Cursor) returns (r: Option<int>)
    requires cur.Valid()
    modifies cur
    ensures cur.Valid() && (r, cur.ptr) == ParseInt64(cur.data, old(cur.ptr))
  {
    hide Accumulate, FromCharsSigned, StringStop, AfterString, IsDigit;
    AfterSpace(cur.data, cur.ptr);
    cur.SkipWs();
    if cur.ptr == |cur.data| {
      return None;
    }
    if cur.data[cur.ptr] == '\"' {
      r := ParseQuoted(cur);
      return;
    }
    var p, negative := cur.ptr, false;
    if cur.data[p] == '-' {
      negative := true;
      p := p + 1;
      if p >= |cur.data| {
        return None;
      }
    } else if cur.data[p] == '+' {
      p := p + 1;
      if p >= |cur.data| {
        return None;
      }
    }
    if !IsDigit(cur.data[p], 10) {
      return None;
    }
    var value;
    cur.ptr, value := ReadDigits(cur.data, p);
    r := Signed(negative, value);
  }

  /** What is read at digits after an optional minus sign: the number modulo 2^64, if that fits. */
  lemma {:induction false} ReadsDigits(d: string, i: nat, negative: bool, end: nat)
    requires var start := if negative then i + 1 else i;
             && start < end <= |d| && AllDigits(d[start..end], 10) && (end == |d| || !IsDigit(d[end], 10))
             && (negative ==> d[i] == '-')
    ensures var start := if negative then i + 1 else i;
            ParseInt64(d, i) == (Signed(negative, ValueOf(d[start..end], 10) % WORD64), end)
  {
    hide ValueOf;
    var start := if negative then i + 1 else i;
    assert IsDigit(d[start..end][0], 10);
    assert d[start..start] == "";
    ValueOfNothing();
    AccumulateIs(d, start, start, end);
  }

  lemma ValueOfNothing()
    ensures ValueOf("", 10) == 0
  {
  }

  /** The reading is exact (the number if it fits 64 bits, a failure otherwise) if and only if the digits
      denote less than 2^64, or leave a remainder that does not fit either. */
  lemma {:induction false} ReadingIsExact(d: string, i: nat, negative: bool, end: nat)
    requires var start := if negative then i + 1 else i;
             && start < end <= |d| && AllDigits(d[start..end], 10) && (end == |d| || !IsDigit(d[end], 10))
             && (negative ==> d[i] == '-')
    ensures var value := ValueOf(d[if negative then i + 1 else i..end], 10);
            ParseInt64(d, i).0 == Signed(negative, value) <==>
            value < WORD64 || value % WORD64 > INT64_MAX + if negative then 1 else 0
  {
    hide ValueOf, ParseInt64;
    ReadsDigits(d, i, negative, end);
  }

  /** The number 2^64 + 1 is read as one. */
  lemma {:induction false} LongNumberWraps()
    ensures ParseInt64(ToChars(WORD64 + 1, 10), 0).0 == Some(1)
  {
    hide ToChars, ValueOf, ParseInt64;
    var d := ToChars(WORD64 + 1, 10);
    assert d[0..|d|] == d;
    ReadsDigits(d, 0, false, |d|);
    ValueOfToChars(WORD64 + 1, 10);
  }

  /** What was written is read back, whatever follows that is no digit. */
  lemma {:induction false} ReadsBack(d: string, i: nat, v: int)
    requires IsWord(v) && At(d, i, Decimal(v))
    requires var end := i + |Decimal(v)|; end == |d| || !IsDigit(d[end], 10)
    ensures i <= |d| && ParseInt64(d, i) == (Some(v), i + |Decimal(v)|)
  {
    hide ToChars, ValueOf, ParseInt64, IsDigit, AllDigits, Decimal, At, IsWord, Signed;
    var negative := v < 0;
    var n: nat := if negative then -v else v;
    DecimalAt(d, i, v, n);
    ReadsDigits(d, i, negative, i + |Decimal(v)|);
    ValueOfToChars(n, 10);
    WordIsSigned(v, n);
  }

  /** A 32-bit integer is its sign and its magnitude, which 64 bits hold. */
  lemma WordIsSigned(v: int, n: nat)
    requires IsWord(v) && n == if v < 0 then -v else v
    ensures Signed(v < 0, n % WORD64) == Some(v)
  {
    assert n % WORD64 == n;
  }

  /** Where the digits of a written number are. */
  lemma {:induction false} DecimalAt(d: string, i: nat, v: int, n: nat)
    requires At(d, i, Decimal(v)) && n == if v < 0 then -v else v
    ensures var start, end := if v < 0 then i + 1 else i, i + |Decimal(v)|;
            && start < end <= |d| && d[start..end] == ToChars(n, 10) && (v < 0 ==> d[i] == '-')
  {
    hide ToChars;
    if v < 0 {
      AtConcat(d, i, "-", ToChars(n, 10));
      AtFirst(d, i, "-");
    }
  }

  /** The integers of an array, read with the cursor: an integer and a comma, up to the bracket. */
  function ReadItems(d: string, from: nat): Option<seq<int>>
    requires from <= |d|
    decreases |d| - from
  {
    var i := SkipSpace(d, from);
    if i < |d| && d[i] == ']' then Some([])
    else
      var r := ParseInt64(d, i);
      if r.0.None? then None
      else
        var j := SkipSpace(d, r.1);
        match ReadItems(d, if j < |d| && d[j] == ',' then j + 1 else j)
        case None => None
        case Some(rest) => Some([r.0.value] + rest)
  }

  function ReadArray(d: string): Option<seq<int>> {
    var i := SkipSpace(d, 0);
    if i == |d| || d[i] != '[' then None else ReadItems(d, i + 1)
  }

  /** Where each element is in the text, and what follows it. */
  lemma {:induction false} ItemAt(d: string, i: nat, arr: seq<int>, n: nat, k: nat)
    requires k < n <= |arr| && At(d, i, Joined(arr, n))
    ensures var p := i + |Joined(arr, k)| + |Separator(k)|;
            && At(d, i + |Joined(arr, k)|, Separator(k))
            && At(d, p, Decimal(arr[k])) && p + |Decimal(arr[k])| == i + |Joined(arr, k + 1)| <= |d|
    decreases n
  {
    hide Decimal;
    AtConcat(d, i, Joined(arr, n - 1), Separator(n - 1) + Decimal(arr[n - 1]));
    AtConcat(d, i + |Joined(arr, n - 1)|, Separator(n - 1), Decimal(arr[n - 1]));
    if k < n - 1 {
      ItemAt(d, i, arr, n - 1, k);
    }
  }

  lemma {:induction false} ItemSpot(d: string, arr: seq<int>, k: nat)
    requires forall i :: 0 <= i < |arr| ==> IsWord(arr[i])
    requires k < |arr| && At(d, 1, Joined(arr, |arr|)) && 1 + |Joined(arr, |arr|)| + 1 == |d| && d[|d| - 1] == ']'
    ensures var p, end := 1 + |Joined(arr, k)| + |Separator(k)|, 1 + |Joined(arr, k + 1)|;
            && p < end < |d| && SkipSpace(d, p) == p && d[p] != ']'
            && ParseInt64(d, p) == (Some(arr[k]), end)
            && d[end] == if k + 1 < |arr| then ',' else ']'
  {
    hide Decimal, Joined, ParseInt64, SkipSpace, ToChars, At, IsWord;
    ItemAt(d, 1, arr, |arr|, k);
    var p, end := 1 + |Joined(arr, k)| + |Separator(k)|, 1 + |Joined(arr, k + 1)|;
    if k + 1 < |arr| {
      ItemAt(d, 1, arr, |arr|, k + 1);
      AtFirst(d, end, ",");
    }
    ReadsBack(d, p, arr[k]);
    DecimalBegins(d, p, arr[k]);
  }

  lemma {:induction false} ReadsItems(d: string, arr: seq<int>, k: nat)
    requires forall i :: 0 <= i < |arr| ==> IsWord(arr[i])
    requires k <= |arr| && At(d, 1, Joined(arr, |arr|)) && 1 + |Joined(arr, |arr|)| + 1 == |d| && d[|d| - 1] == ']'
    ensures var p := 1 + |Joined(arr, k)| + if 0 < k < |arr| then 1 else 0;
            p <= |d| && ReadItems(d, p) == Some(arr[k..])
    decreases |arr| - k
  {
    hide Decimal, Joined, ParseInt64, ReadItems, At, SkipSpace;
    if k == |arr| {
      LastItem(d, 1 + |Joined(arr, k)|);
    } else {
      ItemSpot(d, arr, k);
      ReadsItems(d, arr, k + 1);
      OneItem(d, 1 + |Joined(arr, k)| + |Separator(k)|, arr[k], 1 + |Joined(arr, k + 1)|);
      assert arr[k..] == [arr[k]] + arr[k + 1..];
    }
  }

  lemma NothingJoined(arr: seq<int>)
    ensures |Joined(arr, 0)| == 0
  {
  }

  lemma {:induction false} LastItem(d: string, p: nat)
    requires p < |d| && d[p] == ']'
    ensures ReadItems(d, p) == Some([])
  {
  }

  lemma {:induction false} DecimalBegins(d: string, p: nat, v: int)
    requires At(d, p, Decimal(v))
    ensures p < |d| && SkipSpace(d, p) == p && d[p] != ']'
  {
    hide ToChars;
    var s := Decimal(v);
    assert v >= 0 ==> IsDigit(s[0], 10);
    AtFirst(d, p, s);
  }

  lemma {:induction false} OneItem(d: string, p: nat, v: int, end: nat)
    requires p < |d| && SkipSpace(d, p) == p && d[p] != ']' && end < |d| && ParseInt64(d, p) == (Some(v), end)
    requires d[end] == ',' || d[end] == ']'
    requires ReadItems(d, if d[end] == ',' then end + 1 else end).Some?
    ensures ReadItems(d, p) == Some([v] + ReadItems(d, if d[end] == ',' then end + 1 else end).value)
  {
    hide ParseInt64;
    assert SkipSpace(d, end) == end;
  }

  /** Every array of 32-bit integers, least values included, comes back as it was. */
  lemma {:induction false} ArrayRoundTrip(arr: seq<int>)
    requires forall i :: 0 <= i < |arr| ==> IsWord(arr[i])
    ensures ReadArray(ArrayText(arr)) == Some(arr)
  {
    hide Joined, ReadItems;
    var d, inner := ArrayText(arr), Joined(arr, |arr|);
    assert d[1..1 + |inner|] == inner;
    NothingJoined(arr);
    ReadsItems(d, arr, 0);
    assert arr[0..] == arr;
  }
}
