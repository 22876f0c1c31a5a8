/** Numbers as text, as std::to_chars and std::from_chars write and read them. Octets are chars. */
module Text {
  import opened Options

  const CRLF: string := "\r\n"
  const WORD64: nat := 0x1_0000_0000_0000_0000

  lemma {:induction false} Associative(a: string, b: string, c: string)
    ensures a + b + c == a + (b + c)
  {
  }

  function DigitChar(d: nat): char
    requires d < 16
  {
    if d < 10 then ('0' as int + d) as char else ('a' as int + d - 10) as char
  }

  /** The value of a digit character; to_chars writes lower case, from_chars reads both. */
  function DigitValue(c: char): (d: int)
    ensures -1 <= d < 16
  {
    if '0' <= c <= '9' then c as int - '0' as int
    else if 'a' <= c <= 'f' then c as int - 'a' as int + 10
    else if 'A' <= c <= 'F' then c as int - 'A' as int + 10
    else -1
  }

  predicate IsDigit(c: char, base: nat) {
    0 <= DigitValue(c) < base
  }

  predicate AllDigits(s: string, base: nat) {
    forall i :: 0 <= i < |s| ==> IsDigit(s[i], base)
  }

  lemma DigitOfChar(d: nat)
    requires d < 16
    ensures DigitValue(DigitChar(d)) == d
  {
  }

  lemma Division(n: nat, d: nat)
    requires 2 <= d <= n
    ensures n / d * d + n % d == n && n / d < n && n % d < d
  {
  }

  function ToChars(n: nat, base: nat): (s: string)
    requires 2 <= base <= 16
    ensures s != [] && AllDigits(s, base)
  {
    if n < base then
      DigitOfChar(n);
      [DigitChar(n)]
    else
      Division(n, base);
      DigitOfChar(n % base);
      ToChars(n / base, base) + [DigitChar(n % base)]
  }

  function Decimal(n: int): string {
    if n < 0 then "-" + ToChars(-n, 10) else ToChars(n, 10)
  }

  /** The number that a run of digits denotes. */
  function ValueOf(s: string, base: nat): nat
    requires AllDigits(s, base)
  {
    if s == [] then 0 else ValueOf(s[..|s| - 1], base) * base + DigitValue(s[|s| - 1])
  }

  function DigitRun(s: string, base: nat): (n: nat)
    ensures n <= |s| && AllDigits(s[..n], base)
    ensures n < |s| ==> !IsDigit(s[n], base)
  {
    if s == [] || !IsDigit(s[0], base) then 0
    else
      var n := 1 + DigitRun(s[1..], base);
      assert forall i :: 0 < i < n ==> s[i] == s[1..][i - 1];
      n
  }

  /** The number at the start of s and how many characters it takes; None when there is no digit or
      the number does not fit 64 bits. */
  function FromChars(s: string, base: nat): (r: Option<(nat, nat)>)
    ensures r.Some? ==> 0 < r.value.1 <= |s| && r.value.0 < WORD64
  {
    var n := DigitRun(s, base);
    if n == 0 || ValueOf(s[..n], base) >= WORD64 then None else Some((ValueOf(s[..n], base), n))
  }

  lemma ValueSnoc(s: string, c: char, base: nat)
    requires AllDigits(s, base) && IsDigit(c, base)
    ensures ValueOf(s + [c], base) == ValueOf(s, base) * base + DigitValue(c)
  {
    assert (s + [c])[..|s|] == s;
  }

  lemma {:induction false} ValueOfToChars(n: nat, base: nat)
    requires 2 <= base <= 16
    ensures ValueOf(ToChars(n, base), base) == n
    decreases n, 1
  {
    if n < base {
      DigitOfChar(n);
      ValueSnoc([], DigitChar(n), base);
    } else {
      Division(n, base);
      ValueOfQuotient(n, base, n / base, n % base);
    }
  }

  lemma {:induction false} ValueOfQuotient(n: nat, base: nat, q: nat, r: nat)
    requires 2 <= base <= 16 && base <= n && q == n / base && r == n % base && q < n && r < base
    requires q * base + r == n
    ensures ValueOf(ToChars(n, base), base) == n
    decreases n, 0
  {
    ValueOfToChars(q, base);
    DigitOfChar(r);
    ValueSnoc(ToChars(q, base), DigitChar(r), base);
    assert ToChars(n, base) == ToChars(q, base) + [DigitChar(r)];
  }

  lemma {:induction false} RunOfDigits(s: string, rest: string, base: nat)
    requires AllDigits(s, base) && (rest == [] || !IsDigit(rest[0], base))
    ensures DigitRun(s + rest, base) == |s|
  {
    if s == [] {
      assert s + rest == rest;
    } else {
      assert (s + rest)[1..] == s[1..] + rest;
      RunOfDigits(s[1..], rest, base);
    }
  }

  /** Reading back what was written, up to the first character that is no digit. */
  lemma NumberRoundTrip(n: nat, base: nat, rest: string)
    requires 2 <= base <= 16 && n < WORD64 && (rest == [] || !IsDigit(rest[0], base))
    ensures FromChars(ToChars(n, base) + rest, base) == Some((n, |ToChars(n, base)|))
  {
    var s := ToChars(n, base);
    RunOfDigits(s, rest, base);
    ValueOfToChars(n, base);
    assert (s + rest)[..|s|] == s;
  }
}
