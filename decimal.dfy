/**
 * The decimal text the Go setup code reads and writes: fmt's %d of a
 * unit number, strings.TrimSpace, and strconv.Atoi on 64-bit ints.
 */
module Decimal {
  import opened Optional

  const INT64_MIN: int := -0x8000_0000_0000_0000
  const INT64_MAX: int := 0x7FFF_FFFF_FFFF_FFFF
  const INT64_MODULUS: int := 0x1_0000_0000_0000_0000

  /**
   * Go's 64-bit int arithmetic: the value in range that agrees with x modulo
   * 2^64, so a sum just past the top wraps to the bottom.
   */
  function WrapInt64(x: int): (r: int)
    ensures INT64_MIN <= r <= INT64_MAX
    ensures (r - x) % INT64_MODULUS == 0
    ensures INT64_MIN <= x <= INT64_MAX ==> r == x
    ensures INT64_MAX < x <= INT64_MAX + INT64_MODULUS ==> r == x - INT64_MODULUS
  {
    (x - INT64_MIN) % INT64_MODULUS + INT64_MIN
  }

  predicate IsDigit(c: char) {
    '0' <= c <= '9'
  }

  predicate AllDigits(s: string) {
    forall i :: 0 <= i < |s| ==> IsDigit(s[i])
  }

  function DigitValue(c: char): nat
    requires IsDigit(c)
  {
    (c as int) - ('0' as int)
  }

  function DigitChar(d: nat): (c: char)
    requires d < 10
    ensures IsDigit(c) && DigitValue(c) == d
  {
    (('0' as int) + d) as char
  }

  /** fmt's %d of a natural number: its decimal digits, most significant first, without leading zeros. */
  function NatToString(n: nat): (s: string)
    ensures |s| > 0 && AllDigits(s)
    ensures |s| > 1 ==> s[0] != '0'
  {
    if n < 10 then [DigitChar(n)] else NatToString(n / 10) + [DigitChar(n % 10)]
  }

  /** The value of a string of decimal digits, most significant first. */
  function DigitsValue(s: string): nat
    requires AllDigits(s)
  {
    if s == [] then 0 else DigitsValue(s[..|s| - 1]) * 10 + DigitValue(s[|s| - 1])
  }

  /** Reading back the digits %d writes gives the number. */
  lemma {:induction false} DigitsRoundTrip(n: nat)
    ensures DigitsValue(NatToString(n)) == n
  {
    if n >= 10 {
      DigitsRoundTrip(n / 10);
      var s := NatToString(n);
      assert s[..|s| - 1] == NatToString(n / 10);
    }
  }

  /** Different numbers are written differently. */
  lemma NatToStringInjective(m: nat, n: nat)
    ensures NatToString(m) == NatToString(n) ==> m == n
  {
    DigitsRoundTrip(m);
    DigitsRoundTrip(n);
  }

  /** fmt's %d of an int: a minus sign before a negative number's digits. */
  function IntToString(n: int): string {
    if n < 0 then "-" + NatToString(-n) else NatToString(n)
  }

  /** unicode.IsSpace: the white space strings.TrimSpace removes. */
  predicate IsSpace(c: char) {
    c == '\t' || c == '\n' || c == '\U{B}' || c == '\U{C}' || c == '\r' || c == ' '
    || c == '\U{85}' || c == '\U{A0}' || c == '\U{1680}' || ('\U{2000}' <= c <= '\U{200A}')
    || c == '\U{2028}' || c == '\U{2029}' || c == '\U{202F}' || c == '\U{205F}' || c == '\U{3000}'
  }

  predicate AllSpace(s: string) {
    forall i :: 0 <= i < |s| ==> IsSpace(s[i])
  }

  /** s without its leading white space. */
  function TrimLeft(s: string): (r: string)
    ensures |r| <= |s| && r == s[|s| - |r|..]
    ensures r == [] || !IsSpace(r[0])
    ensures AllSpace(s[..|s| - |r|])
  {
    if s != [] && IsSpace(s[0]) then
      var r := TrimLeft(s[1..]);
      assert s[1..][..|s| - 1 - |r|] == s[1..|s| - |r|];
      r
    else s
  }

  /** s without its trailing white space. */
  function TrimRight(s: string): (r: string)
    ensures |r| <= |s| && r == s[..|r|]
    ensures r == [] || !IsSpace(r[|r| - 1])
    ensures AllSpace(s[|r|..])
  {
    if s != [] && IsSpace(s[|s| - 1]) then
      var r := TrimRight(s[..|s| - 1]);
      assert s[..|s| - 1][|r|..] == s[|r|..|s| - 1];
      r
    else s
  }

  /** strings.TrimSpace: s without its leading and trailing white space. */
  function TrimSpace(s: string): string {
    TrimRight(TrimLeft(s))
  }

  /** Padding a text that starts and ends with something other than white space, then trimming, gives the text back. */
  lemma TrimPadded(before: string, t: string, after: string)
    requires AllSpace(before) && AllSpace(after)
    requires t != [] && !IsSpace(t[0]) && !IsSpace(t[|t| - 1])
    ensures TrimSpace(before + t + after) == t
  {
    assert before + t + after == before + (t + after);
    assert (t + after)[0] == t[0];
    TrimLeftPadded(before, t + after);
    TrimRightPadded(t, after);
  }

  lemma {:induction false} TrimLeftPadded(before: string, s: string)
    requires AllSpace(before) && s != [] && !IsSpace(s[0])
    ensures TrimLeft(before + s) == s
  {
    if before != [] {
      assert (before + s)[1..] == before[1..] + s;
      TrimLeftPadded(before[1..], s);
    } else {
      assert before + s == s;
    }
  }

  lemma {:induction false} TrimRightPadded(s: string, after: string)
    requires AllSpace(after) && s != [] && !IsSpace(s[|s| - 1])
    ensures TrimRight(s + after) == s
  {
    if after != [] {
      assert (s + after)[..|s + after| - 1] == s + after[..|after| - 1];
      TrimRightPadded(s, after[..|after| - 1]);
    } else {
      assert s + after == s;
    }
  }

  /** The text %d writes starts and ends with something other than white space. */
  lemma IntToStringEdges(n: int)
    ensures var t := IntToString(n); t != [] && !IsSpace(t[0]) && !IsSpace(t[|t| - 1])
  {
    var t := IntToString(n);
    if n < 0 {
      var d := NatToString(-n);
      assert t[|t| - 1] == d[|d| - 1];
      assert IsDigit(d[|d| - 1]);
    } else {
      assert IsDigit(t[0]) && IsDigit(t[|t| - 1]);
    }
  }

  /**
   * strconv.Atoi: an optional '+' or '-' and at least one decimal digit,
   * with a value that fits a 64-bit int; anything else is an error.
   */
  function Atoi(s: string): (r: Option<int>)
    ensures r.Some? ==> INT64_MIN <= r.value <= INT64_MAX
  {
    var negative := |s| > 0 && s[0] == '-';
    var digits := if |s| > 0 && (s[0] == '-' || s[0] == '+') then s[1..] else s;
    if digits == [] || !AllDigits(digits) then None
    else
      var magnitude: int := DigitsValue(digits);
      var v := if negative then 0 - magnitude else magnitude;
      if INT64_MIN <= v <= INT64_MAX then Some(v) else None
  }

  /** Atoi reads back every 64-bit int that %d writes, and rejects a text holding anything but a sign and digits. */
  lemma AtoiRules(n: int, s: string)
    ensures INT64_MIN <= n <= INT64_MAX ==> Atoi(IntToString(n)) == Some(n)
    ensures (exists i :: 0 < i < |s| && !IsDigit(s[i])) ==> Atoi(s) == None
    ensures |s| > 0 && !IsDigit(s[0]) && s[0] != '+' && s[0] != '-' ==> Atoi(s) == None
  {
    if n < 0 {
      DigitsRoundTrip(-n);
      assert IntToString(n)[1..] == NatToString(-n);
    } else {
      DigitsRoundTrip(n);
    }
    if exists i :: 0 < i < |s| && !IsDigit(s[i]) {
      var i :| 0 < i < |s| && !IsDigit(s[i]);
      if |s| > 0 && (s[0] == '-' || s[0] == '+') {
        assert s[1..][i - 1] == s[i];
      }
    }
  }
}
