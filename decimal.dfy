/**
 * Decimal text of an integer, as a JavaScript template literal (`${n}`)
 * renders a whole number of magnitude below 10^21, which covers every
 * slide number: optional minus sign, then the digits, no leading zeros.
 * Used for the slide counter "current / total".
 */
module Decimal {

  predicate IsDigit(c: char) {
    '0' <= c <= '9'
  }

  predicate AllDigits(s: string) {
    forall i :: 0 <= i < |s| ==> IsDigit(s[i])
  }

  predicate NoSpace(s: string) {
    forall i :: 0 <= i < |s| ==> s[i] != ' '
  }

  function DigitChar(d: nat): (c: char)
    requires d < 10
    ensures IsDigit(c) && c as int - '0' as int == d
  {
    (d + '0' as int) as char
  }

  /** The digits of a natural number, most significant first. */
  function NatText(n: nat): (s: string)
    ensures |s| > 0 && AllDigits(s)
    decreases n
  {
    if n < 10 then [DigitChar(n)] else NatText(n / 10) + [DigitChar(n % 10)]
  }

  /** The text of an integer: a minus sign before the digits of a negative one. */
  function IntText(n: int): (s: string)
    ensures |s| > 0 && NoSpace(s)
    ensures s[0] == '-' <==> n < 0
  {
    if n < 0 then "-" + NatText(-n) else NatText(n)
  }

  /** The value a string of digits denotes (the inverse of NatText). */
  function DigitsValue(s: string): nat
    requires AllDigits(s)
    decreases |s|
  {
    if s == [] then 0 else 10 * DigitsValue(s[..|s| - 1]) + (s[|s| - 1] as int - '0' as int)
  }

  /** Reads back a text produced by IntText. */
  function ParseInt(s: string): int
    requires |s| > 0
    requires AllDigits(s) || (s[0] == '-' && AllDigits(s[1..]))
  {
    if s[0] == '-' then 0 - DigitsValue(s[1..]) else DigitsValue(s)
  }

  lemma {:induction false} NatTextRoundTrip(n: nat)
    ensures DigitsValue(NatText(n)) == n
    decreases n
  {
    if n >= 10 {
      NatTextRoundTrip(n / 10);
      var s := NatText(n);
      assert s[..|s| - 1] == NatText(n / 10);
    }
  }

  lemma IntTextRoundTrip(n: int)
    ensures var s := IntText(n); (AllDigits(s) || (s[0] == '-' && AllDigits(s[1..]))) && ParseInt(s) == n
  {
    if n < 0 {
      NatTextRoundTrip(-n);
      assert IntText(n)[1..] == NatText(-n);
    } else {
      NatTextRoundTrip(n);
    }
  }

  /** Different numbers never render as the same text. */
  lemma IntTextInjective(a: int, b: int)
    requires IntText(a) == IntText(b)
    ensures a == b
  {
    IntTextRoundTrip(a);
    IntTextRoundTrip(b);
  }

  /** The position of the first space in s (|s| when there is none). */
  function FirstSpace(s: string): (k: nat)
    ensures k <= |s|
    ensures forall i :: 0 <= i < k ==> s[i] != ' '
    ensures k < |s| ==> s[k] == ' '
  {
    if s == [] then 0 else if s[0] == ' ' then 0 else 1 + FirstSpace(s[1..])
  }

  lemma {:induction false} FirstSpaceAfter(a: string, rest: string)
    requires NoSpace(a)
    requires |rest| > 0 && rest[0] == ' '
    ensures FirstSpace(a + rest) == |a|
  {
    if a != [] {
      assert (a + rest)[1..] == a[1..] + rest;
      FirstSpaceAfter(a[1..], rest);
    }
  }

  /** Joining two space-free texts around a separator that starts with a space can be undone. */
  lemma SplitAtSeparator(a: string, b: string, a': string, b': string, sep: string)
    requires NoSpace(a) && NoSpace(a')
    requires |sep| > 0 && sep[0] == ' '
    requires a + sep + b == a' + sep + b'
    ensures a == a' && b == b'
  {
    var joined := a + sep + b;
    assert joined == a + (sep + b);
    assert joined == a' + (sep + b');
    FirstSpaceAfter(a, sep + b);
    FirstSpaceAfter(a', sep + b');
    assert a == joined[..|a|];
    assert a' == joined[..|a'|];
    assert b == joined[|a| + |sep|..];
    assert b' == joined[|a'| + |sep|..];
  }
}
