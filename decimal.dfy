/** Decimal rendering of ints, as print_T does it through a std::stringstream,
    and the substring search std::string::find. */
module Decimal {

  predicate IsDigit(c: char) {
    '0' <= c <= '9'
  }

  predicate AllDigits(s: string) {
    forall i :: 0 <= i < |s| ==> IsDigit(s[i])
  }

  function DigitChar(d: int): (c: char)
    requires 0 <= d < 10
    ensures IsDigit(c) && c as int - '0' as int == d
  {
    ('0' as int + d) as char
  }

  /** The shortest decimal spelling of n. */
  function NatToString(n: nat): (s: string)
    ensures |s| >= 1 && AllDigits(s)
    ensures n >= 10 <==> |s| >= 2
    decreases n
  {
    if n < 10 then [DigitChar(n)] else NatToString(n / 10) + [DigitChar(n % 10)]
  }

  /** operator<< on an int: a minus sign before negative values. */
  function IntToString(n: int): (s: string)
    ensures |s| >= 1
    ensures n >= 0 <==> IsDigit(s[0])
  {
    if n < 0 then "-" + NatToString(-n) else NatToString(n)
  }

  function ParseNat(s: string): nat
    requires AllDigits(s)
  {
    if s == [] then 0 else 10 * ParseNat(s[..|s| - 1]) + (s[|s| - 1] as int - '0' as int)
  }

  function ParseInt(s: string): int
    requires |s| >= 1 && (s[0] == '-' || IsDigit(s[0])) && AllDigits(s[1..])
  {
    if s[0] == '-' then -(ParseNat(s[1..]) as int) else ParseNat(s)
  }

  /** Reading the digits back gives the number. */
  lemma {:induction false} NatRoundTrip(n: nat)
    ensures ParseNat(NatToString(n)) == n
    decreases n
  {
    if n >= 10 {
      NatRoundTrip(n / 10);
      var s := NatToString(n);
      assert s[..|s| - 1] == NatToString(n / 10);
    }
  }

  /** Reading the rendering of any int back gives the int. */
  lemma IntRoundTrip(n: int)
    ensures var s := IntToString(n);
      |s| >= 1 && (s[0] == '-' || IsDigit(s[0])) && AllDigits(s[1..]) && ParseInt(s) == n
  {
    var s := IntToString(n);
    if n < 0 {
      assert s[1..] == NatToString(-n);
      NatRoundTrip(-n);
    } else {
      NatRoundTrip(n);
    }
  }

  /** Distinct numbers get distinct spellings, so distinct variable numbers
      give distinct variable names. */
  lemma IntToStringInjective(a: int, b: int)
    ensures IntToString(a) == IntToString(b) ==> a == b
  {
    IntRoundTrip(a);
    IntRoundTrip(b);
  }

  /** A rendered int never contains a question mark, the character of the
      lane-width placeholder. */
  lemma IntToStringNoQuestion(n: int)
    ensures '?' !in IntToString(n)
  {
    var s := IntToString(n);
    if n < 0 {
      assert s == "-" + NatToString(-n);
    }
  }

  /** std::string::find: the first position at which pat occurs in s, or -1
      (npos) when it does not occur. */
  function Find(s: string, pat: string): (r: int)
    ensures -1 <= r <= |s|
    ensures r >= 0 ==> r + |pat| <= |s| && s[r..r + |pat|] == pat
    decreases |s|
  {
    if |s| < |pat| then -1
    else if s[..|pat|] == pat then 0
    else
      var r := Find(s[1..], pat);
      if r < 0 then -1 else r + 1
  }

  /** Any occurrence bounds the answer: find returns the first of them. */
  lemma {:induction false} FindFirst(s: string, pat: string, q: int)
    requires 0 <= q && q + |pat| <= |s| && s[q..q + |pat|] == pat
    ensures 0 <= Find(s, pat) <= q
    decreases |s|
  {
    if s[..|pat|] != pat {
      assert q > 0;
      assert s[1..][q - 1..q - 1 + |pat|] == s[q..q + |pat|];
      FindFirst(s[1..], pat, q - 1);
    }
  }
}
