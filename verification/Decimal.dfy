/**
  Decimal notation of integers, the common specification of `convert` in src/base/LogStream.cc and
  of the `%d` and `%zd` directives used in src/net/http/HttpResponse.cc.
 */
module Decimal {

  function DigitChar(d: int): char
    requires 0 <= d <= 9
  {
    ['0', '1', '2', '3', '4', '5', '6', '7', '8', '9'][d]
  }

  predicate IsDigit(c: char) { '0' <= c <= '9' }

  function DigitValue(c: char): int
    requires IsDigit(c)
  {
    c as int - '0' as int
  }

  /** Decimal text of a natural number. */
  function NatText(n: nat): string
  {
    (if n < 10 then "" else NatText(n / 10)) + [DigitChar(n % 10)]
  }

  function IntText(v: int): string
  {
    if v < 0 then "-" + NatText(-v) else NatText(v)
  }

  /** Decimal digits of a natural number, least significant first. */
  function ReversedDigits(n: nat): string
  {
    [DigitChar(n % 10)] + (if n < 10 then "" else ReversedDigits(n / 10))
  }

  function Reversed(s: string): string
  {
    if s == "" then "" else Reversed(s[1..]) + [s[0]]
  }

  predicate AllDigits(s: string) { forall i :: 0 <= i < |s| ==> IsDigit(s[i]) }

  /** Value of a digit string, read from the left. */
  function NatValue(s: string): nat
    requires AllDigits(s)
  {
    if s == "" then 0 else 10 * NatValue(s[..|s| - 1]) + DigitValue(s[|s| - 1])
  }

  /** One digit or more, none of them superfluous. */
  predicate CanonicalNat(s: string)
  {
    |s| > 0 && AllDigits(s) && (s[0] == '0' ==> |s| == 1)
  }

  /** A minus sign stands before negative numbers only, so not before zero. */
  predicate CanonicalInt(s: string)
  {
    CanonicalNat(s) || (|s| > 0 && s[0] == '-' && CanonicalNat(s[1..]) && s[1] != '0')
  }

  function IntValue(s: string): int
    requires CanonicalInt(s)
  {
    if s[0] == '-' then 0 - NatValue(s[1..]) else NatValue(s)
  }

  lemma AppendDigit(s: string, c: char)
    requires AllDigits(s) && IsDigit(c)
    ensures AllDigits(s + [c]) && NatValue(s + [c]) == 10 * NatValue(s) + DigitValue(c)
  {
    assert (s + [c])[..|s|] == s;
  }

  lemma DigitInverse(d: int)
    ensures 0 <= d <= 9 ==> IsDigit(DigitChar(d)) && DigitValue(DigitChar(d)) == d
    ensures 0 <= d <= 9 ==> (DigitChar(d) == '0' <==> d == 0)
  {
  }

  lemma CharInverse(c: char)
    requires IsDigit(c)
    ensures 0 <= DigitValue(c) <= 9 && DigitChar(DigitValue(c)) == c && (c != '0' ==> DigitValue(c) > 0)
  {
  }

  lemma {:induction false} NatTextCanonical(n: nat)
    ensures CanonicalNat(NatText(n)) && NatValue(NatText(n)) == n
    ensures n > 0 ==> NatText(n)[0] != '0'
  {
    hide DigitChar, DigitValue, IsDigit;
    DigitInverse(n % 10);
    if n < 10 {
      AppendDigit("", DigitChar(n));
      assert NatText(n) == "" + [DigitChar(n)];
    } else {
      NatTextCanonical(n / 10);
      AppendDigit(NatText(n / 10), DigitChar(n % 10));
    }
  }

  /** A digit string with a further digit is the text of ten times the number plus the digit. */
  lemma NatTextSnoc(m: nat, c: char)
    requires IsDigit(c) && m > 0
    ensures NatText(10 * m + DigitValue(c)) == NatText(m) + [c]
  {
    var n := 10 * m + DigitValue(c);
    CharInverse(c);
    assert n / 10 == m && n % 10 == DigitValue(c);
  }

  lemma {:induction false} CanonicalNatUnique(s: string)
    requires CanonicalNat(s)
    ensures NatText(NatValue(s)) == s
    ensures s[0] != '0' ==> NatValue(s) > 0
  {
    hide DigitChar, DigitValue, IsDigit;
    var last := |s| - 1;
    var c := s[last];
    assert s == s[..last] + [c];
    CharInverse(c);
    AppendDigit(s[..last], c);
    if last == 0 {
      assert NatText(DigitValue(c)) == "" + [c];
    } else {
      CanonicalNatUnique(s[..last]);
      NatTextSnoc(NatValue(s[..last]), c);
    }
  }

  lemma IntTextCanonical(v: int)
    ensures CanonicalInt(IntText(v)) && IntValue(IntText(v)) == v
  {
    NatTextCanonical(if v < 0 then -v else v);
    hide NatText, NatValue, CanonicalNat;
    if v < 0 {
      assert IntText(v)[1..] == NatText(-v);
    } else {
      assert CanonicalNat(NatText(v));
      FirstDigit(NatText(v));
    }
  }

  lemma FirstDigit(s: string)
    requires CanonicalNat(s)
    ensures s != "" && s[0] != '-'
  {
  }

  lemma CanonicalIntUnique(s: string)
    requires CanonicalInt(s)
    ensures IntText(IntValue(s)) == s
  {
    hide NatText, NatValue;
    if s[0] == '-' {
      CanonicalNatUnique(s[1..]);
      assert s == "-" + s[1..];
    } else {
      CanonicalNatUnique(s);
    }
  }

  /** `IntText(v)` is the one canonical text that denotes `v`. */
  lemma IntTextUnique(s: string, v: int)
    ensures CanonicalInt(s) && IntValue(s) == v <==> s == IntText(v)
  {
    hide CanonicalInt, IntValue, IntText;
    IntTextCanonical(v);
    if CanonicalInt(s) {
      CanonicalIntUnique(s);
    }
  }

  lemma {:induction false} DigitsReversed(n: nat)
    ensures Reversed(ReversedDigits(n)) == NatText(n)
  {
    assert ReversedDigits(n)[1..] == if n < 10 then "" else ReversedDigits(n / 10);
    if n >= 10 {
      DigitsReversed(n / 10);
    }
  }

  function Power10(k: nat): nat { if k == 0 then 1 else 10 * Power10(k - 1) }

  lemma {:induction false} DigitCount(n: nat, k: nat)
    requires k > 0 && n < Power10(k)
    ensures 1 <= |ReversedDigits(n)| <= k
  {
    if n >= 10 {
      assert k > 1;
      DigitCount(n / 10, k - 1);
    }
  }

  lemma {:induction false} ReversedLength(s: string)
    ensures |Reversed(s)| == |s|
    ensures forall i :: 0 <= i < |s| ==> Reversed(s)[i] == s[|s| - 1 - i]
  {
    if s != "" {
      ReversedLength(s[1..]);
    }
  }
}
