/** Positional numerals as `QString::number(n, base)` writes them. */
module Digits {

  function DigitChar(d: nat): char
    requires d < 16
  {
    if d < 10 then '0' + d as char else 'a' + (d - 10) as char
  }

  /** The value of a lower-case digit, -1 for any other character. */
  function DigitValue(c: char): int {
    if '0' <= c <= '9' then c as int - '0' as int
    else if 'a' <= c <= 'f' then c as int - 'a' as int + 10
    else -1
  }

  predicate IsNumeral(s: string, base: nat) {
    |s| > 0 && forall i :: 0 <= i < |s| ==> 0 <= DigitValue(s[i]) < base
  }

  function Number(n: nat, base: nat): string
    requires 2 <= base <= 16
  {
    if n < base then [DigitChar(n)] else Number(n / base, base) + [DigitChar(n % base)]
  }

  function ValueOf(s: string, base: nat): int {
    if s == "" then 0 else ValueOf(s[..|s| - 1], base) * base + DigitValue(s[|s| - 1])
  }

  lemma {:induction false} NumberRoundTrip(n: nat, base: nat)
    requires 2 <= base <= 16
    ensures IsNumeral(Number(n, base), base)
    ensures ValueOf(Number(n, base), base) == n
  {
    hide IsNumeral, ValueOf, DigitChar, Number;
    var q, d := LastDigit(n, base);
    if n < base {
      ValueOfDigit(n, base);
    } else {
      NumberRoundTrip(q, base);
      ValueOfSnoc(Number(q, base), d, base);
    }
  }

  lemma LastDigit(n: nat, base: nat) returns (q: nat, d: nat)
    requires 2 <= base <= 16
    ensures n == q * base + d && d < base
    ensures n < base ==> Number(n, base) == [DigitChar(n)]
    ensures n >= base ==> q < n && Number(n, base) == Number(q, base) + [DigitChar(d)]
  {
    QuotientAndDigit(n, base);
    q, d := n / base, n % base;
  }

  lemma QuotientAndDigit(n: nat, base: nat)
    requires 2 <= base <= 16
    ensures n == (n / base) * base + n % base && n % base < base && n / base <= n
    ensures n >= base ==> n / base < n
  {
    var q := n / base;
    assert q * base >= q + q;
  }

  lemma ValueOfDigit(d: nat, base: nat)
    requires d < base <= 16
    ensures ValueOf([DigitChar(d)], base) == d && IsNumeral([DigitChar(d)], base)
  {
    assert [DigitChar(d)][..0] == "";
  }

  lemma ValueOfSnoc(s: string, d: nat, base: nat)
    requires d < base <= 16
    ensures ValueOf(s + [DigitChar(d)], base) == ValueOf(s, base) * base + d
    ensures IsNumeral(s, base) ==> IsNumeral(s + [DigitChar(d)], base)
  {
    var t := s + [DigitChar(d)];
    assert t[..|t| - 1] == s;
  }

  lemma NumberInjective(m: nat, n: nat, base: nat)
    requires 2 <= base <= 16
    requires Number(m, base) == Number(n, base)
    ensures m == n
  {
    NumberRoundTrip(m, base);
    NumberRoundTrip(n, base);
  }
}
