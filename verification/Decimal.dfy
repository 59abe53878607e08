/** Natural numbers in canonical decimal: no sign, no leading zero. */
module Decimal {

  predicate IsDigit(c: char) { '0' <= c <= '9' }

  function DigitOf(d: nat): char
    requires d < 10
  {
    '0' + d as char
  }

  function DigitValue(c: char): nat
    requires IsDigit(c)
  {
    (c - '0') as nat
  }

  predicate AllDigits(s: string) {
    forall i :: 0 <= i < |s| ==> IsDigit(s[i])
  }

  /** The pattern ^(0|[1-9][0-9]*)$. */
  predicate IsCanonical(s: string) {
    s != [] && AllDigits(s) && (s[0] == '0' ==> |s| == 1)
  }

  function ToDecimal(n: nat): string {
    if n < 10 then [DigitOf(n)] else ToDecimal(n / 10) + [DigitOf(n % 10)]
  }

  /** The number a string of digits spells. */
  function NatOf(s: string): nat
    requires AllDigits(s)
  {
    if s == [] then 0 else NatOf(s[..|s| - 1]) * 10 + DigitValue(s[|s| - 1])
  }

  lemma {:induction false} DigitRoundTrip(d: nat)
    requires d < 10
    ensures IsDigit(DigitOf(d)) && DigitValue(DigitOf(d)) == d
  {
  }

  /** Printing then reading is the identity, and what is printed is canonical. */
  lemma {:induction false} ReadPrinted(n: nat)
    ensures IsCanonical(ToDecimal(n)) && NatOf(ToDecimal(n)) == n
    ensures ToDecimal(n)[0] == '0' ==> n == 0
  {
    if n < 10 {
      DigitRoundTrip(n);
      assert [DigitOf(n)][..0] == [];
    } else {
      ReadPrinted(n / 10);
      DigitRoundTrip(n % 10);
      assert ToDecimal(n)[..|ToDecimal(n)| - 1] == ToDecimal(n / 10);
    }
  }

  /** A canonical spelling is the one its number prints as. */
  lemma {:induction false} PrintRead(s: string)
    requires IsCanonical(s)
    ensures ToDecimal(NatOf(s)) == s
    ensures |s| > 1 ==> NatOf(s) >= 10
  {
    var last := s[|s| - 1];
    assert DigitOf(DigitValue(last)) == last;
    if |s| == 1 {
      assert s[..0] == [];
      assert NatOf(s) == DigitValue(last);
      assert s == [last];
    } else {
      var front := s[..|s| - 1];
      PrintRead(front);
      assert NatOf(front) >= 1 by {
        if |front| == 1 { assert front[..0] == []; }
      }
      var n := NatOf(front) * 10 + DigitValue(last);
      assert n / 10 == NatOf(front) && n % 10 == DigitValue(last);
      assert s == front + [last];
    }
  }
}
