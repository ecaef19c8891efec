/** Decimal digits, as read by std::stoi and written by a division loop. */
module Decimals {
  predicate IsDigit(c: char) {
    '0' <= c <= '9'
  }

  ghost predicate AllDigits(s: string) {
    forall k :: 0 <= k < |s| ==> IsDigit(s[k])
  }

  function DigitValue(c: char): nat {
    if IsDigit(c) then c as int - '0' as int else 0
  }

  function Decimal(s: string): nat {
    if |s| == 0 then 0 else 10 * Decimal(s[..|s| - 1]) + DigitValue(s[|s| - 1])
  }

  function DigitOf(k: nat): (r: char)
    requires k < 10
    ensures IsDigit(r) && DigitValue(r) == k
  {
    ('0' as int + k) as char
  }

  function DecimalText(n: nat): (r: string)
    ensures |r| > 0
  {
    (if n < 10 then "" else DecimalText(n / 10)) + [DigitOf(n % 10)]
  }

  lemma {:induction false} DecimalSnoc(s: string, k: nat)
    requires k < 10
    ensures Decimal(s + [DigitOf(k)]) == 10 * Decimal(s) + k
  {
    assert (s + [DigitOf(k)])[..|s|] == s;
  }

  lemma {:induction false} DecimalTextValue(n: nat)
    ensures AllDigits(DecimalText(n)) && Decimal(DecimalText(n)) == n
  {
    var q, r := n / 10, n % 10;
    if n < 10 {
      DecimalSnoc("", n);
    } else {
      DecimalTextValue(q);
      DecimalSnoc(DecimalText(q), r);
    }
  }

  /** The decimal numeral of n, without leading zeros. */
  ghost predicate Numeral(digits: string, n: nat) {
    digits != "" && AllDigits(digits) && Decimal(digits) == n && (|digits| > 1 ==> digits[0] != '0')
  }

  lemma {:induction false} TextIsNumeral(n: nat)
    ensures Numeral(DecimalText(n), n) && (n > 0 ==> DecimalText(n)[0] != '0')
  {
    DecimalTextValue(n);
    if n >= 10 { TextIsNumeral(n / 10); }
  }
}
