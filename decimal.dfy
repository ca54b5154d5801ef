/**
 * Decimal text for natural numbers, as Rust's `Display` for `usize` writes it
 * inside a `format!`/`#[error]` message: the shortest string of ASCII digits,
 * with no sign and no leading zero.
 */
module Decimal {

  predicate IsDigit(c: char) {
    '0' <= c <= '9'
  }

  predicate AllDigits(s: string) {
    forall i :: 0 <= i < |s| ==> IsDigit(s[i])
  }

  /** The text `Display` produces: non-empty digits, no leading zero unless it is "0". */
  predicate IsCanonical(s: string) {
    |s| >= 1 && AllDigits(s) && (|s| > 1 ==> s[0] != '0')
  }

  function DigitChar(d: nat): (c: char)
    requires d < 10
    ensures IsDigit(c) && (c as int) - ('0' as int) == d
  {
    (('0' as int) + d) as char
  }

  function DigitValue(c: char): (d: nat)
    requires IsDigit(c)
    ensures d < 10 && DigitChar(d) == c
  {
    (c as int) - ('0' as int)
  }

  /** The decimal text of `n`. */
  function FromNat(n: nat): (s: string)
    ensures IsCanonical(s)
    ensures n < 10 <==> |s| == 1
  {
    if n < 10 then [DigitChar(n)] else FromNat(n / 10) + [DigitChar(n % 10)]
  }

  /** The value of a string of decimal digits (the empty string reads as 0). */
  function ToNat(s: string): nat
    requires AllDigits(s)
  {
    if s == [] then 0 else ToNat(s[..|s| - 1]) * 10 + DigitValue(s[|s| - 1])
  }

  /** Reading back the text of `n` gives `n`. */
  lemma {:induction false} ToNatFromNat(n: nat)
    ensures ToNat(FromNat(n)) == n
  {
    var s := FromNat(n);
    if n < 10 {
      assert s[..|s| - 1] == [];
    } else {
      assert s[..|s| - 1] == FromNat(n / 10);
      ToNatFromNat(n / 10);
    }
  }

  /** Digits whose first digit is not '0' denote a positive number. */
  lemma {:induction false} ToNatPositive(s: string)
    requires |s| >= 1 && AllDigits(s) && s[0] != '0'
    ensures ToNat(s) >= 1
  {
    if |s| > 1 {
      ToNatPositive(s[..|s| - 1]);
    } else {
      assert s[..|s| - 1] == [];
    }
  }

  /** Every canonical decimal text is the text of the number it denotes. */
  lemma {:induction false} FromNatToNat(s: string)
    requires IsCanonical(s)
    ensures FromNat(ToNat(s)) == s
  {
    var init, d := s[..|s| - 1], DigitValue(s[|s| - 1]);
    if |s| == 1 {
      assert init == [];
      assert FromNat(ToNat(s)) == [DigitChar(d)];
    } else {
      ToNatPositive(init);
      FromNatToNat(init);
      var n := ToNat(s);
      assert n == ToNat(init) * 10 + d;
      assert n / 10 == ToNat(init) && n % 10 == d;
      assert s == init + [s[|s| - 1]];
    }
  }

  /** Distinct numbers have distinct decimal texts. */
  lemma FromNatInjective(m: nat, n: nat)
    requires FromNat(m) == FromNat(n)
    ensures m == n
  {
    ToNatFromNat(m);
    ToNatFromNat(n);
  }
}
