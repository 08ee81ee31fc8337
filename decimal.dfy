/** Decimal digit strings as the expense store produces and reads them:
    the fixed-width zero-padded fields of `Date.prototype.toISOString` and
    of SQLite's `strftime`, `Number.prototype.toString` of a non-negative
    integer, and `String.prototype.padStart`. */
module Decimal {

  function Pow10(w: nat): (p: nat)
    ensures p >= 1
  {
    if w == 0 then 1 else 10 * Pow10(w - 1)
  }

  lemma {:induction false} Pow10Monotone(a: nat, b: nat)
    requires a <= b
    ensures Pow10(a) <= Pow10(b)
  {
    if a < b {
      Pow10Monotone(a, b - 1);
    }
  }

  predicate IsDigit(c: char) {
    '0' <= c <= '9'
  }

  predicate AllDigits(s: string) {
    forall i :: 0 <= i < |s| ==> IsDigit(s[i])
  }

  function DigitValue(c: char): (d: nat)
    requires IsDigit(c)
    ensures d < 10
  {
    c as int - '0' as int
  }

  function DigitChar(d: nat): (c: char)
    requires d < 10
    ensures IsDigit(c) && DigitValue(c) == d
  {
    ('0' as int + d) as char
  }

  lemma DigitCharOfValue(c: char)
    requires IsDigit(c)
    ensures DigitChar(DigitValue(c)) == c
  {
  }

  /** The digits of two numbers compare as the numbers do. */
  lemma DigitCharOrder(a: nat, b: nat)
    requires a < 10 && b < 10
    ensures DigitChar(a) <= DigitChar(b) <==> a <= b
  {
  }

  /** The lowest `w` decimal digits of `n`, most significant first, padded
      with leading zeros: the `%0wd` fields of an ISO-8601 timestamp. */
  function Pad(n: nat, w: nat): (s: string)
    ensures |s| == w && AllDigits(s)
  {
    if w == 0 then [] else Pad(n / 10, w - 1) + [DigitChar(n % 10)]
  }

  /** The number a string of decimal digits denotes. */
  function Value(s: string): nat
    requires AllDigits(s)
  {
    if s == [] then 0 else 10 * Value(s[..|s| - 1]) + DigitValue(s[|s| - 1])
  }

  lemma {:induction false} ValueOfPad(n: nat, w: nat)
    requires n < Pow10(w)
    ensures Value(Pad(n, w)) == n
  {
    if w > 0 {
      var p := Pad(n / 10, w - 1);
      assert Pad(n, w)[..w - 1] == p;
      assert n / 10 < Pow10(w - 1);
      ValueOfPad(n / 10, w - 1);
    }
  }

  lemma {:induction false} PadOfValue(s: string)
    requires AllDigits(s)
    ensures Value(s) < Pow10(|s|)
    ensures Pad(Value(s), |s|) == s
  {
    if s != [] {
      var init, last := s[..|s| - 1], s[|s| - 1];
      PadOfValue(init);
      var v := Value(s);
      assert v == 10 * Value(init) + DigitValue(last);
      assert v / 10 == Value(init) && v % 10 == DigitValue(last);
      DigitCharOfValue(last);
      assert s == init + [last];
    }
  }

  lemma PadInjective(a: nat, b: nat, w: nat)
    requires a < Pow10(w) && b < Pow10(w)
    ensures Pad(a, w) == Pad(b, w) <==> a == b
  {
    ValueOfPad(a, w);
    ValueOfPad(b, w);
  }

  /** `Number.prototype.toString()` of a non-negative integer: its decimal
      digits without leading zeros. */
  function ToDecimal(n: nat): (s: string)
    ensures 1 <= |s| && AllDigits(s)
    ensures Value(s) == n
    ensures |s| == 1 || s[0] != '0'
  {
    if n < 10 then [DigitChar(n)]
    else
      var high := ToDecimal(n / 10);
      assert (high + [DigitChar(n % 10)])[..|high|] == high;
      high + [DigitChar(n % 10)]
  }

  /** `ToDecimal(n)` is `n` padded to its own width, and that width is the
      number of digits of `n`. */
  lemma {:induction false} ToDecimalIsPad(n: nat)
    ensures ToDecimal(n) == Pad(n, |ToDecimal(n)|)
    ensures n < Pow10(|ToDecimal(n)|)
    ensures |ToDecimal(n)| == 1 || Pow10(|ToDecimal(n)| - 1) <= n
  {
    if n >= 10 {
      ToDecimalIsPad(n / 10);
      var k := |ToDecimal(n / 10)|;
      assert ToDecimal(n) == Pad(n / 10, k) + [DigitChar(n % 10)];
      assert n < 10 * Pow10(k);
      if k > 1 {
        assert 10 * Pow10(k - 1) <= 10 * (n / 10);
      }
    }
  }

  /** `ToDecimal(n)` has exactly `w` characters iff `n` has `w` digits. */
  lemma ToDecimalWidth(n: nat, w: nat)
    requires w >= 1
    ensures |ToDecimal(n)| == w <==> (w == 1 || Pow10(w - 1) <= n) && n < Pow10(w)
  {
    ToDecimalIsPad(n);
    var k := |ToDecimal(n)|;
    if (w == 1 || Pow10(w - 1) <= n) && n < Pow10(w) {
      if k < w {
        Pow10Monotone(k, w - 1);
      } else if k > w {
        Pow10Monotone(w, k - 1);
      }
    }
  }

  /** `String.prototype.padStart(width, fill)` with a one-character fill:
      the string is kept at the end and filled up to `width` on the left. */
  function PadStart(s: string, width: nat, fill: char): (r: string)
    ensures |r| == if |s| >= width then |s| else width
    ensures r[|r| - |s|..] == s
    ensures forall i :: 0 <= i < |r| - |s| ==> r[i] == fill
  {
    if |s| >= width then s else seq(width - |s|, _ => fill) + s
  }
}
