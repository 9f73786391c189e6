/**
 * Decimal text of integers, as Python writes it with `str(n)` and `f"{n:04d}"`,
 * and reads it back with `int(s)` (ASCII digits only). Both vision tools name
 * mask files with the zero-padded form.
 */
module Decimal {

  predicate IsDigit(c: char)
  {
    '0' <= c <= '9'
  }

  predicate AllDigits(s: string)
  {
    forall i :: 0 <= i < |s| ==> IsDigit(s[i])
  }

  function DigitChar(d: nat): (c: char)
    requires d < 10
    ensures IsDigit(c)
  {
    ('0' as int + d) as char
  }

  function DigitValue(c: char): nat
    requires IsDigit(c)
  {
    c as int - '0' as int
  }

  /** The number a string of digits denotes; leading zeros count for nothing. */
  function DigitsValue(s: string): nat
    requires AllDigits(s)
  {
    if s == [] then 0 else DigitsValue(s[..|s| - 1]) * 10 + DigitValue(s[|s| - 1])
  }

  /** `str(n)` for `n >= 0`. */
  function NatToString(n: nat): (s: string)
    ensures |s| >= 1 && AllDigits(s)
    ensures s[0] == '0' ==> n == 0
  {
    if n < 10 then [DigitChar(n)] else NatToString(n / 10) + [DigitChar(n % 10)]
  }

  /** `str(n)`. */
  function IntToString(n: int): string
  {
    if n < 0 then "-" + NatToString(-n) else NatToString(n)
  }

  /** `s` repeated zeros. */
  function Zeros(k: nat): (s: string)
    ensures |s| == k && AllDigits(s)
    ensures forall i :: 0 <= i < k ==> s[i] == '0'
  {
    if k == 0 then [] else Zeros(k - 1) + ['0']
  }

  /** The decimal digits of `n` padded with zeros on the left to at least `width`
      characters. */
  function ZeroPad(n: nat, width: nat): (s: string)
    ensures AllDigits(s) && |s| >= width
  {
    var digits := NatToString(n);
    (if |digits| < width then Zeros(width - |digits|) else []) + digits
  }

  /** `f"{n:04d}"`: the width of four includes the sign of a negative number. */
  function Format04d(n: int): (s: string)
    ensures |s| >= 4
  {
    if n < 0 then "-" + ZeroPad(-n, 3) else ZeroPad(n, 4)
  }

  /** Reading back the text `str` writes gives the number. */
  lemma {:induction false} NatToStringValue(n: nat)
    ensures DigitsValue(NatToString(n)) == n
  {
    if n >= 10 {
      NatToStringValue(n / 10);
      var s := NatToString(n / 10) + [DigitChar(n % 10)];
      assert s[..|s| - 1] == NatToString(n / 10);
    }
  }

  /** The value of a concatenation of digit strings. */
  lemma {:induction false} DigitsValueAppend(a: string, b: string)
    requires AllDigits(a) && AllDigits(b)
    ensures AllDigits(a + b)
    ensures DigitsValue(a + b) == DigitsValue(a) * Pow10(|b|) + DigitsValue(b)
  {
    if b == [] {
      assert a + b == a;
    } else {
      var b' := b[..|b| - 1];
      var last := b[|b| - 1];
      assert (a + b)[..|a + b| - 1] == a + b';
      assert (a + b)[|a + b| - 1] == last;
      DigitsValueAppend(a, b');
      ShiftDigit(DigitsValue(a), Pow10(|b'|), DigitsValue(b'), DigitValue(last));
    }
  }

  lemma ShiftDigit(va: int, p: int, vb: int, d: int)
    ensures (va * p + vb) * 10 + d == va * (p * 10) + (vb * 10 + d)
  {
  }

  function Pow10(k: nat): nat
  {
    if k == 0 then 1 else Pow10(k - 1) * 10
  }

  /** Zeros denote zero. */
  lemma {:induction false} ZerosValue(k: nat)
    ensures DigitsValue(Zeros(k)) == 0
  {
    if k > 0 {
      assert Zeros(k)[..k - 1] == Zeros(k - 1);
      ZerosValue(k - 1);
    }
  }

  /** Padding does not change the value. */
  lemma ZeroPadValue(n: nat, width: nat)
    ensures DigitsValue(ZeroPad(n, width)) == n
  {
    var digits := NatToString(n);
    var pad := if |digits| < width then Zeros(width - |digits|) else [];
    if |digits| < width {
      ZerosValue(width - |digits|);
    }
    DigitsValueAppend(pad, digits);
    NatToStringValue(n);
  }

  /** Distinct numbers get distinct four-digit names. */
  lemma Format04dInjective(a: int, b: int)
    requires Format04d(a) == Format04d(b)
    ensures a == b
  {
    assert a < 0 <==> Format04d(a)[0] == '-';
    assert b < 0 <==> Format04d(b)[0] == '-';
    if a < 0 && b < 0 {
      assert ZeroPad(-a, 3) == Format04d(a)[1..] == Format04d(b)[1..] == ZeroPad(-b, 3);
      ZeroPadValue(-a, 3);
      ZeroPadValue(-b, 3);
    } else if a >= 0 && b >= 0 {
      ZeroPadValue(a, 4);
      ZeroPadValue(b, 4);
    }
  }

  /** For 0 <= n < 10000 the name is exactly four digits. */
  lemma Format04dWidth(n: nat)
    requires n < 10000
    ensures |Format04d(n)| == 4
  {
    NatToStringLength(n);
  }

  lemma {:induction false} NatToStringLength(n: nat)
    ensures n < 10000 ==> |NatToString(n)| <= 4
    ensures n < 1000 ==> |NatToString(n)| <= 3
    ensures n < 100 ==> |NatToString(n)| <= 2
    ensures n < 10 ==> |NatToString(n)| == 1
  {
    if n >= 10 {
      NatToStringLength(n / 10);
    }
  }
}
