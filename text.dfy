/** Decimal digits as PHP reads them (`(\d+)` groups) and writes them
    (`%d`, `%02d`, `%04d`), and ASCII lower-casing (`strtolower`). */
module Text {

  predicate IsDigit(c: char) { '0' <= c <= '9' }

  predicate AllDigits(s: string) { forall i :: 0 <= i < |s| ==> IsDigit(s[i]) }

  function Pow10(k: nat): (r: nat)
    ensures r >= 1
  {
    if k == 0 then 1 else 10 * Pow10(k - 1)
  }

  function Digit(d: nat): (c: char)
    requires d < 10
    ensures IsDigit(c) && c as int - '0' as int == d
  {
    ('0' as int + d) as char
  }

  /** The value of a string of decimal digits, most significant first. */
  function DecimalValue(s: string): (r: nat)
    requires AllDigits(s)
    ensures r < Pow10(|s|)
  {
    if s == [] then 0
    else DecimalValue(s[..|s| - 1]) * 10 + (s[|s| - 1] as int - '0' as int)
  }

  /** `sprintf('%d', n)` for a non-negative n: no sign, no leading zero. */
  function DecimalString(n: nat): (s: string)
    ensures 1 <= |s|
  {
    if n < 10 then [Digit(n)] else DecimalString(n / 10) + [Digit(n % 10)]
  }

  /** `%d` writes digits only, reads back as the number, and starts with `0`
      only for zero itself. */
  lemma {:induction false} DecimalStringReadsBack(n: nat)
    ensures AllDigits(DecimalString(n))
    ensures DecimalValue(DecimalString(n)) == n
    ensures DecimalString(n)[0] == '0' ==> n == 0
  {
    if n >= 10 {
      DecimalStringReadsBack(n / 10);
      var d := DecimalString(n);
      assert d[..|d| - 1] == DecimalString(n / 10);
    }
  }

  function Zeros(k: nat): (z: string)
    ensures |z| == k && AllDigits(z)
    ensures forall i :: 0 <= i < k ==> z[i] == '0'
  {
    seq(k, _ => '0')
  }

  /** `sprintf('%0<width>d', n)` for a non-negative n: padded with zeros to at
      least `width` characters, never truncated. */
  function ZeroPad(n: nat, width: nat): (s: string)
  {
    var d := DecimalString(n);
    (if |d| < width then Zeros(width - |d|) else []) + d
  }

  lemma {:induction false} LeadingZerosIgnored(k: nat, s: string)
    requires AllDigits(s)
    ensures AllDigits(Zeros(k) + s)
    ensures DecimalValue(Zeros(k) + s) == DecimalValue(s)
    decreases |s|
  {
    var t := Zeros(k) + s;
    if s == [] {
      assert t == Zeros(k);
      AllZerosValue(k);
    } else {
      assert t[..|t| - 1] == Zeros(k) + s[..|s| - 1];
      LeadingZerosIgnored(k, s[..|s| - 1]);
    }
  }

  lemma {:induction false} AllZerosValue(k: nat)
    ensures DecimalValue(Zeros(k)) == 0
  {
    if k > 0 {
      assert Zeros(k)[..k - 1] == Zeros(k - 1);
      AllZerosValue(k - 1);
    }
  }

  /** `%d` has as many digits as the value needs: fewer than k digits exactly
      when the value is below 10^k. */
  lemma {:induction false} DecimalLength(n: nat, k: nat)
    requires k >= 1
    ensures |DecimalString(n)| <= k <==> n < Pow10(k)
  {
    if n >= 10 {
      if k == 1 {
        assert |DecimalString(n)| == |DecimalString(n / 10)| + 1;
      } else {
        DecimalLength(n / 10, k - 1);
      }
    }
  }

  /** A zero-padded number reads back as itself and is exactly `width` long
      when it fits. */
  lemma ZeroPadReadsBack(n: nat, width: nat)
    ensures AllDigits(ZeroPad(n, width)) && DecimalValue(ZeroPad(n, width)) == n
    ensures width >= 1 ==> (|ZeroPad(n, width)| == width <==> n < Pow10(width))
    ensures |ZeroPad(n, width)| >= width
  {
    var d := DecimalString(n);
    DecimalStringReadsBack(n);
    if |d| < width {
      LeadingZerosIgnored(width - |d|, d);
    } else {
      assert ZeroPad(n, width) == d;
    }
    if width >= 1 {
      DecimalLength(n, width);
    }
  }

  /** Two digit strings of the same length with the same value are equal. */
  lemma {:induction false} DecimalValueInjective(a: string, b: string)
    requires AllDigits(a) && AllDigits(b) && |a| == |b|
    requires DecimalValue(a) == DecimalValue(b)
    ensures a == b
    decreases |a|
  {
    if a != [] {
      var n := |a|;
      var x, y := a[n - 1] as int - '0' as int, b[n - 1] as int - '0' as int;
      LastDigitSplits(DecimalValue(a[..n - 1]), x, DecimalValue(b[..n - 1]), y);
      DecimalValueInjective(a[..n - 1], b[..n - 1]);
      assert a == a[..n - 1] + [a[n - 1]] && b == b[..n - 1] + [b[n - 1]];
    }
  }

  /** The last decimal digit and the digits before it determine each other. */
  lemma LastDigitSplits(p: int, x: int, q: int, y: int)
    requires 0 <= x < 10 && 0 <= y < 10 && p * 10 + x == q * 10 + y
    ensures x == y && p == q
  {
  }

  /** PHP's `strtolower` on one character: ASCII letters only. */
  function LowerChar(c: char): (r: char)
    ensures 'A' <= c <= 'Z' ==> r as int == c as int + 32
    ensures !('A' <= c <= 'Z') ==> r == c
  {
    if 'A' <= c <= 'Z' then (c as int + 32) as char else c
  }

  function ToLower(s: string): (r: string)
    ensures |r| == |s|
    ensures forall i :: 0 <= i < |s| ==> r[i] == LowerChar(s[i])
  {
    if s == [] then [] else [LowerChar(s[0])] + ToLower(s[1..])
  }
}
