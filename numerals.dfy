/** Zero-padded decimal numerals, as `strftime` and `strptime` write and read them. */
module Numerals {

  predicate IsDigit(c: char) {
    '0' <= c <= '9'
  }

  predicate AllDigits(s: string) {
    forall i :: 0 <= i < |s| ==> IsDigit(s[i])
  }

  function DigitValue(c: char): nat
    requires IsDigit(c)
  {
    c as int - '0' as int
  }

  function DigitChar(d: nat): char
    requires d < 10
  {
    ('0' as int + d) as char
  }

  function Pow10(w: nat): (p: nat)
    ensures p >= 1
  {
    if w == 0 then 1 else 10 * Pow10(w - 1)
  }

  /** The last `w` decimal digits of `n`, zero-padded on the left. */
  function Pad(n: nat, w: nat): (r: string)
    ensures |r| == w && AllDigits(r)
  {
    if w == 0 then "" else Pad(n / 10, w - 1) + [DigitChar(n % 10)]
  }

  /** The number an all-digit string denotes (Python's `int(s)`). */
  function NumeralValue(s: string): nat
    requires AllDigits(s)
  {
    if s == [] then 0 else NumeralValue(s[..|s| - 1]) * 10 + DigitValue(s[|s| - 1])
  }

  /** A numeral of w digits denotes a number below 10^w. */
  lemma {:induction false} NumeralValueBound(s: string)
    requires AllDigits(s)
    ensures NumeralValue(s) < Pow10(|s|)
  {
    if s != [] {
      var front := s[..|s| - 1];
      NumeralValueBound(front);
      MulMonotone(NumeralValue(front) + 1, Pow10(|front|), 10);
    }
  }

  lemma ModUnique(n: nat, m: nat, q: nat, r: nat)
    requires 0 < m && n == q * m + r && r < m
    ensures n % m == r && n / m == q
  {
    var q0, r0 := n / m, n % m;
    assert q0 * m + r0 == q * m + r;
    if q0 < q {
      MulMonotone(q0 + 1, q, m);
    } else if q < q0 {
      MulMonotone(q + 1, q0, m);
    }
  }

  lemma MulMonotone(a: nat, b: nat, m: nat)
    requires a <= b
    ensures a * m <= b * m
  {
    assert b * m == a * m + (b - a) * m;
  }

  /** One decimal digit split off: ((n / 10) mod p) * 10 + n mod 10 == n mod 10p. */
  lemma ModStep(n: nat, p: nat)
    requires p >= 1
    ensures ((n / 10) % p) * 10 + n % 10 == n % (10 * p)
  {
    var t, d := n / 10, n % 10;
    var q, b := t / p, t % p;
    assert n == t * 10 + d;
    assert t == q * p + b;
    assert t * 10 == q * (10 * p) + b * 10;
    assert b * 10 + d < 10 * p by {
      MulMonotone(b + 1, p, 10);
    }
    ModUnique(n, 10 * p, q, b * 10 + d);
  }

  /** Reading back a padded numeral gives the number modulo 10^w. */
  lemma {:induction false} NumeralValuePad(n: nat, w: nat)
    ensures NumeralValue(Pad(n, w)) == n % Pow10(w)
  {
    if w > 0 {
      NumeralValuePad(n / 10, w - 1);
      var s := Pad(n, w);
      assert s[..|s| - 1] == Pad(n / 10, w - 1);
      ModStep(n, Pow10(w - 1));
    }
  }

  /** A number below 10^w is read back unchanged from its padded numeral. */
  lemma PadRoundTrip(n: nat, w: nat)
    requires n < Pow10(w)
    ensures NumeralValue(Pad(n, w)) == n
  {
    NumeralValuePad(n, w);
  }

  /** An all-digit string is the padded numeral of the number it denotes. */
  lemma {:induction false} PadNumeralValue(s: string)
    requires AllDigits(s)
    ensures Pad(NumeralValue(s), |s|) == s
  {
    if s != [] {
      var front, c := s[..|s| - 1], s[|s| - 1];
      var n := NumeralValue(s);
      PadNumeralValue(front);
      ModUnique(n, 10, NumeralValue(front), DigitValue(c));
      assert s == front + [c];
    }
  }

  /** Two numbers below 10^w have the same padded numeral only if they are equal. */
  lemma PadInjective(a: nat, b: nat, w: nat)
    requires a < Pow10(w) && b < Pow10(w)
    ensures Pad(a, w) == Pad(b, w) <==> a == b
  {
    PadRoundTrip(a, w);
    PadRoundTrip(b, w);
  }
}
