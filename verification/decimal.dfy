/**
 * Decimal digit strings: the integer-to-text conversions that the bot's
 * f-strings and strftime directives perform (plain `str(n)` and zero-padded
 * fixed-width fields), together with reading a digit string back.
 */
module Decimal {

  predicate IsDigit(c: char) {
    '0' <= c <= '9'
  }

  predicate AllDigits(s: string) {
    forall i :: 0 <= i < |s| ==> IsDigit(s[i])
  }

  function DigitChar(d: nat): (c: char)
    requires d < 10
    ensures IsDigit(c)
  {
    (('0' as int) + d) as char
  }

  function DigitValue(c: char): (d: nat)
    requires IsDigit(c)
    ensures d < 10
  {
    (c as int) - ('0' as int)
  }

  /** The number a digit string denotes in base ten; the empty string reads as 0. */
  function Value(s: string): nat
    requires AllDigits(s)
  {
    if s == [] then 0 else Value(s[..|s| - 1]) * 10 + DigitValue(s[|s| - 1])
  }

  function Pow10(k: nat): (p: nat)
    ensures p >= 1
  {
    if k == 0 then 1 else 10 * Pow10(k - 1)
  }

  /** Appending one digit multiplies the value read so far by ten. */
  lemma ValueSnoc(s: string, c: char)
    requires AllDigits(s) && IsDigit(c)
    ensures AllDigits(s + [c]) && Value(s + [c]) == Value(s) * 10 + DigitValue(c)
  {
    assert (s + [c])[..|s|] == s;
  }

  /**
   * Python's `str(n)` for a non-negative int: the shortest decimal numeral,
   * with no leading zero except for zero itself, reading back as `n`.
   */
  function Digits(n: nat): (s: string)
    ensures |s| >= 1 && AllDigits(s)
    ensures Value(s) == n
    ensures s[0] == '0' <==> n == 0
    ensures n == 0 ==> s == "0"
  {
    if n < 10 then
      [DigitChar(n)]
    else
      var s := Digits(n / 10) + [DigitChar(n % 10)];
      ValueSnoc(Digits(n / 10), DigitChar(n % 10));
      s
  }

  /**
   * The last `w` decimal digits of `n`, zero-padded on the left: the `%02d`
   * style fields of strftime (`%H`, `%M`, `%S` with w = 2, `%f` with w = 6)
   * and the 3-digit groups of a thousands-separated numeral.
   */
  function PadDigits(n: nat, w: nat): (s: string)
    ensures |s| == w && AllDigits(s)
  {
    if w == 0 then [] else PadDigits(n / 10, w - 1) + [DigitChar(n % 10)]
  }

  /** A padded field reads back as the number modulo `10^w`. */
  lemma {:induction false} PadDigitsValue(n: nat, w: nat)
    ensures Value(PadDigits(n, w)) == n % Pow10(w)
  {
    if w > 0 {
      PadDigitsValue(n / 10, w - 1);
      ValueSnoc(PadDigits(n / 10, w - 1), DigitChar(n % 10));
      DivModTen(n, Pow10(w - 1));
    }
  }

  /** Peeling one decimal digit off `n` before or after reducing modulo `10 * p`. */
  lemma DivModTen(n: nat, p: nat)
    requires p >= 1
    ensures n / 10 / p == n / (10 * p)
    ensures (n / 10 % p) * 10 + n % 10 == n % (10 * p)
    ensures n % (10 * p) / 10 == n / 10 % p
    ensures n % (10 * p) % 10 == n % 10
  {
    var q, r := n / 10, n % 10;
    var q2, r2 := q / p, q % p;
    assert n == (10 * p) * q2 + (10 * r2 + r);
    assert 0 <= 10 * r2 + r < 10 * p;
    DivModUnique(n, 10 * p, q2, 10 * r2 + r);
    DivModUnique(10 * r2 + r, 10, r2, r);
  }

  lemma DivModUnique(n: int, d: int, q: int, r: int)
    requires d > 0 && 0 <= r < d && n == d * q + r
    ensures n / d == q && n % d == r
  {
    var q', r' := n / d, n % d;
    assert d * (q - q') == r' - r;
    if q > q' {
      MulAtLeast(d, q - q');
    } else if q < q' {
      MulAtLeast(d, q' - q);
    }
  }

  lemma MulAtLeast(d: int, k: int)
    requires d > 0 && k >= 1
    ensures d * k >= d
  {
    assert d * k == d + d * (k - 1);
  }

  /**
   * The numeral of `n >= 1000` is the numeral of `n / 1000` followed by the
   * last three digits of `n`, zero-padded: the step of inserting a thousands
   * separator.
   */
  lemma DigitsSplit3(n: nat)
    requires n >= 1000
    ensures Digits(n) == Digits(n / 1000) + PadDigits(n % 1000, 3)
  {
    var q1 := n / 10;
    var q2 := q1 / 10;
    var q3 := q2 / 10;
    var d0, d1, d2 := n % 10, q1 % 10, q2 % 10;
    var lo := n % 1000;
    DivModUnique(n, 1000, q3, 100 * d2 + 10 * d1 + d0);
    DigitsStep(n);
    DigitsStep(q1);
    DigitsStep(q2);
    PadDigitsThree(lo, d2, d1, d0);
    SnocThree(Digits(n), Digits(q1), Digits(q2), Digits(q3), DigitChar(d2), DigitChar(d1), DigitChar(d0));
  }

  lemma DigitsStep(n: nat)
    requires n >= 10
    ensures Digits(n) == Digits(n / 10) + [DigitChar(n % 10)]
  {
  }

  /** Three digits below ten, padded to width three. */
  lemma PadDigitsThree(n: nat, a: nat, b: nat, c: nat)
    requires a < 10 && b < 10 && c < 10 && n == 100 * a + 10 * b + c
    ensures PadDigits(n, 3) == [DigitChar(a), DigitChar(b), DigitChar(c)]
  {
    var m := 10 * a + b;
    PadStep(n, 3, m, c);
    PadDigitsTwo(m, a, b);
  }

  lemma PadDigitsTwo(n: nat, a: nat, b: nat)
    requires a < 10 && b < 10 && n == 10 * a + b
    ensures PadDigits(n, 2) == [DigitChar(a), DigitChar(b)]
  {
    PadStep(n, 2, a, b);
    PadDigitsOne(a);
  }

  lemma PadDigitsOne(a: nat)
    requires a < 10
    ensures PadDigits(a, 1) == [DigitChar(a)]
  {
    PadStep(a, 1, 0, a);
    assert PadDigits(0, 0) == [];
  }

  /** One digit of a padded field, given the quotient and remainder by ten. */
  lemma PadStep(n: nat, w: nat, q: nat, r: nat)
    requires w >= 1 && r < 10 && n == 10 * q + r
    ensures PadDigits(n, w) == PadDigits(q, w - 1) + [DigitChar(r)]
  {
    DivModUnique(n, 10, q, r);
  }

  lemma SnocThree<T>(s: seq<T>, s1: seq<T>, s2: seq<T>, s3: seq<T>, x2: T, x1: T, x0: T)
    requires s == s1 + [x0] && s1 == s2 + [x1] && s2 == s3 + [x2]
    ensures s == s3 + [x2, x1, x0]
  {
  }

  /** Dropping the last digit of a padded field pads the quotient by ten. */
  lemma PadDigitsDrop(n: nat, w: nat)
    requires w >= 1
    ensures PadDigits(n, w)[..w - 1] == PadDigits(n / 10, w - 1)
  {
    assert PadDigits(n, w) == PadDigits(n / 10, w - 1) + [DigitChar(n % 10)];
  }

  /** A two-digit field of a number below 100 reads back as that number. */
  lemma PadDigits2(x: nat)
    requires x < 100
    ensures Value(PadDigits(x, 2)) == x
  {
    PadDigitsValue(x, 2);
    assert Pow10(2) == 100;
  }
}
