/** Decimal numerals as code units: JavaScript's `String` on a non-negative integer, zero
    padding, and reading a numeral back. */
module Decimal {
  import opened Text

  const ZERO: CodeUnit := 48

  predicate IsDigit(c: CodeUnit) {
    ZERO <= c <= ZERO + 9
  }

  predicate AllDigits(s: Str) {
    forall i :: 0 <= i < |s| ==> IsDigit(s[i])
  }

  /** `String(n)`. */
  function Print(n: nat): (s: Str)
    ensures s != [] && AllDigits(s)
    ensures n > 0 ==> s[0] != ZERO
    ensures n == 0 ==> s == [ZERO]
  {
    if n < 10 then [ZERO + n] else Print(n / 10) + [ZERO + n % 10]
  }

  /** The ten digits. */
  lemma DigitPrinted(n: nat)
    requires n < 10
    ensures Print(n) == [48 + n]
    ensures forall c: CodeUnit :: IsDigit(c) <==> c in {48, 49, 50, 51, 52, 53, 54, 55, 56, 57}
  {
  }

  function Value(s: Str): nat
    requires AllDigits(s)
  {
    if s == [] then 0 else 10 * Value(s[..|s|-1]) + (s[|s|-1] - ZERO)
  }

  lemma {:induction false} ValueOfPrint(n: nat)
    ensures Value(Print(n)) == n
  {
    if n >= 10 {
      ValueOfPrint(n / 10);
      assert Print(n)[..|Print(n)|-1] == Print(n / 10);
    }
  }

  lemma PrintIsInjective(m: nat, n: nat)
    requires Print(m) == Print(n)
    ensures m == n
  {
    ValueOfPrint(m);
    ValueOfPrint(n);
  }

  function Zeros(k: nat): (s: Str)
    ensures |s| == k && AllDigits(s) && forall i :: 0 <= i < k ==> s[i] == ZERO
  {
    seq(k, _ => ZERO)
  }

  /** `padStart(width, '0')`. */
  function PadStart(s: Str, width: nat): (t: Str)
    ensures AllDigits(s) ==> AllDigits(t)
    ensures |t| >= |s| && t[|t|-|s|..] == s
  {
    if |s| < width then Zeros(width - |s|) + s else s
  }

  lemma {:induction false} LeadingZeros(k: nat, s: Str)
    requires AllDigits(s)
    ensures Value(Zeros(k) + s) == Value(s)
  {
    var t := Zeros(k) + s;
    if s != [] {
      LeadingZeros(k, s[..|s|-1]);
      assert t[..|t|-1] == Zeros(k) + s[..|s|-1];
    } else if k > 0 {
      LeadingZeros(k - 1, []);
      assert t[..|t|-1] == Zeros(k - 1) + [];
    }
  }

  lemma ValueOfPadded(n: nat, width: nat)
    ensures Value(PadStart(Print(n), width)) == n
  {
    ValueOfPrint(n);
    if |Print(n)| < width { LeadingZeros(width - |Print(n)|, Print(n)); }
  }

  // ---------- fixed width ----------

  function Pow10(w: nat): (p: nat)
    ensures p > 0
  {
    if w == 0 then 1 else 10 * Pow10(w - 1)
  }

  /** The last `w` decimal digits of `n`. */
  function Fixed(n: nat, w: nat): (s: Str)
    ensures |s| == w && AllDigits(s)
  {
    if w == 0 then [] else Fixed(n / 10, w - 1) + [ZERO + n % 10]
  }

  lemma {:induction false} FixedValue(n: nat, w: nat)
    requires n < Pow10(w)
    ensures Value(Fixed(n, w)) == n
  {
    if w > 0 {
      FixedValue(n / 10, w - 1);
      assert Fixed(n, w)[..w-1] == Fixed(n / 10, w - 1);
    }
  }

  lemma {:induction false} FixedOrder(m: nat, n: nat, w: nat)
    requires m < n < Pow10(w)
    ensures Fixed(m, w) != Fixed(n, w) && LexLe(Fixed(m, w), Fixed(n, w))
  {
    if w > 0 {
      var a, b := Fixed(m / 10, w - 1), Fixed(n / 10, w - 1);
      if m / 10 < n / 10 {
        FixedOrder(m / 10, n / 10, w - 1);
        assert Fixed(m, w)[..w-1] == a && Fixed(n, w)[..w-1] == b;
      }
      var c, d := [ZERO + m % 10], [ZERO + n % 10];
      LexLePrefixed(a, b, c, d);
      assert m / 10 == n / 10 ==> c[0] < d[0];
      assert Fixed(m, w)[w-1] == c[0] && Fixed(n, w)[w-1] == d[0];
    }
  }

  /** Every text of digits is the fixed-width text of its value. */
  lemma {:induction false} FixedOfValue(s: Str)
    requires AllDigits(s)
    ensures Value(s) < Pow10(|s|) && Fixed(Value(s), |s|) == s
  {
    if s != [] {
      var rest, d: int := s[..|s|-1], s[|s|-1] - ZERO;
      FixedOfValue(rest);
      assert Value(s) == 10 * Value(rest) + d && Value(s) / 10 == Value(rest) && Value(s) % 10 == d;
      assert s == rest + [s[|s|-1]];
    }
  }
}
