/**
 * The few pieces of JavaScript number semantics that the calendar, prayer-time
 * and app code rely on, stated over Dafny's exact `int` and `real`:
 * `Math.floor`, `Math.round`, the truncating `%` operator, and
 * `Number.prototype.toString` / `padStart(2, '0')` on integers.
 * NaN is modelled as `None`.
 */
module JsNumbers {

  datatype Option<T> = None | Some(value: T)

  /** `Math.floor(a / b)` for integers `a` and a positive integer `b`. */
  function FloorDiv(a: int, b: int): (q: int)
    requires b > 0
    ensures q == a / b
  {
    var r := ((a as real) / (b as real)).Floor;
    FloorOfQuotient(a, b);
    r
  }

  lemma FloorOfQuotient(a: int, b: int)
    requires b > 0
    ensures ((a as real) / (b as real)).Floor == a / b
  {
    var q, m := a / b, a % b;
    assert a == q * b + m && 0 <= m < b;
    var x := (a as real) / (b as real);
    assert (a as real) == (q as real) * (b as real) + (m as real);
    assert x == (q as real) + (m as real) / (b as real);
    assert 0.0 <= (m as real) / (b as real) < 1.0;
  }

  /** Truncation toward zero, as used by JavaScript's `%`. */
  function Trunc(x: real): (r: int)
    ensures x >= 0.0 ==> r as real <= x < r as real + 1.0
    ensures x < 0.0 ==> r as real - 1.0 < x <= r as real
  {
    if x >= 0.0 then x.Floor else -((-x).Floor)
  }

  /** JavaScript `a % n` on integers: the remainder takes the sign of `a`. */
  function IntRem(a: int, n: int): (r: int)
    requires n > 0
    ensures -n < r < n
    ensures a >= 0 ==> r >= 0
    ensures a <= 0 ==> r <= 0
    ensures (if r < 0 then r + n else r) == a % n
  {
    if a >= 0 then a % n
    else
      var m, k := (-a) % n, (-a) / n;
      assert -a == n * k + m;
      if m == 0 then DivModUnique(a, n, -k, 0); 0
      else DivModUnique(a, n, -k - 1, n - m); -m
  }

  lemma MulNonNegative(x: int, y: int)
    requires x >= 0 && y >= 0
    ensures x * y >= 0
  {
  }

  /** Euclidean division is determined by its defining equation. */
  lemma DivModUnique(a: int, n: int, q: int, r: int)
    requires n > 0 && a == n * q + r && 0 <= r < n
    ensures a / n == q && a % n == r
  {
    var q', r' := a / n, a % n;
    var t := q - q';
    assert n * q == n * q' + n * t;
    assert n * t == r' - r;
    if t > 0 { MulNonNegative(n, t - 1); }
    if t < 0 { MulNonNegative(n, -t - 1); }
  }

  /** JavaScript `x % n` on numbers (n > 0): `x - n * trunc(x / n)`. */
  function RealRem(x: real, n: real): (r: real)
    requires n > 0.0
    ensures -n < r < n
    ensures x >= 0.0 ==> 0.0 <= r
    ensures x <= 0.0 ==> r <= 0.0
    ensures (x - r) / n == Trunc(x / n) as real
  {
    var q := x / n;
    var k := Trunc(q);
    assert x == q * n;
    var r := x - n * (k as real);
    var f := q - k as real;
    assert r == f * n;
    RealMulPositive(1.0 - f, n);
    RealMulPositive(1.0 + f, n);
    RealMulNonNegative(if x >= 0.0 then f else -f, n);
    r
  }

  lemma RealMulPositive(a: real, b: real)
    requires a > 0.0 && b > 0.0
    ensures a * b > 0.0
  {
  }

  lemma RealMulNonNegative(a: real, b: real)
    requires a >= 0.0 && b >= 0.0
    ensures a * b >= 0.0
  {
  }

  /** `Math.round`: the nearest integer, halves rounded up (floor(x + 1/2)). */
  function Round(x: real): (r: int)
    ensures x - 0.5 < r as real <= x + 0.5
  {
    (x + 0.5).Floor
  }

  /** The decimal digit character of `d`. */
  function DigitChar(d: int): (c: char)
    requires 0 <= d < 10
    ensures '0' <= c <= '9'
    ensures c as int - '0' as int == d
  {
    (d + '0' as int) as char
  }

  predicate IsDigits(s: string)
  {
    forall i :: 0 <= i < |s| ==> '0' <= s[i] <= '9'
  }

  /** The number a string of decimal digits denotes (the parse that inverts `NatString`). */
  function DigitsValue(s: string): nat
    requires IsDigits(s)
  {
    if s == [] then 0 else 10 * DigitsValue(s[..|s| - 1]) + (s[|s| - 1] as int - '0' as int)
  }

  /** `n.toString()` for a non-negative integer: its decimal digits, no leading zero. */
  function NatString(n: nat): (s: string)
    ensures 1 <= |s| && IsDigits(s)
    ensures DigitsValue(s) == n
    ensures |s| == 1 <==> n < 10
    ensures |s| > 1 ==> s[0] != '0'
    decreases n
  {
    if n < 10 then [DigitChar(n)]
    else
      var p := NatString(n / 10);
      var s := p + [DigitChar(n % 10)];
      assert s[..|s| - 1] == p;
      s
  }

  /** `n.toString()` for any integer. */
  function IntString(n: int): (s: string)
    ensures n >= 0 ==> s == NatString(n)
    ensures n < 0 ==> s == "-" + NatString(-n)
  {
    if n < 0 then "-" + NatString(-n) else NatString(n)
  }

  /** `n.toString().padStart(2, '0')`. */
  function PadTwo(n: int): (s: string)
    ensures 0 <= n < 100 ==> |s| == 2 && IsDigits(s) && DigitsValue(s) == n
    ensures n >= 10 ==> s == NatString(n)
  {
    var t := IntString(n);
    if |t| < 2 then "0" + t else t
  }
}
