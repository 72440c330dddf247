/** Real-number stand-ins for the C library numerics the simulation uses:
    the constant M_PI, `round` (half away from zero), `fmod` (truncating),
    the truncating integer remainder `%`, and cos/exp as supplied functions. */
module Numerics {

  /** The binary64 value of M_PI, written exactly as a rational. */
  const Pi: real := 884279719003555.0 / 281474976710656.0

  const TwoPi: real := 2.0 * Pi

  lemma PiBounds()
    ensures 3.14159 < Pi < 3.1416
  {}

  /** C `fabs`. */
  function Abs(x: real): (r: real)
    ensures r >= 0.0 && (r == x || r == -x)
  {
    if x < 0.0 then -x else x
  }

  /** C `round`: nearest integer, ties away from zero. */
  function Round(x: real): (r: int)
    ensures x - 0.5 <= r as real <= x + 0.5
    ensures x >= 0.0 ==> r as real > x - 0.5
    ensures x < 0.0 ==> (r as real) < x + 0.5
  {
    if x >= 0.0 then (x + 0.5).Floor else -((-x + 0.5).Floor)
  }

  /** Truncation toward zero, as C's conversion of a quotient to an integer. */
  function Trunc(x: real): (r: int)
    ensures x >= 0.0 ==> 0.0 <= r as real <= x && x < r as real + 1.0
    ensures x < 0.0 ==> x <= r as real <= 0.0 && r as real - 1.0 < x
  {
    if x >= 0.0 then x.Floor else -((-x).Floor)
  }

  /** C `fmod`: the remainder of a truncating division (divisor non-zero). */
  function Fmod(x: real, y: real): real
    requires y != 0.0
  {
    x - y * Trunc(x / y) as real
  }

  /** With the period 2*Pi used by the charge computation, the remainder has
      the sign of the dividend and magnitude below 2*Pi. */
  lemma FmodTwoPiBounds(x: real)
    ensures x >= 0.0 ==> 0.0 <= Fmod(x, TwoPi) < TwoPi
    ensures x < 0.0 ==> -TwoPi < Fmod(x, TwoPi) <= 0.0
  {
    var z := x / TwoPi;
    assert x == TwoPi * z;
  }

  /** Real product, kept as a named term so that facts about one product of
      compound factors are recognised where the same product is used. */
  function Scale(y: real, w: real): real
  {
    y * w
  }

  /** A factor in [0, 1) shrinks a positive quantity. */
  lemma ScaleBelow(y: real, w: real)
    requires y > 0.0 && 0.0 <= w < 1.0
    ensures 0.0 <= Scale(y, w) < y
  {
    assert y - y * w == y * (1.0 - w);
  }

  /** The point a fraction u of the way from lo to hi: how a uniform real
      distribution on [lo, hi) maps a canonical draw. */
  function Lerp(lo: real, hi: real, u: real): (x: real)
    requires lo < hi && 0.0 <= u < 1.0
    ensures lo <= x < hi
  {
    ScaleBelow(hi - lo, u);
    lo + Scale(hi - lo, u)
  }

  /** C/C++ `%` on int: the remainder of a truncating division, sign of the dividend. */
  function TruncRem(x: int, n: int): (r: int)
    requires n > 0
    ensures x >= 0 ==> 0 <= r < n && r == x % n
    ensures x < 0 ==> -n < r <= 0
  {
    if x >= 0 then x % n else -((-x) % n)
  }

  /** Stand-ins for cos and exp of the C library: any pair of functions with
      the properties below may be supplied. */
  datatype Analytic = Analytic(cos: real -> real, exp: real -> real)

  ghost predicate Admissible(f: Analytic)
  {
    && f.cos(0.0) == 1.0
    && (forall x :: -1.0 <= f.cos(x) <= 1.0)
    && (forall x :: f.cos(-x) == f.cos(x))
    && f.exp(0.0) == 1.0
    && (forall x :: f.exp(x) > 0.0)
    && (forall x :: x > 0.0 ==> f.exp(x) > 1.0)
    && (forall x :: x < 0.0 ==> f.exp(x) < 1.0)
  }
}
