/**
 * The two pieces of Python numeric behaviour the renderer relies on, written
 * out over exact reals: `int(v)` on a float truncates toward zero, and `x % c`
 * on floats is a floored modulo whose result takes the sign of the divisor.
 */
module Numeric {

  /** Python's `int(v)` for a float `v`: truncation toward zero. */
  function Trunc(v: real): (n: int)
    ensures 0.0 <= v ==> n as real <= v < n as real + 1.0
    ensures v < 0.0 ==> n as real - 1.0 < v <= n as real
  {
    if v >= 0.0 then v.Floor else -((-v).Floor)
  }

  /** Truncation leaves whole numbers alone. */
  lemma TruncOfInt(n: int)
    ensures Trunc(n as real) == n
  {
  }

  /** A real is a whole number. */
  predicate IsIntegral(v: real) {
    v.Floor as real == v
  }

  /** Python's `x % c` for floats (floored modulo), in exact arithmetic. */
  function FloatMod(x: real, c: real): (r: real)
    requires c != 0.0
    ensures 0.0 < c ==> 0.0 <= r < c
    ensures c < 0.0 ==> c < r <= 0.0
    ensures r == 0.0 <==> IsIntegral(x / c)
  {
    FloorFraction(x, c);
    x - c * (x / c).Floor as real
  }

  lemma FloorFraction(x: real, c: real)
    requires c != 0.0
    ensures var r := x - c * (x / c).Floor as real;
      (0.0 < c ==> 0.0 <= r < c) && (c < 0.0 ==> c < r <= 0.0) && (r == 0.0 <==> IsIntegral(x / c))
  {
    var v := x / c;
    var q := v.Floor as real;
    var f := v - q;
    var r := x - c * q;
    assert 0.0 <= f < 1.0;
    Factor(x, c, v, q, r);
    Scaled(c, f, r);
  }

  lemma Factor(x: real, c: real, v: real, q: real, r: real)
    requires c != 0.0 && v == x / c && r == x - c * q
    ensures r == c * (v - q)
  {
    assert c * v == x;
  }

  lemma Scaled(c: real, f: real, r: real)
    requires c != 0.0 && 0.0 <= f < 1.0 && r == c * f
    ensures 0.0 < c ==> 0.0 <= r < c
    ensures c < 0.0 ==> c < r <= 0.0
    ensures r == 0.0 <==> f == 0.0
  {
    var g := 1.0 - f;
    assert c - r == c * g;
    if 0.0 < c {
      assert 0.0 < c * g;
      assert 0.0 <= c * f;
    } else {
      assert c * g < 0.0;
      assert c * f <= 0.0;
    }
  }

  /**
   * For a whole positive divisor, Python's float modulo of a whole number is
   * the integer remainder (Dafny's `%` agrees with Python's for a positive
   * divisor).
   */
  lemma FloatModOfInts(i: int, n: int)
    requires 0 < n
    ensures FloatMod(i as real, n as real) == (i % n) as real
  {
    var q, r := i / n, i % n;
    assert i == q * n + r && 0 <= r < n;
    assert i as real / n as real == q as real + r as real / n as real;
    assert 0.0 <= r as real / n as real < 1.0;
    assert (i as real / n as real).Floor == q;
  }

  /** A multiple of a whole number: the meaning of `a % d == 0` in any sign convention. */
  ghost predicate DividedBy(a: int, d: int) {
    exists q: int :: q * d == a
  }

  /**
   * `a % d == 0` holds exactly when `d` divides `a`; this is true of Dafny's
   * Euclidean `%` and of Python's floored `%` alike, so a zero test written
   * with either means the same thing.
   */
  lemma {:induction false} ModZeroIffDivides(a: int, d: int)
    requires d != 0
    ensures a % d == 0 <==> DividedBy(a, d)
  {
    if a % d == 0 {
      assert (a / d) * d == a;
    }
    if DividedBy(a, d) {
      var q :| q * d == a;
      UniqueRemainder(a, d, q);
    }
  }

  lemma UniqueRemainder(a: int, d: int, q: int)
    requires d != 0 && q * d == a
    ensures a % d == 0
  {
    var t := q - a / d;
    assert t * d == a % d by {
      assert a == (a / d) * d + a % d;
      assert t * d == q * d - (a / d) * d;
    }
    if t != 0 {
      NonZeroMultiple(t, d);
    }
  }

  lemma NonZeroMultiple(t: int, d: int)
    requires t != 0 && d != 0
    ensures t * d >= d || t * d <= -d
    ensures t * d >= -d || t * d <= d
  {
    var u := if t > 0 then t - 1 else -t - 1;
    var e := if d > 0 then d else -d;
    assert 0 <= u * e;
    if t > 0 && d > 0 {
      assert t * d == u * e + e;
    } else if t > 0 {
      assert t * d == -(u * e) - e;
    } else if d > 0 {
      assert t * d == -(u * e) - e;
    } else {
      assert t * d == u * e + e;
    }
  }
}
