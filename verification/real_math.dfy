/**
 Real-number stand-ins for the `f32` operations the ship physics uses.

 Quantities are modelled as exact `real`s (no IEEE rounding). `sin`, `cos`
 and `sqrt` cannot be computed in Dafny, so they travel as a `Numerics`
 record of total functions; `sqrt` is constrained by `SqrtAxioms`, while
 `sin` and `cos` are left entirely abstract.
 */
module RealMath {

  /** `std::f32::consts::TAU` as the exact value of the `f32` it denotes. */
  const TAU: real := 6.283185482025146484375

  /** The transcendental functions the integrator calls, left uninterpreted. */
  datatype Numerics = Numerics(sin: real -> real, cos: real -> real, sqrt: real -> real)

  /** The only facts assumed of `sqrt`: it is the non-negative square root on non-negative inputs. */
  ghost predicate SqrtAxioms(m: Numerics) {
    forall x: real :: 0.0 <= x ==> IsRoot(m, x)
  }

  /** `sqrt(x)` is the non-negative square root of `x`. */
  ghost predicate IsRoot(m: Numerics, x: real) {
    0.0 <= m.sqrt(x) && m.sqrt(x) * m.sqrt(x) == x
  }

  /** The square-root fact for one argument, brought into scope on demand. */
  lemma Root(m: Numerics, x: real)
    requires SqrtAxioms(m) && 0.0 <= x
    ensures 0.0 <= m.sqrt(x) && m.sqrt(x) * m.sqrt(x) == x
  {
    assert IsRoot(m, x);
  }

  function Max(a: real, b: real): real {
    if a < b then b else a
  }

  lemma PositiveProduct(a: real, b: real)
    requires 0.0 < a && 0.0 < b
    ensures 0.0 < a * b
  {
  }

  /** Squaring is strictly increasing on the non-negative reals. */
  lemma SquareLess(u: real, v: real)
    requires 0.0 <= u < v
    ensures u * u < v * v
  {
    assert v * v - u * u == (v - u) * (v + u);
    PositiveProduct(v - u, v + u);
  }

  /** The square root of a non-negative number is the only non-negative number squaring to it. */
  lemma SqrtUnique(m: Numerics, x: real, y: real)
    requires SqrtAxioms(m)
    requires 0.0 <= y && y * y == x
    ensures m.sqrt(x) == y
  {
    var s := m.sqrt(x);
    Root(m, x);
    if s < y {
      SquareLess(s, y);
    } else if y < s {
      SquareLess(y, s);
    }
  }

  /** `sqrt` is monotone: a non-negative value whose square bounds `x` bounds `sqrt(x)`. */
  lemma SqrtAtMost(m: Numerics, x: real, y: real)
    requires SqrtAxioms(m)
    requires 0.0 <= x <= y * y && 0.0 <= y
    ensures m.sqrt(x) <= y
  {
    var s := m.sqrt(x);
    Root(m, x);
    if y < s {
      SquareLess(y, s);
    }
  }

  /** Integer part of `q`, rounding toward zero as Rust's float-to-integer conversion does. */
  function Trunc(q: real): (t: int)
    ensures 0.0 <= q ==> 0 <= t && t as real <= q < t as real + 1.0
    ensures q <= 0.0 ==> t <= 0 && t as real - 1.0 < q <= t as real
  {
    if q >= 0.0 then q.Floor else -((-q).Floor)
  }

  /** `d` is a whole number of turns. */
  predicate IsWholeTurns(d: real) {
    (d / TAU).Floor as real == d / TAU
  }

  /**
   Rust's `a % TAU` on floats: the remainder of the division truncated
   toward zero. It keeps the sign of the dividend, so the result lies in
   (-TAU, TAU) rather than [0, TAU).
   */
  function RemTau(a: real): (r: real)
    ensures -TAU < r < TAU
    ensures 0.0 <= a ==> 0.0 <= r
    ensures a <= 0.0 ==> r <= 0.0
    ensures IsWholeTurns(a - r)
  {
    var t := Trunc(a / TAU);
    assert (TAU * t as real) / TAU == t as real;
    a - TAU * t as real
  }

  /**
   `RemTau` is determined by its contract: any value with the dividend's
   sign, strictly inside (-TAU, TAU), that differs from the dividend by a
   whole number of turns, is the remainder.
   */
  lemma RemTauUnique(a: real, r: real)
    requires -TAU < r < TAU
    requires 0.0 <= a ==> 0.0 <= r
    requires a <= 0.0 ==> r <= 0.0
    requires IsWholeTurns(a - r)
    ensures RemTau(a) == r
  {
    var r0 := RemTau(a);
    var k := ((a - r) / TAU).Floor;
    var k0 := ((a - r0) / TAU).Floor;
    assert a - r == TAU * k as real;
    assert a - r0 == TAU * k0 as real;
    assert r0 - r == TAU * (k - k0) as real;
    assert -TAU < r0 - r < TAU;
  }

  /** A heading already strictly inside (-TAU, TAU) is left unchanged by `% TAU`. */
  lemma RemTauIdentity(a: real)
    requires -TAU < a < TAU
    ensures RemTau(a) == a
  {
    assert (a - a) / TAU == 0.0;
    RemTauUnique(a, a);
  }
}
