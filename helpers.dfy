/** Optional values: the nil pointers of the modelled code. */
module Wrappers {
  datatype Option<T> = None | Some(value: T)

  /**
   * A pointer to an object this model does not look inside (a medium, a
   * material, an area light): nil, or the identity of the object.
   */
  datatype Ref = Nil | Ref(id: nat)
}

/**
 * Scalar helpers of core/helper.go and math/helper.go: the linear
 * interpolation both packages define (identically), angle conversion, the
 * exclusive-or used for normal orientation, and the gamma bound on
 * accumulated float64 rounding error. Also the float library's min, max and
 * abs on finite values.
 */
module Helpers {

  /** The float64 value of pi, written as a decimal. */
  const Pi: real := 3.141592653589793

  function Min(a: real, b: real): (r: real)
    ensures r <= a && r <= b
    ensures r == a || r == b
  {
    if a <= b then a else b
  }

  function Max(a: real, b: real): (r: real)
    ensures r >= a && r >= b
    ensures r == a || r == b
  {
    if a >= b then a else b
  }

  function Abs(a: real): (r: real)
    ensures r >= 0.0
    ensures r == a || r == -a
  {
    if a < 0.0 then -a else a
  }

  /** Exclusive or, written in the source as (a && !b) || (!a && b). */
  function Xor(a: bool, b: bool): (r: bool)
    ensures r <==> a != b
  {
    (a && !b) || (!a && b)
  }

  lemma XorCommutes(a: bool, b: bool)
    ensures Xor(a, b) == Xor(b, a)
    ensures !Xor(a, a)
  {
  }

  /** (1-t)*p0 + t*p1: the same definition in core/helper.go and math/helper.go. */
  function Lerp(t: real, p0: real, p1: real): (r: real)
    ensures t == 0.0 ==> r == p0
    ensures t == 1.0 ==> r == p1
    ensures p0 == p1 ==> r == p0
  {
    (1.0 - t) * p0 + t * p1
  }

  /** Interpolating the other way round with the complementary weight. */
  lemma LerpSwap(t: real, p0: real, p1: real)
    ensures Lerp(t, p0, p1) == Lerp(1.0 - t, p1, p0)
  {
  }

  /** For weights in [0,1] the interpolant stays between the end values. */
  lemma LerpBetween(t: real, p0: real, p1: real)
    requires 0.0 <= t <= 1.0
    ensures Min(p0, p1) <= Lerp(t, p0, p1) <= Max(p0, p1)
  {
    var d := p1 - p0;
    assert Lerp(t, p0, p1) == p0 + t * d;
    if p0 <= p1 {
      MulBetween(t, d);
    } else {
      MulBetween(t, -d);
      assert t * -d == -(t * d);
    }
  }

  lemma MulBetween(t: real, d: real)
    requires 0.0 <= t <= 1.0 && d >= 0.0
    ensures 0.0 <= t * d <= d
  {
    assert (1.0 - t) * d >= 0.0;
  }

  function Radians(deg: real): (rad: real)
    ensures Degress(rad) == deg
  {
    (Pi / 180.0) * deg
  }

  /** Radians to degrees (the source spells it Degress). */
  function Degress(rad: real): real
  {
    (180.0 / Pi) * rad
  }

  /** math.Nextafter(1, 2) - 1 in float64: 2^-52. */
  function MachineEpsilon(): (eps: real)
    ensures 0.0 < eps < 0.000000000000001
  {
    1.0 / 4503599627370496.0
  }

  /**
   * n*eps / (1 - n*eps). The source divides by zero when n*eps is 1; the
   * model requires that it is not.
   */
  function Gamma(n: real): (g: real)
    requires n * MachineEpsilon() != 1.0
    ensures 0.0 < n * MachineEpsilon() < 1.0 ==> g > 0.0
    ensures n == 0.0 ==> g == 0.0
  {
    var a := n * MachineEpsilon();
    if 0.0 < a < 1.0 then DivPositive(a, 1.0 - a); a / (1.0 - a)
    else a / (1.0 - a)
  }

  /** Gamma grows with n while n*eps stays below 1. */
  lemma GammaIncreasing(n1: real, n2: real)
    requires 0.0 <= n1 < n2
    requires n2 * MachineEpsilon() < 1.0
    ensures n1 * MachineEpsilon() < 1.0
    ensures Gamma(n1) < Gamma(n2)
  {
    var e := MachineEpsilon();
    var a, b := n1 * e, n2 * e;
    assert a < b by {
      assert b - a == (n2 - n1) * e;
    }
    assert 0.0 <= a;
    var da, db := 1.0 - a, 1.0 - b;
    assert 0.0 < db < da;
    // a/da < b/db  <=>  a*db < b*da  <=>  a - a*b < b - a*b
    assert a * db < b * da by {
      assert a * db == a - a * b;
      assert b * da == b - a * b;
    }
    assert Gamma(n1) == a / da;
    assert Gamma(n2) == b / db;
    DivLess(a, da, b, db);
  }

  lemma DivLess(a: real, da: real, b: real, db: real)
    requires da > 0.0 && db > 0.0
    requires a * db < b * da
    ensures a / da < b / db
  {
    var x, y := a / da, b / db;
    assert a == x * da;
    assert b == y * db;
    assert (y - x) * (da * db) > 0.0;
    PositiveFactor(y - x, da * db);
  }

  /** A quotient of positive reals is positive. */
  lemma DivPositive(a: real, d: real)
    requires a > 0.0 && d > 0.0
    ensures a / d > 0.0
  {
    var q := a / d;
    assert q * d == a;
    PositiveFactor(q, d);
  }

  lemma PositiveFactor(u: real, k: real)
    requires k > 0.0 && u * k > 0.0
    ensures u > 0.0
  {
  }

  /** Products of nonnegative factors, with the product named so the solver keeps it linear. */
  lemma MulNonNegative(x: real, y: real, p: real)
    requires p == x * y
    ensures x >= 0.0 && y >= 0.0 ==> p >= 0.0
    ensures x == 0.0 || y == 0.0 ==> p == 0.0
  {
    if x > 0.0 && y > 0.0 {
      MulStrict(x, y, p);
    }
  }

  /** Multiplying both sides by a positive factor keeps an ordering. */
  lemma MulMonotone(x: real, y: real, d: real)
    requires d > 0.0
    ensures x <= y <==> x * d <= y * d
  {
    var p := (y - x) * d;
    assert p == y * d - x * d;
    if x <= y {
      MulNonNegative(y - x, d, p);
    } else {
      MulStrict(x - y, d, -p);
    }
  }

  lemma MulStrict(x: real, y: real, p: real)
    requires x > 0.0 && y > 0.0 && p == x * y
    ensures p > 0.0
  {
  }
}
