/**
  Conversion of geometric altitude into geopotential altitude, and the
  local gravitational acceleration (isa.cpp:15-22).

  Both formulas divide by the distance from the Earth's centre, so they are
  stated only for heights above the centre (`R + z > 0`); the source leaves
  the division by zero at `z = -R` unguarded.
 */
module Geopotential {
  import Earth

  /** A geometric height strictly above the Earth's centre. */
  predicate AboveCentre(z: real) {
    Earth.Radius + z > 0.0
  }

  /** The ratio `R / (R + z)` of the Earth's radius to the distance from
      the Earth's centre, shared by both formulas. */
  function Ratio(z: real): real
    requires AboveCentre(z)
  {
    Earth.Radius / (Earth.Radius + z)
  }

  /** Inverse-square fall-off of gravity with geometric height: `g0` at sea
      level, weaker above it, stronger below it. */
  function GravitationalAccel(z: real): (g: real)
    requires AboveCentre(z)
    ensures g > 0.0
    ensures z == 0.0 ==> g == Earth.SurfaceGAccel
    ensures z > 0.0 ==> g < Earth.SurfaceGAccel
    ensures z < 0.0 ==> g > Earth.SurfaceGAccel
  {
    RatioFacts(z);
    Earth.SurfaceGAccel * Ratio(z) * Ratio(z)
  }

  /** The ratio `R / (R + z)` is positive, equals 1 at sea level, and lies
      below 1 above sea level and above 1 below it. */
  lemma RatioFacts(z: real)
    requires AboveCentre(z)
    ensures Ratio(z) > 0.0
    ensures z == 0.0 ==> Ratio(z) == 1.0
    ensures z > 0.0 ==> Ratio(z) < 1.0
    ensures z < 0.0 ==> Ratio(z) > 1.0
  {
    assert Ratio(z) * (Earth.Radius + z) == Earth.Radius;
  }

  /** Geopotential height of a geometric height. It is 0 at sea level, has
      the sign of its input, never exceeds its input, and stays below the
      Earth's radius however high the input is. */
  function GeopotentialHeight(z: real): (h: real)
    requires AboveCentre(z)
    ensures h < Earth.Radius
    ensures z == 0.0 ==> h == 0.0
    ensures z > 0.0 ==> 0.0 < h < z
    ensures z < 0.0 ==> h < z
  {
    var h := Ratio(z) * z;
    ScaledTowardsZero(z, h);
    h
  }

  /** Scaling `z` by `R / (R + z)` moves it towards 0 without crossing it,
      and gives `R - R * R / (R + z)`, which lies below `R`. */
  lemma ScaledTowardsZero(z: real, h: real)
    requires AboveCentre(z) && h == Ratio(z) * z
    ensures h == Earth.Radius - Earth.Radius * Ratio(z) < Earth.Radius
    ensures z == 0.0 ==> h == 0.0
    ensures z > 0.0 ==> 0.0 < h < z
    ensures z < 0.0 ==> h < z
  {
    RatioFacts(z);
    ScaledBelow(Ratio(z), z, h);
    assert h == Earth.Radius - Earth.Radius * Ratio(z) by {
      ClosedForm(z);
    }
    PositiveProduct(Earth.Radius, Ratio(z));
  }

  /** A factor in (0, 1) shrinks a positive number; a factor above 1 moves a
      negative number further down. */
  lemma ScaledBelow(ratio: real, z: real, h: real)
    requires h == ratio * z
    requires z > 0.0 ==> 0.0 < ratio < 1.0
    requires z < 0.0 ==> ratio > 1.0
    ensures z > 0.0 ==> 0.0 < h < z
    ensures z < 0.0 ==> h < z
  {
    if z > 0.0 {
      PositiveProduct(ratio, z);
      PositiveProduct(1.0 - ratio, z);
      assert z - h == (1.0 - ratio) * z;
      assert z - h > 0.0;
    } else if z < 0.0 {
      PositiveProduct(ratio - 1.0, -z);
      assert z - h == (ratio - 1.0) * -z;
      assert z - h > 0.0;
    }
  }

  lemma PositiveProduct(a: real, b: real)
    requires a > 0.0 && b > 0.0
    ensures a * b > 0.0
  {
  }

  /** `R / (R + z) * z` equals `R - R * R / (R + z)`. */
  lemma ClosedForm(z: real)
    requires AboveCentre(z)
    ensures Ratio(z) * z == Earth.Radius - Earth.Radius * Ratio(z)
  {
    var R := Earth.Radius;
    var d := R + z;
    calc {
      Ratio(z) * z;
      (R / d) * (d - R);
      (R / d) * d - (R / d) * R;
      { assert (R / d) * d == R; }
      R - R * Ratio(z);
    }
  }

  /** The geometric height whose geopotential height is `h`; defined for
      every `h` below the Earth's radius. */
  function GeometricHeight(h: real): (z: real)
    requires h < Earth.Radius
    ensures AboveCentre(z)
    ensures GeopotentialHeight(z) == h
  {
    var R := Earth.Radius;
    var z := R * h / (R - h);
    assert R + z == R * R / (R - h) by {
      calc {
        R + z;
        R * (R - h) / (R - h) + R * h / (R - h);
        (R * (R - h) + R * h) / (R - h);
        R * R / (R - h);
      }
    }
    assert R / (R + z) == (R - h) / R;
    z
  }

  /** Converting to geopotential height and back gives the geometric height
      that went in. */
  lemma GeometricOfGeopotential(z: real)
    requires AboveCentre(z)
    ensures GeometricHeight(GeopotentialHeight(z)) == z
  {
    var h := GeopotentialHeight(z);
    var z' := GeometricHeight(h);
    GeopotentialInjective(z, z');
  }

  /** Geopotential height is strictly increasing over every geometric height
      above the Earth's centre. */
  lemma GeopotentialStrictlyIncreasing(z1: real, z2: real)
    requires AboveCentre(z1) && z1 < z2
    ensures GeopotentialHeight(z1) < GeopotentialHeight(z2)
  {
    var R := Earth.Radius;
    var d1, d2 := R + z1, R + z2;
    ClosedForm(z1);
    ClosedForm(z2);
    assert R * R / d2 < R * R / d1 by {
      assert (R * R / d2) * d2 == R * R;
      assert (R * R / d1) * d1 == R * R;
      assert (R * R / d2) * d1 < R * R;
    }
  }

  /** Converting to geopotential height preserves and reflects the order of
      geometric heights. */
  lemma GeopotentialOrder(z1: real, z2: real)
    requires AboveCentre(z1) && AboveCentre(z2)
    ensures z1 < z2 <==> GeopotentialHeight(z1) < GeopotentialHeight(z2)
    ensures z1 == z2 <==> GeopotentialHeight(z1) == GeopotentialHeight(z2)
  {
    if z1 < z2 {
      GeopotentialStrictlyIncreasing(z1, z2);
    } else if z2 < z1 {
      GeopotentialStrictlyIncreasing(z2, z1);
    }
  }

  /** Two geometric heights with the same geopotential height are equal. */
  lemma GeopotentialInjective(z1: real, z2: real)
    requires AboveCentre(z1) && AboveCentre(z2)
    requires GeopotentialHeight(z1) == GeopotentialHeight(z2)
    ensures z1 == z2
  {
    GeopotentialOrder(z1, z2);
  }

  /** Gravity and geopotential height share the ratio `R / (R + z)`:
      `g(z) * z^2 == g0 * h(z)^2`. */
  lemma GravityMatchesGeopotential(z: real)
    requires AboveCentre(z)
    ensures GravitationalAccel(z) * z * z
            == Earth.SurfaceGAccel * GeopotentialHeight(z) * GeopotentialHeight(z)
  {
    var ratio := Ratio(z);
    assert GeopotentialHeight(z) == ratio * z;
    assert GravitationalAccel(z) == Earth.SurfaceGAccel * ratio * ratio;
  }
}
