/**
 * The physics shared by the PICO box stages: cell areas, the basal melt
 * rate driven by the thermal forcing at the shelf base, and the
 * Beckmann-Goosse heat flux used for cells outside the box model.
 */
module PicoPhysics {
  import opened PicoTypes

  /** What the square root the model is given must satisfy for the closed-form solves to mean anything. */
  ghost predicate SqrtSpec(sqrt: real -> real) {
    forall x :: x >= 0.0 ==> sqrt(x) >= 0.0 && sqrt(x) * sqrt(x) == x
  }

  /** A cell of box `i` of some ice shelf (shelf id 0 is not a shelf). */
  predicate InBox(c: Cell, i: int) {
    c.box == i && c.shelf > 0
  }

  /** The area of box `i` of shelf `s`, assuming rectangular cells. */
  function Area(d: Domain, s: int, i: int): real
    requires BoxTableShape(d) && 0 <= s < d.numberOfShelves && 0 <= i < |d.counterBoxes[s]|
  {
    d.counterBoxes[s][i] * d.dx * d.dy
  }

  /**
   * Basal melt rate in a box: proportional to how far the box temperature
   * `toc` lies above the potential freezing point of its salinity `soc`.
   */
  function MeltRate(k: Constants, soc: real, toc: real, p: real): (r: real)
    requires ValidConstants(k)
    ensures r * (k.nu * k.lambda) == k.gammaT * (toc - PotentialFreezingPoint(k, soc, p))
  {
    var nl := k.nu * k.lambda;
    var drive := PotentialFreezingPoint(k, soc, p) - toc;
    QuotientTimesDivisor(-k.gammaT, nl, drive);
    (-k.gammaT / nl) * drive
  }

  lemma QuotientTimesDivisor(x: real, n: real, y: real)
    requires n != 0.0
    ensures (x / n) * y * n == x * y
  {
    assert (x / n) * n == x;
    calc {
      (x / n) * y * n;
      ((x / n) * n) * y;
      x * y;
    }
  }

  /** With a positive exchange coefficient, a cell melts exactly when its box is warmer than the freezing point. */
  lemma MeltRateSign(k: Constants, soc: real, toc: real, p: real)
    requires ValidConstants(k) && k.gammaT > 0.0 && k.nu * k.lambda > 0.0
    ensures MeltRate(k, soc, toc, p) > 0.0 <==> toc > PotentialFreezingPoint(k, soc, p)
    ensures MeltRate(k, soc, toc, p) == 0.0 <==> toc == PotentialFreezingPoint(k, soc, p)
  {
    var m := MeltRate(k, soc, toc, p);
    SignOfProduct(m, k.nu * k.lambda, k.gammaT, toc - PotentialFreezingPoint(k, soc, p));
  }

  /** If m * n == g * x with n, g positive, m and x have the same sign. */
  lemma SignOfProduct(m: real, n: real, g: real, x: real)
    requires n > 0.0 && g > 0.0 && m * n == g * x
    ensures m > 0.0 <==> x > 0.0
    ensures m == 0.0 <==> x == 0.0
  {
    if m > 0.0 {
      assert m * n > 0.0;
    } else if m < 0.0 {
      assert m * n < 0.0;
    }
    if x > 0.0 {
      assert g * x > 0.0;
    } else if x < 0.0 {
      assert g * x < 0.0;
    }
  }

  /**
   * The Beckmann-Goosse shelf-base heat flux for ocean temperature `t` and
   * salinity `s` at pressure `p`, and the melt rate it drives.
   */
  function HeatFlux(k: Constants, t: real, s: real, p: real): real {
    k.meltFactor * k.rhow * k.cpOcean * k.gammaT * (t - PotentialFreezingPoint(k, s, p))
  }

  function FallbackMeltRate(k: Constants, t: real, s: real, p: real): (r: real)
    requires ValidConstants(k)
    ensures r * (k.latentHeat * k.rhoi) == HeatFlux(k, t, s, p)
  {
    HeatFlux(k, t, s, p) / (k.latentHeat * k.rhoi)
  }

  /** With positive constants, the fallback melt rate is positive exactly when the water is above freezing. */
  lemma FallbackMeltRateSign(k: Constants, t: real, s: real, p: real)
    requires ValidConstants(k) && k.latentHeat * k.rhoi > 0.0
    requires k.meltFactor * k.rhow * k.cpOcean * k.gammaT > 0.0
    ensures FallbackMeltRate(k, t, s, p) > 0.0 <==> t > PotentialFreezingPoint(k, s, p)
    ensures FallbackMeltRate(k, t, s, p) == 0.0 <==> t == PotentialFreezingPoint(k, s, p)
  {
    SignOfProduct(FallbackMeltRate(k, t, s, p), k.latentHeat * k.rhoi,
                  k.meltFactor * k.rhow * k.cpOcean * k.gammaT, t - PotentialFreezingPoint(k, s, p));
  }
}
