/**
 * Box 1 of PICO, next to the grounding line: a closed-form solve of the
 * heat and salt budgets for the box temperature (a quadratic, solved by the
 * p-q formula with its square-root argument clamped at zero), followed by
 * the melt rate, the overturning and the per-shelf box averages that feed box 2.
 */
module PicoBox1 {
  import opened Wrappers
  import opened PicoTypes
  import opened PicoSums
  import opened PicoPhysics

  /** The values the box-1 stage leaves in every cell it does not solve. */
  predicate IsReset(c: Cell) {
    && c.tStar == 0.0 && c.toc == 273.15 && c.soc == 0.0
    && c.melt == 0.0 && c.overturning == 0.0 && c.tPressureMelting == 0.0
  }

  function ResetCell(c: Cell): (r: Cell)
    ensures IsReset(r) && SameInputs(c, r)
    ensures r.box == c.box && r.tocBox0 == c.tocBox0 && r.socBox0 == c.socBox0
  {
    c.(tStar := 0.0, toc := 273.15, soc := 0.0, melt := 0.0, overturning := 0.0, tPressureMelting := 0.0)
  }

  /** C·ρ*·(β·S0/(ν·λ) − α): the overturning per kelvin of cooling of inflow of salinity `s0`. */
  function OverturningFactor(k: Constants, s0: real): real
    requires ValidConstants(k)
  {
    k.overturningCoeff * k.rhoStar * (k.beta * (s0 / (k.nu * k.lambda)) - k.alpha)
  }

  /** The coefficients of x² + p·x + q = 0, and whether q was lowered to make the square-root argument zero. */
  datatype Quadratic = Quadratic(p: real, q: real, clamped: bool)

  /** The argument of the square root in the p-q formula. */
  function RootArgument(qd: Quadratic): real {
    0.25 * (qd.p * qd.p) - qd.q
  }

  /**
   * The p-q coefficients for the cooling x = T0 − T1 of box 1, with
   * exchange `g1`, overturning factor `factor` and thermal forcing `tStar`.
   */
  function Box1Quadratic(g1: real, factor: real, tStar: real): (r: Quadratic)
    requires factor != 0.0
    ensures r.p * factor == g1
    ensures RootArgument(r) >= 0.0
    ensures r.clamped <==> 0.25 * (r.p * r.p) - g1 * tStar / factor < 0.0
    ensures r.clamped ==> r.q == 0.25 * (r.p * r.p)
    ensures !r.clamped ==> r.q * factor == g1 * tStar
  {
    var p := g1 / factor;
    var q := g1 * tStar / factor;
    if 0.25 * (p * p) - q < 0.0 then Quadratic(p, 0.25 * (p * p), true)
    else Quadratic(p, q, false)
  }

  /** The thermal forcing of box 1: freezing point of the inflow minus its temperature. */
  function TStar1(k: Constants, c: Cell): real {
    PotentialFreezingPoint(k, c.socBox0, Pressure(k, c.thickness)) - c.tocBox0
  }

  /** Turbulent exchange over the area of box 1 of the cell's shelf. */
  function Exchange1(d: Domain, k: Constants, c: Cell): real
    requires BoxTableShape(d) && 0 <= c.shelf < d.numberOfShelves
  {
    Area(d, c.shelf, 1) * k.gammaT
  }

  /** Whether the box-1 solve of the cell divides by a nonzero overturning factor. */
  predicate Solvable1(k: Constants, c: Cell)
    requires ValidConstants(k)
  {
    OverturningFactor(k, c.socBox0) != 0.0
  }

  function Coefficients1(d: Domain, k: Constants, c: Cell): Quadratic
    requires ValidConstants(k) && BoxTableShape(d) && 0 <= c.shelf < d.numberOfShelves
    requires Solvable1(k, c)
  {
    Box1Quadratic(Exchange1(d, k, c), OverturningFactor(k, c.socBox0), TStar1(k, c))
  }

  /** The cooling T0 − T1 of the inflow in box 1, by the p-q formula. */
  function Cooling1(d: Domain, k: Constants, sqrt: real -> real, c: Cell): real
    requires ValidConstants(k) && BoxTableShape(d) && 0 <= c.shelf < d.numberOfShelves
    requires Solvable1(k, c)
  {
    var qd := Coefficients1(d, k, c);
    -0.5 * qd.p + sqrt(RootArgument(qd))
  }

  /** The solved cell of box 1: temperature, salinity, melt rate, overturning and melting point. */
  function Box1Cell(d: Domain, k: Constants, sqrt: real -> real, c: Cell): (r: Cell)
    requires ValidConstants(k) && BoxTableShape(d) && 0 <= c.shelf < d.numberOfShelves
    requires Solvable1(k, c)
    ensures SameInputs(c, r) && r.box == c.box && r.tocBox0 == c.tocBox0 && r.socBox0 == c.socBox0
    ensures r.tStar == TStar1(k, c)
    ensures r.melt * (k.nu * k.lambda)
            == k.gammaT * (r.toc - PotentialFreezingPoint(k, r.soc, Pressure(k, c.thickness)))
    ensures r.tPressureMelting == InSituMeltingPoint(k, r.soc, Pressure(k, c.thickness))
  {
    var pressure := Pressure(k, c.thickness);
    var toc := c.tocBox0 - Cooling1(d, k, sqrt, c);
    var soc := c.socBox0 - (c.socBox0 / (k.nu * k.lambda)) * (c.tocBox0 - toc);
    c.(tStar := TStar1(k, c), toc := toc, soc := soc,
       melt := MeltRate(k, soc, toc, pressure),
       overturning := k.overturningCoeff * k.rhoStar
                      * (k.beta * (c.socBox0 - soc) - k.alpha * (c.tocBox0 - toc)),
       tPressureMelting := InSituMeltingPoint(k, soc, pressure))
  }

  /** Salt budget: the salinity drop is the inflow salinity times the cooling over ν·λ. */
  lemma Box1SaltBudget(d: Domain, k: Constants, sqrt: real -> real, c: Cell)
    requires ValidConstants(k) && BoxTableShape(d) && 0 <= c.shelf < d.numberOfShelves
    requires Solvable1(k, c)
    ensures var r := Box1Cell(d, k, sqrt, c);
            (c.socBox0 - r.soc) * (k.nu * k.lambda) == c.socBox0 * (c.tocBox0 - r.toc)
  {
    var r := Box1Cell(d, k, sqrt, c);
    QuotientTimesDivisor(c.socBox0, k.nu * k.lambda, c.tocBox0 - r.toc);
  }

  /** The overturning is the overturning factor times the cooling of the inflow. */
  lemma {:induction false} Box1Overturning(d: Domain, k: Constants, sqrt: real -> real, c: Cell)
    requires ValidConstants(k) && BoxTableShape(d) && 0 <= c.shelf < d.numberOfShelves
    requires Solvable1(k, c)
    ensures var r := Box1Cell(d, k, sqrt, c);
            r.overturning == OverturningFactor(k, c.socBox0) * (c.tocBox0 - r.toc)
  {
    var r := Box1Cell(d, k, sqrt, c);
    var s1 := c.socBox0 / (k.nu * k.lambda);
    var x := c.tocBox0 - r.toc;
    assert r.soc == c.socBox0 - s1 * x;
    OverturningIsLinear(k.overturningCoeff * k.rhoStar, k.beta, k.alpha, s1, x, c.socBox0, r.soc);
  }

  lemma OverturningIsLinear(cr: real, beta: real, alpha: real, s1: real, x: real, s0: real, soc: real)
    requires soc == s0 - s1 * x
    ensures cr * (beta * (s0 - soc) - alpha * x) == cr * (beta * s1 - alpha) * x
  {
    assert s0 - soc == s1 * x;
    assert beta * (s1 * x) - alpha * x == (beta * s1 - alpha) * x;
  }

  /**
   * Where the square-root argument had to be clamped, the cooling is −p/2,
   * the vertex of the quadratic: the box temperature is T0 + p/2.
   */
  lemma Box1Clamped(d: Domain, k: Constants, sqrt: real -> real, c: Cell)
    requires ValidConstants(k) && BoxTableShape(d) && 0 <= c.shelf < d.numberOfShelves
    requires Solvable1(k, c) && SqrtSpec(sqrt)
    requires Coefficients1(d, k, c).clamped
    ensures Box1Cell(d, k, sqrt, c).toc == c.tocBox0 + 0.5 * Coefficients1(d, k, c).p
  {
    var qd := Coefficients1(d, k, c);
    assert RootArgument(qd) == 0.0;
    SquareRootOfZero(sqrt);
  }

  lemma SquareRootOfZero(sqrt: real -> real)
    requires SqrtSpec(sqrt)
    ensures sqrt(0.0) == 0.0
  {
    ZeroSquare(sqrt(0.0));
  }

  lemma ZeroSquare(r: real)
    requires r >= 0.0 && r * r == 0.0
    ensures r == 0.0
  {
    if r > 0.0 {
      CancelFactor(r, r);
    }
  }

  /** A product with a positive factor vanishes only with its other factor. */
  lemma CancelFactor(a: real, b: real)
    requires a > 0.0 && a * b == 0.0
    ensures b == 0.0
  {
    assert b == (a * b) / a;
  }

  /**
   * Where no clamp was needed, box 1 balances its budgets: the heat the
   * overturning gives up while cooling from T0 to T1 equals the heat
   * exchanged with the shelf base, g1·(T1 − freezing point of the inflow).
   */
  lemma {:induction false} Box1HeatBudget(d: Domain, k: Constants, sqrt: real -> real, c: Cell)
    requires ValidConstants(k) && BoxTableShape(d) && 0 <= c.shelf < d.numberOfShelves
    requires Solvable1(k, c) && SqrtSpec(sqrt)
    requires !Coefficients1(d, k, c).clamped
    ensures var r := Box1Cell(d, k, sqrt, c);
            r.overturning * (c.tocBox0 - r.toc)
            == Exchange1(d, k, c) * (r.toc - PotentialFreezingPoint(k, c.socBox0, Pressure(k, c.thickness)))
  {
    var r := Box1Cell(d, k, sqrt, c);
    var x := c.tocBox0 - r.toc;
    assert x == Cooling1(d, k, sqrt, c);
    CoolingSolvesQuadratic(d, k, sqrt, c);
    Box1Overturning(d, k, sqrt, c);
    HeatFromRoot(r.overturning, OverturningFactor(k, c.socBox0), x, Exchange1(d, k, c), TStar1(k, c), r.toc,
                 PotentialFreezingPoint(k, c.socBox0, Pressure(k, c.thickness)), c.tocBox0);
  }

  /**
   * The unclamped cooling x solves factor·x² = −g1·(x + T*), and it is the
   * larger root of x² + p·x + q: it lies at or above the vertex −p/2.
   */
  lemma CoolingSolvesQuadratic(d: Domain, k: Constants, sqrt: real -> real, c: Cell)
    requires ValidConstants(k) && BoxTableShape(d) && 0 <= c.shelf < d.numberOfShelves
    requires Solvable1(k, c) && SqrtSpec(sqrt)
    requires !Coefficients1(d, k, c).clamped
    ensures var x := Cooling1(d, k, sqrt, c);
            (OverturningFactor(k, c.socBox0) * x) * x == Exchange1(d, k, c) * (-x - TStar1(k, c))
    ensures Cooling1(d, k, sqrt, c) >= -0.5 * Coefficients1(d, k, c).p
  {
    var qd := Coefficients1(d, k, c);
    var root := sqrt(RootArgument(qd));
    QuadraticRoot(qd.p, qd.q, RootArgument(qd), root);
    ScaledRoot(Cooling1(d, k, sqrt, c), qd.p, qd.q, OverturningFactor(k, c.socBox0), Exchange1(d, k, c), TStar1(k, c));
  }

  lemma HeatFromRoot(ov: real, f: real, x: real, g1: real, tStar: real, toc: real, pfp: real, t0: real)
    requires ov == f * x && (f * x) * x == g1 * (-x - tStar)
    requires x == t0 - toc && tStar == pfp - t0
    ensures ov * x == g1 * (toc - pfp)
  {
    assert -x - tStar == toc - pfp;
  }

  /** −p/2 + √(p²/4 − q) solves x² + p·x + q = 0. */
  lemma QuadraticRoot(p: real, q: real, arg: real, root: real)
    requires arg == 0.25 * (p * p) - q && root * root == arg
    ensures var x := -0.5 * p + root; x * x + p * x + q == 0.0
  {
    var x := -0.5 * p + root;
    assert x * x == root * root - p * root + 0.25 * (p * p);
    assert p * x == -0.5 * (p * p) + p * root;
  }

  /** A root of x² + p·x + q, scaled by the factor that turns p into g1 and q into g1·T*. */
  lemma ScaledRoot(x: real, p: real, q: real, f: real, g1: real, tStar: real)
    requires x * x + p * x + q == 0.0
    requires p * f == g1 && q * f == g1 * tStar
    ensures (f * x) * x == g1 * (-x - tStar)
  {
    assert f * (x * x + p * x + q) == 0.0;
    assert f * (x * x) + (p * f) * x + q * f == 0.0;
  }

  /** Every box-1 cell of the grid has a nonzero overturning factor. */
  predicate GridSolvable1(k: Constants, g: Grid)
    requires ValidConstants(k)
  {
    forall j :: 0 <= j < |g| && InBox(g[j], 1) ==> Solvable1(k, g[j])
  }

  function Box1Step(d: Domain, k: Constants, sqrt: real -> real, c: Cell): Cell
    requires ValidConstants(k) && BoxTableShape(d) && 0 <= c.shelf < d.numberOfShelves
    requires InBox(c, 1) ==> Solvable1(k, c)
  {
    if InBox(c, 1) then Box1Cell(d, k, sqrt, c) else ResetCell(c)
  }

  /**
   * `calculate_basal_melt_box1` on the whole grid: every cell is reset, then
   * the cells of box 1 of a shelf are solved. A zero overturning factor
   * (a division by zero in the code) is reported as a fault of box 1.
   */
  function Box1Stage(d: Domain, k: Constants, sqrt: real -> real, g: Grid): (r: Result<Grid, Fault>)
    requires ValidConstants(k) && BoxTableShape(d) && MasksInRange(d, g)
    ensures r.Success? <==> GridSolvable1(k, g)
    ensures r.Failure? ==> r.error == ZeroDenominator(1)
    ensures r.Success? ==>
              && |r.value| == |g|
              && (forall j :: 0 <= j < |g| ==>
                    && SameInputs(g[j], r.value[j]) && r.value[j].box == g[j].box
                    && r.value[j].tocBox0 == g[j].tocBox0 && r.value[j].socBox0 == g[j].socBox0)
              && (forall j :: 0 <= j < |g| && !InBox(g[j], 1) ==> IsReset(r.value[j]))
              && (forall j :: 0 <= j < |g| && InBox(g[j], 1) ==> r.value[j] == Box1Cell(d, k, sqrt, g[j]))
  {
    if GridSolvable1(k, g) then
      Success(seq(|g|, j requires 0 <= j < |g| => Box1Step(d, k, sqrt, g[j])))
    else
      Failure(ZeroDenominator(1))
  }

  /** The per-shelf averages one box hands on to the next. */
  datatype BoxMeans = BoxMeans(salinity: seq<real>, temperature: seq<real>, overturning: seq<real>)

  predicate MeansShape(d: Domain, m: BoxMeans) {
    |m.salinity| == d.numberOfShelves && |m.temperature| == d.numberOfShelves
    && |m.overturning| == d.numberOfShelves
  }

  /**
   * The box-1 averages per shelf: salinity, temperature and overturning
   * over the shelf's box-1 cells, or zero for a shelf without any.
   */
  function Box1Means(d: Domain, g: Grid): (m: BoxMeans)
    ensures MeansShape(d, m)
    ensures forall s :: 0 <= s < d.numberOfShelves ==>
              && m.salinity[s] == Mean(g, BoxOfShelf(s, 1), Soc)
              && m.temperature[s] == Mean(g, BoxOfShelf(s, 1), Toc)
              && m.overturning[s] == Mean(g, BoxOfShelf(s, 1), Overturning)
  {
    BoxMeans(seq(d.numberOfShelves, s => Mean(g, BoxOfShelf(s, 1), Soc)),
             seq(d.numberOfShelves, s => Mean(g, BoxOfShelf(s, 1), Toc)),
             seq(d.numberOfShelves, s => Mean(g, BoxOfShelf(s, 1), Overturning)))
  }
}
