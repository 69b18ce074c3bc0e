/**
 * Boxes 2 .. numberOfBoxes of PICO: each box is solved from the averages of
 * the box before it (the overturning always from box 1), and hands its own
 * averages on. A cell whose upstream averages are missing is relabelled to
 * the fallback box numberOfBoxes+1 and left for the missing-cells stage.
 */
module PicoSweep {
  import opened Wrappers
  import opened PicoTypes
  import opened PicoSums
  import opened PicoPhysics
  import opened PicoBox1

  /** The box id that marks cells left to the fallback melt formula. */
  function FallbackBox(d: Domain): int {
    d.numberOfBoxes + 1
  }

  /** The upstream box left shelf `s` without data: one of its averages is exactly zero. */
  predicate MissingUpstream(d: Domain, m: BoxMeans, s: int)
    requires MeansShape(d, m) && 0 <= s < d.numberOfShelves
  {
    m.salinity[s] == 0.0 || m.overturning[s] == 0.0 || m.temperature[s] == 0.0
  }

  /** Turbulent exchange over the area of box `i` of the cell's shelf. */
  function ExchangeI(d: Domain, k: Constants, c: Cell, i: int): real
    requires BoxTableShape(d) && 0 <= c.shelf < d.numberOfShelves && 0 <= i <= d.numberOfBoxes
  {
    Area(d, c.shelf, i) * k.gammaT
  }

  /** The denominator of the box-i temperature: overturning plus exchange, less the salinity feedback. */
  function BoxDenominator(d: Domain, k: Constants, m: BoxMeans, c: Cell, i: int): real
    requires ValidConstants(k) && BoxTableShape(d) && MeansShape(d, m)
    requires 0 <= c.shelf < d.numberOfShelves && 0 <= i <= d.numberOfBoxes
  {
    Denominator(m.overturning[c.shelf], m.salinity[c.shelf], ExchangeI(d, k, c, i), k.nu * k.lambda, k.a)
  }

  /** mO + g1 − g2·a·mS with g2 = g1/(ν·λ). */
  function Denominator(mO: real, mS: real, g1: real, nl: real, a: real): real
    requires nl != 0.0
  {
    var g2 := g1 / nl;
    mO + g1 - g2 * a * mS
  }

  /** The solved cell of box `i` from the upstream averages of its shelf. */
  function BoxCell(d: Domain, k: Constants, m: BoxMeans, c: Cell, i: int): (r: Cell)
    requires ValidConstants(k) && BoxTableShape(d) && MeansShape(d, m)
    requires 0 <= c.shelf < d.numberOfShelves && 0 <= i <= d.numberOfBoxes
    requires BoxDenominator(d, k, m, c, i) != 0.0
    ensures SameInputs(c, r) && r.box == c.box && r.tocBox0 == c.tocBox0 && r.socBox0 == c.socBox0
    ensures r.overturning == c.overturning
    ensures r.tStar
            == PotentialFreezingPoint(k, m.salinity[c.shelf], Pressure(k, c.thickness)) - m.temperature[c.shelf]
    ensures r.melt * (k.nu * k.lambda)
            == k.gammaT * (r.toc - PotentialFreezingPoint(k, r.soc, Pressure(k, c.thickness)))
    ensures r.tPressureMelting == InSituMeltingPoint(k, r.soc, Pressure(k, c.thickness))
  {
    var mS := m.salinity[c.shelf];
    var mT := m.temperature[c.shelf];
    var pressure := Pressure(k, c.thickness);
    var tStar := PotentialFreezingPoint(k, mS, pressure) - mT;
    var toc := BoxTemperature(mT, ExchangeI(d, k, c, i), tStar, BoxDenominator(d, k, m, c, i));
    var soc := BoxSalinity(mS, mT, toc, k.nu * k.lambda);
    c.(tStar := tStar, toc := toc, soc := soc,
       melt := MeltRate(k, soc, toc, pressure),
       tPressureMelting := InSituMeltingPoint(k, soc, pressure))
  }

  /** The closed-form temperature of a box from the upstream temperature `mT`. */
  function BoxTemperature(mT: real, g1: real, tStar: real, den: real): real
    requires den != 0.0
  {
    mT + g1 * tStar / den
  }

  /** The salinity of a box from the upstream salinity `mS` and the cooling `mT - toc`. */
  function BoxSalinity(mS: real, mT: real, toc: real, nl: real): real
    requires nl != 0.0
  {
    mS - mS * (mT - toc) / nl
  }

  /** Salt budget of box `i`: the salinity change is the upstream salinity times the cooling over ν·λ. */
  lemma BoxSaltBudget(d: Domain, k: Constants, m: BoxMeans, c: Cell, i: int)
    requires ValidConstants(k) && BoxTableShape(d) && MeansShape(d, m)
    requires 0 <= c.shelf < d.numberOfShelves && 0 <= i <= d.numberOfBoxes
    requires BoxDenominator(d, k, m, c, i) != 0.0
    ensures var r := BoxCell(d, k, m, c, i);
            (m.salinity[c.shelf] - r.soc) * (k.nu * k.lambda)
            == m.salinity[c.shelf] * (m.temperature[c.shelf] - r.toc)
  {
    var r := BoxCell(d, k, m, c, i);
    DivideThenMultiply(m.salinity[c.shelf] * (m.temperature[c.shelf] - r.toc), k.nu * k.lambda);
  }

  lemma DivideThenMultiply(x: real, n: real)
    requires n != 0.0
    ensures (x / n) * n == x
  {
  }

  /**
   * Heat budget of box `i`: the heat the box-1 overturning gives up while
   * cooling from the upstream temperature to the box temperature equals the
   * heat exchanged with the shelf base, g1·(T − freezing point of the box salinity).
   */
  lemma BoxHeatBudget(d: Domain, k: Constants, m: BoxMeans, c: Cell, i: int)
    requires ValidConstants(k) && BoxTableShape(d) && MeansShape(d, m)
    requires 0 <= c.shelf < d.numberOfShelves && 0 <= i <= d.numberOfBoxes
    requires BoxDenominator(d, k, m, c, i) != 0.0
    ensures var r := BoxCell(d, k, m, c, i);
            m.overturning[c.shelf] * (m.temperature[c.shelf] - r.toc)
            == ExchangeI(d, k, c, i) * (r.toc - PotentialFreezingPoint(k, r.soc, Pressure(k, c.thickness)))
  {
  }

  /** A cell the stage for box `i` solves: in box `i` of a shelf with upstream data. */
  predicate Solves(d: Domain, m: BoxMeans, c: Cell, i: int)
    requires MeansShape(d, m) && 0 <= c.shelf < d.numberOfShelves
  {
    InBox(c, i) && !MissingUpstream(d, m, c.shelf)
  }

  predicate GridSolvable(d: Domain, k: Constants, m: BoxMeans, g: Grid, i: int)
    requires ValidConstants(k) && BoxTableShape(d) && MeansShape(d, m) && MasksInRange(d, g)
    requires 0 <= i <= d.numberOfBoxes
  {
    forall j :: 0 <= j < |g| && Solves(d, m, g[j], i) ==> BoxDenominator(d, k, m, g[j], i) != 0.0
  }

  function BoxStep(d: Domain, k: Constants, m: BoxMeans, c: Cell, i: int): Cell
    requires ValidConstants(k) && BoxTableShape(d) && MeansShape(d, m)
    requires 0 <= c.shelf < d.numberOfShelves && 0 <= i <= d.numberOfBoxes
    requires Solves(d, m, c, i) ==> BoxDenominator(d, k, m, c, i) != 0.0
  {
    if !InBox(c, i) then c
    else if MissingUpstream(d, m, c.shelf) then c.(box := FallbackBox(d))
    else BoxCell(d, k, m, c, i)
  }

  /**
   * One pass of the box loop for box `i`: cells of box `i` are solved or,
   * lacking upstream data, relabelled; every other cell is left alone.
   */
  function BoxStage(d: Domain, k: Constants, m: BoxMeans, g: Grid, i: int): (r: Result<Grid, Fault>)
    requires ValidConstants(k) && BoxTableShape(d) && MeansShape(d, m) && MasksInRange(d, g)
    requires 2 <= i <= d.numberOfBoxes
    ensures r.Success? <==> GridSolvable(d, k, m, g, i)
    ensures r.Failure? ==> r.error == ZeroDenominator(i)
    ensures r.Success? ==>
              && |r.value| == |g|
              && (forall j :: 0 <= j < |g| ==>
                    && SameInputs(g[j], r.value[j])
                    && r.value[j].tocBox0 == g[j].tocBox0 && r.value[j].socBox0 == g[j].socBox0
                    && r.value[j].overturning == g[j].overturning)
              && (forall j :: 0 <= j < |g| && !InBox(g[j], i) ==> r.value[j] == g[j])
              && (forall j :: 0 <= j < |g| && InBox(g[j], i) && MissingUpstream(d, m, g[j].shelf) ==>
                    r.value[j] == g[j].(box := FallbackBox(d)))
              && (forall j :: 0 <= j < |g| && Solves(d, m, g[j], i) ==>
                    r.value[j] == BoxCell(d, k, m, g[j], i))
  {
    if GridSolvable(d, k, m, g, i) then
      Success(seq(|g|, j requires 0 <= j < |g| => BoxStep(d, k, m, g[j], i)))
    else
      Failure(ZeroDenominator(i))
  }

  /**
   * The averages box `i` hands on: salinity and temperature over the
   * shelf's box-`i` cells after the pass (zero for a shelf without any);
   * the overturning is the box-1 value throughout.
   */
  function NextMeans(d: Domain, m: BoxMeans, g: Grid, i: int): (r: BoxMeans)
    requires MeansShape(d, m)
    ensures MeansShape(d, r) && r.overturning == m.overturning
    ensures forall s :: 0 <= s < d.numberOfShelves ==>
              && r.salinity[s] == Mean(g, BoxOfShelf(s, i), Soc)
              && r.temperature[s] == Mean(g, BoxOfShelf(s, i), Toc)
  {
    BoxMeans(seq(d.numberOfShelves, s => Mean(g, BoxOfShelf(s, i), Soc)),
             seq(d.numberOfShelves, s => Mean(g, BoxOfShelf(s, i), Toc)),
             m.overturning)
  }

  /** A cell the sweep from box `i` onwards may touch. */
  predicate Swept(d: Domain, c: Cell, i: int) {
    c.shelf > 0 && i <= c.box <= d.numberOfBoxes
  }

  /**
   * The averages box `n` reads when the sweep starts at box `i` with the
   * averages `m`: each pass from `i` up to `n`-1 hands its own means on,
   * and the overturning stays the box-1 value. A failed pass hands on
   * nothing new (the sweep stops there).
   */
  function MeansAt(d: Domain, k: Constants, m: BoxMeans, g: Grid, i: int, n: int): (r: BoxMeans)
    requires ValidConstants(k) && BoxTableShape(d) && MeansShape(d, m) && MasksInRange(d, g)
    requires 2 <= i
    ensures MeansShape(d, r) && r.overturning == m.overturning
    ensures n <= i ==> r == m
    decreases n - i
  {
    if n <= i || i > d.numberOfBoxes then m
    else
      match BoxStage(d, k, m, g, i)
      case Failure(_) => m
      case Success(h) => MeansAt(d, k, NextMeans(d, m, h, i), h, i + 1, n)
  }

  /**
   * `calculate_basal_melt_other_boxes` from box `i` on: boxes in increasing
   * order, each reading the averages the previous one produced.
   */
  function OtherBoxes(d: Domain, k: Constants, m: BoxMeans, g: Grid, i: int): (r: Result<Grid, Fault>)
    requires ValidConstants(k) && BoxTableShape(d) && MeansShape(d, m) && MasksInRange(d, g)
    requires 2 <= i
    decreases d.numberOfBoxes + 1 - i
    ensures r.Failure? ==> i <= r.error.box <= d.numberOfBoxes
    ensures r.Success? ==>
              && |r.value| == |g|
              && (forall j :: 0 <= j < |g| ==>
                    && SameInputs(g[j], r.value[j])
                    && r.value[j].tocBox0 == g[j].tocBox0 && r.value[j].socBox0 == g[j].socBox0
                    && r.value[j].overturning == g[j].overturning)
              && (forall j :: 0 <= j < |g| && !Swept(d, g[j], i) ==> r.value[j] == g[j])
              && (forall j :: 0 <= j < |g| && Swept(d, g[j], i) ==>
                    r.value[j].box == g[j].box || r.value[j].box == FallbackBox(d))
              && (forall j :: 0 <= j < |g| && Swept(d, g[j], i) && r.value[j].box == FallbackBox(d) ==>
                    && MissingUpstream(d, MeansAt(d, k, m, g, i, g[j].box), g[j].shelf)
                    && r.value[j] == g[j].(box := FallbackBox(d)))
              && (forall j :: 0 <= j < |g| && Swept(d, g[j], i) && r.value[j].box == g[j].box ==>
                    && Solves(d, MeansAt(d, k, m, g, i, g[j].box), g[j], g[j].box)
                    && BoxDenominator(d, k, MeansAt(d, k, m, g, i, g[j].box), g[j], g[j].box) != 0.0
                    && r.value[j] == BoxCell(d, k, MeansAt(d, k, m, g, i, g[j].box), g[j], g[j].box))
  {
    if i > d.numberOfBoxes then Success(g)
    else
      match BoxStage(d, k, m, g, i)
      case Failure(e) => Failure(e)
      case Success(h) => OtherBoxes(d, k, NextMeans(d, m, h, i), h, i + 1)
  }

  /**
   * Once a shelf lacks upstream data, it lacks it for good: the pass for a
   * box relabels every cell of the shelf in that box, so the averages it
   * hands on for the shelf are zero again.
   */
  lemma {:induction false} MissingPersists(d: Domain, k: Constants, m: BoxMeans, g: Grid, i: int, n: int, s: int)
    requires ValidConstants(k) && BoxTableShape(d) && MeansShape(d, m) && MasksInRange(d, g)
    requires 2 <= i && 0 < s < d.numberOfShelves && MissingUpstream(d, m, s)
    ensures MissingUpstream(d, MeansAt(d, k, m, g, i, n), s)
    decreases n - i
  {
    if n > i && i <= d.numberOfBoxes && BoxStage(d, k, m, g, i).Success? {
      var h := BoxStage(d, k, m, g, i).value;
      forall j | 0 <= j < |h|
        ensures !Selects(BoxOfShelf(s, i), h[j])
      {
        if g[j].shelf == s && g[j].box == i {
          assert h[j].box == FallbackBox(d);
        }
      }
      NothingSelected(h, BoxOfShelf(s, i), Soc);
      MissingPersists(d, k, NextMeans(d, m, h, i), h, i + 1, n, s);
    }
  }

  /**
   * A shelf that lacks upstream data at box `i` has every one of its cells
   * in boxes `i` .. numberOfBoxes relabelled to the fallback box.
   */
  lemma Cascade(d: Domain, k: Constants, m: BoxMeans, g: Grid, i: int, s: int)
    requires ValidConstants(k) && BoxTableShape(d) && MeansShape(d, m) && MasksInRange(d, g)
    requires 2 <= i && 0 < s < d.numberOfShelves && MissingUpstream(d, m, s)
    requires OtherBoxes(d, k, m, g, i).Success?
    ensures forall j :: 0 <= j < |g| && g[j].shelf == s && i <= g[j].box <= d.numberOfBoxes ==>
              OtherBoxes(d, k, m, g, i).value[j].box == FallbackBox(d)
  {
    forall j | 0 <= j < |g| && g[j].shelf == s && i <= g[j].box <= d.numberOfBoxes
      ensures OtherBoxes(d, k, m, g, i).value[j].box == FallbackBox(d)
    {
      MissingPersists(d, k, m, g, i, g[j].box, s);
    }
  }
}
