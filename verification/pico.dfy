/**
 * One PICO update: the physical stages in the order `update_impl` runs
 * them, and the fields the ocean model hands to the ice model.
 */
module Pico {
  import opened Wrappers
  import opened PicoTypes
  import opened PicoSums
  import opened PicoPhysics
  import opened PicoInput
  import opened PicoBox1
  import opened PicoSweep
  import opened PicoMissing

  /** The final grid and the per-cell outputs of the ocean model. */
  datatype OceanState = OceanState(
    grid: Grid,
    shelfBaseMassFlux: seq<real>,
    shelfBaseTemperature: seq<real>,
    seaLevelElevation: seq<real>,
    melangeBackPressureFraction: seq<real>)

  /**
   * The output fields: mass flux is ice density times melt rate, the
   * shelf-base temperature is the in-situ melting point, and the sea level
   * and melange back pressure are zero.
   */
  function Outputs(k: Constants, g: Grid): (r: OceanState)
    ensures r.grid == g
    ensures |r.shelfBaseMassFlux| == |g| && |r.shelfBaseTemperature| == |g|
    ensures |r.seaLevelElevation| == |g| && |r.melangeBackPressureFraction| == |g|
    ensures forall j :: 0 <= j < |g| ==>
              && r.shelfBaseMassFlux[j] == k.rhoi * g[j].melt
              && r.shelfBaseTemperature[j] == g[j].tPressureMelting
              && r.seaLevelElevation[j] == 0.0 && r.melangeBackPressureFraction[j] == 0.0
  {
    OceanState(g, seq(|g|, j requires 0 <= j < |g| => k.rhoi * g[j].melt),
               seq(|g|, j requires 0 <= j < |g| => g[j].tPressureMelting),
               seq(|g|, _ => 0.0), seq(|g|, _ => 0.0))
  }

  /** The grid after the two input stages: per-basin averages, then per-shelf inflow. */
  function InputStage(d: Domain, k: Constants, g: Grid): (r: Grid)
    requires MasksInRange(d, g)
    ensures |r| == |g| && MasksInRange(d, r)
    ensures forall j :: 0 <= j < |g| ==> SameInputs(g[j], r[j]) && r[j].box == g[j].box
  {
    SetOceanInputFields(g, BasinInputs(g, d, k), k)
  }

  /**
   * `update_impl` after the geometry: input, box 1, boxes 2..N, missing
   * cells, outputs. A fault names the box whose solve would divide by zero.
   */
  function Update(d: Domain, cfg: Config, sqrt: real -> real, g: Grid): (r: Result<OceanState, Fault>)
    requires ValidConfig(cfg) && BoxTableShape(d) && MasksInRange(d, g)
    ensures r.Failure? ==> r.error.box == 1 || 2 <= r.error.box <= d.numberOfBoxes
    ensures r.Success? ==>
              && |r.value.grid| == |g|
              && forall j :: 0 <= j < |g| ==> SameInputs(g[j], r.value.grid[j])
  {
    var k := FromConfig(cfg);
    var g1 := InputStage(d, k, g);
    match Box1Stage(d, k, sqrt, g1)
    case Failure(e) => Failure(e)
    case Success(g2) =>
      match OtherBoxes(d, k, Box1Means(d, g2), g2, 2)
      case Failure(e) => Failure(e)
      case Success(g3) => Success(Outputs(k, MissingCells(d, k, g3)))
  }

  /** The grids between the stages of a successful update. */
  datatype Trace = Trace(k: Constants, afterInput: Grid, afterBox1: Grid, afterSweep: Grid, final: Grid)

  function Stages(d: Domain, cfg: Config, sqrt: real -> real, g: Grid): (t: Trace)
    requires ValidConfig(cfg) && BoxTableShape(d) && MasksInRange(d, g)
    requires Update(d, cfg, sqrt, g).Success?
    ensures t.k == FromConfig(cfg) && ValidConstants(t.k)
    ensures t.afterInput == InputStage(d, t.k, g)
    ensures Box1Stage(d, t.k, sqrt, t.afterInput) == Success(t.afterBox1)
    ensures OtherBoxes(d, t.k, Box1Means(d, t.afterBox1), t.afterBox1, 2) == Success(t.afterSweep)
    ensures t.final == MissingCells(d, t.k, t.afterSweep)
    ensures Update(d, cfg, sqrt, g).value == Outputs(t.k, t.final)
  {
    var k := FromConfig(cfg);
    var g1 := InputStage(d, k, g);
    var g2 := Box1Stage(d, k, sqrt, g1).value;
    var g3 := OtherBoxes(d, k, Box1Means(d, g2), g2, 2).value;
    Trace(k, g1, g2, g3, MissingCells(d, k, g3))
  }

  /** Cells outside every ice shelf (shelf id 0) have no mass flux and a zero shelf-base temperature. */
  lemma NonShelfCellsDoNotMelt(d: Domain, cfg: Config, sqrt: real -> real, g: Grid, j: int)
    requires ValidConfig(cfg) && BoxTableShape(d) && MasksInRange(d, g)
    requires Update(d, cfg, sqrt, g).Success?
    requires 0 <= j < |g| && g[j].shelf == 0
    ensures Update(d, cfg, sqrt, g).value.shelfBaseMassFlux[j] == 0.0
    ensures Update(d, cfg, sqrt, g).value.shelfBaseTemperature[j] == 0.0
  {
    var t := Stages(d, cfg, sqrt, g);
    assert IsReset(t.afterBox1[j]);
    assert !Swept(d, t.afterBox1[j], 2);
    assert t.final[j].melt == 0.0;
  }

  /**
   * Shelf cells whose box id is neither a box nor the fallback box keep the
   * defaults of the box-1 stage: no melt, zero melting point, 273.15 K.
   */
  lemma UnboxedCellsKeepDefaults(d: Domain, cfg: Config, sqrt: real -> real, g: Grid, j: int)
    requires ValidConfig(cfg) && BoxTableShape(d) && MasksInRange(d, g)
    requires Update(d, cfg, sqrt, g).Success?
    requires 0 <= j < |g| && g[j].shelf > 0 && (g[j].box < 1 || g[j].box > FallbackBox(d))
    ensures IsReset(Update(d, cfg, sqrt, g).value.grid[j])
    ensures Update(d, cfg, sqrt, g).value.shelfBaseMassFlux[j] == 0.0
  {
    var t := Stages(d, cfg, sqrt, g);
    assert IsReset(t.afterBox1[j]);
    assert !Swept(d, t.afterBox1[j], 2);
    assert t.final[j] == t.afterBox1[j];
  }

  /**
   * Every floating shelf cell ends the update with an inflow temperature at
   * or above the potential freezing point of its inflow salinity.
   */
  lemma InflowNotBelowFreezing(d: Domain, cfg: Config, sqrt: real -> real, g: Grid, j: int)
    requires ValidConfig(cfg) && BoxTableShape(d) && MasksInRange(d, g)
    requires Update(d, cfg, sqrt, g).Success?
    requires 0 <= j < |g| && g[j].cellType == Floating && g[j].shelf > 0
    ensures var c := Update(d, cfg, sqrt, g).value.grid[j];
            c.tocBox0 >= PotentialFreezingPoint(FromConfig(cfg), c.socBox0, Pressure(FromConfig(cfg), g[j].thickness))
  {
    var t := Stages(d, cfg, sqrt, g);
    var inputs := BasinInputs(g, d, t.k);
    assert FloorApplied(g, inputs, t.k, g[j], t.afterInput[j]);
    assert t.final[j].tocBox0 == t.afterInput[j].tocBox0;
    assert t.final[j].socBox0 == t.afterInput[j].socBox0;
  }

  /**
   * A shelf without box-1 cells hands no averages to box 2, so every one of
   * its cells in boxes 2..N falls back to the Beckmann-Goosse melt rate
   * computed from its own inflow.
   */
  lemma {:induction false} EmptyBox1FallsBack(d: Domain, cfg: Config, sqrt: real -> real, g: Grid, s: int, j: int)
    requires ValidConfig(cfg) && BoxTableShape(d) && MasksInRange(d, g)
    requires Update(d, cfg, sqrt, g).Success?
    requires 0 < s < d.numberOfShelves
    requires forall i :: 0 <= i < |g| ==> !(g[i].shelf == s && g[i].box == 1)
    requires 0 <= j < |g| && g[j].shelf == s && 2 <= g[j].box <= d.numberOfBoxes
    ensures var c := Update(d, cfg, sqrt, g).value.grid[j];
            c.box == FallbackBox(d) && FallbackApplied(FromConfig(cfg), c)
  {
    var t := Stages(d, cfg, sqrt, g);
    var m := Box1Means(d, t.afterBox1);
    forall i | 0 <= i < |t.afterBox1|
      ensures !(t.afterBox1[i].shelf == s && t.afterBox1[i].box == 1)
    {
      assert t.afterBox1[i].box == g[i].box && t.afterBox1[i].shelf == g[i].shelf;
    }
    EmptyBox1Means(d, t.afterBox1, s);
    Cascade(d, t.k, m, t.afterBox1, 2, s);
    assert t.afterSweep[j].box == FallbackBox(d);
    assert t.final[j] == MissingCell(d, t.k, t.afterSweep[j]);
  }

  /** A shelf with no box-1 cells gets zero box-1 averages, which mark its upstream data as missing. */
  lemma EmptyBox1Means(d: Domain, g: Grid, s: int)
    requires 0 < s < d.numberOfShelves
    requires forall i :: 0 <= i < |g| ==> !(g[i].shelf == s && g[i].box == 1)
    ensures MissingUpstream(d, Box1Means(d, g), s)
  {
    NothingSelected(g, BoxOfShelf(s, 1), Soc);
  }
}
