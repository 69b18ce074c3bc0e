/**
 * The last PICO stage: cells outside any ice shelf get no melt, and the
 * shelf cells relabelled to the fallback box get the Beckmann-Goosse
 * melt rate from the local box-1 inflow.
 */
module PicoMissing {
  import opened PicoTypes
  import opened PicoPhysics
  import opened PicoSweep

  /**
   * The Beckmann-Goosse fallback in a cell: the box takes the inflow
   * temperature and salinity, the melt rate is the heat flux over L·ρi, and
   * the shelf-base temperature is the in-situ melting point of the inflow.
   */
  predicate FallbackApplied(k: Constants, c: Cell) {
    var p := Pressure(k, c.thickness);
    && c.toc == c.tocBox0 && c.soc == c.socBox0
    && c.melt * (k.latentHeat * k.rhoi) == HeatFlux(k, c.tocBox0, c.socBox0, p)
    && c.tPressureMelting == InSituMeltingPoint(k, c.socBox0, p)
  }

  function MissingCell(d: Domain, k: Constants, c: Cell): (r: Cell)
    requires ValidConstants(k)
    ensures SameInputs(c, r) && r.box == c.box && r.tocBox0 == c.tocBox0 && r.socBox0 == c.socBox0
    ensures r.overturning == c.overturning && r.tStar == c.tStar
    ensures c.shelf == 0 ==> r == c.(melt := 0.0)
    ensures c.shelf > 0 && c.box == FallbackBox(d) ==> FallbackApplied(k, r)
    ensures c.shelf != 0 && !(c.shelf > 0 && c.box == FallbackBox(d)) ==> r == c
  {
    if c.shelf == 0 then c.(melt := 0.0)
    else if c.shelf > 0 && c.box == FallbackBox(d) then
      var pressure := Pressure(k, c.thickness);
      c.(toc := c.tocBox0, soc := c.socBox0,
         melt := FallbackMeltRate(k, c.tocBox0, c.socBox0, pressure),
         tPressureMelting := InSituMeltingPoint(k, c.socBox0, pressure))
    else c
  }

  /** `calculate_basal_melt_missing_cells` on the whole grid. */
  function MissingCells(d: Domain, k: Constants, g: Grid): (r: Grid)
    requires ValidConstants(k)
    ensures |r| == |g|
    ensures forall j :: 0 <= j < |g| ==> r[j] == MissingCell(d, k, g[j])
  {
    seq(|g|, j requires 0 <= j < |g| => MissingCell(d, k, g[j]))
  }
}
