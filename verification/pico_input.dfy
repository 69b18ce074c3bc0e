/**
 * Ocean input for PICO: the per-basin averages of the ocean forcing on the
 * continental shelf, and the per-shelf weighting of those averages that
 * gives box 1 its inflow temperature and salinity.
 */
module PicoInput {
  import opened PicoTypes
  import opened PicoSums

  /** A basin's ocean input. `NotANumber` stands for the 0/0 average of an empty basin 0. */
  datatype OceanInput = Input(temperature: real, salinity: real) | NotANumber

  /**
   * The input of basin `b`: the mean over its continental-shelf cells, the
   * dummy values when a basin other than 0 has none, and 0/0 for an empty basin 0.
   */
  function BasinInput(g: Grid, d: Domain, k: Constants, b: int): (r: OceanInput)
    ensures Count(g, InnerShelfOfBasin(d.innerMask, b)) > 0.0 ==>
              && r.Input?
              && r.temperature * Count(g, InnerShelfOfBasin(d.innerMask, b))
                 == Sum(g, InnerShelfOfBasin(d.innerMask, b), Theta)
              && r.salinity * Count(g, InnerShelfOfBasin(d.innerMask, b))
                 == Sum(g, InnerShelfOfBasin(d.innerMask, b), SalinityOcean)
    ensures Count(g, InnerShelfOfBasin(d.innerMask, b)) == 0.0 ==>
              r == (if b > 0 then Input(k.tDummy, k.sDummy) else NotANumber)
  {
    var sel := InnerShelfOfBasin(d.innerMask, b);
    var n := Count(g, sel);
    if b > 0 && n == 0.0 then Input(k.tDummy, k.sDummy)
    else if n == 0.0 then NotANumber
    else Input(Mean(g, sel, Theta), Mean(g, sel, SalinityOcean))
  }

  /** `compute_ocean_input_per_basin`: one input per basin id. */
  function BasinInputs(g: Grid, d: Domain, k: Constants): (r: seq<OceanInput>)
    ensures |r| == d.numberOfBasins
    ensures forall b :: 0 <= b < |r| ==> r[b] == BasinInput(g, d, k, b)
    ensures forall b :: 0 < b < |r| ==> r[b].Input?
  {
    seq(d.numberOfBasins, b => BasinInput(g, d, k, b))
  }

  /** A basin average lies within the range of the forcing on that basin's continental shelf. */
  lemma BasinInputBetween(g: Grid, d: Domain, k: Constants, b: int,
                          tLo: real, tHi: real, sLo: real, sHi: real)
    requires Count(g, InnerShelfOfBasin(d.innerMask, b)) > 0.0
    requires forall j :: 0 <= j < |g| && Selects(InnerShelfOfBasin(d.innerMask, b), g[j]) ==>
               tLo <= g[j].theta <= tHi && sLo <= g[j].salinity <= sHi
    ensures tLo <= BasinInput(g, d, k, b).temperature <= tHi
    ensures sLo <= BasinInput(g, d, k, b).salinity <= sHi
  {
    var sel := InnerShelfOfBasin(d.innerMask, b);
    MeanBetween(g, sel, Theta, tLo, tHi);
    MeanBetween(g, sel, SalinityOcean, sLo, sHi);
  }

  /** The two quantities a basin input carries. */
  datatype Quantity = Temperature | Salinity

  function Of(x: OceanInput, q: Quantity): real
    requires x.Input?
  {
    match q
    case Temperature => x.temperature
    case Salinity => x.salinity
  }

  /**
   * The count-weighted sum of the inputs of basins `lo` onwards for shelf `s`:
   * each basin's value times the number of the shelf's cells in that basin.
   * The code divides every term by the shelf's cell count; the model divides
   * the sum once, which is the same value in exact arithmetic.
   */
  function WeightedSum(inputs: seq<OceanInput>, g: Grid, s: int, lo: nat, q: Quantity): real
    requires forall b :: 1 <= b < |inputs| ==> inputs[b].Input?
    requires lo >= 1
    decreases |inputs| - lo
  {
    if lo >= |inputs| then 0.0
    else Of(inputs[lo], q) * Count(g, ShelfInBasin(s, lo)) + WeightedSum(inputs, g, s, lo + 1, q)
  }

  /** The weighted sum is at least the smallest basin value times the summed count. */
  lemma {:induction false} WeightedSumAtLeast(inputs: seq<OceanInput>, g: Grid, s: int, lo: nat,
                                              q: Quantity, vLo: real)
    requires forall b :: 1 <= b < |inputs| ==> inputs[b].Input?
    requires lo >= 1
    requires forall b :: lo <= b < |inputs| ==> vLo <= Of(inputs[b], q)
    ensures vLo * ShelfCountOverBasins(g, s, lo, |inputs|) <= WeightedSum(inputs, g, s, lo, q)
    decreases |inputs| - lo
  {
    if lo < |inputs| {
      WeightedSumAtLeast(inputs, g, s, lo + 1, q, vLo);
      AddLower(vLo, Of(inputs[lo], q), Count(g, ShelfInBasin(s, lo)),
               ShelfCountOverBasins(g, s, lo + 1, |inputs|), WeightedSum(inputs, g, s, lo + 1, q));
    }
  }

  /** The weighted sum is at most the largest basin value times the summed count. */
  lemma {:induction false} WeightedSumAtMost(inputs: seq<OceanInput>, g: Grid, s: int, lo: nat,
                                             q: Quantity, vHi: real)
    requires forall b :: 1 <= b < |inputs| ==> inputs[b].Input?
    requires lo >= 1
    requires forall b :: lo <= b < |inputs| ==> Of(inputs[b], q) <= vHi
    ensures WeightedSum(inputs, g, s, lo, q) <= vHi * ShelfCountOverBasins(g, s, lo, |inputs|)
    decreases |inputs| - lo
  {
    if lo < |inputs| {
      WeightedSumAtMost(inputs, g, s, lo + 1, q, vHi);
      AddUpper(vHi, Of(inputs[lo], q), Count(g, ShelfInBasin(s, lo)),
               ShelfCountOverBasins(g, s, lo + 1, |inputs|), WeightedSum(inputs, g, s, lo + 1, q));
    }
  }

  /** One more basin term keeps the lower bound. */
  lemma AddLower(vLo: real, v: real, n: real, count: real, rest: real)
    requires vLo <= v && n >= 0.0 && vLo * count <= rest
    ensures vLo * (n + count) <= v * n + rest
  {
    assert vLo * n <= v * n;
    assert vLo * (n + count) == vLo * n + vLo * count;
  }

  /** One more basin term keeps the upper bound. */
  lemma AddUpper(vHi: real, v: real, n: real, count: real, rest: real)
    requires v <= vHi && n >= 0.0 && rest <= vHi * count
    ensures v * n + rest <= vHi * (n + count)
  {
    assert v * n <= vHi * n;
    assert vHi * (n + count) == vHi * n + vHi * count;
  }

  lemma NonnegativeFactor(a: real, t: real)
    requires t > 0.0 && a * t >= 0.0
    ensures a >= 0.0
  {
  }

  /**
   * The weights of basins 1 .. numberOfBasins-1 add up to the part of the
   * shelf outside basin 0, so the shelf input is a convex combination of the
   * basin inputs whenever basin 0 holds no cell of the shelf.
   */
  lemma ShelfInputBetween(inputs: seq<OceanInput>, g: Grid, d: Domain, s: int, q: Quantity,
                          vLo: real, vHi: real)
    requires MasksInRange(d, g) && |inputs| == d.numberOfBasins
    requires forall b :: 1 <= b < |inputs| ==> inputs[b].Input?
    requires Count(g, WholeShelf(s)) > 0.0
    requires Count(g, ShelfInBasin(s, 0)) == 0.0
    requires forall b :: 1 <= b < |inputs| ==> vLo <= Of(inputs[b], q) <= vHi
    ensures vLo <= ShelfInflow(g, inputs, s, q) <= vHi
  {
    ShelfInputDiluted(inputs, g, d, s, q, vLo, vHi);
    assert BasinZeroShare(g, s) == 0.0;
  }

  /**
   * The weighting skips basin 0 without renormalising: when a share f of the
   * shelf's cells lies in basin 0, the inflow lies within (1 − f) times the
   * range of the inputs of basins 1 .. numberOfBasins-1, not within the range.
   */
  lemma ShelfInputDiluted(inputs: seq<OceanInput>, g: Grid, d: Domain, s: int, q: Quantity,
                          vLo: real, vHi: real)
    requires MasksInRange(d, g) && |inputs| == d.numberOfBasins
    requires forall b :: 1 <= b < |inputs| ==> inputs[b].Input?
    requires Count(g, WholeShelf(s)) > 0.0
    requires forall b :: 1 <= b < |inputs| ==> vLo <= Of(inputs[b], q) <= vHi
    ensures vLo * (1.0 - BasinZeroShare(g, s)) <= ShelfInflow(g, inputs, s, q)
    ensures ShelfInflow(g, inputs, s, q) <= vHi * (1.0 - BasinZeroShare(g, s))
  {
    ShelfInputDilutedBelow(inputs, g, d, s, q, vLo);
    ShelfInputDilutedAbove(inputs, g, d, s, q, vHi);
  }

  /** The fraction of a shelf's cells that lie in basin 0. */
  function BasinZeroShare(g: Grid, s: int): real
    requires Count(g, WholeShelf(s)) > 0.0
  {
    Count(g, ShelfInBasin(s, 0)) / Count(g, WholeShelf(s))
  }

  lemma ShelfInputDilutedBelow(inputs: seq<OceanInput>, g: Grid, d: Domain, s: int, q: Quantity, vLo: real)
    requires MasksInRange(d, g) && |inputs| == d.numberOfBasins
    requires forall b :: 1 <= b < |inputs| ==> inputs[b].Input?
    requires Count(g, WholeShelf(s)) > 0.0
    requires forall b :: 1 <= b < |inputs| ==> vLo <= Of(inputs[b], q)
    ensures vLo * (1.0 - BasinZeroShare(g, s)) <= ShelfInflow(g, inputs, s, q)
  {
    ShelfOutsideBasinZero(g, d, s, |inputs|);
    WeightedSumBound(inputs, g, s, q, vLo, true);
    DilutedInflow(inputs, g, s, q, vLo, true);
  }

  lemma ShelfInputDilutedAbove(inputs: seq<OceanInput>, g: Grid, d: Domain, s: int, q: Quantity, vHi: real)
    requires MasksInRange(d, g) && |inputs| == d.numberOfBasins
    requires forall b :: 1 <= b < |inputs| ==> inputs[b].Input?
    requires Count(g, WholeShelf(s)) > 0.0
    requires forall b :: 1 <= b < |inputs| ==> Of(inputs[b], q) <= vHi
    ensures ShelfInflow(g, inputs, s, q) <= vHi * (1.0 - BasinZeroShare(g, s))
  {
    ShelfOutsideBasinZero(g, d, s, |inputs|);
    WeightedSumBound(inputs, g, s, q, vHi, false);
    DilutedInflow(inputs, g, s, q, vHi, false);
  }

  /** `a` <= `b` when `below`, `b` <= `a` otherwise. */
  predicate Bound(below: bool, a: real, b: real)
  {
    if below then a <= b else b <= a
  }

  /** The two weighted-sum bounds over basins 1 .. numberOfBasins-1, as one `Bound`. */
  lemma WeightedSumBound(inputs: seq<OceanInput>, g: Grid, s: int, q: Quantity, v: real, below: bool)
    requires forall b :: 1 <= b < |inputs| ==> inputs[b].Input?
    requires forall b :: 1 <= b < |inputs| ==> Bound(below, v, Of(inputs[b], q))
    ensures Bound(below, v * ShelfCountOverBasins(g, s, 1, |inputs|), WeightedSum(inputs, g, s, 1, q))
  {
    if below {
      WeightedSumAtLeast(inputs, g, s, 1, q, v);
    } else {
      WeightedSumAtMost(inputs, g, s, 1, q, v);
    }
  }

  /** The inflow bound, given the count split and the bound on the weighted sum. */
  lemma DilutedInflow(inputs: seq<OceanInput>, g: Grid, s: int, q: Quantity, v: real, below: bool)
    requires forall b :: 1 <= b < |inputs| ==> inputs[b].Input?
    requires Count(g, WholeShelf(s)) > 0.0
    requires Count(g, WholeShelf(s)) == Count(g, ShelfInBasin(s, 0)) + ShelfCountOverBasins(g, s, 1, |inputs|)
    requires Bound(below, v * ShelfCountOverBasins(g, s, 1, |inputs|), WeightedSum(inputs, g, s, 1, q))
    ensures Bound(below, v * (1.0 - BasinZeroShare(g, s)), ShelfInflow(g, inputs, s, q))
  {
    DilutedQuotient(WeightedSum(inputs, g, s, 1, q), Count(g, WholeShelf(s)),
                    Count(g, ShelfInBasin(s, 0)), ShelfCountOverBasins(g, s, 1, |inputs|), v, below,
                    BasinZeroShare(g, s), ShelfInflow(g, inputs, s, q));
  }

  /** A shelf's cells are those in basin 0 plus those in basins 1 .. numberOfBasins-1. */
  lemma ShelfOutsideBasinZero(g: Grid, d: Domain, s: int, n: int)
    requires MasksInRange(d, g) && n == d.numberOfBasins && Count(g, WholeShelf(s)) > 0.0
    ensures n > 0
    ensures Count(g, WholeShelf(s)) == Count(g, ShelfInBasin(s, 0)) + ShelfCountOverBasins(g, s, 1, n)
  {
    ShelfCountSplitsOverBasins(g, s, d.numberOfBasins);
    if d.numberOfBasins == 0 {
      assert false;
    }
  }

  /**
   * `inflow` = `x` / `total`, where `x` is bounded below (when `below`) or
   * above by `v` times `rest`, lies within `v` times one minus the share
   * `n0` / `total`, when `total` = `n0` + `rest`.
   */
  lemma DilutedQuotient(x: real, total: real, n0: real, rest: real, v: real, below: bool,
                        share: real, inflow: real)
    requires total > 0.0 && total == n0 + rest
    requires share == n0 / total && inflow == x / total
    requires Bound(below, v * rest, x)
    ensures Bound(below, v * (1.0 - share), inflow)
  {
    ShareOfRest(n0, rest, total);
    assert inflow * total == x;
    assert (v * (rest / total)) * total == v * rest;
    if below {
      NonnegativeFactor(inflow - v * (rest / total), total);
    } else {
      NonnegativeFactor(v * (rest / total) - inflow, total);
    }
  }

  lemma ShareOfRest(n0: real, rest: real, total: real)
    requires total > 0.0 && total == n0 + rest
    ensures 1.0 - n0 / total == rest / total
  {
    var a := 1.0 - n0 / total;
    var b := rest / total;
    assert (n0 / total) * total == n0;
    assert a * total == total - n0;
    assert b * total == rest;
    assert a - b == ((a - b) * total) / total;
  }

  /**
   * An instance of the dilution: a shelf of two floating cells, one in
   * basin 0 and one in basin 1 whose input is 275 K and 34 psu, gets an
   * inflow of 137.5 K and 17 psu before the freezing-point floor.
   */
  lemma BasinZeroDilutes()
    ensures var c := Cell(Floating, 100.0, 272.0, 34.5, 0, 2, 1, 1,
                          0.0, 0.0, 273.15, 0.0, 0.0, 0.0, 0.0, 0.0);
            var g := [c, c.(basin := 1)];
            var inputs := [NotANumber, Input(275.0, 34.0)];
            && Count(g, WholeShelf(1)) == 2.0
            && ShelfInflow(g, inputs, 1, Temperature) == 137.5
            && ShelfInflow(g, inputs, 1, Salinity) == 17.0
  {
    var c := Cell(Floating, 100.0, 272.0, 34.5, 0, 2, 1, 1,
                  0.0, 0.0, 273.15, 0.0, 0.0, 0.0, 0.0, 0.0);
    var g := [c, c.(basin := 1)];
    assert g[1..] == [c.(basin := 1)] && g[1..][1..] == [];
    assert Count(g[1..][1..], ShelfInBasin(1, 1)) == 0.0 && Count(g[1..][1..], WholeShelf(1)) == 0.0;
    assert Count(g[1..], ShelfInBasin(1, 1)) == 1.0 && Count(g[1..], WholeShelf(1)) == 1.0;
    assert Count(g, ShelfInBasin(1, 1)) == 1.0;
  }

  /** The inflow fields of one cell after `set_ocean_input_fields`. */
  function InputCell(g: Grid, i: int, inputs: seq<OceanInput>, k: Constants): (r: Cell)
    requires 0 <= i < |g|
    requires forall b :: 1 <= b < |inputs| ==> inputs[b].Input?
    ensures SameInputs(g[i], r) && r.box == g[i].box && r.toc == 273.15
    ensures r == g[i].(toc := 273.15, tocBox0 := r.tocBox0, socBox0 := r.socBox0)
    ensures !(g[i].cellType == Floating && g[i].shelf > 0) ==> r.tocBox0 == 0.0 && r.socBox0 == 0.0
    ensures g[i].cellType == Floating && g[i].shelf > 0 ==>
              && Count(g, WholeShelf(g[i].shelf)) > 0.0
              && FloorApplied(g, inputs, k, g[i], r)
  {
    var c := g[i];
    var reset := c.(toc := 273.15, tocBox0 := 0.0, socBox0 := 0.0);
    if c.cellType == Floating && c.shelf > 0 then
      CountPositive(g, WholeShelf(c.shelf), i);
      var total := Count(g, WholeShelf(c.shelf));
      var t0 := WeightedSum(inputs, g, c.shelf, 1, Temperature) / total;
      var s0 := WeightedSum(inputs, g, c.shelf, 1, Salinity) / total;
      var tpmt := PotentialFreezingPoint(k, s0, Pressure(k, c.thickness));
      reset.(tocBox0 := if t0 < tpmt then tpmt + 0.001 else t0, socBox0 := s0)
    else
      reset
  }

  /** The box-1 inflow of a floating shelf cell: the share-weighted basin input before the floor. */
  function ShelfInflow(g: Grid, inputs: seq<OceanInput>, s: int, q: Quantity): real
    requires forall b :: 1 <= b < |inputs| ==> inputs[b].Input?
    requires Count(g, WholeShelf(s)) > 0.0
  {
    WeightedSum(inputs, g, s, 1, q) / Count(g, WholeShelf(s))
  }

  /**
   * The inflow of floating shelf cell `c` (now `r`): salinity is the weighted
   * basin salinity; temperature is the weighted basin temperature, raised to
   * just above the local potential freezing point when it lies below it.
   */
  predicate FloorApplied(g: Grid, inputs: seq<OceanInput>, k: Constants, c: Cell, r: Cell)
    requires forall b :: 1 <= b < |inputs| ==> inputs[b].Input?
    requires Count(g, WholeShelf(c.shelf)) > 0.0
  {
    var p := Pressure(k, c.thickness);
    var t0 := ShelfInflow(g, inputs, c.shelf, Temperature);
    var s0 := ShelfInflow(g, inputs, c.shelf, Salinity);
    var tpmt := PotentialFreezingPoint(k, s0, p);
    && r.socBox0 == s0
    && r.tocBox0 >= tpmt
    && (t0 < tpmt ==> r.tocBox0 == tpmt + 0.001)
    && (t0 >= tpmt ==> r.tocBox0 == t0)
  }

  /** `set_ocean_input_fields`: the box-1 inflow of every floating shelf cell. */
  function SetOceanInputFields(g: Grid, inputs: seq<OceanInput>, k: Constants): (r: Grid)
    requires forall b :: 1 <= b < |inputs| ==> inputs[b].Input?
    ensures |r| == |g|
    ensures forall i :: 0 <= i < |r| ==>
              SameInputs(g[i], r[i]) && r[i].box == g[i].box && r[i].toc == 273.15
    ensures forall i :: 0 <= i < |r| ==>
              r[i] == g[i].(toc := 273.15, tocBox0 := r[i].tocBox0, socBox0 := r[i].socBox0)
    ensures forall i :: 0 <= i < |r| && !(g[i].cellType == Floating && g[i].shelf > 0) ==>
              r[i].tocBox0 == 0.0 && r[i].socBox0 == 0.0
    ensures forall i :: 0 <= i < |r| && g[i].cellType == Floating && g[i].shelf > 0 ==>
              && Count(g, WholeShelf(g[i].shelf)) > 0.0
              && FloorApplied(g, inputs, k, g[i], r[i])
  {
    seq(|g|, i requires 0 <= i < |g| => InputCell(g, i, inputs, k))
  }
}
