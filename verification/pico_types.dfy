/**
 * Data model of the PICO sub-shelf melt model: the per-cell grid record,
 * the geometry produced by the mask-building step, the configuration and
 * the physical constants derived from it.
 */
module PicoTypes {

  /** The ice-sheet cell type (the `mask` field); only `Floating` is checked by PICO. */
  datatype CellType = IceFreeBedrock | Grounded | Floating | IceFreeOcean

  /**
   * One grid cell. The first group of fields are inputs (ice geometry,
   * time-averaged ocean forcing, basin/shelf/box masks); the second group
   * are the PICO fields written by the stages of one update.
   */
  datatype Cell = Cell(
    cellType: CellType,
    thickness: real,        // land_ice_thickness, m
    theta: real,            // theta_ocean, K
    salinity: real,         // salinity_ocean, psu
    basin: int,             // cbasins
    contShelf: int,         // ocean_contshelf_mask
    shelf: int,             // shelf_mask, 0 = not part of an ice shelf
    box: int,               // ocean_box_mask
    tocBox0: real,          // temperature input for box 1, K
    socBox0: real,          // salinity input for box 1, psu
    toc: real,              // ocean temperature in the cell's box, K
    soc: real,              // ocean salinity in the cell's box, psu
    tStar: real,            // T_star
    overturning: real,      // cavity overturning, m^3/s
    melt: real,             // basalmeltrate_shelf, m/s
    tPressureMelting: real  // in-situ pressure melting point, K
  )

  /** The grid, in the order the cell loops visit it. */
  type Grid = seq<Cell>

  /**
   * What the geometric part of PICO provides: the sizes of the per-basin,
   * per-shelf and per-box tables, the continental-shelf mask value that marks
   * the averaging region, the cell counts per shelf and box, and the cell size.
   */
  datatype Domain = Domain(
    numberOfBasins: nat,
    numberOfShelves: nat,
    numberOfBoxes: nat,
    innerMask: int,                  // imask_inner
    counterBoxes: seq<seq<real>>,    // counter_boxes[shelf][box]
    dx: real,
    dy: real)

  /** Every basin and shelf id indexes the per-basin and per-shelf tables. */
  predicate MasksInRange(d: Domain, g: Grid) {
    forall j :: 0 <= j < |g| ==>
      0 <= g[j].basin < d.numberOfBasins && 0 <= g[j].shelf < d.numberOfShelves
  }

  /** `counterBoxes` has a row per shelf, each with a column for every box in use. */
  predicate BoxTableShape(d: Domain) {
    && |d.counterBoxes| == d.numberOfShelves
    && forall s :: 0 <= s < |d.counterBoxes| ==>
         2 <= |d.counterBoxes[s]| && d.numberOfBoxes < |d.counterBoxes[s]|
  }

  /** The configuration parameters PICO reads when it builds its constants. */
  datatype Config = Config(
    meltingPointTemperature: real,   // constants.fresh_water.melting_point_temperature
    standardGravity: real,           // constants.standard_gravity
    iceDensity: real,                // constants.ice.density
    seaWaterDensity: real,           // constants.sea_water.density
    latentHeatOfFusion: real,        // constants.fresh_water.latent_heat_of_fusion
    heatExchangeCoefficient: real,   // ocean.pico.heat_exchange_coefficent
    overturningCoefficient: real,    // ocean.pico.overturning_coefficent
    pikMeltFactor: real)             // ocean.pik_melt_factor

  /** The densities and the latent heat appear as divisors. */
  predicate ValidConfig(cfg: Config) {
    cfg.iceDensity != 0.0 && cfg.seaWaterDensity != 0.0 && cfg.latentHeatOfFusion != 0.0
  }

  datatype Constants = Constants(
    tDummy: real, sDummy: real,
    earthGrav: real, rhoi: real, rhow: real, rhoStar: real, nu: real,
    latentHeat: real, cpOcean: real, lambda: real,
    a: real, b: real, c: real,                      // linearised potential freezing point
    aInSitu: real, bInSitu: real, cInSitu: real,    // in-situ pressure melting point
    alpha: real, beta: real,
    gammaT: real, overturningCoeff: real, meltFactor: real)

  /** The denominators built from constants are nonzero. */
  predicate ValidConstants(k: Constants) {
    k.nu * k.lambda != 0.0 && k.latentHeat * k.rhoi != 0.0
  }

  /** The constants of one PICO update: configuration values plus the hard-wired ones. */
  function FromConfig(cfg: Config): (k: Constants)
    requires cfg.seaWaterDensity != 0.0
    ensures k.nu * k.rhow == k.rhoi
    ensures k.lambda * k.cpOcean == k.latentHeat
    ensures k.tDummy + 1.5 == cfg.meltingPointTemperature
    ensures ValidConfig(cfg) ==> ValidConstants(k)
  {
    var cpOcean := 3974.0;
    Constants(
      tDummy := -1.5 + cfg.meltingPointTemperature,
      sDummy := 34.7,
      earthGrav := cfg.standardGravity,
      rhoi := cfg.iceDensity,
      rhow := cfg.seaWaterDensity,
      rhoStar := 1033.0,
      nu := cfg.iceDensity / cfg.seaWaterDensity,
      latentHeat := cfg.latentHeatOfFusion,
      cpOcean := cpOcean,
      lambda := cfg.latentHeatOfFusion / cpOcean,
      a := -0.0572, b := 0.0788 + 273.15, c := 0.000777,
      aInSitu := -0.0573, bInSitu := 0.0832 + 273.15, cInSitu := 0.000753,
      alpha := 0.000075, beta := 0.00077,
      gammaT := cfg.heatExchangeCoefficient,
      overturningCoeff := cfg.overturningCoefficient,
      meltFactor := cfg.pikMeltFactor)
  }

  /** Pressure under the ice in dbar (1 dbar = 1e4 Pa). */
  function Pressure(k: Constants, thickness: real): real {
    k.rhoi * k.earthGrav * thickness * 0.0001
  }

  /** Linearised potential freezing point of sea water of salinity `s` at pressure `p`. */
  function PotentialFreezingPoint(k: Constants, s: real, p: real): real {
    k.a * s + k.b - k.c * p
  }

  /** In-situ pressure melting point at the shelf base. */
  function InSituMeltingPoint(k: Constants, s: real, p: real): real {
    k.aInSitu * s + k.bInSitu - k.cInSitu * p
  }

  /** Raised when a closed-form solve in the given box would divide by zero. */
  datatype Fault = ZeroDenominator(box: nat)

  /** The mask and input fields of a cell, which no PICO stage writes (the box mask excepted). */
  predicate SameInputs(x: Cell, y: Cell) {
    && x.cellType == y.cellType && x.thickness == y.thickness
    && x.theta == y.theta && x.salinity == y.salinity
    && x.basin == y.basin && x.contShelf == y.contShelf && x.shelf == y.shelf
  }
}
