# PICO sub-shelf melt and the constant PIK surface model, in Dafny

This project models two pieces of the PISM ice-sheet model's climate
couplers.

**PICO** is the Potsdam Ice-shelf Cavity mOdel (`Pico::update_impl`). Each
ice shelf's cavity is split into boxes. Box 1 lies next to the grounding
line and box N next to the calving front. One update runs these stages in
order:

1. It averages the ocean temperature and salinity on each basin's
   continental shelf. A basin with no such cells gets dummy values.
2. It gives every floating shelf cell an inflow ("box 0"). The inflow sums
   the inputs of basins 1..numberOfBasins-1, each weighted by the number
   of the shelf's cells in that basin, and divides by the number of all
   the shelf's cells. Basin 0 is skipped but its cells stay in the
   divisor, so a shelf with a share f of its cells in basin 0 gets an
   inflow scaled down by 1 − f. The inflow temperature is raised just
   above the local freezing point when it falls below it.
3. It solves box 1 in closed form. The box temperature comes from a
   quadratic, solved by the p-q formula with the square-root argument
   clamped at zero. Salinity, melt rate and overturning follow, and the
   per-shelf box-1 averages are formed.
4. It sweeps boxes 2..N in order. Each box is solved from the averages of
   the box before it; the overturning always comes from box 1. A cell
   whose upstream averages are missing (zero) is relabelled to box N+1.
5. It gives the relabelled cells the Beckmann-Goosse melt rate computed
   from their own inflow. Cells outside every shelf get no melt.
6. It hands out the outputs: mass flux = ice density × melt rate, and
   shelf-base temperature = in-situ melting point.

**The constant PIK surface model** (`PIK::update_impl`) works as follows:

- It holds the surface mass balance read at start-up.
- It sets the surface temperature from surface elevation and latitude by a
  closed formula.
- It recomputes only when asked for a time step other than the last one.

Modules:

- `PicoTypes`: cells, domain, configuration and constants.
- `PicoSums`: counts, sums and means over selected cells.
- `PicoInput`: stages 1-2.
- `PicoPhysics`: melt-rate formulas.
- `PicoBox1`: stage 3.
- `PicoSweep`: stage 4.
- `PicoMissing`: stage 5.
- `Pico`: the whole update.
- `SurfacePik`: the PIK surface model.
- `Wrappers`: the `Result` type.

Modelling choices:

- **Grid.** A grid is a sequence of cell records in the code's `Points`
  iteration order.
- **MPI.** Every `GlobalSum` is a plain sum over the whole grid, as on a
  single process.
- **Division by zero.** A division by zero in a box solve produces IEEE
  infinities or NaNs in the code. Here the update returns
  `Failure(ZeroDenominator(box))` instead.
- **Empty basin 0.** Its input is the 0/0 average, represented as
  `NotANumber`. The weighting loop never reads it.
- **Square root.** The square root is a function parameter. The lemmas
  that depend on its meaning assume it returns the non-negative root of a
  non-negative argument.

## Model

| member | source | states |
|---|---|---|
| PicoTypes.FromConfig | src/coupler/ocean/Pico.cc:48-100 | The constants of an update: ν·ρw = ρi, λ·cp = L, and T_dummy is 1.5 K below the fresh-water melting point. Valid densities and latent heat make the ν·λ and L·ρi divisors nonzero. |
| PicoSums.Mean | src/coupler/ocean/Pico.cc:704-721 | The mean of a field over the selected cells. It is sum/count when some cell is selected and exactly 0 when none is. |
| PicoSums.MeanBetween | src/coupler/ocean/Pico.cc:450-456 | The mean over a nonempty selection lies between any lower and upper bound of the values averaged. |
| PicoSums.ShelfCountSplitsOverBasins | src/coupler/ocean/Pico.cc:507-520 | When every basin id lies in range, the per-basin cell counts of a shelf add up to the shelf's cell count. |
| PicoInput.BasinInput | src/coupler/ocean/Pico.cc:417-458 | A basin's input. With continental-shelf cells it is their mean temperature and salinity. Without any, basin b > 0 gets (T_dummy, S_dummy) and basin 0 gets 0/0. |
| PicoInput.BasinInputs | src/coupler/ocean/Pico.cc:433-459 | One input per basin id. Every basin other than 0 has a numeric input. |
| PicoInput.BasinInputBetween | src/coupler/ocean/Pico.cc:450-456 | A basin's averaged temperature and salinity lie within the range of the forcing on its continental shelf. |
| PicoInput.WeightedSumAtLeast | src/coupler/ocean/Pico.cc:540-543 | The count-weighted sum over basins from lo on is at least the smallest basin value times the number of shelf cells in those basins. |
| PicoInput.WeightedSumAtMost | src/coupler/ocean/Pico.cc:540-543 | The same weighted sum is at most the largest basin value times that count. |
| PicoInput.ShelfInputBetween | src/coupler/ocean/Pico.cc:538-543 | If basin 0 holds none of the shelf, the shelf inflow is a convex combination of the basin inputs. It therefore lies within the bounds of basins 1.. numberOfBasins-1. |
| PicoInput.ShelfInputDiluted | src/coupler/ocean/Pico.cc:538-543 | The weighting skips basin 0 but divides by the count of the whole shelf. If a share f of the shelf's cells lies in basin 0, the inflow lies between (1 − f) times the lowest and (1 − f) times the highest input of basins 1..numberOfBasins-1. |
| PicoInput.BasinZeroDilutes | src/coupler/ocean/Pico.cc:538-543 | An instance: a shelf of two cells, one in basin 0 and one in basin 1 with input (275 K, 34 psu), gets the inflow (137.5 K, 17 psu) before the freezing-point floor. |
| PicoInput.InputCell | src/coupler/ocean/Pico.cc:527-556 | One cell after the input stage. Every cell gets Toc = 273.15, and no field other than Toc and the two inflow fields changes. A cell that is not a floating shelf cell gets zero inflow. A floating shelf cell gets the weighted salinity, and the weighted temperature floored at T_pmt + 0.001, so the result is never below T_pmt. |
| PicoInput.SetOceanInputFields | src/coupler/ocean/Pico.cc:524-558 | The same per-cell statement for the whole grid. No mask or forcing field changes. |
| PicoPhysics.MeltRate | src/coupler/ocean/Pico.cc:677-679 | melt·ν·λ = γT·(T − T_pmp(S)), the basal melt rate from the thermal forcing. |
| PicoPhysics.MeltRateSign | src/coupler/ocean/Pico.cc:677-679 | With γT > 0 and ν·λ > 0, a cell melts exactly when its box is warmer than the freezing point, and the rate is zero exactly at it. |
| PicoPhysics.FallbackMeltRate | src/coupler/ocean/Pico.cc:940-948 | melt·L·ρi equals the Beckmann-Goosse heat flux. |
| PicoPhysics.FallbackMeltRateSign | src/coupler/ocean/Pico.cc:940-948 | With positive constants, the fallback melt rate is positive exactly when the water is above freezing, and zero exactly at freezing. |
| PicoBox1.ResetCell | src/coupler/ocean/Pico.cc:625-634 | The defaults the box-1 stage writes: T* = 0, Toc = 273.15, Soc = 0, melt = 0, overturning = 0, T_pm = 0. Inputs and inflow are kept. |
| PicoBox1.Box1Quadratic | src/coupler/ocean/Pico.cc:650-665 | The p-q coefficients. It states p·factor = g1 and that the square-root argument is never negative. The clamp fires exactly when p²/4 − g1·T*/factor < 0, and it then sets q = p²/4. Otherwise q·factor = g1·T*. |
| PicoBox1.Box1Cell | src/coupler/ocean/Pico.cc:636-694 | A solved box-1 cell keeps its inputs, inflow and box. It carries T* = T_pmp(S0) − T0, the melt relation to its own temperature and salinity, and the in-situ melting point of its salinity. |
| PicoBox1.Box1SaltBudget | src/coupler/ocean/Pico.cc:671 | (S0 − S1)·ν·λ = S0·(T0 − T1). |
| PicoBox1.Box1Overturning | src/coupler/ocean/Pico.cc:681-682 | The overturning is the overturning factor C·ρ*·(β·S0/(ν·λ) − α) times the cooling T0 − T1. |
| PicoBox1.Box1Clamped | src/coupler/ocean/Pico.cc:656-669 | When the square-root argument was clamped, the box temperature is T0 + p/2. |
| PicoBox1.Box1HeatBudget | src/coupler/ocean/Pico.cc:640-682 | When not clamped, the heat the overturning gives up while cooling from T0 to T1 equals the exchange g1·(T1 − T_pmp(S0)). |
| PicoBox1.CoolingSolvesQuadratic | src/coupler/ocean/Pico.cc:650-669 | The unclamped cooling x = T0 − T1 is a root of factor·x² = −g1·(x + T*). It is the larger root −p/2 + √(p²/4 − q): x ≥ −p/2. |
| PicoBox1.Box1Stage | src/coupler/ocean/Pico.cc:620-698 | The stage succeeds exactly when every box-1 cell has a nonzero overturning factor; otherwise it reports box 1. Cells outside box 1 of a shelf carry the defaults, and box-1 cells are solved. Inputs, inflow and box mask are kept. |
| PicoBox1.Box1Means | src/coupler/ocean/Pico.cc:684-721 | The per-shelf box-1 means of salinity, temperature and overturning. Each is sum/count, or 0 for a shelf without box-1 cells. |
| PicoSweep.BoxCell | src/coupler/ocean/Pico.cc:815-844 | A solved box-i cell keeps its inputs, inflow, box and overturning. Its T* comes from the upstream means, and it has the melt relation and in-situ melting point of its own salinity. |
| PicoSweep.BoxSaltBudget | src/coupler/ocean/Pico.cc:833 | (S_up − S_i)·ν·λ = S_up·(T_up − T_i). |
| PicoSweep.BoxHeatBudget | src/coupler/ocean/Pico.cc:820-833 | The box-1 overturning times the cooling T_up − T_i equals g1·(T_i − T_pmp(S_i)). |
| PicoSweep.BoxStage | src/coupler/ocean/Pico.cc:787-851 | One pass for box i. It succeeds exactly when every cell it solves has a nonzero denominator, else it reports box i. Other cells are unchanged. A cell lacking upstream data gets only its box set to N+1. Every other cell of the box is solved. |
| PicoSweep.NextMeans | src/coupler/ocean/Pico.cc:845-870 | The means box i hands on: salinity and temperature over the cells it solved (0 when none), with the box-1 overturning carried along unchanged. |
| PicoSweep.OtherBoxes | src/coupler/ocean/Pico.cc:742-886 | Boxes from i to N in increasing order, each reading its predecessor's means. A fault names a box in [i, N]. Inputs, inflow and overturning are kept, and cells outside the sweep are unchanged. A swept cell moved to N+1 had missing upstream means at its own box and keeps every other field. A swept cell that keeps its box is solved from the means handed on by the box before it, with a nonzero denominator. |
| PicoSweep.MissingPersists | src/coupler/ocean/Pico.cc:807-870 | Once a shelf's upstream means are missing at box i, they stay missing at every later box: the shelf's cells are relabelled rather than solved, so box i hands on zero means. |
| PicoSweep.Cascade | src/coupler/ocean/Pico.cc:807-812 | Once a shelf lacks upstream data at box i, every cell of that shelf in boxes i..N ends in the fallback box N+1 with its other fields unchanged. |
| PicoMissing.MissingCell | src/coupler/ocean/Pico.cc:918-956 | Shelf-0 cells get melt 0 and nothing else changes. Shelf cells in box N+1 take the inflow as box values, the Beckmann-Goosse melt rate and the in-situ melting point of the inflow. Every other cell is unchanged. |
| PicoMissing.MissingCells | src/coupler/ocean/Pico.cc:900-958 | The missing-cells stage applies that per-cell rule to every cell. |
| Pico.Outputs | src/coupler/ocean/Pico.cc:374-379 | Mass flux = ρi × melt rate, and shelf-base temperature = T_pressure_melting, cell by cell. Sea level and melange back pressure are zero. |
| Pico.InputStage | src/coupler/ocean/Pico.cc:366-367 | The two input stages keep the masks and forcing of every cell. |
| Pico.Update | src/coupler/ocean/Pico.cc:337-380 | The stages in the code's order. A fault names box 1 or a box in 2..N, and a successful update keeps every cell's masks and forcing. |
| Pico.NonShelfCellsDoNotMelt | src/coupler/ocean/Pico.cc:923-928 | Across the whole update, a cell outside every shelf ends with zero mass flux and zero shelf-base temperature. |
| Pico.UnboxedCellsKeepDefaults | src/coupler/ocean/Pico.cc:625-697 | Across the whole update, a shelf cell whose box id is neither 1..N nor N+1 ends with the box-1 defaults and zero mass flux. |
| Pico.InflowNotBelowFreezing | src/coupler/ocean/Pico.cc:549-556 | Across the whole update, every floating shelf cell ends with an inflow temperature at or above the potential freezing point of its inflow salinity. |
| Pico.EmptyBox1FallsBack | src/coupler/ocean/Pico.cc:932-948 | Across the whole update, a shelf with no box-1 cells has every cell of boxes 2..N relabelled to N+1, with the Beckmann-Goosse rate from its own inflow. |
| Pico.EmptyBox1Means | src/coupler/ocean/Pico.cc:716-721 | A shelf with no box-1 cells gets zero box-1 means, which mark its upstream data as missing. |
| SurfacePik.SurfaceTemperature | src/coupler/surface/ConstantPIK.cc:100 | T = 303.15 − 0.0075·usurf + 0.68775·lat. |
| SurfacePik.LapseRate | src/coupler/surface/ConstantPIK.cc:100 | Raising the surface by h metres lowers the temperature by 0.0075·h. |
| SurfacePik.Update | src/coupler/surface/ConstantPIK.cc:84-102 | A request within 1e-12 of the last (t, dt) changes nothing. Any other request stamps (t, dt) and sets every cell's temperature from the formula. The mass flux is never touched. |
| SurfacePik.UpdateIdempotent | src/coupler/surface/ConstantPIK.cc:85-90 | Repeating an update with the same (t, dt) changes nothing. |
| SurfacePik.MassFluxConstant | src/coupler/surface/ConstantPIK.cc:104-106 | After any sequence of updates, each with its own geometry, `mass_flux_impl` (the accessor `MassFlux`) returns the field read at initialisation. |
| SurfacePik.UpdateKeepsCurrent | src/coupler/surface/ConstantPIK.cc:84-110 | If `temperature_impl` (the accessor `Temperature`) returns the closed-form field of some sites, it still does after an update given those same sites, whether recomputed or skipped. |
| SurfacePik.TemperatureCurrent | src/coupler/surface/ConstantPIK.cc:84-110 | At fixed geometry (every request carries the same sites): after a run whose first step differs from the stamp, `temperature_impl` returns the closed-form temperature of every site, however many later requests repeat the step. |
| SurfacePik.RunKeepsCurrent | src/coupler/surface/ConstantPIK.cc:84-110 | At fixed geometry, a run of updates keeps a closed-form temperature field closed-form. |
| SurfacePik.StaleAfterGeometryChange | src/coupler/surface/ConstantPIK.cc:84-102 | The skip test compares only (t, dt). A request that repeats the step with a new geometry keeps the old field, which is then not the closed-form temperature of the new sites. |

## Left out

- Mask building (`identifyMASK`, `identify_shelf_mask`, `round_basins`, `compute_distances`, `identify_ocean_box_mask`, Pico.cc:352-360): these are not part of this model. Shelf, box, basin and continental-shelf masks, and the per-shelf box cell counts, are inputs.
- `update_internal` and the time averaging of the ocean forcing (Pico.cc:341-344): the forcing is the cell's `theta` and `salinity` as given.
- `test()` and all logging, including the warning counters (`lcounterTpmp`, `lcountHelpterm`, `lcountGl0`) and the unused box-1 melt-rate accumulator.
- Reading `Constants` from the configuration database: the configuration values are the fields of `Config`.
- Basin and shelf ids out of range: every stage requires basin ids in [0, numberOfBasins) and shelf ids in [0, numberOfShelves) (`MasksInRange`). The code indexes its per-basin and per-shelf vectors with the raw ids (Pico.cc:421-424, 509-511). Its basin-range check in `init_impl` is commented out (Pico.cc:249-258), and nothing else guarantees the range. An out-of-range id is an out-of-bounds write there, which the model does not represent.
- `continental_shelf_depth` (Pico.cc:57): it only serves to build the continental-shelf mask, which is an input here, so `Config` does not carry it.
- MPI: `GlobalSum` is a plain sum over one grid.
- Floating-point rounding: all arithmetic is on exact reals. A division by zero becomes a `Failure` in the box solves and `NotANumber` for an empty basin 0; the model does not propagate IEEE infinities.
- PicoInput.SetOceanInputFields: the code divides each basin term by the shelf's cell count, while the model divides the weighted sum once. The two are equal in exact reals but not under rounding.
- `static_cast<int>(round(numberOfBoxes+1))` (Pico.cc:746): `numberOfBoxes` is a natural number, so the rounding is the identity.
- The square root is a parameter. Box1Clamped, Box1HeatBudget and CoolingSolvesQuadratic assume it returns the non-negative root of a non-negative argument; the other members need nothing of it.
- The constructor's field metadata, `init_impl`, model-state I/O and diagnostics of both models. The PIK mass flux read at start-up is the initial state's field.
- The initial (t, dt) of the PIK model is set by a base class that is not part of this model. The `Never` stamp stands for "no step computed yet".
- `MaxTimestep` and the PIK model-state definitions: they compute no field.
