/**
 * The constant-in-time PIK surface model: the surface mass balance is
 * whatever was read at initialisation, and the ice surface temperature is
 * a closed-form function of surface elevation and latitude, recomputed
 * only when the model is asked for a time step it has not just computed.
 */
module SurfacePik {

  /** The (t, dt) of the last recomputation; `Never` before the first one. */
  datatype Stamp = Never | At(t: real, dt: real)

  /** What the temperature formula reads at one cell. */
  datatype Site = Site(usurf: real, lat: real)  // surface elevation (m), latitude (degrees north)

  /** The model's state: the time stamp and its two output fields. */
  datatype Pik = Pik(stamp: Stamp, massFlux: seq<real>, temperature: seq<real>)

  /** How close (t, dt) must be to the stamp to count as the same step. */
  const Tolerance: real := 0.000000000001

  function Abs(x: real): (r: real)
    ensures r >= 0.0 && (r == x || r == -x)
  {
    if x < 0.0 then -x else x
  }

  /** The requested step matches the last one to within the tolerance. */
  predicate SameStep(stamp: Stamp, t: real, dt: real) {
    stamp.At? && Abs(t - stamp.t) < Tolerance && Abs(dt - stamp.dt) < Tolerance
  }

  /**
   * Ice surface temperature in kelvin: 30 °C above freezing at sea level on
   * the equator, 7.5 K colder per kilometre of elevation; the latitude term
   * is written with a factor of −1, so the temperature rises with `lat`.
   */
  function SurfaceTemperature(s: Site): (r: real)
    ensures r == 303.15 - 0.0075 * s.usurf + 0.68775 * s.lat
  {
    273.15 + 30.0 - 0.0075 * s.usurf - 0.68775 * s.lat * (-1.0)
  }

  /** Raising the surface by `h` metres lowers the temperature by 0.0075·h. */
  lemma LapseRate(s: Site, h: real)
    ensures SurfaceTemperature(s.(usurf := s.usurf + h)) == SurfaceTemperature(s) - 0.0075 * h
  {
  }

  /**
   * `update_impl`: a request for the step just computed is ignored; any
   * other request stamps the state and recomputes every cell's temperature.
   * The mass flux is never touched.
   */
  function Update(state: Pik, sites: seq<Site>, t: real, dt: real): (r: Pik)
    ensures r.massFlux == state.massFlux
    ensures SameStep(state.stamp, t, dt) ==> r == state
    ensures !SameStep(state.stamp, t, dt) ==>
              && r.stamp == At(t, dt)
              && |r.temperature| == |sites|
              && forall j :: 0 <= j < |sites| ==> r.temperature[j] == SurfaceTemperature(sites[j])
  {
    if SameStep(state.stamp, t, dt) then state
    else state.(stamp := At(t, dt), temperature := seq(|sites|, j requires 0 <= j < |sites| => SurfaceTemperature(sites[j])))
  }

  /** `mass_flux_impl`: the field read at initialisation. */
  function MassFlux(state: Pik): seq<real> {
    state.massFlux
  }

  /** `temperature_impl`: the field of the last recomputation. */
  function Temperature(state: Pik): seq<real> {
    state.temperature
  }

  /** Repeating an update with the same step changes nothing. */
  lemma UpdateIdempotent(state: Pik, sites: seq<Site>, t: real, dt: real)
    ensures Update(Update(state, sites, t, dt), sites, t, dt) == Update(state, sites, t, dt)
  {
    var once := Update(state, sites, t, dt);
    assert SameStep(once.stamp, t, dt);
  }

  /** One call of `update_impl`: the requested step and the geometry it is given. */
  datatype Request = Request(t: real, dt: real, sites: seq<Site>)

  /** Updates for the given requests, in order. */
  function Run(state: Pik, steps: seq<Request>): Pik
    decreases |steps|
  {
    if |steps| == 0 then state
    else Run(Update(state, steps[0].sites, steps[0].t, steps[0].dt), steps[1..])
  }

  /** Any sequence of updates leaves the mass flux read at initialisation in place. */
  lemma {:induction false} MassFluxConstant(state: Pik, steps: seq<Request>)
    ensures MassFlux(Run(state, steps)) == MassFlux(state)
    decreases |steps|
  {
    if |steps| > 0 {
      MassFluxConstant(Update(state, steps[0].sites, steps[0].t, steps[0].dt), steps[1..]);
    }
  }

  /** `temperature_impl` returns the closed-form temperature of every site. */
  predicate Current(state: Pik, sites: seq<Site>) {
    && |Temperature(state)| == |sites|
    && forall j :: 0 <= j < |sites| ==> Temperature(state)[j] == SurfaceTemperature(sites[j])
  }

  /** Every request of the run carries the same geometry. */
  predicate FixedGeometry(steps: seq<Request>, sites: seq<Site>) {
    forall n :: 0 <= n < |steps| ==> steps[n].sites == sites
  }

  /** An update keeps the temperature current, whether it recomputes or not. */
  lemma UpdateKeepsCurrent(state: Pik, sites: seq<Site>, t: real, dt: real)
    requires Current(state, sites)
    ensures Current(Update(state, sites, t, dt), sites)
  {
  }

  /**
   * At fixed geometry, after a run whose first step differs from the stamp,
   * `temperature_impl` returns the closed-form temperature of every site,
   * however many of the later steps repeat the one before.
   */
  lemma {:induction false} TemperatureCurrent(state: Pik, sites: seq<Site>, steps: seq<Request>)
    requires |steps| > 0 && !SameStep(state.stamp, steps[0].t, steps[0].dt)
    requires FixedGeometry(steps, sites)
    ensures Current(Run(state, steps), sites)
  {
    RunKeepsCurrent(Update(state, sites, steps[0].t, steps[0].dt), sites, steps[1..]);
  }

  lemma {:induction false} RunKeepsCurrent(state: Pik, sites: seq<Site>, steps: seq<Request>)
    requires Current(state, sites) && FixedGeometry(steps, sites)
    ensures Current(Run(state, steps), sites)
    decreases |steps|
  {
    if |steps| > 0 {
      UpdateKeepsCurrent(state, sites, steps[0].t, steps[0].dt);
      RunKeepsCurrent(Update(state, sites, steps[0].t, steps[0].dt), sites, steps[1..]);
    }
  }

  /**
   * The skip test compares only (t, dt): a request that repeats the step
   * but brings a new geometry keeps the field of the old geometry, which is
   * then not the closed-form temperature of the new one.
   */
  lemma StaleAfterGeometryChange()
    ensures var st := Update(Pik(Never, [0.0], [0.0]), [Site(0.0, 0.0)], 1.0, 1.0);
            && Current(st, [Site(0.0, 0.0)])
            && Temperature(Update(st, [Site(1000.0, 0.0)], 1.0, 1.0)) == Temperature(st)
            && !Current(Update(st, [Site(1000.0, 0.0)], 1.0, 1.0), [Site(1000.0, 0.0)])
  {
    var st := Update(Pik(Never, [0.0], [0.0]), [Site(0.0, 0.0)], 1.0, 1.0);
    assert SameStep(st.stamp, 1.0, 1.0);
    assert Temperature(st)[0] == 303.15;
  }
}
