/**
 * The exerciser models of both engines: the power terms per section and their conversion to energy.
 * The transcendental parts of the physics (air density, gravity, the trigonometry of the incline,
 * Walking's pendulum term and the wind components) are parameters collected in `Physics`.
 */
module Exercise {
  import opened Js
  import opened Geo
  import Units
  import Surfaces

  /** Which prototype's Pr, Ps and Pa apply: Cycling (named "Rolling"), Running or Walking. */
  datatype Kind = Cycling | Running | Walking

  /** The fields an Exercise object holds in map2kcal-1.0.0.js. */
  datatype Exercise = Exercise(
    kind: Kind,
    cd: real,
    area: real,
    mExerciser: real,
    m: real,
    mw: real,
    eta: real,
    vr: real,
    a: real,
    brakingEstimated: bool,
    brakeDistance: real)

  /** What the energy formulas divide by is positive: the speed, the efficiency and the brake distance. */
  predicate Valid(ex: Exercise) {
    ex.vr > 0.0 && ex.eta > 0.0 && ex.brakeDistance > 0.0
  }

  /** The transcendental inputs of the power formulas. */
  datatype Physics = Physics(
    rho: real,
    g: (real, real) -> real,
    cosIncline: (real, real) -> real,
    sinIncline: (real, real) -> real,
    pendulum: (real, real, real) -> real,
    headwind: real -> real,
    crosswind: real -> real)

  datatype Powers = Powers(pd: real, pr: real, ps: real)

  /** `Exercise(Cd, A, m, eta, v, a)`: mass m, no braking estimate, brake distance 500 m. */
  function NewExercise(kind: Kind, cd: real, area: real, m: real, eta: real, vr: real, a: real, mw: real): (ex: Exercise)
    ensures ex.mExerciser == ex.m == m && !ex.brakingEstimated && ex.brakeDistance == 500.0
    ensures Valid(ex) <==> vr > 0.0 && eta > 0.0
  {
    Exercise(kind, cd, area, m, m, mw, eta, vr, a, false, 500.0)
  }

  /** CityCycling: "Tops" position, a 15 kg bicycle, two 2.5 kg wheels, braking estimated by default. */
  function CityCycling(vr: real, mExerciser: real, brakingEstimated: bool): (ex: Exercise)
    ensures ex.kind == Cycling && ex.m == mExerciser + 15.0 && ex.mExerciser == mExerciser
    ensures Valid(ex) <==> vr > 0.0
  {
    NewExercise(Cycling, 1.15, 0.632, mExerciser, 0.8, vr, 0.5, 2.0 * 2.5).(m := mExerciser + 15.0, brakingEstimated := brakingEstimated)
  }

  /** RaceCycling: "Drops" position, a 5 kg bicycle, two 1 kg wheels, no braking estimate by default. */
  function RaceCycling(vr: real, mExerciser: real, brakingEstimated: bool): (ex: Exercise)
    ensures ex.kind == Cycling && ex.m == mExerciser + 5.0 && ex.mExerciser == mExerciser
    ensures Valid(ex) <==> vr > 0.0
  {
    NewExercise(Cycling, 0.88, 0.32, mExerciser, 0.95, vr, 1.5, 2.0 * 1.0).(m := mExerciser + 5.0, brakingEstimated := brakingEstimated)
  }

  /** Running: standing drag area, efficiency 0.55, acceleration 2.5 m/s². Running has no wheel mass. */
  function RunningExercise(vr: real, mExerciser: real, brakingEstimated: bool): (ex: Exercise)
    ensures ex.kind == Running && ex.m == mExerciser
    ensures Valid(ex) <==> vr > 0.0
  {
    NewExercise(Running, 1.27, 0.55, mExerciser, 0.55, vr, 2.5, 0.0).(brakingEstimated := brakingEstimated)
  }

  /** Walking: as Running but accelerating at 1 m/s². */
  function WalkingExercise(vr: real, mExerciser: real, brakingEstimated: bool): (ex: Exercise)
    ensures ex.kind == Walking && ex.m == mExerciser
    ensures Valid(ex) <==> vr > 0.0
  {
    NewExercise(Walking, 1.27, 0.55, mExerciser, 0.55, vr, 1.0, 0.0).(brakingEstimated := brakingEstimated)
  }

  /** The presets with their default arguments: 20, 30, 15 and 5 km/h and an 80 kg exerciser. */
  lemma DefaultPresets()
    ensures Valid(CityCycling(Units.KphToMps(20.0), 80.0, true))
    ensures Valid(RaceCycling(Units.KphToMps(30.0), 80.0, false))
    ensures Valid(RunningExercise(Units.KphToMps(15.0), 80.0, false))
    ensures Valid(WalkingExercise(Units.KphToMps(5.0), 80.0, false))
  {
  }

  /** The mass that is accelerated: Cycling's Pa adds the rotating wheel mass, the base Pa does not. */
  function MassInMotion(ex: Exercise): real {
    if ex.kind == Cycling then ex.m + ex.mw else ex.m
  }

  /** Pd: drag power at the air speed vr + headwind. */
  function DragPower(ex: Exercise, s: Section, ph: Physics): real {
    var va := ex.vr + s.headwind;
    0.5 * ph.rho * va * va * ex.cd * ex.area * va
  }

  /** The part of Pr before the surface: speed, mass, gravity and incline cosine, or the walking pendulum term. */
  function RollingLoad(ex: Exercise, s: Section, ph: Physics): real {
    var g := ph.g(s.lat, s.elevation);
    var c := ph.cosIncline(s.slope, s.distance);
    match ex.kind
    case Cycling => ex.vr * ex.m * g * c
    case Running => ex.vr * ex.m * g * c / 5.0
    case Walking => ph.pendulum(ex.m, g, ex.vr) * c
  }

  /** Pr: rolling power, the load times the surface's Crr for Cycling and over the surface's mu for Running and Walking. */
  function RollingPower(ex: Exercise, s: Section, ph: Physics): real {
    match ex.kind
    case Cycling => RollingLoad(ex, s, ph) * Surfaces.Crr(s.surface, ex.vr)
    case Running => RollingLoad(ex, s, ph) / Surfaces.Mu(s.surface)
    case Walking => RollingLoad(ex, s, ph) / Surfaces.Mu(s.surface)
  }

  /** Ps: the power spent climbing (negative downhill). */
  function SlopePower(ex: Exercise, s: Section, ph: Physics): real {
    var g := ph.g(s.lat, s.elevation);
    var sn := ph.sinIncline(s.slope, s.distance);
    match ex.kind
    case Cycling => ex.vr * ex.m * g * sn
    case Running => ex.vr * ex.m * g * sn / 5.0
    case Walking => ph.pendulum(ex.m, g, ex.vr) * sn
  }

  function SectionPowers(ex: Exercise, s: Section, ph: Physics): Powers {
    Powers(DragPower(ex, s, ph), RollingPower(ex, s, ph), SlopePower(ex, s, ph))
  }

  /** Pd is shared by every kind of exercise and does not see the road: neither surface nor slope enters it. */
  lemma DragIgnoresKindAndRoad(ex: Exercise, k: Kind, s: Section, surface: Tag, slope: real, ph: Physics)
    ensures DragPower(ex.(kind := k), s.(surface := surface, slope := slope), ph) == DragPower(ex, s, ph)
  {
  }

  /** Running's Pr load and its Ps are the cycling formulas for the same exerciser and section, divided by 5. */
  lemma RunningIsAFifthOfCycling(ex: Exercise, s: Section, ph: Physics)
    requires ex.kind == Running
    ensures RollingLoad(ex, s, ph) * 5.0 == RollingLoad(ex.(kind := Cycling), s, ph)
    ensures SlopePower(ex, s, ph) * 5.0 == SlopePower(ex.(kind := Cycling), s, ph)
  {
  }

  /**
   * Ps never depends on the surface, and wherever the incline's sine is zero no kind of exercise spends
   * climbing power; the surface enters only Pr.
   */
  lemma SlopeIgnoresSurface(ex: Exercise, s: Section, surface: Tag, ph: Physics)
    ensures SlopePower(ex, s.(surface := surface), ph) == SlopePower(ex, s, ph)
    ensures ph.sinIncline(s.slope, s.distance) == 0.0 ==> SlopePower(ex, s, ph) == 0.0
  {
  }

  /**
   * Mud is the costliest surface to roll or walk on: whenever the load term (speed, mass, gravity and
   * incline cosine, or the pendulum term) is non-negative, no surface needs more rolling power.
   */
  lemma MudCostsMost(ex: Exercise, s: Section, ph: Physics)
    requires ex.vr >= 0.0 && ex.m >= 0.0
    requires ph.g(s.lat, s.elevation) * ph.cosIncline(s.slope, s.distance) >= 0.0
    requires ex.kind == Walking ==> ph.pendulum(ex.m, ph.g(s.lat, s.elevation), ex.vr) * ph.cosIncline(s.slope, s.distance) >= 0.0
    ensures RollingPower(ex, s, ph) <= RollingPower(ex, s.(surface := Str("mud")), ph)
  {
    var mud := s.(surface := Str("mud"));
    var load := RollingLoad(ex, s, ph);
    RollingLoadNonNegative(ex, s, ph);
    assert RollingLoad(ex, mud, ph) == load;
    if ex.kind == Cycling {
      Surfaces.CrrMudMost(s.surface, ex.vr);
      ScaleLe(load, Surfaces.Crr(s.surface, ex.vr), Surfaces.Crr(Str("mud"), ex.vr));
    } else {
      Surfaces.MuMudLeast(s.surface);
      DivideLe(load, Surfaces.Mu(s.surface), Surfaces.Mu(Str("mud")));
    }
  }

  lemma RollingLoadNonNegative(ex: Exercise, s: Section, ph: Physics)
    requires ex.vr >= 0.0 && ex.m >= 0.0
    requires ph.g(s.lat, s.elevation) * ph.cosIncline(s.slope, s.distance) >= 0.0
    requires ex.kind == Walking ==> ph.pendulum(ex.m, ph.g(s.lat, s.elevation), ex.vr) * ph.cosIncline(s.slope, s.distance) >= 0.0
    ensures RollingLoad(ex, s, ph) >= 0.0
  {
    if ex.kind != Walking {
      var g := ph.g(s.lat, s.elevation);
      var c := ph.cosIncline(s.slope, s.distance);
      assert ex.vr * ex.m >= 0.0;
      assert ex.vr * ex.m * g * c == (ex.vr * ex.m) * (g * c);
    }
  }

  lemma ScaleLe(load: real, x: real, y: real)
    requires load >= 0.0 && x <= y
    ensures load * x <= load * y
  {
    assert load * (y - x) >= 0.0;
  }

  lemma DivideLe(load: real, mu: real, muMud: real)
    requires load >= 0.0 && 0.0 < muMud <= mu
    ensures load / mu <= load / muMud
  {
    assert load / mu * mu == load && load / muMud * muMud == load;
  }

  /** PToW(P, s): the work of power P held over distance s at speed vr. */
  function PToW(p: real, s: real, vr: real): (w: real)
    requires vr != 0.0
    ensures w * vr == p * s
  {
    p * s / vr
  }

  /** E: the section's energy, the total input power (P = (Pd + Pr + Ps) / eta) over its distance. */
  function SectionEnergy(ex: Exercise, p: Powers, distance: real): real
    requires Valid(ex)
  {
    PToW((p.pd + p.pr + p.ps) / ex.eta, distance, ex.vr)
  }

  /** Ed, Er, Es: each power component's work, divided by eta. */
  function ComponentEnergy(ex: Exercise, component: real, distance: real): real
    requires Valid(ex)
  {
    PToW(component, distance, ex.vr) / ex.eta
  }

  /** Ea: the energy of accelerating over aDistance, Pa = vr * mass * a held over that distance, divided by eta. */
  function AccelerationEnergy(ex: Exercise, aDistance: real): (e: real)
    requires Valid(ex)
    ensures e == MassInMotion(ex) * ex.a * aDistance / ex.eta
  {
    PToW(ex.vr * MassInMotion(ex) * ex.a, aDistance, ex.vr) / ex.eta
  }

  /** EBraking: the acceleration energy spread over brakeDistance, charged per metre of section when estimated. */
  function BrakingEnergy(ex: Exercise, distance: real, aTotalDistance: real): (e: real)
    requires Valid(ex)
    ensures !ex.brakingEstimated ==> e == 0.0
    ensures ex.brakingEstimated && distance == ex.brakeDistance ==> e == AccelerationEnergy(ex, aTotalDistance)
  {
    if ex.brakingEstimated then AccelerationEnergy(ex, aTotalDistance) * distance / ex.brakeDistance else 0.0
  }

  /** The distance covered while accelerating uniformly from 0 to vr at rate a; 0 when a is 0. */
  function AccelerationDistance(ex: Exercise): (d: real)
    ensures ex.a != 0.0 ==> d * 2.0 * ex.a == ex.vr * ex.vr
    ensures ex.a == 0.0 ==> d == 0.0
  {
    if ex.a != 0.0 then ex.vr / 2.0 * (ex.vr / ex.a) else 0.0
  }

  lemma Cancel(x: real, y: real, w: real)
    requires w != 0.0 && x * w == y * w
    ensures x == y
  {
    assert (x - y) * w == 0.0;
  }

  /** q / eta times v·eta is q·v. */
  lemma Unscale(q: real, v: real, eta: real)
    requires eta != 0.0
    ensures q / eta * (v * eta) == q * v
  {
    var c := q / eta;
    assert c * eta == q;
    assert c * (v * eta) == (c * eta) * v;
  }

  lemma ComponentScaled(ex: Exercise, x: real, distance: real)
    requires Valid(ex)
    ensures ComponentEnergy(ex, x, distance) * (ex.vr * ex.eta) == x * distance
  {
    Unscale(PToW(x, distance, ex.vr), ex.vr, ex.eta);
  }

  lemma SectionScaled(ex: Exercise, p: Powers, distance: real)
    requires Valid(ex)
    ensures SectionEnergy(ex, p, distance) * (ex.vr * ex.eta) == (p.pd + p.pr + p.ps) * distance
  {
    var x := (p.pd + p.pr + p.ps) / ex.eta;
    var q := PToW(x, distance, ex.vr);
    assert q * ex.vr == x * distance;
    assert q * (ex.vr * ex.eta) == (q * ex.vr) * ex.eta;
    assert x * distance * ex.eta == (x * ex.eta) * distance;
    assert x * ex.eta == p.pd + p.pr + p.ps;
  }

  /** The section energy is the sum of its drag, rolling and slope energies. */
  lemma EnergyIsSumOfComponents(ex: Exercise, p: Powers, distance: real)
    requires Valid(ex)
    ensures SectionEnergy(ex, p, distance) ==
      ComponentEnergy(ex, p.pd, distance) + ComponentEnergy(ex, p.pr, distance) + ComponentEnergy(ex, p.ps, distance)
  {
    var w := ex.vr * ex.eta;
    var ed := ComponentEnergy(ex, p.pd, distance);
    var er := ComponentEnergy(ex, p.pr, distance);
    var es := ComponentEnergy(ex, p.ps, distance);
    SectionScaled(ex, p, distance);
    ComponentScaled(ex, p.pd, distance);
    ComponentScaled(ex, p.pr, distance);
    ComponentScaled(ex, p.ps, distance);
    assert (ed + er + es) * w == ed * w + er * w + es * w;
    Cancel(SectionEnergy(ex, p, distance), ed + er + es, w);
  }

  /** Accelerating over the whole acceleration distance costs the kinetic energy m·vr²/2, divided by eta. */
  lemma AccelerationIsKinetic(ex: Exercise)
    requires Valid(ex) && ex.a != 0.0
    ensures AccelerationEnergy(ex, AccelerationDistance(ex)) == MassInMotion(ex) * ex.vr * ex.vr / 2.0 / ex.eta
  {
    var d := AccelerationDistance(ex);
    assert ex.a * d == ex.vr * ex.vr / 2.0;
    calc {
      MassInMotion(ex) * ex.a * d / ex.eta;
      MassInMotion(ex) * (ex.a * d) / ex.eta;
      MassInMotion(ex) * ex.vr * ex.vr / 2.0 / ex.eta;
    }
  }

  /** The acceleration energy is additive in the distance it is charged over. */
  lemma AccelerationAdditive(ex: Exercise, x: real, y: real)
    requires Valid(ex)
    ensures AccelerationEnergy(ex, x + y) == AccelerationEnergy(ex, x) + AccelerationEnergy(ex, y)
  {
    var k := MassInMotion(ex) * ex.a;
    assert k * (x + y) == k * x + k * y;
    assert (k * x + k * y) / ex.eta == k * x / ex.eta + k * y / ex.eta;
  }

  /** So is the braking energy, for a fixed acceleration distance. */
  lemma BrakingAdditive(ex: Exercise, x: real, y: real, aTotalDistance: real)
    requires Valid(ex)
    ensures BrakingEnergy(ex, x + y, aTotalDistance) == BrakingEnergy(ex, x, aTotalDistance) + BrakingEnergy(ex, y, aTotalDistance)
  {
    if ex.brakingEstimated {
      var k := AccelerationEnergy(ex, aTotalDistance);
      assert k * (x + y) == k * x + k * y;
      assert (k * x + k * y) / ex.brakeDistance == k * x / ex.brakeDistance + k * y / ex.brakeDistance;
    }
  }

  // ---------------------------------------------------------------- route.js

  /** The fields of route.js's Exerciser; every preset shares Exerciser.prototype's formulas. */
  datatype Exerciser = Exerciser(cd: real, area: real, m: real, eta: real, vr: real, mw: real, a: real)

  /** What route.js's formulas divide by is positive: the speed and the efficiency. */
  predicate ValidExerciser(ex: Exerciser) {
    ex.vr > 0.0 && ex.eta > 0.0
  }

  /** `new Exerciser()` with its default arguments. */
  const DefaultExerciser: Exerciser := Exerciser(1.0, 0.5, 95.0, 0.9, 10.0, 2.0 * 2.5, 0.5)

  /** CityCyclist: overrides Cd, A, eta, vr and a; m and mw come from the prototype's defaults. */
  function CityCyclist(): (ex: Exerciser)
    ensures ValidExerciser(ex) && ex.m == 95.0 && ex.mw == 5.0
  {
    DefaultExerciser.(cd := 1.15, area := 0.632, eta := 0.8, vr := Units.KphToMps(20.0), a := 0.5)
  }

  function RacingCyclist(): (ex: Exerciser)
    ensures ValidExerciser(ex) && ex.m == 95.0 && ex.mw == 5.0
  {
    DefaultExerciser.(cd := 0.88, area := 0.32, eta := 0.95, vr := Units.KphToMps(30.0), a := 1.5)
  }

  /** Runner: overrides only Cd and A, so it keeps the cycling defaults, the 5 kg of wheels included. */
  function Runner(): (ex: Exerciser)
    ensures ValidExerciser(ex) && ex.vr == 10.0 && ex.eta == 0.9 && ex.mw == 5.0
  {
    DefaultExerciser.(cd := 1.27, area := 0.55)
  }

  /**
   * The route.js power terms: all presets roll with Crr, and gravity is asked for at the section's
   * slope where the current code passes its elevation.
   */
  function LegacyPowers(ex: Exerciser, s: Section, ph: Physics): Powers {
    var va := ex.vr + s.headwind;
    var g := ph.g(s.lat, s.slope);
    Powers(
      0.5 * ph.rho * va * va * ex.cd * ex.area * va,
      ex.vr * ex.m * g * ph.cosIncline(s.slope, s.distance) * Surfaces.Crr(s.surface, ex.vr),
      ex.vr * ex.m * g * ph.sinIncline(s.slope, s.distance))
  }

  /**
   * route.js's power terms are the current Cycling ones for the same drag area, mass and speed, taken
   * at a section whose elevation is replaced by its slope (the argument route.js passes to gravity).
   */
  lemma LegacyPowersAreCyclingAtSlope(legacy: Exerciser, ex: Exercise, s: Section, ph: Physics)
    requires ex.kind == Cycling && ex.cd == legacy.cd && ex.area == legacy.area
    requires ex.m == legacy.m && ex.vr == legacy.vr
    ensures LegacyPowers(legacy, s, ph) == SectionPowers(ex, s.(elevation := s.slope), ph)
  {
  }

  /** route.js PToW: the default speed argument is vr / 2. */
  function LegacyPToW(p: real, s: real, vr: real): (w: real)
    requires vr != 0.0
    ensures w * vr == 2.0 * p * s
  {
    p * s / (vr / 2.0)
  }

  /** route.js E: PToW of P (already divided by eta), divided by eta once more. */
  function LegacySectionEnergy(ex: Exerciser, p: Powers, distance: real): real
    requires ValidExerciser(ex)
  {
    LegacyPToW((p.pd + p.pr + p.ps) / ex.eta, distance, ex.vr) / ex.eta
  }

  function LegacyComponentEnergy(ex: Exerciser, component: real, distance: real): real
    requires ValidExerciser(ex)
  {
    LegacyPToW(component, distance, ex.vr) / ex.eta
  }

  /** route.js Ea: Pa = vr * (m + mw) * a for every preset. */
  function LegacyAccelerationEnergy(ex: Exerciser, aDistance: real): (e: real)
    requires ValidExerciser(ex)
    ensures e == 2.0 * (ex.m + ex.mw) * ex.a * aDistance / ex.eta
  {
    LegacyPToW(ex.vr * (ex.m + ex.mw) * ex.a, aDistance, ex.vr) / ex.eta
  }

  /**
   * The older E is 2·(Pd+Pr+Ps)·distance / (vr·eta²): with the same powers it is 2/eta times the
   * current E, and eta times it is the sum of its own components.
   */
  lemma LegacyEnergyFactor(legacy: Exerciser, ex: Exercise, p: Powers, distance: real)
    requires ValidExerciser(legacy) && Valid(ex) && legacy.vr == ex.vr && legacy.eta == ex.eta
    ensures LegacySectionEnergy(legacy, p, distance) * legacy.vr * legacy.eta * legacy.eta == 2.0 * (p.pd + p.pr + p.ps) * distance
    ensures LegacySectionEnergy(legacy, p, distance) * legacy.eta == 2.0 * SectionEnergy(ex, p, distance)
    ensures LegacySectionEnergy(legacy, p, distance) * legacy.eta ==
      LegacyComponentEnergy(legacy, p.pd, distance) + LegacyComponentEnergy(legacy, p.pr, distance) + LegacyComponentEnergy(legacy, p.ps, distance)
  {
    var v := ex.vr;
    var eta := ex.eta;
    var w := v * eta;
    var sum := p.pd + p.pr + p.ps;
    var e := LegacySectionEnergy(legacy, p, distance);
    var current := SectionEnergy(ex, p, distance);
    // route.js PToW is twice the current PToW, and its E divides by eta once more
    assert LegacyPToW(sum / eta, distance, v) == 2.0 * PToW(sum / eta, distance, v);
    assert e * eta == 2.0 * current;
    SectionScaled(ex, p, distance);
    assert e * v * eta * eta == (e * eta) * w;
    forall x | true
      ensures LegacyComponentEnergy(legacy, x, distance) == 2.0 * ComponentEnergy(ex, x, distance)
    {
      assert LegacyPToW(x, distance, v) == 2.0 * PToW(x, distance, v);
    }
    EnergyIsSumOfComponents(ex, p, distance);
  }
}
