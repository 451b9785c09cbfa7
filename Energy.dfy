/**
 * The energy pass over a route's sections: map2kcal-1.0.0.js's calculateEnergy and route.js's
 * processWeatherExerciser, as functions of the sections they read. Each iteration sets the
 * section's winds, draws its share of the acceleration distance, and stores the section's energy
 * with the negative-energy carry: a negative running value is stored as 0 and carried forward to
 * be paid back by the following sections.
 */
module Energy {
  import opened Js
  import opened Geo
  import opened Exercise

  /** The route's five energy totals. */
  datatype Totals = Totals(E: real, Ed: real, Er: real, Es: real, Ea: real)

  const NoEnergy: Totals := Totals(0.0, 0.0, 0.0, 0.0, 0.0)

  /**
   * calculateEnergy's loop state: the remaining acceleration distance, the carry `negativeE`, the
   * totals, each section's acceleration share and the sections processed so far.
   */
  datatype Pass = Pass(pool: real, carry: real, energy: Totals, shares: seq<real>, sections: seq<Section>)

  /**
   * The weather and exercise formulas the pass evaluates per section: the wind components for the
   * section's angle and the three powers (drag, rolling, slope) for the section with those winds.
   */
  datatype Conditions = Conditions(headwind: real -> real, crosswind: real -> real, powers: Section -> Powers)

  /** map2kcal-1.0.0.js's formulas: the weather's winds and the exercise's power functions. */
  function ConditionsOf(ex: Exercise, ph: Physics): Conditions {
    Conditions(ph.headwind, ph.crosswind, s => SectionPowers(ex, s, ph))
  }

  /** route.js's formulas: the same winds with the exerciser's power functions. */
  function LegacyConditionsOf(ex: Exerciser, ph: Physics): Conditions {
    Conditions(ph.headwind, ph.crosswind, s => LegacyPowers(ex, s, ph))
  }

  /**
   * Both engines read the same winds; route.js's powers for a section are the current Cycling powers
   * for that section with its slope in place of its elevation.
   */
  lemma LegacyConditionsAtSlope(legacy: Exerciser, ex: Exercise, ph: Physics, s: Section)
    requires ex.kind == Cycling && ex.cd == legacy.cd && ex.area == legacy.area
    requires ex.m == legacy.m && ex.vr == legacy.vr
    ensures LegacyConditionsOf(legacy, ph).headwind == ConditionsOf(ex, ph).headwind
    ensures LegacyConditionsOf(legacy, ph).crosswind == ConditionsOf(ex, ph).crosswind
    ensures LegacyConditionsOf(legacy, ph).powers(s) == ConditionsOf(ex, ph).powers(s.(elevation := s.slope))
  {
    LegacyPowersAreCyclingAtSlope(legacy, ex, s, ph);
  }

  /** The section with its winds recomputed from its angle and its stored energy not yet set. */
  function Winded(s: Section, cond: Conditions): Section {
    s.(headwind := cond.headwind(s.angle), crosswind := cond.crosswind(s.angle), E := 0.0)
  }

  /** The carry rule: the energy stored for the section and the carry after it. */
  function StoreWithCarry(sectionEnergy: real, carry: real): (r: (real, real))
    ensures r.0 >= 0.0 && r.1 <= 0.0
    ensures r.0 + r.1 == sectionEnergy + carry
    ensures r.1 < 0.0 ==> r.0 == 0.0
  {
    var e := sectionEnergy + carry;
    if e < 0.0 then (0.0, e) else (e, 0.0)
  }

  /** One iteration of calculateEnergy's loop over section `s`. */
  function Step(ex: Exercise, cond: Conditions, aTotal: real, st: Pass, s: Section): Pass
    requires Valid(ex)
  {
    var w := Winded(s, cond);
    var share := Min(w.distance, st.pool);
    var ea := AccelerationEnergy(ex, share) + BrakingEnergy(ex, w.distance, aTotal);
    var p := cond.powers(w);
    var sectionEnergy := SectionEnergy(ex, p, w.distance) + ea;
    var stored := StoreWithCarry(sectionEnergy, st.carry);
    var t := st.energy;
    Pass(
      st.pool - share,
      stored.1,
      Totals(
        t.E + sectionEnergy,
        t.Ed + ComponentEnergy(ex, p.pd, w.distance),
        t.Er + ComponentEnergy(ex, p.pr, w.distance),
        t.Es + ComponentEnergy(ex, p.ps, w.distance),
        t.Ea + ea),
      st.shares + [share],
      st.sections + [w.(E := stored.0)])
  }

  /** calculateEnergy: the totals start at zero and the pool at the acceleration distance. */
  function Run(ex: Exercise, cond: Conditions, secs: seq<Section>): (st: Pass)
    requires Valid(ex)
    ensures |st.sections| == |secs| && |st.shares| == |secs|
  {
    if |secs| == 0 then Pass(AccelerationDistance(ex), 0.0, NoEnergy, [], [])
    else Step(ex, cond, AccelerationDistance(ex), Run(ex, cond, secs[..|secs| - 1]), secs[|secs| - 1])
  }

  /** The pass over one more section is one more Step. */
  lemma RunSnoc(ex: Exercise, cond: Conditions, secs: seq<Section>, i: int)
    requires Valid(ex) && 0 <= i < |secs|
    ensures Run(ex, cond, secs[..i + 1]) == Step(ex, cond, AccelerationDistance(ex), Run(ex, cond, secs[..i]), secs[i])
  {
    assert secs[..i + 1][..i] == secs[..i];
  }

  /** Only the winds and the stored energy of a section change; everything else is kept, in order. */
  lemma {:induction false} RunFrame(ex: Exercise, cond: Conditions, secs: seq<Section>)
    requires Valid(ex)
    ensures forall i :: 0 <= i < |secs| ==>
      Run(ex, cond, secs).sections[i] == Winded(secs[i], cond).(E := Run(ex, cond, secs).sections[i].E)
  {
    if |secs| > 0 {
      var init := secs[..|secs| - 1];
      RunFrame(ex, cond, init);
      assert forall i :: 0 <= i < |init| ==> init[i] == secs[i];
    }
  }

  /**
   * The carry: every stored section energy is non-negative, the carry is never positive and is
   * negative only right after a section stored as 0, and the stored energies add up to the total
   * minus the final carry, so they are never less than the total.
   */
  lemma {:induction false} CarryInvariant(ex: Exercise, cond: Conditions, secs: seq<Section>)
    requires Valid(ex)
    ensures Run(ex, cond, secs).carry <= 0.0
    ensures forall i :: 0 <= i < |secs| ==> Run(ex, cond, secs).sections[i].E >= 0.0
    ensures Run(ex, cond, secs).carry < 0.0 ==> |secs| > 0 && Run(ex, cond, secs).sections[|secs| - 1].E == 0.0
    ensures TotalStoredEnergy(Run(ex, cond, secs).sections) == Run(ex, cond, secs).energy.E - Run(ex, cond, secs).carry
    ensures TotalStoredEnergy(Run(ex, cond, secs).sections) >= Run(ex, cond, secs).energy.E
  {
    if |secs| > 0 {
      var before := Run(ex, cond, secs[..|secs| - 1]);
      CarryInvariant(ex, cond, secs[..|secs| - 1]);
      var after := Run(ex, cond, secs);
      assert after.sections[..|secs| - 1] == before.sections;
    }
  }

  /** The pool's own recurrence: each section draws min(distance, what is left). */
  function Drawn(aTotal: real, secs: seq<Section>): (r: (real, seq<real>))
    ensures |r.1| == |secs|
  {
    if |secs| == 0 then (aTotal, [])
    else
      var before := Drawn(aTotal, secs[..|secs| - 1]);
      var share := Min(secs[|secs| - 1].distance, before.0);
      (before.0 - share, before.1 + [share])
  }

  /** The pass draws its shares exactly as the pool's recurrence does. */
  lemma {:induction false} RunDraws(ex: Exercise, cond: Conditions, secs: seq<Section>)
    requires Valid(ex)
    ensures Run(ex, cond, secs).pool == Drawn(AccelerationDistance(ex), secs).0
    ensures Run(ex, cond, secs).shares == Drawn(AccelerationDistance(ex), secs).1
  {
    if |secs| > 0 {
      RunDraws(ex, cond, secs[..|secs| - 1]);
      StepShares(ex, cond, AccelerationDistance(ex), Run(ex, cond, secs[..|secs| - 1]), secs[|secs| - 1]);
    }
  }

  lemma StepShares(ex: Exercise, cond: Conditions, aTotal: real, st: Pass, s: Section)
    requires Valid(ex)
    ensures Step(ex, cond, aTotal, st, s).pool == st.pool - Min(s.distance, st.pool)
    ensures Step(ex, cond, aTotal, st, s).shares == st.shares + [Min(s.distance, st.pool)]
  {
  }

  /**
   * With non-negative distances and a non-negative start the remaining distance stays in [0, aTotal],
   * each share is between 0 and its section's distance, and the shares add up to
   * min(aTotal, total distance).
   */
  lemma {:induction false} DrawnInvariant(aTotal: real, secs: seq<Section>)
    requires aTotal >= 0.0
    requires forall i :: 0 <= i < |secs| ==> secs[i].distance >= 0.0
    ensures 0.0 <= Drawn(aTotal, secs).0 <= aTotal
    ensures forall i :: 0 <= i < |secs| ==> 0.0 <= Drawn(aTotal, secs).1[i] <= secs[i].distance
    ensures Sum(Drawn(aTotal, secs).1) == aTotal - Drawn(aTotal, secs).0
    ensures Sum(Drawn(aTotal, secs).1) == Min(aTotal, TotalDistance(secs))
  {
    if |secs| > 0 {
      var init := secs[..|secs| - 1];
      assert forall i :: 0 <= i < |init| ==> init[i] == secs[i];
      DrawnInvariant(aTotal, init);
      var before := Drawn(aTotal, init);
      var d := secs[|secs| - 1].distance;
      var after := Drawn(aTotal, secs);
      assert after.1[..|secs| - 1] == before.1;
      assert Sum(after.1) == Sum(before.1) + Min(d, before.0);
      PoolArithmetic(aTotal, before.0, Sum(before.1), TotalDistance(init), d);
    }
  }

  /**
   * The acceleration pool of the pass: with non-negative distances and acceleration the remaining
   * distance stays in [0, aTotalDistance], each section's share is between 0 and its distance, and
   * the shares add up to min(aTotalDistance, total distance).
   */
  lemma PoolInvariant(ex: Exercise, cond: Conditions, secs: seq<Section>)
    requires Valid(ex) && ex.a >= 0.0
    requires forall i :: 0 <= i < |secs| ==> secs[i].distance >= 0.0
    ensures 0.0 <= Run(ex, cond, secs).pool <= AccelerationDistance(ex)
    ensures forall i :: 0 <= i < |secs| ==> 0.0 <= Run(ex, cond, secs).shares[i] <= secs[i].distance
    ensures Sum(Run(ex, cond, secs).shares) == AccelerationDistance(ex) - Run(ex, cond, secs).pool
    ensures Sum(Run(ex, cond, secs).shares) == Min(AccelerationDistance(ex), TotalDistance(secs))
  {
    var aTotal := AccelerationDistance(ex);
    assert aTotal >= 0.0 by {
      if ex.a != 0.0 {
        assert aTotal * 2.0 * ex.a == ex.vr * ex.vr;
      }
    }
    RunDraws(ex, cond, secs);
    DrawnInvariant(aTotal, secs);
  }

  /** One step of the pool: taking min(d, pool) keeps the shares equal to min(aTotal, distance so far). */
  lemma PoolArithmetic(aTotal: real, pool: real, shares: real, distance: real, d: real)
    requires 0.0 <= pool <= aTotal && d >= 0.0
    requires shares == aTotal - pool && shares == Min(aTotal, distance)
    ensures 0.0 <= pool - Min(d, pool) <= aTotal && 0.0 <= Min(d, pool) <= d
    ensures shares + Min(d, pool) == aTotal - (pool - Min(d, pool))
    ensures shares + Min(d, pool) == Min(aTotal, distance + d)
  {
  }

  /** The five totals agree: E is the sum of the drag, rolling, slope and acceleration energies. */
  lemma {:induction false} TotalsAgree(ex: Exercise, cond: Conditions, secs: seq<Section>)
    requires Valid(ex)
    ensures var t := Run(ex, cond, secs).energy; t.E == t.Ed + t.Er + t.Es + t.Ea
  {
    if |secs| > 0 {
      TotalsAgree(ex, cond, secs[..|secs| - 1]);
      var w := Winded(secs[|secs| - 1], cond);
      EnergyIsSumOfComponents(ex, cond.powers(w), w.distance);
    }
  }

  /**
   * The acceleration total is the acceleration energy of all shares together plus the braking
   * energy of the whole route.
   */
  lemma {:induction false} AccelerationTotal(ex: Exercise, cond: Conditions, secs: seq<Section>)
    requires Valid(ex)
    ensures Run(ex, cond, secs).energy.Ea ==
      AccelerationEnergy(ex, Sum(Run(ex, cond, secs).shares)) + BrakingEnergy(ex, TotalDistance(secs), AccelerationDistance(ex))
  {
    var aTotal := AccelerationDistance(ex);
    if |secs| == 0 {
      assert AccelerationEnergy(ex, 0.0) == 0.0;
      assert BrakingEnergy(ex, 0.0, aTotal) == 0.0;
    } else {
      var init := secs[..|secs| - 1];
      AccelerationTotal(ex, cond, init);
      var before := Run(ex, cond, init);
      var after := Run(ex, cond, secs);
      var share := after.shares[|secs| - 1];
      assert after.shares[..|secs| - 1] == before.shares;
      assert Sum(after.shares) == Sum(before.shares) + share;
      AccelerationAdditive(ex, Sum(before.shares), share);
      BrakingAdditive(ex, TotalDistance(init), secs[|secs| - 1].distance, aTotal);
    }
  }

  /**
   * Without the braking estimate, a route at least as long as the acceleration distance is charged
   * exactly the kinetic energy of one start, m·vr²/2 divided by eta.
   */
  lemma OneStart(ex: Exercise, cond: Conditions, secs: seq<Section>)
    requires Valid(ex) && ex.a > 0.0 && !ex.brakingEstimated
    requires forall i :: 0 <= i < |secs| ==> secs[i].distance >= 0.0
    requires TotalDistance(secs) >= AccelerationDistance(ex)
    ensures Run(ex, cond, secs).energy.Ea == MassInMotion(ex) * ex.vr * ex.vr / 2.0 / ex.eta
  {
    PoolInvariant(ex, cond, secs);
    AccelerationTotal(ex, cond, secs);
    AccelerationIsKinetic(ex);
  }

  /** Two sections the pass cannot tell apart: they differ at most in the fields it overwrites. */
  ghost predicate SameInput(s: Section, t: Section) {
    s == t.(headwind := s.headwind, crosswind := s.crosswind, E := s.E)
  }

  lemma {:induction false} RunOnSameInput(ex: Exercise, cond: Conditions, secs: seq<Section>, others: seq<Section>)
    requires Valid(ex) && |secs| == |others|
    requires forall i :: 0 <= i < |secs| ==> SameInput(secs[i], others[i])
    ensures Run(ex, cond, secs) == Run(ex, cond, others)
  {
    if |secs| > 0 {
      var n := |secs| - 1;
      RunOnSameInput(ex, cond, secs[..n], others[..n]);
      assert Winded(secs[n], cond) == Winded(others[n], cond);
    }
  }

  /** Re-running the pass on its own output gives the same sections and totals: nothing accumulates. */
  lemma RunIdempotent(ex: Exercise, cond: Conditions, secs: seq<Section>)
    requires Valid(ex)
    ensures Run(ex, cond, Run(ex, cond, secs).sections) == Run(ex, cond, secs)
  {
    RunFrame(ex, cond, secs);
    RunOnSameInput(ex, cond, Run(ex, cond, secs).sections, secs);
  }

  // ---------------------------------------------------------------- route.js

  /** route.js keeps four totals on the route object and no total E. */
  datatype LegacyTotals = LegacyTotals(Ed: real, Er: real, Es: real, Ea: real)

  const NoLegacyEnergy: LegacyTotals := LegacyTotals(0.0, 0.0, 0.0, 0.0)

  function AddTotals(a: LegacyTotals, b: LegacyTotals): LegacyTotals {
    LegacyTotals(a.Ed + b.Ed, a.Er + b.Er, a.Es + b.Es, a.Ea + b.Ea)
  }

  datatype LegacyPass = LegacyPass(pool: real, carry: real, totals: LegacyTotals, sections: seq<Section>)

  /**
   * One iteration of processWeatherExerciser: no braking term, and the acceleration energy is
   * added only for a positive share.
   */
  function LegacyStep(ex: Exerciser, cond: Conditions, st: LegacyPass, s: Section): LegacyPass
    requires ValidExerciser(ex)
  {
    var w := Winded(s, cond);
    var share := Min(w.distance, st.pool);
    var p := cond.powers(w);
    var ea := if share > 0.0 then LegacyAccelerationEnergy(ex, share) else 0.0;
    var sectionEnergy := LegacySectionEnergy(ex, p, w.distance) + ea;
    var stored := StoreWithCarry(sectionEnergy, st.carry);
    var t := st.totals;
    LegacyPass(
      st.pool - share,
      stored.1,
      LegacyTotals(
        t.Ed + LegacyComponentEnergy(ex, p.pd, w.distance),
        t.Er + LegacyComponentEnergy(ex, p.pr, w.distance),
        t.Es + LegacyComponentEnergy(ex, p.ps, w.distance),
        t.Ea + ea),
      st.sections + [w.(E := stored.0)])
  }

  /** processWeatherExerciser, starting from whatever totals the route already holds. */
  function LegacyRun(ex: Exerciser, cond: Conditions, secs: seq<Section>, start: LegacyTotals): (st: LegacyPass)
    requires ValidExerciser(ex)
    ensures |st.sections| == |secs|
  {
    if |secs| == 0 then
      var aTotal := if ex.a != 0.0 then ex.vr / 2.0 * (ex.vr / ex.a) else 0.0;
      LegacyPass(aTotal, 0.0, start, [])
    else LegacyStep(ex, cond, LegacyRun(ex, cond, secs[..|secs| - 1], start), secs[|secs| - 1])
  }

  /** The legacy pass over one more section is one more LegacyStep. */
  lemma LegacyRunSnoc(ex: Exerciser, cond: Conditions, secs: seq<Section>, start: LegacyTotals, i: int)
    requires ValidExerciser(ex) && 0 <= i < |secs|
    ensures LegacyRun(ex, cond, secs[..i + 1], start) == LegacyStep(ex, cond, LegacyRun(ex, cond, secs[..i], start), secs[i])
  {
    assert secs[..i + 1][..i] == secs[..i];
  }

  /** The totals a pass leaves are the totals it found plus what a pass from zero computes; the rest does not depend on them. */
  lemma {:induction false} LegacyRunAdds(ex: Exerciser, cond: Conditions, secs: seq<Section>, start: LegacyTotals)
    requires ValidExerciser(ex)
    ensures LegacyRun(ex, cond, secs, start).totals == AddTotals(start, LegacyRun(ex, cond, secs, NoLegacyEnergy).totals)
    ensures LegacyRun(ex, cond, secs, start).sections == LegacyRun(ex, cond, secs, NoLegacyEnergy).sections
    ensures LegacyRun(ex, cond, secs, start).pool == LegacyRun(ex, cond, secs, NoLegacyEnergy).pool
    ensures LegacyRun(ex, cond, secs, start).carry == LegacyRun(ex, cond, secs, NoLegacyEnergy).carry
  {
    if |secs| > 0 {
      LegacyRunAdds(ex, cond, secs[..|secs| - 1], start);
    }
  }

  lemma {:induction false} LegacyRunFrame(ex: Exerciser, cond: Conditions, secs: seq<Section>, start: LegacyTotals)
    requires ValidExerciser(ex)
    ensures forall i :: 0 <= i < |secs| ==>
      LegacyRun(ex, cond, secs, start).sections[i] == Winded(secs[i], cond).(E := LegacyRun(ex, cond, secs, start).sections[i].E)
    ensures forall i :: 0 <= i < |secs| ==> LegacyRun(ex, cond, secs, start).sections[i].E >= 0.0
    ensures LegacyRun(ex, cond, secs, start).carry <= 0.0
  {
    if |secs| > 0 {
      var init := secs[..|secs| - 1];
      LegacyRunFrame(ex, cond, init, start);
      assert forall i :: 0 <= i < |init| ==> init[i] == secs[i];
    }
  }

  lemma {:induction false} LegacyRunOnSameInput(ex: Exerciser, cond: Conditions, secs: seq<Section>, others: seq<Section>, start: LegacyTotals)
    requires ValidExerciser(ex) && |secs| == |others|
    requires forall i :: 0 <= i < |secs| ==> SameInput(secs[i], others[i])
    ensures LegacyRun(ex, cond, secs, start) == LegacyRun(ex, cond, others, start)
  {
    if |secs| > 0 {
      var n := |secs| - 1;
      LegacyRunOnSameInput(ex, cond, secs[..n], others[..n], start);
      assert Winded(secs[n], cond) == Winded(others[n], cond);
    }
  }

  /**
   * A second processWeatherExerciser on the same route stores the same section energies but leaves
   * every total at twice its value after the first pass from zero.
   */
  lemma LegacySecondPassDoubles(ex: Exerciser, cond: Conditions, secs: seq<Section>)
    requires ValidExerciser(ex)
    ensures var first := LegacyRun(ex, cond, secs, NoLegacyEnergy);
      var second := LegacyRun(ex, cond, first.sections, first.totals);
      second.sections == first.sections && second.totals == AddTotals(first.totals, first.totals)
  {
    var first := LegacyRun(ex, cond, secs, NoLegacyEnergy);
    LegacyRunFrame(ex, cond, secs, NoLegacyEnergy);
    LegacyRunOnSameInput(ex, cond, first.sections, secs, NoLegacyEnergy);
    LegacyRunOnSameInput(ex, cond, first.sections, secs, first.totals);
    LegacyRunAdds(ex, cond, secs, first.totals);
  }

  /** The positive-share guard changes nothing observable: the acceleration energy of a zero share is zero. */
  lemma LegacyGuardIsHarmless(ex: Exerciser, share: real)
    requires ValidExerciser(ex) && share >= 0.0
    ensures (if share > 0.0 then LegacyAccelerationEnergy(ex, share) else 0.0) == LegacyAccelerationEnergy(ex, share)
  {
  }
}
