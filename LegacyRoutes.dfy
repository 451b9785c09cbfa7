/**
 * The Route object of the older route.js engine. Its stages differ from map2kcal's: sections are
 * appended without clearing, processElevations sets only slope and distance and has no fallback,
 * and processWeatherExerciser adds to four totals that are never reset.
 */
module LegacyRoutes {
  import opened Js
  import opened Geo
  import opened Exercise
  import opened Energy
  import OsmMatch
  import Routes

  /** route.js processElevations for one section: the slope between its two samples and the corrected distance. */
  function LegacyElevated(s: Section, e: seq<real>, i: int, n: int, hypot: (real, real) -> real): Section
    requires 0 <= i < n && |e| >= 1
  {
    var lo := e[ElevationIndex(i, |e|, n)];
    var hi := e[ElevationIndex(i + 1, |e|, n)];
    s.(slope := hi - lo, distance := hypot(hi - lo, s.distance))
  }

  function LegacyWithElevations(secs: seq<Section>, e: seq<real>, hypot: (real, real) -> real): seq<Section>
    requires |secs| == 0 || |e| >= 1
  {
    seq(|secs|, i requires 0 <= i < |secs| => LegacyElevated(secs[i], e, i, |secs|, hypot))
  }

  /** Two section arrays with the same slopes, position by position, have the same total slope. */
  lemma {:induction false} TotalSlopeBySlopes(a: seq<Section>, b: seq<Section>)
    requires |a| == |b|
    requires forall i :: 0 <= i < |a| ==> a[i].slope == b[i].slope
    ensures TotalSlope(a) == TotalSlope(b)
  {
    if |a| > 0 {
      TotalSlopeBySlopes(a[..|a| - 1], b[..|b| - 1]);
    }
  }

  /**
   * The older profile computes the same slopes as the current one, so its slopes also telescope to
   * the last sample minus the first; only the mean elevation is missing.
   */
  lemma LegacySlopesTelescope(secs: seq<Section>, e: seq<real>, hypot: (real, real) -> real)
    requires |secs| > 0 && |e| >= 1
    ensures TotalSlope(LegacyWithElevations(secs, e, hypot)) == FirstToLastSlope(e)
    ensures forall i :: 0 <= i < |secs| ==>
      LegacyWithElevations(secs, e, hypot)[i] == WithElevations(secs, e, hypot)[i].(elevation := secs[i].elevation)
  {
    TotalSlopeBySlopes(LegacyWithElevations(secs, e, hypot), WithElevations(secs, e, hypot));
    SlopesTelescope(secs, e, hypot);
  }

  /**
   * One iteration of processWeatherExerciser's loop: winds, the acceleration share with its positive
   * guard, the section's energy with the carry, and the four totals.
   */
  method ChargeLegacySection(ex: Exerciser, cond: Conditions, ghost before: LegacyPass,
                             aTotalDistance: real, negativeE: real, totals: LegacyTotals, section: Section)
    returns (aTotalDistance': real, negativeE': real, totals': LegacyTotals, s: Section)
    requires ValidExerciser(ex)
    requires before.pool == aTotalDistance && before.carry == negativeE && before.totals == totals
    ensures LegacyStep(ex, cond, before, section) == LegacyPass(aTotalDistance', negativeE', totals', before.sections + [s])
  {
    s := Winded(section, cond);
    var aSectionDistance := Min(s.distance, aTotalDistance);
    aTotalDistance' := aTotalDistance - aSectionDistance;
    var p := cond.powers(s);
    var sectionEnergy := LegacySectionEnergy(ex, p, s.distance);
    var Ea := totals.Ea;
    if aSectionDistance > 0.0 {
      var ea := LegacyAccelerationEnergy(ex, aSectionDistance);
      Ea := Ea + ea;
      sectionEnergy := sectionEnergy + ea;
    }
    var e := sectionEnergy + negativeE;
    if e < 0.0 {
      negativeE' := e;
      s := s.(E := 0.0);
    } else {
      negativeE' := 0.0;
      s := s.(E := e);
    }
    totals' := LegacyTotals(
      totals.Ed + LegacyComponentEnergy(ex, p.pd, s.distance),
      totals.Er + LegacyComponentEnergy(ex, p.pr, s.distance),
      totals.Es + LegacyComponentEnergy(ex, p.ps, s.distance),
      Ea);
  }

  /**
   * The loop of processWeatherExerciser over the route's sections, from the totals the route holds:
   * the sections after it and the totals it leaves are those of the legacy pass.
   */
  method LegacyPassOver(ex: Exerciser, cond: Conditions, secs: seq<Section>, start: LegacyTotals)
    returns (out: seq<Section>, totals: LegacyTotals)
    requires ValidExerciser(ex)
    ensures out == LegacyRun(ex, cond, secs, start).sections && totals == LegacyRun(ex, cond, secs, start).totals
  {
    out := secs;
    totals := start;
    var aTotalDistance := if ex.a != 0.0 then ex.vr / 2.0 * (ex.vr / ex.a) else 0.0;
    var negativeE := 0.0;
    var i := 0;
    assert secs[..0] == [];
    while i < |out|
      invariant 0 <= i <= |out| == |secs|
      invariant LegacyRun(ex, cond, secs[..i], start) == LegacyPass(aTotalDistance, negativeE, totals, out[..i])
      invariant out[i..] == secs[i..]
    {
      ghost var before := LegacyPass(aTotalDistance, negativeE, totals, out[..i]);
      LegacyRunSnoc(ex, cond, secs, start, i);
      assert out[i] == secs[i];
      var s;
      aTotalDistance, negativeE, totals, s := ChargeLegacySection(ex, cond, before, aTotalDistance, negativeE, totals, out[i]);
      out := out[i := s];
      assert out[..i + 1] == before.sections + [s];
      i := i + 1;
    }
    assert secs[..i] == secs && out[..i] == out;
  }

  class LegacyRoute {
    var coordinates: seq<Coordinate>
    var sections: seq<Section>
    var elevations: seq<real>
    var Ed: real
    var Er: real
    var Es: real
    var Ea: real
    var bbox: BBox

    /** Every section has a coordinate at each end. */
    ghost predicate WellFormed()
      reads this
    {
      |sections| == 0 || |sections| < |coordinates|
    }

    function Totals(): LegacyTotals
      reads this
    {
      LegacyTotals(Ed, Er, Es, Ea)
    }

    constructor ()
      ensures coordinates == [] && sections == [] && elevations == []
      ensures Totals() == NoLegacyEnergy && bbox == BBox(0.0, 0.0, 0.0, 0.0)
      ensures WellFormed()
    {
      coordinates := [];
      sections := [];
      elevations := [];
      Ed, Er, Es, Ea := 0.0, 0.0, 0.0, 0.0;
      bbox := BBox(0.0, 0.0, 0.0, 0.0);
    }

    method AddCoordinate(lat: real, lng: real)
      modifies this
      ensures coordinates == old(coordinates) + [NewCoordinate(lat, lng)]
      ensures sections == old(sections) && elevations == old(elevations)
      ensures Totals() == old(Totals()) && bbox == old(bbox)
      ensures old(WellFormed()) ==> WellFormed()
    {
      coordinates := coordinates + [NewCoordinate(lat, lng)];
    }

    /**
     * processCoordinates: the bounding box of the coordinates (left as it was when there are none),
     * then one section per adjacent pair appended after the sections already there.
     */
    method ProcessCoordinates(geo: Geodesy)
      modifies this
      ensures |coordinates| > 0 ==> bbox == Bounds(coordinates)
      ensures |coordinates| == 0 ==> bbox == old(bbox)
      ensures sections == old(sections) + BuildSections(coordinates, geo)
      ensures coordinates == old(coordinates) && elevations == old(elevations) && Totals() == old(Totals())
    {
      bbox := Routes.CalculateBbox(coordinates, bbox);
      CreateSections(geo);
    }

    /** createSections: one section pushed per adjacent pair, with no clearing first. */
    method CreateSections(geo: Geodesy)
      modifies this
      ensures sections == old(sections) + BuildSections(coordinates, geo)
      ensures coordinates == old(coordinates) && elevations == old(elevations)
      ensures Totals() == old(Totals()) && bbox == old(bbox)
    {
      ghost var built: seq<Section> := [];
      var i := 1;
      while i < |coordinates|
        invariant 1 <= i && (i <= |coordinates| || i == 1)
        invariant sections == old(sections) + built && |built| == i - 1
        invariant forall k :: 0 <= k < i - 1 ==> built[k] == NewSection(coordinates[k], coordinates[k + 1], geo)
        invariant coordinates == old(coordinates) && elevations == old(elevations)
        invariant Totals() == old(Totals()) && bbox == old(bbox)
      {
        var section := NewSection(coordinates[i - 1], coordinates[i], geo);
        assert old(sections) + (built + [section]) == old(sections) + built + [section];
        built := built + [section];
        sections := sections + [section];
        i := i + 1;
      }
      assert built == BuildSections(coordinates, geo);
    }

    /**
     * processElevations: slope and corrected distance for every section. With no samples and at
     * least one section the first sample read is undefined and the call throws before any change.
     */
    method ProcessElevations(hypot: (real, real) -> real) returns (ok: bool)
      modifies this
      ensures coordinates == old(coordinates) && elevations == old(elevations)
      ensures Totals() == old(Totals()) && bbox == old(bbox)
      ensures ok <==> |old(sections)| == 0 || |elevations| >= 1
      ensures ok ==> sections == LegacyWithElevations(old(sections), elevations, hypot)
      ensures !ok ==> sections == old(sections)
    {
      if |sections| > 0 && |elevations| == 0 {
        return false;
      }
      ghost var secs := sections;
      var i := 0;
      while i < |sections|
        invariant 0 <= i <= |sections| == |secs|
        invariant |secs| == 0 || |elevations| >= 1
        invariant sections[..i] == LegacyWithElevations(secs, elevations, hypot)[..i]
        invariant sections[i..] == secs[i..]
        invariant coordinates == old(coordinates) && elevations == old(elevations)
        invariant Totals() == old(Totals()) && bbox == old(bbox)
      {
        assert sections[i] == secs[i];
        sections := sections[i := LegacyElevated(sections[i], elevations, i, |sections|, hypot)];
        assert sections[..i + 1] == sections[..i] + [sections[i]];
        i := i + 1;
      }
      assert sections == sections[..i];
      ok := true;
    }

    /**
     * processWeatherExerciser: the totals are not reset, so they end as the old totals plus this
     * pass's; every section gets its winds and its stored energy.
     */
    method ProcessWeatherExerciser(ex: Exerciser, cond: Conditions)
      requires ValidExerciser(ex)
      modifies this
      ensures sections == LegacyRun(ex, cond, old(sections), old(Totals())).sections
      ensures Totals() == LegacyRun(ex, cond, old(sections), old(Totals())).totals
      ensures coordinates == old(coordinates) && elevations == old(elevations) && bbox == old(bbox)
    {
      ghost var pass := LegacyRun(ex, cond, sections, Totals());
      var out, totals := LegacyPassOver(ex, cond, sections, Totals());
      sections := out;
      Ed, Er, Es, Ea := totals.Ed, totals.Er, totals.Es, totals.Ea;
      assert sections == pass.sections && Totals() == pass.totals;
    }

    /**
     * processOsmData, over the older road matching: every coordinate loads its road, then every
     * section whose ends both lie on a highway takes coordinate i's highway and surface.
     */
    method ProcessOsmData(data: OsmMatch.Osm)
      requires WellFormed()
      modifies this
      ensures coordinates == Routes.LoadedCoordinates(OsmMatch.Legacy, data, old(coordinates))
      ensures sections == Routes.InheritRoads(old(sections), coordinates)
      ensures elevations == old(elevations) && Totals() == old(Totals()) && bbox == old(bbox)
      ensures WellFormed()
    {
      LoadRoads(data);
      CopyRoads();
    }

    /** processOsmData's first loop: loadOsmRoadInfo on every coordinate. */
    method LoadRoads(data: OsmMatch.Osm)
      requires WellFormed()
      modifies this
      ensures coordinates == Routes.LoadedCoordinates(OsmMatch.Legacy, data, old(coordinates))
      ensures sections == old(sections) && elevations == old(elevations)
      ensures Totals() == old(Totals()) && bbox == old(bbox)
      ensures WellFormed()
    {
      var i := 0;
      while i < |coordinates|
        invariant 0 <= i <= |coordinates| == |old(coordinates)|
        invariant coordinates[..i] == Routes.LoadedCoordinates(OsmMatch.Legacy, data, old(coordinates))[..i]
        invariant coordinates[i..] == old(coordinates)[i..]
        invariant sections == old(sections) && elevations == old(elevations)
        invariant Totals() == old(Totals()) && bbox == old(bbox)
      {
        assert coordinates[i] == old(coordinates)[i];
        var c := OsmMatch.LoadOsmRoadInfo(OsmMatch.Legacy, data, coordinates[i]);
        coordinates := coordinates[i := c];
        assert coordinates[..i + 1] == coordinates[..i] + [c];
        i := i + 1;
      }
      assert coordinates == coordinates[..i];
    }

    /** processOsmData's second loop: a section between two highway coordinates takes the first one's road. */
    method CopyRoads()
      requires WellFormed()
      modifies this
      ensures sections == Routes.InheritRoads(old(sections), old(coordinates))
      ensures coordinates == old(coordinates) && elevations == old(elevations)
      ensures Totals() == old(Totals()) && bbox == old(bbox)
      ensures WellFormed()
    {
      var i := 0;
      while i < |sections|
        invariant 0 <= i <= |sections| == |old(sections)|
        invariant sections[..i] == Routes.InheritRoads(old(sections), old(coordinates))[..i]
        invariant sections[i..] == old(sections)[i..]
        invariant coordinates == old(coordinates) && elevations == old(elevations)
        invariant Totals() == old(Totals()) && bbox == old(bbox)
      {
        assert sections[i] == old(sections)[i];
        if !coordinates[i].highway.IsNullish() && !coordinates[i + 1].highway.IsNullish() {
          sections := sections[i := sections[i].(highway := coordinates[i].highway, surface := coordinates[i].surface)];
        }
        assert sections[..i + 1] == sections[..i] + [sections[i]];
        i := i + 1;
      }
      assert sections == sections[..i];
    }
  }
}
