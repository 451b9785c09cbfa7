/**
 * The Route object of map2kcal-1.0.0.js: coordinates and sections held in arrays the pipeline stages
 * rewrite in place, the bounding box, the elevation samples and the energy totals.
 */
module Routes {
  import opened Js
  import opened Geo
  import opened Exercise
  import opened Energy
  import OsmMatch

  /** parseOsmData's second loop: section i inherits coordinate i's road when both its ends lie on a highway. */
  function InheritRoads(secs: seq<Section>, cs: seq<Coordinate>): seq<Section>
    requires |secs| == 0 || |secs| < |cs|
  {
    seq(|secs|, i requires 0 <= i < |secs| =>
      if !cs[i].highway.IsNullish() && !cs[i + 1].highway.IsNullish()
      then secs[i].(highway := cs[i].highway, surface := cs[i].surface)
      else secs[i])
  }

  /** parseOsmData's first loop: every coordinate loads its road information. */
  function LoadedCoordinates(v: OsmMatch.Variant, data: OsmMatch.Osm, cs: seq<Coordinate>): seq<Coordinate> {
    seq(|cs|, i requires 0 <= i < |cs| => OsmMatch.RoadInfo(v, data, cs[i]))
  }

  /**
   * After parseOsmData a section whose ends both lie on a highway carries the highway and a surface
   * (the surface fallback guarantees one); every other section keeps its road fields; nothing but
   * those two fields changes.
   */
  lemma RoadsAfterOsmData(data: OsmMatch.Osm, secs: seq<Section>, cs: seq<Coordinate>)
    requires |secs| == 0 || |secs| < |cs|
    ensures var loaded := LoadedCoordinates(OsmMatch.Current, data, cs);
      forall i :: 0 <= i < |secs| ==>
        var r := InheritRoads(secs, loaded)[i];
        r == secs[i].(highway := r.highway, surface := r.surface) &&
        (!loaded[i].highway.IsNullish() && !loaded[i + 1].highway.IsNullish() ==>
          r.highway == loaded[i].highway && !r.highway.IsNullish() && !r.surface.IsNullish()) &&
        (loaded[i].highway.IsNullish() || loaded[i + 1].highway.IsNullish() ==> r == secs[i])
  {
    var loaded := LoadedCoordinates(OsmMatch.Current, data, cs);
    var r := InheritRoads(secs, loaded);
    forall i | 0 <= i < |secs|
      ensures r[i] == secs[i].(highway := r[i].highway, surface := r[i].surface)
      ensures !loaded[i].highway.IsNullish() && !loaded[i + 1].highway.IsNullish() ==>
        r[i].highway == loaded[i].highway && !r[i].highway.IsNullish() && !r[i].surface.IsNullish()
      ensures loaded[i].highway.IsNullish() || loaded[i + 1].highway.IsNullish() ==> r[i] == secs[i]
    {
      OsmMatch.RoadInfoProperties(OsmMatch.Current, data, cs[i]);
    }
  }

  /** Reversing the route keeps its length and turns every climb into a descent of the same height. */
  lemma {:induction false} InvertedTotals(secs: seq<Section>)
    ensures TotalDistance(InvertedSections(secs)) == TotalDistance(secs)
    ensures TotalSlope(InvertedSections(secs)) == -TotalSlope(secs)
  {
    if |secs| > 0 {
      var init := secs[..|secs| - 1];
      InvertedTotals(init);
      var r := InvertedSections(secs);
      assert r == [Inverted(secs[|secs| - 1])] + InvertedSections(init);
      TotalsCons(Inverted(secs[|secs| - 1]), InvertedSections(init));
    }
  }

  lemma {:induction false} TotalsCons(s: Section, rest: seq<Section>)
    ensures TotalDistance([s] + rest) == s.distance + TotalDistance(rest)
    ensures TotalSlope([s] + rest) == s.slope + TotalSlope(rest)
  {
    if |rest| > 0 {
      TotalsCons(s, rest[..|rest| - 1]);
      assert ([s] + rest)[..|rest|] == [s] + rest[..|rest| - 1];
    }
  }

  /** The energy pass keeps every distance and slope, so the route's totals survive it. */
  lemma {:induction false} RunKeepsTotals(ex: Exercise, cond: Conditions, secs: seq<Section>)
    requires Valid(ex)
    ensures TotalDistance(Run(ex, cond, secs).sections) == TotalDistance(secs)
    ensures TotalSlope(Run(ex, cond, secs).sections) == TotalSlope(secs)
  {
    if |secs| > 0 {
      RunKeepsTotals(ex, cond, secs[..|secs| - 1]);
      assert Run(ex, cond, secs).sections[..|secs| - 1] == Run(ex, cond, secs[..|secs| - 1]).sections;
    }
  }

  /**
   * calculateBbox, shared by both engines: the first coordinate sets all four bounds, each later one
   * widens them; with no coordinates the box is left as it was.
   */
  method CalculateBbox(coordinates: seq<Coordinate>, bbox: BBox) returns (r: BBox)
    ensures |coordinates| > 0 ==> r == Bounds(coordinates)
    ensures |coordinates| == 0 ==> r == bbox
  {
    r := bbox;
    var i := 0;
    while i < |coordinates|
      invariant 0 <= i <= |coordinates|
      invariant i > 0 ==> r == Bounds(coordinates[..i])
      invariant i == 0 ==> r == bbox
    {
      var c := coordinates[i];
      if i == 0 {
        r := BBox(c.lat, c.lat, c.lng, c.lng);
      } else {
        r := BBox(Min(r.minLat, c.lat), Max(r.maxLat, c.lat), Min(r.minLng, c.lng), Max(r.maxLng, c.lng));
      }
      assert coordinates[..i + 1][..i] == coordinates[..i];
      i := i + 1;
    }
    assert coordinates[..i] == coordinates;
  }

  /**
   * One iteration of calculateEnergy's loop: winds, the acceleration share and braking term, the
   * section's energy with the carry, and the five totals.
   */
  method ChargeSection(ex: Exercise, cond: Conditions, aTotalDistance: real, ghost before: Pass,
                       aDistance: real, negativeE: real, energy: Totals, section: Section)
    returns (aDistance': real, negativeE': real, energy': Totals, s: Section, share: real)
    requires Valid(ex)
    requires before.pool == aDistance && before.carry == negativeE && before.energy == energy
    ensures Step(ex, cond, aTotalDistance, before, section) ==
      Pass(aDistance', negativeE', energy', before.shares + [share], before.sections + [s])
  {
    s := Winded(section, cond);
    share := Min(s.distance, aDistance);
    aDistance' := aDistance - share;
    var ea := AccelerationEnergy(ex, share) + BrakingEnergy(ex, s.distance, aTotalDistance);
    var p := cond.powers(s);
    var sectionEnergy := SectionEnergy(ex, p, s.distance) + ea;
    var e := sectionEnergy + negativeE;
    if e < 0.0 {
      negativeE' := e;
      s := s.(E := 0.0);
    } else {
      negativeE' := 0.0;
      s := s.(E := e);
    }
    energy' := Totals(
      energy.E + sectionEnergy,
      energy.Ed + ComponentEnergy(ex, p.pd, s.distance),
      energy.Er + ComponentEnergy(ex, p.pr, s.distance),
      energy.Es + ComponentEnergy(ex, p.ps, s.distance),
      energy.Ea + ea);
  }

  /**
   * The loop of calculateEnergy over the route's sections: the sections after it and the totals it
   * leaves are those of the energy pass.
   */
  method PassOver(ex: Exercise, cond: Conditions, secs: seq<Section>) returns (out: seq<Section>, energy: Totals)
    requires Valid(ex)
    ensures out == Run(ex, cond, secs).sections && energy == Run(ex, cond, secs).energy
  {
    out := secs;
    energy := NoEnergy;
    var aTotalDistance := if ex.a != 0.0 then ex.vr / 2.0 * (ex.vr / ex.a) else 0.0;
    var aDistance := aTotalDistance;
    var negativeE := 0.0;
    ghost var shares: seq<real> := [];
    var i := 0;
    while i < |out|
      invariant 0 <= i <= |out| == |secs|
      invariant aTotalDistance == AccelerationDistance(ex)
      invariant Run(ex, cond, secs[..i]) == Pass(aDistance, negativeE, energy, shares, out[..i])
      invariant out[i..] == secs[i..]
    {
      ghost var before := Pass(aDistance, negativeE, energy, shares, out[..i]);
      RunSnoc(ex, cond, secs, i);
      assert out[i] == secs[i];
      var s;
      var share;
      aDistance, negativeE, energy, s, share := ChargeSection(ex, cond, aTotalDistance, before, aDistance, negativeE, energy, out[i]);
      shares := shares + [share];
      out := out[i := s];
      assert out[..i + 1] == before.sections + [s];
      i := i + 1;
    }
    assert secs[..i] == secs && out[..i] == out;
  }

  class Route {
    var coordinates: seq<Coordinate>
    var sections: seq<Section>
    /** None when the elevation service failed and the loader stored null. */
    var elevations: Option<seq<real>>
    var energy: Totals
    var bbox: BBox

    /** Every section has a coordinate at each end. */
    ghost predicate WellFormed()
      reads this
    {
      |sections| == 0 || |sections| < |coordinates|
    }

    constructor ()
      ensures coordinates == [] && sections == [] && elevations == Some([])
      ensures energy == NoEnergy && bbox == BBox(0.0, 0.0, 0.0, 0.0)
      ensures WellFormed()
    {
      coordinates := [];
      sections := [];
      elevations := Some([]);
      energy := NoEnergy;
      bbox := BBox(0.0, 0.0, 0.0, 0.0);
    }

    method AddCoordinate(lat: real, lng: real)
      requires WellFormed()
      modifies this
      ensures coordinates == old(coordinates) + [NewCoordinate(lat, lng)]
      ensures sections == old(sections) && elevations == old(elevations)
      ensures energy == old(energy) && bbox == old(bbox)
      ensures WellFormed()
    {
      coordinates := coordinates + [NewCoordinate(lat, lng)];
    }

    /**
     * processCoordinates: the bounding box of the coordinates (left as it was when there are none)
     * and a fresh array of one section per adjacent pair.
     */
    method ProcessCoordinates(geo: Geodesy)
      modifies this
      ensures |coordinates| > 0 ==> bbox == Bounds(coordinates)
      ensures |coordinates| == 0 ==> bbox == old(bbox)
      ensures sections == BuildSections(coordinates, geo)
      ensures coordinates == old(coordinates) && elevations == old(elevations) && energy == old(energy)
      ensures WellFormed()
    {
      bbox := CalculateBbox(coordinates, bbox);
      CreateSections(geo);
    }

    /** createSections: the array is cleared, then one section is pushed per adjacent pair. */
    method CreateSections(geo: Geodesy)
      modifies this
      ensures sections == BuildSections(coordinates, geo)
      ensures coordinates == old(coordinates) && elevations == old(elevations)
      ensures energy == old(energy) && bbox == old(bbox)
      ensures WellFormed()
    {
      sections := [];
      var i := 1;
      while i < |coordinates|
        invariant 1 <= i && (i <= |coordinates| || i == 1)
        invariant |sections| == i - 1
        invariant forall k :: 0 <= k < i - 1 ==> sections[k] == NewSection(coordinates[k], coordinates[k + 1], geo)
        invariant coordinates == old(coordinates) && elevations == old(elevations)
        invariant energy == old(energy) && bbox == old(bbox)
      {
        sections := sections + [NewSection(coordinates[i - 1], coordinates[i], geo)];
        i := i + 1;
      }
    }

    /**
     * processElevations with the intended zero-sample fallback: one zero sample per coordinate when
     * there are none, then slope, mean elevation and corrected distance for every section.
     */
    method ProcessElevations(hypot: (real, real) -> real)
      requires WellFormed()
      modifies this
      ensures coordinates == old(coordinates) && energy == old(energy) && bbox == old(bbox)
      ensures elevations == Some(ProfileOrZeros(old(elevations), |coordinates|))
      ensures sections == WithElevations(old(sections), elevations.value, hypot)
      ensures WellFormed()
    {
      var e := ProfileOrZeros(elevations, |coordinates|);
      elevations := Some(e);
      ghost var secs := sections;
      var i := 0;
      while i < |sections|
        invariant 0 <= i <= |sections| == |secs|
        invariant sections[..i] == WithElevations(secs, e, hypot)[..i]
        invariant sections[i..] == secs[i..]
        invariant elevations == Some(e)
        invariant coordinates == old(coordinates) && energy == old(energy) && bbox == old(bbox)
      {
        assert sections[i] == secs[i];
        sections := sections[i := Elevated(sections[i], e, i, |sections|, hypot)];
        assert sections[..i + 1] == sections[..i] + [sections[i]];
        i := i + 1;
      }
      assert sections == sections[..i];
    }

    /**
     * calculateEnergy: the five totals restart at zero, every section gets its winds and its stored
     * energy, and the totals and sections are those of the energy pass over the old sections.
     */
    method CalculateEnergy(ex: Exercise, cond: Conditions)
      requires Valid(ex)
      modifies this
      ensures sections == Run(ex, cond, old(sections)).sections
      ensures energy == Run(ex, cond, old(sections)).energy
      ensures coordinates == old(coordinates) && elevations == old(elevations) && bbox == old(bbox)
    {
      sections, energy := PassOver(ex, cond, sections);
    }

    /**
     * parseOsmData over the current road data: every coordinate loads its road, then every section
     * whose ends both lie on a highway takes coordinate i's highway and surface.
     */
    method ParseOsmData(data: OsmMatch.Osm)
      requires WellFormed()
      modifies this
      ensures coordinates == LoadedCoordinates(OsmMatch.Current, data, old(coordinates))
      ensures sections == InheritRoads(old(sections), coordinates)
      ensures elevations == old(elevations) && energy == old(energy) && bbox == old(bbox)
      ensures WellFormed()
    {
      LoadRoads(data);
      CopyRoads();
    }

    /** parseOsmData's first loop: loadOsmRoadInfo on every coordinate. */
    method LoadRoads(data: OsmMatch.Osm)
      requires WellFormed()
      modifies this
      ensures coordinates == LoadedCoordinates(OsmMatch.Current, data, old(coordinates))
      ensures sections == old(sections) && elevations == old(elevations)
      ensures energy == old(energy) && bbox == old(bbox)
      ensures WellFormed()
    {
      var i := 0;
      while i < |coordinates|
        invariant 0 <= i <= |coordinates| == |old(coordinates)|
        invariant coordinates[..i] == LoadedCoordinates(OsmMatch.Current, data, old(coordinates))[..i]
        invariant coordinates[i..] == old(coordinates)[i..]
        invariant sections == old(sections) && elevations == old(elevations)
        invariant energy == old(energy) && bbox == old(bbox)
      {
        assert coordinates[i] == old(coordinates)[i];
        var c := OsmMatch.LoadOsmRoadInfo(OsmMatch.Current, data, coordinates[i]);
        coordinates := coordinates[i := c];
        assert coordinates[..i + 1] == coordinates[..i] + [c];
        i := i + 1;
      }
      assert coordinates == coordinates[..i];
    }

    /** parseOsmData's second loop: a section between two highway coordinates takes the first one's road. */
    method CopyRoads()
      requires WellFormed()
      modifies this
      ensures sections == InheritRoads(old(sections), old(coordinates))
      ensures coordinates == old(coordinates) && elevations == old(elevations)
      ensures energy == old(energy) && bbox == old(bbox)
      ensures WellFormed()
    {
      var i := 0;
      while i < |sections|
        invariant 0 <= i <= |sections| == |old(sections)|
        invariant sections[..i] == InheritRoads(old(sections), old(coordinates))[..i]
        invariant sections[i..] == old(sections)[i..]
        invariant coordinates == old(coordinates) && elevations == old(elevations)
        invariant energy == old(energy) && bbox == old(bbox)
      {
        assert sections[i] == old(sections)[i];
        if !coordinates[i].highway.IsNullish() && !coordinates[i + 1].highway.IsNullish() {
          sections := sections[i := sections[i].(highway := coordinates[i].highway, surface := coordinates[i].surface)];
        }
        assert sections[..i + 1] == sections[..i] + [sections[i]];
        i := i + 1;
      }
      assert sections == sections[..i];
    }

    /** The loop of invert that calls Section.invert on every section in turn. */
    method InvertEach()
      modifies this
      ensures sections == seq(|old(sections)|, i requires 0 <= i < |old(sections)| => Inverted(old(sections)[i]))
      ensures coordinates == old(coordinates) && elevations == old(elevations)
      ensures energy == old(energy) && bbox == old(bbox)
    {
      var i := 0;
      while i < |sections|
        invariant 0 <= i <= |sections| == |old(sections)|
        invariant forall k :: 0 <= k < i ==> sections[k] == Inverted(old(sections)[k])
        invariant forall k :: i <= k < |sections| ==> sections[k] == old(sections)[k]
        invariant coordinates == old(coordinates) && elevations == old(elevations)
        invariant energy == old(energy) && bbox == old(bbox)
      {
        sections := sections[i := Inverted(sections[i])];
        i := i + 1;
      }
    }

    /**
     * invert: the coordinates, the elevation samples and the sections are reversed, every section is
     * inverted, and the energy is recomputed. With no samples (null) `reverse` throws after the
     * coordinates were already reversed, and nothing else changes.
     */
    method Invert(ex: Exercise, cond: Conditions) returns (ok: bool)
      requires Valid(ex) && WellFormed()
      modifies this
      ensures coordinates == Reverse(old(coordinates))
      ensures ok <==> old(elevations).Some?
      ensures ok ==> elevations == Some(Reverse(old(elevations).value))
      ensures ok ==> sections == Run(ex, cond, InvertedSections(old(sections))).sections
      ensures ok ==> energy == Run(ex, cond, InvertedSections(old(sections))).energy
      ensures !ok ==> sections == old(sections) && elevations == old(elevations) && energy == old(energy)
      ensures bbox == old(bbox) && WellFormed()
    {
      coordinates := Reverse(coordinates);
      if elevations.None? {
        return false;
      }
      elevations := Some(Reverse(elevations.value));
      sections := Reverse(sections);
      InvertEach();
      assert sections == InvertedSections(old(sections));
      CalculateEnergy(ex, cond);
      ok := true;
    }
  }
}
