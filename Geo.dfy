/**
 * The entities of a route: coordinates, the sections between adjacent coordinates, the bounding box,
 * and the mapping of elevation samples onto sections.
 */
module Geo {
  import opened Js
  import Units

  /** A track point; highway, surface and tracktype are filled in from road data later. */
  datatype Coordinate = Coordinate(lat: real, lng: real, highway: Tag, surface: Tag, tracktype: Tag)

  /** `new Coordinate(lat, lng)`: no road information yet. */
  function NewCoordinate(lat: real, lng: real): Coordinate {
    Coordinate(lat, lng, Undefined, Undefined, Undefined)
  }

  /** The stretch between two consecutive coordinates, with the fields the enrichment stages write. */
  datatype Section = Section(
    distance: real,
    highway: Tag,
    surface: Tag,
    elevation: real,
    headwind: real,
    crosswind: real,
    slope: real,
    lat: real,
    angle: real,
    E: real)

  /**
   * The geodesic formulas the Section constructor calls: the ellipsoidal distance with its spherical
   * fallback, and the wind-synchronised bearing. They are transcendental and stay parameters.
   */
  datatype Geodesy = Geodesy(distance: (Coordinate, Coordinate) -> real, angle: (Coordinate, Coordinate) -> real)

  /** `new Section(p0, p1)`: distance and angle from the geodesy, latitude of the midpoint in radians. */
  function NewSection(p0: Coordinate, p1: Coordinate, geo: Geodesy): Section {
    Section(
      distance := geo.distance(p0, p1),
      highway := Undefined,
      surface := Undefined,
      elevation := 0.0,
      headwind := 0.0,
      crosswind := 0.0,
      slope := 0.0,
      lat := Units.DegToRad((p0.lat + p1.lat) / 2.0),
      angle := geo.angle(p0, p1),
      E := 0.0)
  }

  /** One section per adjacent pair of coordinates, in order. */
  function BuildSections(cs: seq<Coordinate>, geo: Geodesy): (r: seq<Section>)
    ensures |r| == if |cs| < 2 then 0 else |cs| - 1
    ensures forall i :: 0 <= i < |r| ==> r[i] == NewSection(cs[i], cs[i + 1], geo)
  {
    if |cs| < 2 then [] else seq(|cs| - 1, i requires 0 <= i < |cs| - 1 => NewSection(cs[i], cs[i + 1], geo))
  }

  datatype BBox = BBox(minLat: real, maxLat: real, minLng: real, maxLng: real)

  ghost predicate Encloses(b: BBox, c: Coordinate) {
    b.minLat <= c.lat <= b.maxLat && b.minLng <= c.lng <= b.maxLng
  }

  /**
   * The bounding box that the first loop of processCoordinates leaves behind: the first coordinate
   * sets all four bounds, every later one widens them with Math.min / Math.max.
   */
  function Bounds(cs: seq<Coordinate>): (b: BBox)
    requires |cs| > 0
    ensures b.minLat <= b.maxLat && b.minLng <= b.maxLng
    ensures forall i :: 0 <= i < |cs| ==> Encloses(b, cs[i])
    ensures exists i :: 0 <= i < |cs| && cs[i].lat == b.minLat
    ensures exists i :: 0 <= i < |cs| && cs[i].lat == b.maxLat
    ensures exists i :: 0 <= i < |cs| && cs[i].lng == b.minLng
    ensures exists i :: 0 <= i < |cs| && cs[i].lng == b.maxLng
  {
    var c := cs[|cs| - 1];
    if |cs| == 1 then
      BBox(c.lat, c.lat, c.lng, c.lng)
    else
      var b := Bounds(cs[..|cs| - 1]);
      BBox(Min(b.minLat, c.lat), Max(b.maxLat, c.lat), Min(b.minLng, c.lng), Max(b.maxLng, c.lng))
  }

  /** Section.invert: slope, headwind and crosswind change sign, the angle turns by π and is not renormalised. */
  function Inverted(s: Section): Section {
    s.(slope := -s.slope, angle := s.angle + Units.PI, headwind := -s.headwind, crosswind := -s.crosswind)
  }

  /** The sections after Route.invert's `sections.reverse()` and the loop calling `invert()` on each. */
  function InvertedSections(secs: seq<Section>): seq<Section> {
    seq(|secs|, i requires 0 <= i < |secs| => Inverted(secs[|secs| - 1 - i]))
  }

  /** Every field except the angle, which the second inversion leaves 2π further on. */
  ghost predicate SameButAngle(s: Section, t: Section) {
    t == s.(angle := t.angle) && t.angle == s.angle + 2.0 * Units.PI
  }

  /** Inverting twice restores the order and every field of every section except the angle. */
  lemma InvertedSectionsTwice(secs: seq<Section>)
    ensures |InvertedSections(InvertedSections(secs))| == |secs|
    ensures forall i :: 0 <= i < |secs| ==> SameButAngle(secs[i], InvertedSections(InvertedSections(secs))[i])
  {
    var once := InvertedSections(secs);
    var twice := InvertedSections(once);
    forall i | 0 <= i < |secs|
      ensures SameButAngle(secs[i], twice[i])
    {
      assert twice[i] == Inverted(once[|secs| - 1 - i]);
      assert once[|secs| - 1 - i] == Inverted(secs[i]);
    }
  }

  /**
   * getElevationIndex: section boundary i of `sections` maps to sample round((samples - 1) / sections * i).
   * For i from 0 to sections the index stays in range, starts at the first sample and ends at the last.
   */
  function ElevationIndex(i: int, samples: int, sections: int): (k: int)
    requires sections > 0 && samples >= 1 && 0 <= i <= sections
    ensures 0 <= k <= samples - 1
    ensures i == 0 ==> k == 0
    ensures i == sections ==> k == samples - 1
  {
    var ratio := (samples - 1) as real / sections as real;
    assert 0.0 <= ratio * i as real <= ratio * sections as real;
    assert ratio * sections as real == (samples - 1) as real;
    Round(ratio * i as real)
  }

  /** Later section boundaries never map to earlier samples. */
  lemma ElevationIndexMonotone(i: int, j: int, samples: int, sections: int)
    requires sections > 0 && samples >= 1 && 0 <= i <= j <= sections
    ensures ElevationIndex(i, samples, sections) <= ElevationIndex(j, samples, sections)
  {
    var ratio := (samples - 1) as real / sections as real;
    assert ratio >= 0.0;
    assert ratio * i as real <= ratio * j as real;
    RoundMonotone(ratio * i as real, ratio * j as real);
  }

  /**
   * One iteration of processElevations' section loop: the slope is the difference of the two samples
   * the section's ends map to, the elevation their mean, and the distance is corrected by `hypot`
   * (the source's `Math.sqrt(slope * slope + distance * distance)`).
   */
  function Elevated(s: Section, e: seq<real>, i: int, n: int, hypot: (real, real) -> real): Section
    requires 0 <= i < n && |e| >= 1
  {
    var lo := e[ElevationIndex(i, |e|, n)];
    var hi := e[ElevationIndex(i + 1, |e|, n)];
    s.(slope := hi - lo, elevation := (hi + lo) / 2.0, distance := hypot(hi - lo, s.distance))
  }

  function WithElevations(secs: seq<Section>, e: seq<real>, hypot: (real, real) -> real): seq<Section>
    requires |secs| == 0 || |e| >= 1
  {
    seq(|secs|, i requires 0 <= i < |secs| => Elevated(secs[i], e, i, |secs|, hypot))
  }

  function TotalDistance(secs: seq<Section>): real {
    if |secs| == 0 then 0.0 else TotalDistance(secs[..|secs| - 1]) + secs[|secs| - 1].distance
  }

  function TotalSlope(secs: seq<Section>): real {
    if |secs| == 0 then 0.0 else TotalSlope(secs[..|secs| - 1]) + secs[|secs| - 1].slope
  }

  function TotalStoredEnergy(secs: seq<Section>): real {
    if |secs| == 0 then 0.0 else TotalStoredEnergy(secs[..|secs| - 1]) + secs[|secs| - 1].E
  }

  lemma {:induction false} PrefixSlope(secs: seq<Section>, e: seq<real>, hypot: (real, real) -> real, k: int)
    requires |secs| > 0 && |e| >= 1 && 0 <= k <= |secs|
    ensures TotalSlope(WithElevations(secs, e, hypot)[..k]) == e[ElevationIndex(k, |e|, |secs|)] - e[0]
  {
    var r := WithElevations(secs, e, hypot);
    if k > 0 {
      PrefixSlope(secs, e, hypot, k - 1);
      assert r[..k][..k - 1] == r[..k - 1];
    }
  }

  /**
   * The per-section slopes telescope: their sum (the getSlope loop) is the last sample minus the
   * first, which is what the earlier, shadowed definition of getSlope returns.
   */
  lemma SlopesTelescope(secs: seq<Section>, e: seq<real>, hypot: (real, real) -> real)
    requires |secs| > 0 && |e| >= 1
    ensures TotalSlope(WithElevations(secs, e, hypot)) == FirstToLastSlope(e)
  {
    var r := WithElevations(secs, e, hypot);
    PrefixSlope(secs, e, hypot, |secs|);
    assert r[..|secs|] == r;
  }

  /** The first definition of getSlope, which the later one overrides: last sample minus first. */
  function FirstToLastSlope(e: seq<real>): real
    requires |e| >= 1
  {
    e[|e| - 1] - e[0]
  }

  /** The outcome of processElevations' zero-sample fallback. */
  datatype Profile = Samples(e: seq<real>) | ReferenceError

  /**
   * The fallback as written: when the samples are missing or empty it resets them to [] and then, for
   * each coordinate, pushes into the unbound name `elevations`, which throws.
   */
  function ProfileAsWritten(samples: Option<seq<real>>, coordinateCount: nat): Profile {
    if samples.None? || |samples.value| == 0 then
      if coordinateCount == 0 then Samples([]) else ReferenceError
    else
      Samples(samples.value)
  }

  /** Any route that has a coordinate and no elevation samples throws instead of getting a flat profile. */
  lemma ProfileAsWrittenThrows(coordinateCount: nat)
    requires coordinateCount >= 1
    ensures ProfileAsWritten(None, coordinateCount) == ReferenceError
    ensures ProfileAsWritten(Some([]), coordinateCount) == ReferenceError
  {
  }

  /** The fallback as intended: one zero sample per coordinate; real samples are kept. */
  function ProfileOrZeros(samples: Option<seq<real>>, coordinateCount: nat): seq<real> {
    if samples.None? || |samples.value| == 0 then seq(coordinateCount, _ => 0.0) else samples.value
  }

  /** With the intended fallback a route without samples is flat: every section has slope 0 and elevation 0. */
  lemma ZeroProfileIsFlat(secs: seq<Section>, samples: Option<seq<real>>, coordinateCount: nat, hypot: (real, real) -> real)
    requires samples.None? || |samples.value| == 0
    requires |secs| == 0 || |secs| < coordinateCount
    ensures forall i :: 0 <= i < |secs| ==>
      WithElevations(secs, ProfileOrZeros(samples, coordinateCount), hypot)[i].slope == 0.0 &&
      WithElevations(secs, ProfileOrZeros(samples, coordinateCount), hypot)[i].elevation == 0.0
  {
  }
}
