/**
 * Coordinate.loadOsmRoadInfo: find the OSM node lying on a coordinate, then copy the tags of every way
 * that refers to that node into the coordinate. The same code exists twice, in map2kcal-1.0.0.js
 * (Current) and in the older roadInfo.js (Legacy); `Variant` selects the differences.
 */
module OsmMatch {
  import opened Js
  import opened Geo
  import Surfaces

  /**
   * A property of the converted Overpass XML: a single object when the element occurs once, an
   * array when it occurs several times.
   */
  datatype OneOrMany<T> = One(item: T) | Many(items: seq<T>)

  datatype OsmNode = OsmNode(lat: real, lon: real, id: string)
  datatype NodeRef = NodeRef(ref: string)
  datatype OsmTag = OsmTag(k: string, v: string)
  datatype Way = Way(nd: OneOrMany<NodeRef>, tag: OneOrMany<OsmTag>)
  datatype Osm = Osm(node: OneOrMany<OsmNode>, way: OneOrMany<Way>)

  /** map2kcal-1.0.0.js or roadInfo.js. */
  datatype Variant = Current | Legacy

  /** The tolerance, in degrees, on each axis (`accuarcy` in the source). */
  const Accuracy: real := 0.000001

  /** The nodes findNodeId's loop visits: `nodes.length` is undefined on a single object, so it visits none. */
  function Candidates(nodes: OneOrMany<OsmNode>): seq<OsmNode> {
    match nodes
    case One(_) => []
    case Many(ns) => ns
  }

  /** The elements the parse functions visit: they test `constructor === Array` and treat a single object as one. */
  function Items<T>(x: OneOrMany<T>): seq<T> {
    match x
    case One(i) => [i]
    case Many(s) => s
  }

  ghost predicate Near(n: OsmNode, lat: real, lon: real) {
    Abs(n.lat - lat) < Accuracy && Abs(n.lon - lon) < Accuracy
  }

  /** The record findNodeId keeps for the best node so far. */
  datatype Closest = Closest(dLat: real, dLon: real, id: string)

  /** A later in-tolerance node replaces the kept one when it is at most as far (Current) or strictly closer (Legacy) on both axes. */
  predicate Replaces(v: Variant, dLat: real, dLon: real, c: Closest) {
    if v == Current then dLat <= c.dLat && dLon <= c.dLon else dLat < c.dLat && dLon < c.dLon
  }

  /** One iteration of findNodeId's loop. */
  function Visit(v: Variant, c: Option<Closest>, n: OsmNode, lat: real, lon: real): Option<Closest> {
    var dLat := Abs(n.lat - lat);
    var dLon := Abs(n.lon - lon);
    if dLat < Accuracy && dLon < Accuracy then
      if c.None? || Replaces(v, dLat, dLon, c.value) then Some(Closest(dLat, dLon, n.id)) else c
    else c
  }

  /** The record after visiting `ns` in order. */
  function ClosestAmong(v: Variant, ns: seq<OsmNode>, lat: real, lon: real): Option<Closest> {
    if |ns| == 0 then None else Visit(v, ClosestAmong(v, ns[..|ns| - 1], lat, lon), ns[|ns| - 1], lat, lon)
  }

  ghost predicate Records(c: Closest, n: OsmNode, lat: real, lon: real) {
    Near(n, lat, lon) && c.id == n.id && c.dLat == Abs(n.lat - lat) && c.dLon == Abs(n.lon - lon)
  }

  /** There is no record exactly when no node lies within tolerance, and a record always describes an in-tolerance node. */
  lemma {:induction false} ClosestAmongIsNear(v: Variant, ns: seq<OsmNode>, lat: real, lon: real)
    ensures ClosestAmong(v, ns, lat, lon).None? <==> forall i :: 0 <= i < |ns| ==> !Near(ns[i], lat, lon)
    ensures ClosestAmong(v, ns, lat, lon).Some? ==>
      exists i :: 0 <= i < |ns| && Records(ClosestAmong(v, ns, lat, lon).value, ns[i], lat, lon)
  {
    if |ns| > 0 {
      var init := ns[..|ns| - 1];
      ClosestAmongIsNear(v, init, lat, lon);
      var before := ClosestAmong(v, init, lat, lon);
      var after := ClosestAmong(v, ns, lat, lon);
      if after.Some? {
        if after == before {
          var i :| 0 <= i < |init| && Records(before.value, init[i], lat, lon);
          assert ns[i] == init[i];
        } else {
          assert Records(after.value, ns[|ns| - 1], lat, lon);
        }
      }
      assert forall i :: 0 <= i < |init| ==> init[i] == ns[i];
    }
  }

  /**
   * findNodeId: the id of an OSM node within `Accuracy` of (lat, lon) on both axes, or undefined
   * when there is none.
   */
  method FindNodeId(data: Osm, lat: real, lon: real, v: Variant) returns (id: Option<string>)
    ensures id.None? <==> forall i :: 0 <= i < |Candidates(data.node)| ==> !Near(Candidates(data.node)[i], lat, lon)
    ensures id.Some? ==>
      exists i :: 0 <= i < |Candidates(data.node)| && Near(Candidates(data.node)[i], lat, lon) && id.value == Candidates(data.node)[i].id
    ensures id == NodeId(data, lat, lon, v)
  {
    var nodes := Candidates(data.node);
    var closest: Option<Closest> := None;
    var i := 0;
    while i < |nodes|
      invariant 0 <= i <= |nodes|
      invariant closest == ClosestAmong(v, nodes[..i], lat, lon)
    {
      assert nodes[..i + 1][..i] == nodes[..i];
      var dLat := Abs(nodes[i].lat - lat);
      var dLon := Abs(nodes[i].lon - lon);
      if dLat < Accuracy && dLon < Accuracy {
        if closest.None? {
          closest := Some(Closest(dLat, dLon, nodes[i].id));
        } else if Replaces(v, dLat, dLon, closest.value) {
          closest := Some(Closest(dLat, dLon, nodes[i].id));
        }
      }
      i := i + 1;
    }
    assert nodes[..i] == nodes;
    ClosestAmongIsNear(v, nodes, lat, lon);
    if closest.None? {
      id := None;
    } else {
      id := Some(closest.value.id);
    }
  }

  /** The value findNodeId computes, for use by the functions below. */
  function NodeId(data: Osm, lat: real, lon: real, v: Variant): Option<string> {
    var c := ClosestAmong(v, Candidates(data.node), lat, lon);
    if c.None? then None else Some(c.value.id)
  }

  /** Of two in-tolerance nodes at the same offsets, the current code keeps the later one, the older code the first. */
  lemma TiesGoToLaterOrFirst(a: OsmNode, b: OsmNode, lat: real, lon: real)
    requires Near(a, lat, lon)
    requires Abs(b.lat - lat) == Abs(a.lat - lat) && Abs(b.lon - lon) == Abs(a.lon - lon)
    ensures NodeId(Osm(Many([a, b]), Many([])), lat, lon, Current) == Some(b.id)
    ensures NodeId(Osm(Many([a, b]), Many([])), lat, lon, Legacy) == Some(a.id)
  {
    assert [a, b][..1] == [a];
    assert [a][..0] == [];
    var first := Some(Closest(Abs(a.lat - lat), Abs(a.lon - lon), a.id));
    assert ClosestAmong(Current, [a], lat, lon) == first;
    assert ClosestAmong(Legacy, [a], lat, lon) == first;
    assert ClosestAmong(Current, [a, b], lat, lon) == Visit(Current, first, b, lat, lon);
    assert ClosestAmong(Legacy, [a, b], lat, lon) == Visit(Legacy, first, b, lat, lon);
  }

  /** A later node closer on one axis but farther on the other never replaces the kept one. */
  lemma OneAxisNeverReplaces(v: Variant, c: Closest, n: OsmNode, lat: real, lon: real)
    requires Abs(n.lat - lat) < c.dLat && Abs(n.lon - lon) > c.dLon
    ensures Visit(v, Some(c), n, lat, lon) == Some(c)
  {
  }

  /**
   * The match need not be the nearest node: at (0, 0), a node 5e-7 north is kept although a later
   * node 4e-7 east is nearer.
   */
  lemma NotNecessarilyNearest(v: Variant)
    ensures NodeId(Osm(Many([OsmNode(0.0000005, 0.0, "a"), OsmNode(0.0, 0.0000004, "b")]), Many([])), 0.0, 0.0, v) == Some("a")
  {
    var ns := [OsmNode(0.0000005, 0.0, "a"), OsmNode(0.0, 0.0000004, "b")];
    assert ns[..1] == [ns[0]];
    assert [ns[0]][..0] == [];
    var first := Some(Closest(0.0000005, 0.0, "a"));
    assert ClosestAmong(v, [ns[0]], 0.0, 0.0) == first;
    assert ClosestAmong(v, ns, 0.0, 0.0) == Visit(v, first, ns[1], 0.0, 0.0);
  }

  /** A single node element is never matched, because the loop over `nodes.length` does not run. */
  lemma SingleNodeNeverMatches(n: OsmNode, ways: OneOrMany<Way>, lat: real, lon: real, v: Variant)
    ensures NodeId(Osm(One(n), ways), lat, lon, v) == None
  {
  }

  /** parseTag: the current code copies highway, surface and tracktype; the older code only highway. */
  function ApplyTag(v: Variant, t: OsmTag, c: Coordinate): Coordinate {
    if t.k == "highway" then c.(highway := Str(t.v))
    else if v == Current && t.k == "surface" then c.(surface := Str(t.v))
    else if v == Current && t.k == "tracktype" then c.(tracktype := Str(t.v))
    else c
  }

  /** parseTags: the tags in order. */
  function ApplyTags(v: Variant, ts: seq<OsmTag>, c: Coordinate): Coordinate {
    if |ts| == 0 then c else ApplyTag(v, ts[|ts| - 1], ApplyTags(v, ts[..|ts| - 1], c))
  }

  /** The tags of `w` applied, in order, once for every nd of `w` that refers to `id` (parseWay). */
  function MatchedTags(refs: seq<NodeRef>, tags: seq<OsmTag>, id: Option<string>): seq<OsmTag> {
    if |refs| == 0 then []
    else MatchedTags(refs[..|refs| - 1], tags, id) + (if id == Some(refs[|refs| - 1].ref) then tags else [])
  }

  /** All the tags parseWays applies: the ways in order, each contributing its MatchedTags. */
  function WaysTags(ws: seq<Way>, id: Option<string>): seq<OsmTag> {
    if |ws| == 0 then []
    else WaysTags(ws[..|ws| - 1], id) + MatchedTags(Items(ws[|ws| - 1].nd), Items(ws[|ws| - 1].tag), id)
  }

  /** parseNode before the surface fallback: the coordinate after every matching way's tags. */
  function ApplyWays(v: Variant, data: Osm, id: Option<string>, c: Coordinate): Coordinate {
    ApplyTags(v, WaysTags(Items(data.way), id), c)
  }

  /** The coordinate after loadOsmRoadInfo. */
  function RoadInfo(v: Variant, data: Osm, c: Coordinate): Coordinate {
    var t := ApplyWays(v, data, NodeId(data, c.lat, c.lng, v), c);
    if v == Current then Surfaces.AssociateSurfaceToHighway(t) else t
  }

  lemma {:induction false} ApplyTagsAppend(v: Variant, a: seq<OsmTag>, b: seq<OsmTag>, c: Coordinate)
    ensures ApplyTags(v, a + b, c) == ApplyTags(v, b, ApplyTags(v, a, c))
  {
    if |b| > 0 {
      ApplyTagsAppend(v, a, b[..|b| - 1], c);
      assert (a + b)[..|a + b| - 1] == a + b[..|b| - 1];
    } else {
      assert a + b == a;
    }
  }

  /** Tags only ever touch highway, surface and tracktype; the older code only highway. */
  lemma {:induction false} ApplyTagsFrame(v: Variant, ts: seq<OsmTag>, c: Coordinate)
    ensures ApplyTags(v, ts, c).lat == c.lat && ApplyTags(v, ts, c).lng == c.lng
    ensures v == Legacy ==> ApplyTags(v, ts, c) == c.(highway := ApplyTags(v, ts, c).highway)
  {
    if |ts| > 0 {
      ApplyTagsFrame(v, ts[..|ts| - 1], c);
    }
  }

  /**
   * The last tag with key "highway" decides the highway; with no such tag the highway is unchanged.
   */
  lemma {:induction false} LastHighwayWins(v: Variant, ts: seq<OsmTag>, c: Coordinate)
    ensures (forall j :: 0 <= j < |ts| ==> ts[j].k != "highway") ==> ApplyTags(v, ts, c).highway == c.highway
    ensures forall j :: 0 <= j < |ts| && ts[j].k == "highway" && (forall l :: j < l < |ts| ==> ts[l].k != "highway") ==>
      ApplyTags(v, ts, c).highway == Str(ts[j].v)
  {
    if |ts| > 0 {
      var init := ts[..|ts| - 1];
      var last := ts[|ts| - 1];
      LastHighwayWins(v, init, c);
      if last.k == "highway" {
        assert ApplyTags(v, ts, c).highway == Str(last.v);
      } else {
        assert ApplyTags(v, ts, c).highway == ApplyTags(v, init, c).highway;
        assert forall j :: 0 <= j < |init| ==> init[j] == ts[j];
      }
    }
  }

  /** Without a matching node id no nd refers to it, so no way contributes a tag. */
  lemma {:induction false} NoIdNoTags(ws: seq<Way>)
    ensures WaysTags(ws, None) == []
  {
    if |ws| > 0 {
      NoIdNoTags(ws[..|ws| - 1]);
      NoIdNoRefs(Items(ws[|ws| - 1].nd), Items(ws[|ws| - 1].tag));
    }
  }

  lemma {:induction false} NoIdNoRefs(refs: seq<NodeRef>, tags: seq<OsmTag>)
    ensures MatchedTags(refs, tags, None) == []
  {
    if |refs| > 0 {
      NoIdNoRefs(refs[..|refs| - 1], tags);
    }
  }

  /**
   * A coordinate with no OSM node within tolerance keeps its highway (the `this.highway = undefined`
   * of parseNode writes the global object, not the coordinate); the older code leaves it entirely
   * unchanged, the current one only fills in a missing surface.
   */
  lemma NoMatchKeepsHighway(v: Variant, data: Osm, c: Coordinate)
    requires NodeId(data, c.lat, c.lng, v).None?
    ensures RoadInfo(v, data, c).highway == c.highway
    ensures v == Legacy ==> RoadInfo(v, data, c) == c
    ensures v == Current ==> RoadInfo(v, data, c) == Surfaces.AssociateSurfaceToHighway(c)
  {
    NoIdNoTags(Items(data.way));
  }

  /**
   * After loadOsmRoadInfo the position is unchanged, the highway is that of the last highway tag
   * among the matching ways whenever there is one, and in the current code the surface is set.
   */
  lemma RoadInfoProperties(v: Variant, data: Osm, c: Coordinate)
    ensures RoadInfo(v, data, c).lat == c.lat && RoadInfo(v, data, c).lng == c.lng
    ensures v == Current ==> !RoadInfo(v, data, c).surface.IsNullish()
    ensures v == Legacy ==> RoadInfo(v, data, c) == c.(highway := RoadInfo(v, data, c).highway)
    ensures var ts := WaysTags(Items(data.way), NodeId(data, c.lat, c.lng, v));
      forall j :: 0 <= j < |ts| && ts[j].k == "highway" && (forall l :: j < l < |ts| ==> ts[l].k != "highway") ==>
        RoadInfo(v, data, c).highway == Str(ts[j].v)
  {
    var ts := WaysTags(Items(data.way), NodeId(data, c.lat, c.lng, v));
    ApplyTagsFrame(v, ts, c);
    LastHighwayWins(v, ts, c);
  }

  /** parseTags, or parseTag when the way holds a single tag. */
  method ParseTags(v: Variant, tags: OneOrMany<OsmTag>, c: Coordinate) returns (r: Coordinate)
    ensures r == ApplyTags(v, Items(tags), c)
  {
    var ts := Items(tags);
    r := c;
    var k := 0;
    while k < |ts|
      invariant 0 <= k <= |ts|
      invariant r == ApplyTags(v, ts[..k], c)
    {
      assert ts[..k + 1][..k] == ts[..k];
      r := ApplyTag(v, ts[k], r);
      k := k + 1;
    }
    assert ts[..k] == ts;
  }

  /** parseWay: parseWayByReferredNode for each nd of the way. */
  method ParseWay(v: Variant, w: Way, id: Option<string>, c: Coordinate) returns (r: Coordinate)
    ensures r == ApplyTags(v, MatchedTags(Items(w.nd), Items(w.tag), id), c)
  {
    var refs := Items(w.nd);
    r := c;
    var j := 0;
    while j < |refs|
      invariant 0 <= j <= |refs|
      invariant r == ApplyTags(v, MatchedTags(refs[..j], Items(w.tag), id), c)
    {
      assert refs[..j + 1][..j] == refs[..j] && refs[..j + 1][j] == refs[j];
      ghost var before := MatchedTags(refs[..j], Items(w.tag), id);
      if id == Some(refs[j].ref) {
        assert MatchedTags(refs[..j + 1], Items(w.tag), id) == before + Items(w.tag);
        ApplyTagsAppend(v, before, Items(w.tag), c);
        r := ParseTags(v, w.tag, r);
      } else {
        assert MatchedTags(refs[..j + 1], Items(w.tag), id) == before + [] == before;
      }
      j := j + 1;
    }
    assert refs[..j] == refs;
  }

  /** parseNode: parseWays (or parseWay for a single way), then, in the current code, the surface fallback. */
  method ParseNode(v: Variant, data: Osm, id: Option<string>, c: Coordinate) returns (r: Coordinate)
    ensures r == (if v == Current then Surfaces.AssociateSurfaceToHighway(ApplyWays(v, data, id, c)) else ApplyWays(v, data, id, c))
  {
    var ws := Items(data.way);
    r := c;
    var i := 0;
    while i < |ws|
      invariant 0 <= i <= |ws|
      invariant r == ApplyTags(v, WaysTags(ws[..i], id), c)
    {
      assert ws[..i + 1][..i] == ws[..i];
      ApplyTagsAppend(v, WaysTags(ws[..i], id), MatchedTags(Items(ws[i].nd), Items(ws[i].tag), id), c);
      r := ParseWay(v, ws[i], id, r);
      i := i + 1;
    }
    assert ws[..i] == ws;
    if v == Current {
      r := Surfaces.AssociateSurfaceToHighway(r);
    }
  }

  /** Coordinate.loadOsmRoadInfo. */
  method LoadOsmRoadInfo(v: Variant, data: Osm, c: Coordinate) returns (r: Coordinate)
    ensures r == RoadInfo(v, data, c)
  {
    var id := FindNodeId(data, c.lat, c.lng, v);
    r := ParseNode(v, data, id, c);
  }
}
