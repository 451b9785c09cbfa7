/**
 * The route's read-only summaries: total distance, total slope, and the distance histograms by
 * highway and by surface. Both engines define them identically over the sections array.
 */
module Metrics {
  import opened Js
  import opened Geo

  /** getHighways buckets by the section's highway, getSurfaces by its surface. */
  datatype Grouping = ByHighway | BySurface

  /**
   * The property a section's distance is added to: both functions test the section's highway, and
   * a section without one goes to "undefined".
   */
  function BucketOf(s: Section, g: Grouping): string {
    if s.highway.IsNullish() then "undefined"
    else if g == ByHighway then KeyOf(s.highway)
    else KeyOf(s.surface)
  }

  /** A plain object used as a dictionary, as its (key, value) pairs in insertion order. */
  type Buckets = seq<(string, real)>

  function Lookup(h: Buckets, k: string): Option<real> {
    if |h| == 0 then None
    else if h[0].0 == k then Some(h[0].1)
    else Lookup(h[1..], k)
  }

  /** `if (h[k] == null) h[k] = d; else h[k] += d;` */
  function Bump(h: Buckets, k: string, d: real): Buckets {
    if |h| == 0 then [(k, d)]
    else if h[0].0 == k then [(k, h[0].1 + d)] + h[1..]
    else [h[0]] + Bump(h[1..], k, d)
  }

  ghost predicate DistinctKeys(h: Buckets) {
    forall i, j :: 0 <= i < j < |h| ==> h[i].0 != h[j].0
  }

  /** The sum of all bucket values. */
  function BucketsTotal(h: Buckets): real {
    if |h| == 0 then 0.0 else h[0].1 + BucketsTotal(h[1..])
  }

  /** The object either loop leaves behind. */
  function Histogram(secs: seq<Section>, g: Grouping): Buckets {
    if |secs| == 0 then []
    else
      var s := secs[|secs| - 1];
      Bump(Histogram(secs[..|secs| - 1], g), BucketOf(s, g), s.distance)
  }

  /** The reference definition of a bucket: the sum of the distances of the sections that belong to it. */
  function KeyDistance(secs: seq<Section>, g: Grouping, k: string): real {
    if |secs| == 0 then 0.0
    else
      var s := secs[|secs| - 1];
      KeyDistance(secs[..|secs| - 1], g, k) + (if BucketOf(s, g) == k then s.distance else 0.0)
  }

  ghost predicate Uses(secs: seq<Section>, g: Grouping, k: string) {
    exists i :: 0 <= i < |secs| && BucketOf(secs[i], g) == k
  }

  lemma {:induction false} BumpFacts(h: Buckets, k: string, d: real)
    requires DistinctKeys(h)
    ensures DistinctKeys(Bump(h, k, d))
    ensures Lookup(Bump(h, k, d), k) == Some(if Lookup(h, k).Some? then Lookup(h, k).value + d else d)
    ensures forall other :: other != k ==> Lookup(Bump(h, k, d), other) == Lookup(h, other)
    ensures BucketsTotal(Bump(h, k, d)) == BucketsTotal(h) + d
  {
    if |h| > 0 && h[0].0 != k {
      var rest := h[1..];
      assert DistinctKeys(rest) by {
        forall i, j | 0 <= i < j < |rest| ensures rest[i].0 != rest[j].0 {
          assert rest[i] == h[i + 1] && rest[j] == h[j + 1];
        }
      }
      BumpFacts(rest, k, d);
      var b := Bump(rest, k, d);
      assert forall other :: other != h[0].0 ==> Lookup([h[0]] + b, other) == Lookup(b, other);
      assert Lookup(rest, h[0].0) == None by {
        LookupNone(rest, h[0].0);
      }
      assert Lookup(b, h[0].0) == None;
      LookupSomeIsKey(b, h[0].0);
      assert ([h[0]] + b)[1..] == b;
      var r := [h[0]] + b;
      forall i, j | 0 <= i < j < |r| ensures r[i].0 != r[j].0 {
        if i == 0 {
          KeyLookup(b, j - 1);
        }
      }
    } else if |h| > 0 {
      var r := [(k, h[0].1 + d)] + h[1..];
      assert r[1..] == h[1..];
      assert forall i :: 0 < i < |r| ==> r[i] == h[i];
    }
  }

  /** No bucket for a key that no pair has. */
  lemma {:induction false} LookupNone(h: Buckets, k: string)
    requires forall i :: 0 <= i < |h| ==> h[i].0 != k
    ensures Lookup(h, k) == None
  {
    if |h| > 0 {
      LookupNone(h[1..], k);
    }
  }

  /** A key that occurs has a bucket. */
  lemma {:induction false} KeyLookup(h: Buckets, i: int)
    requires 0 <= i < |h|
    ensures Lookup(h, h[i].0).Some?
  {
    if i > 0 && h[0].0 != h[i].0 {
      KeyLookup(h[1..], i - 1);
    }
  }

  /** With no bucket for k, k is no pair's key. */
  lemma LookupSomeIsKey(h: Buckets, k: string)
    requires Lookup(h, k) == None
    ensures forall i :: 0 <= i < |h| ==> h[i].0 != k
  {
    forall i | 0 <= i < |h| ensures h[i].0 != k {
      KeyLookup(h, i);
    }
  }

  /**
   * The histogram is a dictionary: its keys are distinct, a key has a bucket exactly when some
   * section belongs to it, the bucket holds the distance of exactly those sections, and so the
   * buckets add up to the route's distance.
   */
  lemma {:induction false} HistogramCorrect(secs: seq<Section>, g: Grouping)
    ensures DistinctKeys(Histogram(secs, g))
    ensures forall k :: Lookup(Histogram(secs, g), k) == if Uses(secs, g, k) then Some(KeyDistance(secs, g, k)) else None
    ensures BucketsTotal(Histogram(secs, g)) == TotalDistance(secs)
  {
    if |secs| > 0 {
      var init := secs[..|secs| - 1];
      var s := secs[|secs| - 1];
      HistogramCorrect(init, g);
      BumpFacts(Histogram(init, g), BucketOf(s, g), s.distance);
      forall k ensures Uses(secs, g, k) <==> Uses(init, g, k) || BucketOf(s, g) == k {
        if Uses(init, g, k) {
          var i :| 0 <= i < |init| && BucketOf(init[i], g) == k;
          assert secs[i] == init[i];
        }
        if Uses(secs, g, k) && BucketOf(s, g) != k {
          var i :| 0 <= i < |secs| && BucketOf(secs[i], g) == k;
          assert init[i] == secs[i];
        }
      }
      forall k | !Uses(init, g, k) ensures KeyDistance(init, g, k) == 0.0 {
        UnusedIsZero(init, g, k);
      }
    }
  }

  lemma {:induction false} UnusedIsZero(secs: seq<Section>, g: Grouping, k: string)
    requires !Uses(secs, g, k)
    ensures KeyDistance(secs, g, k) == 0.0
  {
    if |secs| > 0 {
      var init := secs[..|secs| - 1];
      assert forall i :: 0 <= i < |init| ==> init[i] == secs[i];
      UnusedIsZero(init, g, k);
      assert BucketOf(secs[|secs| - 1], g) != k;
    }
  }

  /** getHighways and getSurfaces: one pass over the sections, bumping one bucket per section. */
  method CollectDistances(secs: seq<Section>, g: Grouping) returns (h: Buckets)
    ensures h == Histogram(secs, g)
    ensures DistinctKeys(h) && BucketsTotal(h) == TotalDistance(secs)
  {
    h := [];
    var i := 0;
    while i < |secs|
      invariant 0 <= i <= |secs|
      invariant h == Histogram(secs[..i], g)
    {
      assert secs[..i + 1][..i] == secs[..i];
      h := Bump(h, BucketOf(secs[i], g), secs[i].distance);
      i := i + 1;
    }
    assert secs[..i] == secs;
    HistogramCorrect(secs, g);
  }

  /** getDistance: the sum of the section distances. */
  method GetDistance(secs: seq<Section>) returns (distance: real)
    ensures distance == TotalDistance(secs)
    ensures distance == BucketsTotal(Histogram(secs, ByHighway)) == BucketsTotal(Histogram(secs, BySurface))
  {
    distance := 0.0;
    var i := 0;
    while i < |secs|
      invariant 0 <= i <= |secs|
      invariant distance == TotalDistance(secs[..i])
    {
      assert secs[..i + 1][..i] == secs[..i];
      distance := distance + secs[i].distance;
      i := i + 1;
    }
    assert secs[..i] == secs;
    HistogramCorrect(secs, ByHighway);
    HistogramCorrect(secs, BySurface);
  }

  /** getSlope, the definition in force: the sum of the section slopes. */
  method GetSlope(secs: seq<Section>) returns (slope: real)
    ensures slope == TotalSlope(secs)
  {
    slope := 0.0;
    var i := 0;
    while i < |secs|
      invariant 0 <= i <= |secs|
      invariant slope == TotalSlope(secs[..i])
    {
      assert secs[..i + 1][..i] == secs[..i];
      slope := slope + secs[i].slope;
      i := i + 1;
    }
    assert secs[..i] == secs;
  }
}
