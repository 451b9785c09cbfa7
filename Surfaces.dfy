/**
 * Surface classification: the JavaScript `switch` tables that map an OSM surface to a rolling
 * resistance coefficient (Crr) and a shoe friction coefficient (mu), and the highway/tracktype
 * fallback that fills in a missing surface.
 */
module Surfaces {
  import opened Js
  import opened Geo

  /** A `case v:` label or the `default:` label of a switch. */
  datatype Label = Case(value: Tag) | Default

  /** A run of labels that fall through to one `return result;`. */
  datatype Arm = Arm(labels: seq<Label>, result: real)

  /** The result of the first arm, in source order, that carries label `l`. */
  function FirstArmWith(arms: seq<Arm>, l: Label): Option<real> {
    if |arms| == 0 then None
    else if l in arms[0].labels then Some(arms[0].result)
    else FirstArmWith(arms[1..], l)
  }

  /**
   * `switch (x)` as JavaScript runs it: all case labels are compared with `===` first, wherever the
   * default stands, and only when none matches does control go to the default.
   */
  function Switch(arms: seq<Arm>, x: Tag): Option<real> {
    var c := FirstArmWith(arms, Case(x));
    if c.Some? then c else FirstArmWith(arms, Default)
  }

  ghost predicate NoLabelBefore(arms: seq<Arm>, l: Label, n: int)
    requires 0 <= n <= |arms|
  {
    forall k :: 0 <= k < n ==> l !in arms[k].labels
  }

  lemma {:induction false} SkipArms(arms: seq<Arm>, l: Label, n: int)
    requires 0 <= n <= |arms| && NoLabelBefore(arms, l, n)
    ensures FirstArmWith(arms, l) == FirstArmWith(arms[n..], l)
  {
    if n > 0 {
      assert NoLabelBefore(arms[1..], l, n - 1) by {
        forall k | 0 <= k < n - 1 ensures l !in arms[1..][k].labels {
          assert arms[1..][k] == arms[k + 1];
        }
      }
      SkipArms(arms[1..], l, n - 1);
      assert arms[1..][n - 1..] == arms[n..];
    }
  }

  /** The first arm whose case matches decides, even when the default stands before it. */
  lemma SwitchFirstMatch(arms: seq<Arm>, x: Tag, i: int)
    requires 0 <= i < |arms| && NoLabelBefore(arms, Case(x), i) && Case(x) in arms[i].labels
    ensures Switch(arms, x) == Some(arms[i].result)
  {
    SkipArms(arms, Case(x), i);
  }

  /** A value that no case matches takes the default arm. */
  lemma SwitchNoMatch(arms: seq<Arm>, x: Tag, i: int)
    requires NoLabelBefore(arms, Case(x), |arms|)
    requires 0 <= i < |arms| && NoLabelBefore(arms, Default, i) && Default in arms[i].labels
    ensures Switch(arms, x) == Some(arms[i].result)
  {
    SkipArms(arms, Case(x), |arms|);
    SkipArms(arms, Default, i);
  }

  /** Whatever the switch returns is one of its arms' results. */
  lemma SwitchResultIsAnArm(arms: seq<Arm>, x: Tag)
    requires Switch(arms, x).Some?
    ensures exists i :: 0 <= i < |arms| && arms[i].result == Switch(arms, x).value
  {
    ArmWithIsAnArm(arms, Case(x));
    ArmWithIsAnArm(arms, Default);
  }

  lemma {:induction false} ArmWithIsAnArm(arms: seq<Arm>, l: Label)
    ensures FirstArmWith(arms, l).Some? ==> exists i :: 0 <= i < |arms| && arms[i].result == FirstArmWith(arms, l).value
  {
    if |arms| > 0 && l !in arms[0].labels {
      ArmWithIsAnArm(arms[1..], l);
      if FirstArmWith(arms[1..], l).Some? {
        var i :| 0 <= i < |arms[1..]| && arms[1..][i].result == FirstArmWith(arms[1..], l).value;
        assert arms[i + 1] == arms[1..][i];
      }
    }
  }

  /** The case labels shared by both tables, in source order; the default stands in the fifth arm. */
  const SurfaceCases: seq<seq<Label>> := [
    [Case(Str("wood")), Case(Str("tartan")), Case(Str("clay")), Case(Str("metal"))],
    [Case(Str("concrete"))],
    [Case(Str("paved")), Case(Str("paving_stones")), Case(Str("paving_stones:30")), Case(Str("concrete:lanes")), Case(Str("concrete:plates"))],
    [Case(Str("asphalt"))],
    [Case(Str("solid")), Case(Str("sett")), Default],
    [Case(Str("mostly solid")), Case(Str("grass_paver")), Case(Str("fine_gravel"))],
    [Case(Str("even mixture of hard and soft materials"))],
    [Case(Str("mostly soft")), Case(Str("cobblestone"))],
    [Case(Str("soft")), Case(Str("sand")), Case(Str("compacted")), Case(Str("pebblestone"))],
    [Case(Null), Case(Str("unpaved")), Case(Str("other")), Case(Str("gravel")), Case(Str("earth"))],
    [Case(Str("grass")), Case(Str("dirt"))],
    [Case(Str("mud"))]
  ]

  const CrrArms: seq<Arm> := [
    Arm(SurfaceCases[0], 0.001),
    Arm(SurfaceCases[1], 0.002),
    Arm(SurfaceCases[2], 0.003),
    Arm(SurfaceCases[3], 0.004),
    Arm(SurfaceCases[4], 0.0045),
    Arm(SurfaceCases[5], 0.005),
    Arm(SurfaceCases[6], 0.006),
    Arm(SurfaceCases[7], 0.007),
    Arm(SurfaceCases[8], 0.008),
    Arm(SurfaceCases[9], 0.009),
    Arm(SurfaceCases[10], 0.01),
    Arm(SurfaceCases[11], 0.015)
  ]

  const MuArms: seq<Arm> := [
    Arm(SurfaceCases[0], 1.0),
    Arm(SurfaceCases[1], 1.0),
    Arm(SurfaceCases[2], 0.95),
    Arm(SurfaceCases[3], 0.9),
    Arm(SurfaceCases[4], 0.85),
    Arm(SurfaceCases[5], 0.8),
    Arm(SurfaceCases[6], 0.75),
    Arm(SurfaceCases[7], 0.7),
    Arm(SurfaceCases[8], 0.65),
    Arm(SurfaceCases[9], 0.7),
    Arm(SurfaceCases[10], 0.75),
    Arm(SurfaceCases[11], 0.5)
  ]

  lemma CrrHasDefault()
    ensures FirstArmWith(CrrArms, Default) == Some(0.0045)
  {
    SkipArms(CrrArms, Default, 4);
  }

  lemma MuHasDefault()
    ensures FirstArmWith(MuArms, Default) == Some(0.85)
  {
    SkipArms(MuArms, Default, 4);
  }

  /** sectionCrr: the rolling resistance coefficient of a surface, total over every value. */
  function SectionCrr(surface: Tag): (c: real)
    ensures 0.001 <= c <= 0.015
  {
    CrrHasDefault();
    SwitchResultIsAnArm(CrrArms, surface);
    Switch(CrrArms, surface).value
  }

  /** Crr: the surface coefficient scaled by the speed correction 1 + vr / 20. */
  function Crr(surface: Tag, vr: real): (c: real)
    ensures vr >= 0.0 ==> c >= SectionCrr(surface)
    ensures vr == 0.0 ==> c == SectionCrr(surface)
  {
    SectionCrr(surface) * (1.0 + vr / 20.0)
  }

  /** Mud has the highest Crr at every non-negative speed. */
  lemma CrrMudMost(surface: Tag, vr: real)
    requires vr >= 0.0
    ensures Crr(surface, vr) <= Crr(Str("mud"), vr)
  {
    MudAfterDefault();
    var k := 1.0 + vr / 20.0;
    calc {
      Crr(surface, vr);
    ==
      SectionCrr(surface) * k;
    <= { assert k >= 1.0; }
      SectionCrr(Str("mud")) * k;
    ==
      Crr(Str("mud"), vr);
    }
  }

  /** Mud has the lowest mu. */
  lemma MuMudLeast(surface: Tag)
    ensures 0.0 < Mu(Str("mud")) <= Mu(surface)
  {
    MudAfterDefault();
  }

  /** mu: the friction coefficient of a rubber sole on a surface, total over every value. */
  function Mu(surface: Tag): (m: real)
    ensures 0.5 <= m <= 1.0
  {
    MuHasDefault();
    SwitchResultIsAnArm(MuArms, surface);
    Switch(MuArms, surface).value
  }

  /** Both tables share the case layout of SurfaceCases. */
  lemma SharedLayout()
    ensures |CrrArms| == |MuArms| == |SurfaceCases|
    ensures forall k :: 0 <= k < |SurfaceCases| ==> CrrArms[k].labels == SurfaceCases[k] && MuArms[k].labels == SurfaceCases[k]
  {
  }

  /** A surface first listed in arm i gets that arm's coefficient in both tables, whatever precedes it. */
  lemma ListedSurface(x: Tag, i: int)
    requires 0 <= i < |SurfaceCases| && Case(x) in SurfaceCases[i]
    requires forall k :: 0 <= k < i ==> Case(x) !in SurfaceCases[k]
    ensures SectionCrr(x) == CrrArms[i].result
    ensures Mu(x) == MuArms[i].result
  {
    SharedLayout();
    SwitchFirstMatch(CrrArms, x, i);
    SwitchFirstMatch(MuArms, x, i);
  }

  /** A surface listed in no case, `undefined` among them, takes the default arm of both tables. */
  lemma UnlistedSurface(x: Tag)
    requires forall k :: 0 <= k < |SurfaceCases| ==> Case(x) !in SurfaceCases[k]
    ensures SectionCrr(x) == 0.0045
    ensures Mu(x) == 0.85
  {
    SharedLayout();
    SwitchNoMatch(CrrArms, x, 4);
    SwitchNoMatch(MuArms, x, 4);
  }

  /** `case null` does not match `undefined`: a missing surface gets the default, a null one the unpaved arm. */
  lemma NullIsNotUndefined()
    ensures SectionCrr(Undefined) == 0.0045 && Mu(Undefined) == 0.85
    ensures SectionCrr(Null) == 0.009 && Mu(Null) == 0.7
  {
    UnlistedSurface(Undefined);
    ListedSurface(Null, 9);
  }

  /** The cases after the mid-switch default are still reachable: "mud" is the most resistant surface. */
  lemma MudAfterDefault()
    ensures SectionCrr(Str("mud")) == 0.015 && Mu(Str("mud")) == 0.5
    ensures forall t :: SectionCrr(t) <= SectionCrr(Str("mud")) && Mu(t) >= Mu(Str("mud"))
  {
    ListedSurface(Str("mud"), 11);
  }

  /** The surface associateSurfaceToHighway derives from a highway and a tracktype. */
  function FallbackSurface(highway: Tag, tracktype: Tag): string {
    if highway.IsNullish() || highway == Str("path") then "other"
    else if highway == Str("track") then
      if tracktype == Str("grade1") then "solid"
      else if tracktype == Str("grade2") then "mostly solid"
      else if tracktype == Str("grade3") then "even mixture of hard and soft materials"
      else if tracktype == Str("grade4") then "mostly soft"
      else if tracktype == Str("grade5") then "soft"
      else "other"
    else "asphalt"
  }

  /**
   * associateSurfaceToHighway: a coordinate with a surface keeps it; one without gets the fallback.
   * Nothing but the surface changes, and afterwards the surface is never null or undefined.
   */
  function AssociateSurfaceToHighway(c: Coordinate): (r: Coordinate)
    ensures r == c.(surface := r.surface)
    ensures !r.surface.IsNullish()
    ensures !c.surface.IsNullish() ==> r == c
    ensures c.surface.IsNullish() ==> r.surface == Str(FallbackSurface(c.highway, c.tracktype))
  {
    if c.surface.IsNullish() then c.(surface := Str(FallbackSurface(c.highway, c.tracktype))) else c
  }

  /** A coordinate without a highway, or on a path, gets "other"; any highway but track and path gets "asphalt". */
  lemma FallbackForHighways(c: Coordinate)
    requires c.surface.IsNullish()
    ensures c.highway.IsNullish() || c.highway == Str("path") ==> AssociateSurfaceToHighway(c).surface == Str("other")
    ensures c.highway.Str? && c.highway != Str("path") && c.highway != Str("track") ==>
      AssociateSurfaceToHighway(c).surface == Str("asphalt")
  {
  }

  function Grade(n: int): Tag
    requires 1 <= n <= 5
  {
    Str(["grade1", "grade2", "grade3", "grade4", "grade5"][n - 1])
  }

  /**
   * The tracktype grades read as increasingly soft surfaces: along grade1 .. grade5 the fallback
   * surface's rolling resistance strictly grows and its friction strictly falls.
   */
  lemma TrackGradesSoften(n: int)
    requires 1 <= n < 5
    ensures SectionCrr(Str(FallbackSurface(Str("track"), Grade(n)))) < SectionCrr(Str(FallbackSurface(Str("track"), Grade(n + 1))))
    ensures Mu(Str(FallbackSurface(Str("track"), Grade(n)))) > Mu(Str(FallbackSurface(Str("track"), Grade(n + 1))))
  {
    TrackSurface(n);
    TrackSurface(n + 1);
  }

  /** Grade n of a track falls back to the surface listed in arm n + 3 of both tables. */
  lemma TrackSurface(n: int)
    requires 1 <= n <= 5
    ensures SectionCrr(Str(FallbackSurface(Str("track"), Grade(n)))) == CrrArms[n + 3].result
    ensures Mu(Str(FallbackSurface(Str("track"), Grade(n)))) == MuArms[n + 3].result
  {
    if n == 1 {
      assert FallbackSurface(Str("track"), Grade(1)) == "solid";
      SolidListed();
    } else if n == 2 {
      assert FallbackSurface(Str("track"), Grade(2)) == "mostly solid";
      MostlySolidListed();
    } else if n == 3 {
      assert FallbackSurface(Str("track"), Grade(3)) == "even mixture of hard and soft materials";
      MixtureListed();
    } else if n == 4 {
      assert FallbackSurface(Str("track"), Grade(4)) == "mostly soft";
      MostlySoftListed();
    } else {
      assert FallbackSurface(Str("track"), Grade(5)) == "soft";
      SoftListed();
    }
  }

  // The surfaces of the five track grades, each first listed in its own arm.

  lemma SolidListed()
    ensures SectionCrr(Str("solid")) == CrrArms[4].result && Mu(Str("solid")) == MuArms[4].result
  {
    ListedSurface(Str("solid"), 4);
  }

  lemma MostlySolidListed()
    ensures SectionCrr(Str("mostly solid")) == CrrArms[5].result && Mu(Str("mostly solid")) == MuArms[5].result
  {
    ListedSurface(Str("mostly solid"), 5);
  }

  lemma MixtureListed()
    ensures SectionCrr(Str("even mixture of hard and soft materials")) == CrrArms[6].result && Mu(Str("even mixture of hard and soft materials")) == MuArms[6].result
  {
    ListedSurface(Str("even mixture of hard and soft materials"), 6);
  }

  lemma MostlySoftListed()
    ensures SectionCrr(Str("mostly soft")) == CrrArms[7].result && Mu(Str("mostly soft")) == MuArms[7].result
  {
    ListedSurface(Str("mostly soft"), 7);
  }

  lemma SoftListed()
    ensures SectionCrr(Str("soft")) == CrrArms[8].result && Mu(Str("soft")) == MuArms[8].result
  {
    ListedSurface(Str("soft"), 8);
  }

  /** Every surface the fallback produces is a listed case, so none of them lands on the default by accident. */
  lemma FallbackSurfacesAreListed(highway: Tag, tracktype: Tag)
    ensures exists i :: 0 <= i < |SurfaceCases| && Case(Str(FallbackSurface(highway, tracktype))) in SurfaceCases[i]
  {
    var f := FallbackSurface(highway, tracktype);
    if f == "other" {
      assert Case(Str(f)) in SurfaceCases[9];
    } else if f == "asphalt" {
      assert Case(Str(f)) in SurfaceCases[3];
    } else if f == "solid" {
      assert Case(Str(f)) in SurfaceCases[4];
    } else if f == "mostly solid" {
      assert Case(Str(f)) in SurfaceCases[5];
    } else if f == "even mixture of hard and soft materials" {
      assert Case(Str(f)) in SurfaceCases[6];
    } else if f == "mostly soft" {
      assert Case(Str(f)) in SurfaceCases[7];
    } else {
      assert Case(Str(f)) in SurfaceCases[8];
    }
  }
}
