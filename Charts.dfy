/**
 * The arithmetic behind the charts: the paired descending selection sort used to order histogram
 * bars, the cumulative rows of the energy chart, the distance axis of the elevation chart and the
 * percentage shares of the energy components.
 */
module Charts {
  import opened Js
  import opened Geo
  import Units
  import Energy

  /** The (name, value) pairs the two parallel arrays describe. */
  ghost function Pairs(names: seq<string>, values: seq<real>): seq<(string, real)>
    requires |names| == |values|
  {
    seq(|values|, k requires 0 <= k < |values| => (names[k], values[k]))
  }

  ghost predicate NonIncreasing(s: seq<real>) {
    forall a, b :: 0 <= a < b < |s| ==> s[a] >= s[b]
  }

  /** Exchanging two positions keeps a sequence's elements. */
  lemma SwapKeepsMultiset<T>(s: seq<T>, i: int, j: int)
    requires 0 <= i < |s| && 0 <= j < |s|
    ensures multiset(s[i := s[j]][j := s[i]]) == multiset(s)
  {
    if i != j {
      var t := s[i := s[j]];
      assert multiset(t) == multiset(s) - multiset{s[i]} + multiset{s[j]};
      assert multiset(t[j := s[i]]) == multiset(t) - multiset{t[j]} + multiset{s[i]};
    }
  }

  /**
   * The inner loop of selectionSortNamesValuesDesc: the first index, from i on, holding the largest
   * value (a later index replaces it only when strictly greater).
   */
  method MaxIndexFrom(values: array<real>, i: int) returns (maxIdx: int)
    requires 0 <= i < values.Length
    ensures i <= maxIdx < values.Length
    ensures forall k :: i <= k < values.Length ==> values[k] <= values[maxIdx]
    ensures forall k :: i <= k < maxIdx ==> values[k] < values[maxIdx]
  {
    maxIdx := i;
    var j := i + 1;
    while j < values.Length
      invariant i <= maxIdx < j <= values.Length
      invariant forall k :: i <= k < j ==> values[k] <= values[maxIdx]
      invariant forall k :: i <= k < maxIdx ==> values[k] < values[maxIdx]
    {
      if values[j] > values[maxIdx] {
        maxIdx := j;
      }
      j := j + 1;
    }
  }

  /** The two exchanges of one outer iteration of selectionSortNamesValuesDesc, done on both arrays. */
  method SwapBoth(names: array<string>, values: array<real>, i: int, j: int)
    requires names.Length == values.Length && 0 <= i < values.Length && 0 <= j < values.Length
    modifies names, values
    ensures values[..] == old(values[..])[i := old(values[j])][j := old(values[i])]
    ensures names[..] == old(names[..])[i := old(names[j])][j := old(names[i])]
    ensures multiset(Pairs(names[..], values[..])) == multiset(Pairs(old(names[..]), old(values[..])))
  {
    ghost var before := Pairs(names[..], values[..]);
    var temp := values[i];
    values[i] := values[j];
    values[j] := temp;
    var tempName := names[i];
    names[i] := names[j];
    names[j] := tempName;
    assert Pairs(names[..], values[..]) == before[i := before[j]][j := before[i]];
    SwapKeepsMultiset(before, i, j);
  }

  /**
   * selectionSortNamesValuesDesc: the values end non-increasing, every swap moves a name with its
   * value so the pairs are a permutation of the original ones, and an input already in
   * non-increasing order is left untouched.
   */
  method SelectionSortNamesValuesDesc(names: array<string>, values: array<real>)
    requires names.Length == values.Length
    modifies names, values
    ensures NonIncreasing(values[..])
    ensures multiset(Pairs(names[..], values[..])) == multiset(Pairs(old(names[..]), old(values[..])))
    ensures NonIncreasing(old(values[..])) ==> values[..] == old(values[..]) && names[..] == old(names[..])
  {
    var i := 0;
    while i < values.Length
      invariant 0 <= i <= values.Length
      invariant forall a, b :: 0 <= a < i && a < b < values.Length ==> values[a] >= values[b]
      invariant multiset(Pairs(names[..], values[..])) == multiset(Pairs(old(names[..]), old(values[..])))
      invariant NonIncreasing(old(values[..])) ==> values[..] == old(values[..]) && names[..] == old(names[..])
    {
      var minIdx := MaxIndexFrom(values, i);
      if NonIncreasing(old(values[..])) {
        assert values[i] >= values[minIdx];
      }
      SwapBoth(names, values, i, minIdx);
      i := i + 1;
    }
  }

  /** Each prefix of a route with non-negative distances is no longer than a longer prefix. */
  lemma {:induction false} PrefixTotalsGrow(secs: seq<Section>, i: int, j: int)
    requires 0 <= i <= j <= |secs|
    requires forall k :: 0 <= k < |secs| ==> secs[k].distance >= 0.0 && secs[k].E >= 0.0
    ensures TotalDistance(secs[..i]) <= TotalDistance(secs[..j])
    ensures TotalStoredEnergy(secs[..i]) <= TotalStoredEnergy(secs[..j])
  {
    if i < j {
      PrefixTotalsGrow(secs, i, j - 1);
      assert secs[..j][..j - 1] == secs[..j - 1];
    }
  }

  /**
   * plotKcal's rows: (0, 0) first, then after each section the distance so far in kilometres and the
   * stored energy so far in kilocalories; with non-negative distances and energies they never
   * decrease.
   */
  method KcalRows(secs: seq<Section>) returns (rows: seq<(real, real)>)
    ensures |rows| == |secs| + 1 && rows[0] == (0.0, 0.0)
    ensures forall i :: 0 <= i <= |secs| ==>
      rows[i] == (TotalDistance(secs[..i]) / 1000.0, Units.JouleToKcal(TotalStoredEnergy(secs[..i])))
    ensures (forall k :: 0 <= k < |secs| ==> secs[k].distance >= 0.0 && secs[k].E >= 0.0) ==>
      forall i, j :: 0 <= i <= j <= |secs| ==> rows[i].0 <= rows[j].0 && rows[i].1 <= rows[j].1
  {
    var cumulativeDistanceKm := 0.0;
    var cumulativeEnergyKcal := 0.0;
    rows := [(0.0, 0.0)];
    var i := 0;
    while i < |secs|
      invariant 0 <= i <= |secs| && |rows| == i + 1
      invariant cumulativeDistanceKm == TotalDistance(secs[..i]) / 1000.0
      invariant cumulativeEnergyKcal == Units.JouleToKcal(TotalStoredEnergy(secs[..i]))
      invariant forall k :: 0 <= k <= i ==>
        rows[k] == (TotalDistance(secs[..k]) / 1000.0, Units.JouleToKcal(TotalStoredEnergy(secs[..k])))
    {
      assert secs[..i + 1][..i] == secs[..i];
      cumulativeDistanceKm := cumulativeDistanceKm + secs[i].distance / 1000.0;
      cumulativeEnergyKcal := cumulativeEnergyKcal + Units.JouleToKcal(secs[i].E);
      rows := rows + [(cumulativeDistanceKm, cumulativeEnergyKcal)];
      i := i + 1;
    }
    if forall k :: 0 <= k < |secs| ==> secs[k].distance >= 0.0 && secs[k].E >= 0.0 {
      forall i, j | 0 <= i <= j <= |secs| ensures rows[i].0 <= rows[j].0 && rows[i].1 <= rows[j].1 {
        PrefixTotalsGrow(secs, i, j);
      }
    }
  }

  /** The position of sample k of n along a route of the given length, in kilometres. */
  function AxisPoint(distance: real, k: int, n: int): real
    requires n >= 2
  {
    distance * k as real / (n - 1) as real / 1000.0
  }

  /**
   * plotElevation's distance axis: with at least two samples they start at 0 km, end at the route's
   * length in km and are evenly spaced; a single sample sits at 0/0, which is NaN.
   */
  method ElevationAxis(distance: real, n: nat) returns (xs: seq<Number>)
    ensures |xs| == n
    ensures n == 1 ==> xs == [NaN]
    ensures n >= 2 ==> forall i :: 0 <= i < n ==> xs[i].Finite?
    ensures n >= 2 ==> xs[0] == Finite(0.0) && xs[n - 1] == Finite(distance / 1000.0)
    ensures n >= 2 ==> forall i :: 0 <= i < n - 1 ==>
      xs[i + 1].value - xs[i].value == distance / (n - 1) as real / 1000.0
  {
    xs := [];
    var i := 0;
    while i < n
      invariant 0 <= i <= n && |xs| == i
      invariant n == 1 ==> xs == seq(i, k => NaN)
      invariant n >= 2 ==> forall k :: 0 <= k < i ==> xs[k] == Finite(AxisPoint(distance, k, n))
    {
      var x := if n == 1 then NaN else Finite(AxisPoint(distance, i, n));
      xs := xs + [x];
      i := i + 1;
    }
    if n >= 2 {
      AxisEnds(distance, n);
      forall i | 0 <= i < n - 1
        ensures xs[i + 1].value - xs[i].value == distance / (n - 1) as real / 1000.0
      {
        AxisStep(distance, i, n);
      }
    }
  }

  /** The axis starts at 0 km and ends at the route's length in km. */
  lemma AxisEnds(distance: real, n: int)
    requires n >= 2
    ensures AxisPoint(distance, 0, n) == 0.0
    ensures AxisPoint(distance, n - 1, n) == distance / 1000.0
  {
    var d := (n - 1) as real;
    assert distance * d / d == distance;
  }

  /** Consecutive axis points are one route length over n − 1 apart. */
  lemma AxisStep(distance: real, i: int, n: int)
    requires n >= 2
    ensures AxisPoint(distance, i + 1, n) - AxisPoint(distance, i, n) == distance / (n - 1) as real / 1000.0
  {
    var d := (n - 1) as real;
    assert distance * (i + 1) as real == distance * i as real + distance;
    SplitQuotient(distance * i as real, distance, d);
  }

  /** Dividing a sum splits into the quotients of its parts. */
  lemma SplitQuotient(a: real, b: real, d: real)
    requires d > 0.0
    ensures (a + b) / d / 1000.0 - a / d / 1000.0 == b / d / 1000.0
  {
    assert (a + b) / d == a / d + b / d;
  }

  /** The four bars of plotE, in percent of the total absolute energy. */
  datatype EnergyShares = EnergyShares(ed: Number, ea: Number, es: Number, er: Number)

  /** `100 * x / absoluteE` as a double: NaN for 0 / 0. */
  function Percent(x: real, absoluteE: real): (p: Number)
    requires absoluteE == 0.0 ==> x == 0.0
    ensures absoluteE == 0.0 <==> p == NaN
    ensures p.Finite? ==> p.value * absoluteE == 100.0 * x
  {
    if absoluteE == 0.0 then NaN else Finite(100.0 * x / absoluteE)
  }

  /** plotE's shares: each component over the total absolute energy, in percent; all NaN when every component is zero. */
  function Shares(energy: Energy.Totals): (r: EnergyShares)
    ensures var absoluteE := Abs(energy.Ed) + Abs(energy.Ea) + Abs(energy.Es) + Abs(energy.Er);
      (absoluteE == 0.0 <==> r == EnergyShares(NaN, NaN, NaN, NaN)) &&
      (absoluteE != 0.0 ==> r.ed.Finite? && r.ea.Finite? && r.es.Finite? && r.er.Finite?)
  {
    var absoluteE := Abs(energy.Ed) + Abs(energy.Ea) + Abs(energy.Es) + Abs(energy.Er);
    EnergyShares(Percent(energy.Ed, absoluteE), Percent(energy.Ea, absoluteE),
                 Percent(energy.Es, absoluteE), Percent(energy.Er, absoluteE))
  }

  /**
   * When some component is non-zero the four percentages have the signs of their components and
   * their absolute values add up to 100.
   */
  lemma SharesAddUp(energy: Energy.Totals)
    requires Abs(energy.Ed) + Abs(energy.Ea) + Abs(energy.Es) + Abs(energy.Er) != 0.0
    ensures var r := Shares(energy);
      Abs(r.ed.value) + Abs(r.ea.value) + Abs(r.es.value) + Abs(r.er.value) == 100.0 &&
      (r.ed.value >= 0.0 <==> energy.Ed >= 0.0) && (r.ea.value >= 0.0 <==> energy.Ea >= 0.0) &&
      (r.es.value >= 0.0 <==> energy.Es >= 0.0) && (r.er.value >= 0.0 <==> energy.Er >= 0.0)
  {
    var absoluteE := Abs(energy.Ed) + Abs(energy.Ea) + Abs(energy.Es) + Abs(energy.Er);
    FourShares(energy.Ed, energy.Ea, energy.Es, energy.Er, absoluteE);
  }

  lemma FourShares(a: real, b: real, c: real, d: real, absoluteE: real)
    requires absoluteE == Abs(a) + Abs(b) + Abs(c) + Abs(d) && absoluteE != 0.0
    ensures Abs(100.0 * a / absoluteE) + Abs(100.0 * b / absoluteE) + Abs(100.0 * c / absoluteE) + Abs(100.0 * d / absoluteE) == 100.0
    ensures 100.0 * a / absoluteE >= 0.0 <==> a >= 0.0
    ensures 100.0 * b / absoluteE >= 0.0 <==> b >= 0.0
    ensures 100.0 * c / absoluteE >= 0.0 <==> c >= 0.0
    ensures 100.0 * d / absoluteE >= 0.0 <==> d >= 0.0
  {
    var q := 100.0 / absoluteE;
    ScaledShare(a, absoluteE, q);
    ScaledShare(b, absoluteE, q);
    ScaledShare(c, absoluteE, q);
    ScaledShare(d, absoluteE, q);
    calc {
      Abs(100.0 * a / absoluteE) + Abs(100.0 * b / absoluteE) + Abs(100.0 * c / absoluteE) + Abs(100.0 * d / absoluteE);
      q * Abs(a) + q * Abs(b) + q * Abs(c) + q * Abs(d);
      { Distribute(q, Abs(a), Abs(b), Abs(c), Abs(d)); }
      q * absoluteE;
      { QuotientTimesDivisor(absoluteE); }
      100.0;
    }
  }

  lemma QuotientTimesDivisor(t: real)
    requires t > 0.0
    ensures 100.0 / t * t == 100.0
  {
  }

  lemma Distribute(q: real, a: real, b: real, c: real, d: real)
    ensures q * a + q * b + q * c + q * d == q * (a + b + c + d)
  {
  }

  /** A share is the component scaled by q = 100 / absoluteE, so its absolute value scales the component's and keeps its sign. */
  lemma ScaledShare(x: real, absoluteE: real, q: real)
    requires absoluteE > 0.0 && q == 100.0 / absoluteE
    ensures 100.0 * x / absoluteE == q * x
    ensures Abs(100.0 * x / absoluteE) == q * Abs(x)
    ensures 100.0 * x / absoluteE >= 0.0 <==> x >= 0.0
  {
    assert q > 0.0;
  }
}
