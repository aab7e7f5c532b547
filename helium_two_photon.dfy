/** The helium two-photon continuum spectrum: a frequency grid between 1 and
    1.6 (in units of 13.6 eV), the cumulative distribution of the tabulated
    two-photon emission over that grid, and the integral under the tabulated
    curve. The 41-row table and the table indices that a bracketing search
    finds for each grid point are inputs. */
module HeliumTwoPhotonContinuum {

  /** Rows in the tabulated spectrum. */
  const TableSize: nat := 41

  /** The frequency grid runs from 1 to 1.6 (in units of 13.6 eV). */
  const MinFrequency: real := 1.0
  const MaxFrequency: real := 1.6

  /** The ionisation frequency of hydrogen and the frequency at which the
      tabulated variable y reaches 1 (both in Hz). */
  const HydrogenIonisationFrequency: real := 3.289e15
  const SpectrumEdgeFrequency: real := 4.98e15

  /** The factor each bin's increment is multiplied by in the prefix sum. */
  const IncrementScale: real := 1.0e25

  /** The tabulated spectrum: the value a at the points y. */
  datatype Table = Table(y: seq<real>, a: seq<real>)

  /** A table of the expected size whose points strictly increase, as the
      bracketing search and the interpolation need. */
  predicate Tabulated(t: Table) {
    |t.y| == TableSize && |t.a| == TableSize &&
    forall k :: 0 <= k < TableSize - 1 ==> t.y[k] < t.y[k + 1]
  }

  /** One bracketing index per grid point, each leaving room for its right
      neighbour. */
  predicate Located(n: nat, locate: seq<nat>) {
    |locate| == n && forall i :: 0 <= i < n ==> locate[i] < TableSize - 1
  }

  /** Grid point i of an evenly spaced grid of n points. */
  function GridPoint(n: nat, i: nat): real
    requires n >= 2
  {
    MinFrequency + (i as real) * (MaxFrequency - MinFrequency) / ((n - 1) as real)
  }

  function Frequencies(n: nat): (f: seq<real>)
    requires n >= 2
    ensures |f| == n && forall i :: 0 <= i < n ==> f[i] == GridPoint(n, i)
  {
    seq(n, i requires 0 <= i < n => GridPoint(n, i))
  }

  /** A grid frequency as the tabulated variable y. */
  function Scaled(f: real): real {
    f * HydrogenIonisationFrequency / SpectrumEdgeFrequency
  }

  /** Linear interpolation of the table between rows k and k + 1. */
  function Interpolate(t: Table, k: nat, y: real): real
    requires Tabulated(t) && k < TableSize - 1
  {
    var g := (y - t.y[k]) / (t.y[k + 1] - t.y[k]);
    t.a[k] + g * (t.a[k + 1] - t.a[k])
  }

  /** Each grid point is above the previous one. */
  predicate Increasing(f: seq<real>) {
    forall i :: 1 <= i < |f| ==> f[i - 1] < f[i]
  }

  /** The emission at grid point i of the grid f: interpolated below y = 1,
      zero above. */
  function Emission(t: Table, f: seq<real>, locate: seq<nat>, i: nat): real
    requires Tabulated(t) && Located(|f|, locate) && i < |f|
  {
    var y := Scaled(f[i]);
    if y < 1.0 then Interpolate(t, locate[i], y) else 0.0
  }

  /** The trapezoid increment of bin i, between grid points i - 1 and i. */
  function Increment(t: Table, f: seq<real>, locate: seq<nat>, i: nat): real
    requires Tabulated(t) && Located(|f|, locate) && 1 <= i < |f|
  {
    0.5 * (Emission(t, f, locate, i - 1) + Emission(t, f, locate, i)) * (f[i] - f[i - 1])
  }

  /** The distribution after the increment loop: 0 in its first entry and
      each bin's trapezoid increment in the others. */
  function Increments(t: Table, f: seq<real>, locate: seq<nat>): (c: seq<real>)
    requires Tabulated(t) && |f| > 0 && Located(|f|, locate)
    ensures |c| == |f| && c[0] == 0.0
    ensures forall i :: 1 <= i < |f| ==> c[i] == Increment(t, f, locate, i)
  {
    seq(|f|, i requires 0 <= i < |f| => if i == 0 then 0.0 else Increment(t, f, locate, i))
  }

  /** The prefix-sum loop's entry i: the first entry as it is, then each
      entry the previous one plus the scaled increment. */
  function ScaledPrefix(d: seq<real>, i: nat): real
    requires i < |d|
  {
    if i == 0 then d[0] else ScaledPrefix(d, i - 1) + d[i] * IncrementScale
  }

  /** The distribution after the prefix-sum loop. */
  function PrefixSums(d: seq<real>): (p: seq<real>)
    ensures |p| == |d|
    ensures forall i :: 0 <= i < |d| ==> p[i] == ScaledPrefix(d, i)
  {
    seq(|d|, i requires 0 <= i < |d| => ScaledPrefix(d, i))
  }

  /** The unnormalised total: the last prefix sum. */
  function Total(t: Table, f: seq<real>, locate: seq<nat>): real
    requires Tabulated(t) && |f| > 0 && Located(|f|, locate)
  {
    ScaledPrefix(Increments(t, f, locate), |f| - 1)
  }

  /** A distribution normalised in place by its last entry: every entry
      divided by the same total. */
  function Normalised(p: seq<real>): (q: seq<real>)
    requires |p| > 0 && p[|p| - 1] != 0.0
    ensures |q| == |p|
    ensures forall i :: 0 <= i < |p| ==> q[i] == p[i] / p[|p| - 1]
  {
    seq(|p|, i requires 0 <= i < |p| => p[i] / p[|p| - 1])
  }

  /** The sampling distribution: the prefix sums of the increments,
      normalised. */
  function Cdf(t: Table, f: seq<real>, locate: seq<nat>): (c: seq<real>)
    requires Tabulated(t) && |f| > 0 && Located(|f|, locate) && Total(t, f, locate) != 0.0
    ensures |c| == |f|
  {
    Normalised(PrefixSums(Increments(t, f, locate)))
  }

  class HeliumTwoPhotonContinuumSpectrum {
    const frequency: array<real>
    const cumulativeDistribution: array<real>

    /** Fills the frequency grid, writes each bin's increment into the
        distribution, turns the increments into a prefix sum in place and
        normalises that in place by its last entry. */
    constructor (t: Table, n: nat, locate: seq<nat>)
      requires Tabulated(t) && n >= 2 && Located(n, locate)
      requires Total(t, Frequencies(n), locate) != 0.0
      ensures fresh(frequency) && fresh(cumulativeDistribution)
      ensures frequency[..] == Frequencies(n)
      ensures cumulativeDistribution[..] == Cdf(t, Frequencies(n), locate)
    {
      var f := new real[n];
      var c := new real[n];
      FillGrid(f);
      FillIncrements(t, f, locate, c);
      Accumulate(c);
      Normalise(c);
      frequency := f;
      cumulativeDistribution := c;
    }

    /** The evenly spaced frequency grid. */
    static method FillGrid(f: array<real>)
      requires f.Length >= 2
      modifies f
      ensures f[..] == Frequencies(f.Length)
    {
      var n := f.Length;
      for i := 0 to n
        invariant forall j :: 0 <= j < i ==> f[j] == GridPoint(n, j)
      {
        f[i] := MinFrequency + (i as real) * (MaxFrequency - MinFrequency) / ((n - 1) as real);
      }
    }

    /** The increment loop: bin i gets the trapezoid of the emission at its
        two ends times its width. */
    static method FillIncrements(t: Table, f: array<real>, locate: seq<nat>, c: array<real>)
      requires Tabulated(t) && f.Length > 0 && Located(f.Length, locate) && c.Length == f.Length
      requires f != c
      modifies c
      ensures c[..] == Increments(t, f[..], locate)
    {
      ghost var grid := f[..];
      c[0] := 0.0;
      for i := 1 to c.Length
        invariant f[..] == grid
        invariant c[0] == 0.0
        invariant forall j :: 1 <= j < i ==> c[j] == Increment(t, grid, locate, j)
      {
        assert f[i - 1] == grid[i - 1] && f[i] == grid[i];
        var y1 := f[i - 1] * HydrogenIonisationFrequency / SpectrumEdgeFrequency;
        var a1 := 0.0;
        if y1 < 1.0 {
          var k := locate[i - 1];
          var g := (y1 - t.y[k]) / (t.y[k + 1] - t.y[k]);
          a1 := t.a[k] + g * (t.a[k + 1] - t.a[k]);
        }
        var a2 := 0.0;
        var y2 := f[i] * HydrogenIonisationFrequency / SpectrumEdgeFrequency;
        if y2 < 1.0 {
          var k := locate[i];
          var g := (y2 - t.y[k]) / (t.y[k + 1] - t.y[k]);
          a2 := t.a[k] + g * (t.a[k + 1] - t.a[k]);
        }
        assert a1 == Emission(t, grid, locate, i - 1);
        assert a2 == Emission(t, grid, locate, i);
        c[i] := 0.5 * (a1 + a2) * (f[i] - f[i - 1]);
      }
    }

    /** The prefix-sum loop, in place: each entry becomes the previous one
        plus its scaled increment. */
    static method Accumulate(c: array<real>)
      requires c.Length > 0
      modifies c
      ensures c[..] == PrefixSums(old(c[..]))
    {
      ghost var d := c[..];
      for i := 1 to c.Length
        invariant forall j :: 0 <= j < i ==> c[j] == ScaledPrefix(d, j)
        invariant forall j :: i <= j < c.Length ==> c[j] == d[j]
      {
        assert c[i - 1] == ScaledPrefix(d, i - 1) && c[i] == d[i];
        c[i] := c[i - 1] + c[i] * IncrementScale;
        assert c[i] == ScaledPrefix(d, i);
      }
    }

    /** The normalisation loop, in place: every entry is divided by the last
        one, which is itself divided last. */
    static method Normalise(c: array<real>)
      requires c.Length > 0 && c[c.Length - 1] != 0.0
      modifies c
      ensures c[..] == Normalised(old(c[..]))
    {
      ghost var p := c[..];
      var last := c.Length - 1;
      for i := 0 to c.Length
        invariant forall j :: 0 <= j < i ==> c[j] == p[j] / p[last]
        invariant forall j :: i <= j < c.Length ==> c[j] == p[j]
      {
        c[i] := c[i] / c[last];
      }
    }
  }

  /** The grid starts at 1 and ends at 1.6. */
  lemma GridEndpoints(n: nat)
    requires n >= 2
    ensures Frequencies(n)[0] == MinFrequency && Frequencies(n)[n - 1] == MaxFrequency
  {
    var m := (n - 1) as real;
    assert m * (MaxFrequency - MinFrequency) / m == MaxFrequency - MinFrequency;
  }

  /** Neighbouring grid points are one n - 1-th of the range apart. */
  lemma GridIsEvenlySpaced(n: nat, i: nat)
    requires n >= 2 && i + 1 < n
    ensures Frequencies(n)[i + 1] - Frequencies(n)[i] == (MaxFrequency - MinFrequency) / ((n - 1) as real)
  {
    var m := (n - 1) as real;
    var w := MaxFrequency - MinFrequency;
    assert ((i + 1) as real) * w == (i as real) * w + w;
    assert ((i as real) * w + w) / m == (i as real) * w / m + w / m;
  }

  /** The grid strictly increases. */
  lemma GridIncreases(n: nat)
    requires n >= 2
    ensures Increasing(Frequencies(n))
  {
    var m := (n - 1) as real;
    var w := MaxFrequency - MinFrequency;
    forall i | 1 <= i < n
      ensures Frequencies(n)[i - 1] < Frequencies(n)[i]
    {
      assert ((i - 1) as real) * w < (i as real) * w;
      DivisionKeepsOrder(((i - 1) as real) * w, (i as real) * w, m);
    }
  }

  lemma DivisionKeepsOrder(a: real, b: real, m: real)
    requires a < b && m > 0.0
    ensures a / m < b / m
  {
    assert b / m - a / m == (b - a) / m;
  }

  lemma DivisionKeepsWeakOrder(a: real, b: real, m: real)
    requires a <= b && m > 0.0
    ensures a / m <= b / m
  {
    assert b / m - a / m == (b - a) / m;
  }

  lemma FractionOfWhole(a: real, m: real)
    requires 0.0 <= a <= m && m > 0.0
    ensures 0.0 <= a / m <= 1.0
  {
    DivisionKeepsWeakOrder(a, m, m);
    assert m / m == 1.0;
  }

  /** The first grid point, 13.6 eV, lies inside the table's range, so its
      emission is interpolated; the last, 1.6 times that, lies past y = 1 and
      contributes nothing. */
  lemma EmissionCutOff(t: Table, n: nat, locate: seq<nat>)
    requires Tabulated(t) && n >= 2 && Located(n, locate)
    ensures Emission(t, Frequencies(n), locate, 0) == Interpolate(t, locate[0], Scaled(MinFrequency))
    ensures Emission(t, Frequencies(n), locate, n - 1) == 0.0
  {
    GridEndpoints(n);
    assert Scaled(MinFrequency) < 1.0;
    assert Scaled(MaxFrequency) > 1.0;
  }

  /** The cut-off at y = 1 is the frequency at which a grid point reaches the
      spectrum edge. */
  lemma CutOffIsSpectrumEdge(f: real)
    ensures Scaled(f) < 1.0 <==> f * HydrogenIonisationFrequency < SpectrumEdgeFrequency
  {
    var p := f * HydrogenIonisationFrequency;
    assert Scaled(f) == p / SpectrumEdgeFrequency;
    assert p / SpectrumEdgeFrequency * SpectrumEdgeFrequency == p;
  }

  /** Normalising keeps a leading 0 and ends at exactly 1. */
  lemma NormalisedEndpoints(p: seq<real>)
    requires |p| > 0 && p[|p| - 1] != 0.0 && p[0] == 0.0
    ensures Normalised(p)[0] == 0.0 && Normalised(p)[|p| - 1] == 1.0
  {
    var total := p[|p| - 1];
    assert Normalised(p)[|p| - 1] == total / total;
  }

  /** The distribution starts at 0 and, after normalisation, ends at exactly
      1. */
  lemma CdfEndpoints(t: Table, f: seq<real>, locate: seq<nat>)
    requires Tabulated(t) && |f| > 0 && Located(|f|, locate) && Total(t, f, locate) != 0.0
    ensures Cdf(t, f, locate)[0] == 0.0 && Cdf(t, f, locate)[|f| - 1] == 1.0
  {
    NormalisedEndpoints(PrefixSums(Increments(t, f, locate)));
  }

  /** Normalising a non-negative, non-decreasing distribution by its
      positive last entry keeps it non-decreasing and puts it between 0 and
      1. */
  lemma NormalisedKeepsOrder(p: seq<real>)
    requires |p| > 0 && p[|p| - 1] != 0.0
    requires forall i, j :: 0 <= i <= j < |p| ==> 0.0 <= p[i] <= p[j]
    ensures forall i, j :: 0 <= i <= j < |p| ==> Normalised(p)[i] <= Normalised(p)[j]
    ensures forall i :: 0 <= i < |p| ==> 0.0 <= Normalised(p)[i] <= 1.0
  {
    var total := p[|p| - 1];
    var q := Normalised(p);
    assert 0.0 <= p[0] <= total;
    forall i, j | 0 <= i <= j < |p|
      ensures q[i] <= q[j]
    {
      DivisionKeepsWeakOrder(p[i], p[j], total);
    }
    forall i | 0 <= i < |p|
      ensures 0.0 <= q[i] <= 1.0
    {
      FractionOfWhole(p[i], total);
    }
  }

  /** An interpolation between two non-negative values at a point inside
      their interval is non-negative. */
  lemma InterpolationIsNonNegative(t: Table, k: nat, y: real)
    requires Tabulated(t) && k < TableSize - 1
    requires t.y[k] <= y <= t.y[k + 1]
    requires t.a[k] >= 0.0 && t.a[k + 1] >= 0.0
    ensures Interpolate(t, k, y) >= 0.0
  {
    var d := t.y[k + 1] - t.y[k];
    var g := (y - t.y[k]) / d;
    assert g * d == y - t.y[k];
    assert 0.0 <= g <= 1.0;
    var p, q := t.a[k], t.a[k + 1];
    assert (1.0 - g) * p >= 0.0;
    assert g * q >= 0.0;
    assert p + g * (q - p) == (1.0 - g) * p + g * q;
  }

  /** Non-negative tabulated values whose indices bracket every grid point
      below y = 1. */
  predicate Emitting(t: Table, f: seq<real>, locate: seq<nat>)
    requires Tabulated(t) && Located(|f|, locate)
  {
    (forall k :: 0 <= k < TableSize ==> t.a[k] >= 0.0) &&
    forall i :: 0 <= i < |f| && Scaled(f[i]) < 1.0 ==>
      t.y[locate[i]] <= Scaled(f[i]) <= t.y[locate[i] + 1]
  }

  lemma IncrementIsNonNegative(t: Table, f: seq<real>, locate: seq<nat>, i: nat)
    requires Tabulated(t) && Located(|f|, locate) && Emitting(t, f, locate) && Increasing(f)
    requires 1 <= i < |f|
    ensures Increment(t, f, locate, i) >= 0.0
  {
    var e1 := Emission(t, f, locate, i - 1);
    var e2 := Emission(t, f, locate, i);
    if Scaled(f[i - 1]) < 1.0 {
      InterpolationIsNonNegative(t, locate[i - 1], Scaled(f[i - 1]));
    }
    if Scaled(f[i]) < 1.0 {
      InterpolationIsNonNegative(t, locate[i], Scaled(f[i]));
    }
    var w := f[i] - f[i - 1];
    assert 0.5 * (e1 + e2) >= 0.0 && w > 0.0;
    assert 0.5 * (e1 + e2) * w >= 0.0;
  }

  /** Prefix sums of non-negative entries are non-negative and never
      decrease. */
  lemma {:induction false} PrefixSumIsMonotone(d: seq<real>, i: nat, j: nat)
    requires forall k :: 0 <= k < |d| ==> d[k] >= 0.0
    requires i <= j < |d|
    ensures 0.0 <= ScaledPrefix(d, i) <= ScaledPrefix(d, j)
    decreases j
  {
    if j > 0 {
      if i == j {
        PrefixSumIsMonotone(d, i - 1, j - 1);
      } else {
        PrefixSumIsMonotone(d, i, j - 1);
      }
      assert d[j] * IncrementScale >= 0.0;
    }
  }

  /** With non-negative tabulated values on an increasing grid the
      normalised distribution never decreases and stays between 0 and 1. */
  lemma CdfIsNonDecreasing(t: Table, f: seq<real>, locate: seq<nat>)
    requires Tabulated(t) && |f| > 0 && Located(|f|, locate) && Emitting(t, f, locate) && Increasing(f)
    requires Total(t, f, locate) != 0.0
    ensures forall i, j :: 0 <= i <= j < |f| ==> Cdf(t, f, locate)[i] <= Cdf(t, f, locate)[j]
    ensures forall i :: 0 <= i < |f| ==> 0.0 <= Cdf(t, f, locate)[i] <= 1.0
  {
    var d := Increments(t, f, locate);
    forall k | 1 <= k < |f|
      ensures d[k] >= 0.0
    {
      IncrementIsNonNegative(t, f, locate, k);
    }
    var p := PrefixSums(d);
    forall i, j | 0 <= i <= j < |f|
      ensures 0.0 <= p[i] <= p[j]
    {
      PrefixSumIsMonotone(d, i, j);
    }
    NormalisedKeepsOrder(p);
  }

  /** The y value of the hydrogen ionisation edge. */
  const IonisationThreshold: real := HydrogenIonisationFrequency / SpectrumEdgeFrequency

  /** The trapezoid rule on the table segment between rows i - 1 and i. */
  function Trapezoid(t: Table, i: nat): real
    requires |t.y| == TableSize && |t.a| == TableSize && 1 <= i < TableSize
  {
    0.5 * (t.a[i - 1] + t.a[i]) * (t.y[i] - t.y[i - 1])
  }

  /** What each segment adds to the integral: the trapezoid when it lies
      above the threshold, the rectangle from the threshold to its right end
      when it straddles it, nothing below. */
  function Segment(t: Table, i: nat): real
    requires |t.y| == TableSize && |t.a| == TableSize && 1 <= i < TableSize
  {
    if t.y[i - 1] > IonisationThreshold then Trapezoid(t, i)
    else if t.y[i] > IonisationThreshold then t.a[i] * (t.y[i] - IonisationThreshold)
    else 0.0
  }

  /** The sum of the first k segments. */
  function Accumulated(t: Table, k: nat): real
    requires |t.y| == TableSize && |t.a| == TableSize && k < TableSize
  {
    if k == 0 then 0.0 else Accumulated(t, k - 1) + Segment(t, k)
  }

  /** The trapezoid rule over rows lo to hi. */
  function Trapezoids(t: Table, lo: nat, hi: nat): real
    requires |t.y| == TableSize && |t.a| == TableSize && hi < TableSize
    decreases hi
  {
    if hi <= lo then 0.0 else Trapezoids(t, lo, hi - 1) + Trapezoid(t, hi)
  }

  /** The integral in frequency space: the segments' sum rescaled from y. */
  function Integral(t: Table): (r: real)
    requires |t.y| == TableSize && |t.a| == TableSize
    ensures Tabulated(t) && (forall j :: 0 <= j < TableSize ==> t.a[j] >= 0.0) ==> r >= 0.0
  {
    var v := Accumulated(t, TableSize - 1) * SpectrumEdgeFrequency / HydrogenIonisationFrequency;
    if Tabulated(t) && (forall j :: 0 <= j < TableSize ==> t.a[j] >= 0.0) then
      (AccumulatedIsNonNegative(t, TableSize - 1); v)
    else
      v
  }

  /** get_integral: the integral under the tabulated curve above the
      hydrogen ionisation edge. */
  method GetIntegral(t: Table) returns (integral: real)
    requires |t.y| == TableSize && |t.a| == TableSize
    ensures integral == Integral(t)
  {
    integral := 0.0;
    for i := 1 to TableSize
      invariant integral == Accumulated(t, i - 1)
    {
      if t.y[i - 1] > HydrogenIonisationFrequency / SpectrumEdgeFrequency {
        integral := integral + 0.5 * (t.a[i - 1] + t.a[i]) * (t.y[i] - t.y[i - 1]);
      } else {
        if t.y[i] > HydrogenIonisationFrequency / SpectrumEdgeFrequency {
          integral := integral + t.a[i] * (t.y[i] - HydrogenIonisationFrequency / SpectrumEdgeFrequency);
        }
      }
    }
    integral := integral * SpectrumEdgeFrequency / HydrogenIonisationFrequency;
  }

  /** Rows of an increasing table are ordered. */
  lemma {:induction false} TableIsOrdered(t: Table, i: nat, j: nat)
    requires Tabulated(t) && i <= j < TableSize
    ensures t.y[i] <= t.y[j]
    decreases j
  {
    if i < j {
      TableIsOrdered(t, i, j - 1);
    }
  }

  /** Segments wholly below the threshold add nothing. */
  lemma {:induction false} BelowThresholdAddsNothing(t: Table, k: nat)
    requires Tabulated(t) && k < TableSize && t.y[k] <= IonisationThreshold
    ensures Accumulated(t, k) == 0.0
    decreases k
  {
    if k > 0 {
      TableIsOrdered(t, k - 1, k);
      BelowThresholdAddsNothing(t, k - 1);
    }
  }

  /** Past the straddling segment s, every segment adds its trapezoid. */
  lemma {:induction false} AboveThresholdAddsTrapezoids(t: Table, s: nat, k: nat)
    requires Tabulated(t) && 1 <= s <= k < TableSize
    requires t.y[s - 1] <= IonisationThreshold < t.y[s]
    ensures Accumulated(t, k) == t.a[s] * (t.y[s] - IonisationThreshold) + Trapezoids(t, s, k)
    decreases k
  {
    if k == s {
      BelowThresholdAddsNothing(t, s - 1);
    } else {
      AboveThresholdAddsTrapezoids(t, s, k - 1);
      TableIsOrdered(t, s, k - 1);
    }
  }

  /** The piecewise integral of an increasing table: nothing below the
      threshold, the rectangle on the straddling segment s, and the trapezoid
      rule above it. */
  lemma IntegralStraddlingThreshold(t: Table, s: nat)
    requires Tabulated(t) && 1 <= s < TableSize
    requires t.y[s - 1] <= IonisationThreshold < t.y[s]
    ensures Integral(t) == (t.a[s] * (t.y[s] - IonisationThreshold) + Trapezoids(t, s, TableSize - 1)) *
      SpectrumEdgeFrequency / HydrogenIonisationFrequency
  {
    AboveThresholdAddsTrapezoids(t, s, TableSize - 1);
  }

  /** A table wholly above the threshold integrates by the trapezoid rule. */
  lemma {:induction false} IntegralAboveThreshold(t: Table, k: nat)
    requires Tabulated(t) && k < TableSize && t.y[0] > IonisationThreshold
    ensures Accumulated(t, k) == Trapezoids(t, 0, k)
    decreases k
  {
    if k > 0 {
      IntegralAboveThreshold(t, k - 1);
      TableIsOrdered(t, 0, k - 1);
    }
  }

  /** A table wholly below the threshold integrates to nothing. */
  lemma IntegralBelowThreshold(t: Table)
    requires Tabulated(t) && t.y[TableSize - 1] <= IonisationThreshold
    ensures Integral(t) == 0.0
  {
    BelowThresholdAddsNothing(t, TableSize - 1);
  }

  /** With non-negative tabulated values on an increasing table every
      partial sum of segments is non-negative. */
  lemma {:induction false} AccumulatedIsNonNegative(t: Table, k: nat)
    requires Tabulated(t) && k < TableSize
    requires forall j :: 0 <= j < TableSize ==> t.a[j] >= 0.0
    ensures Accumulated(t, k) >= 0.0
    decreases k
  {
    if k > 0 {
      AccumulatedIsNonNegative(t, k - 1);
      var d := t.y[k] - t.y[k - 1];
      assert d > 0.0;
      assert 0.5 * (t.a[k - 1] + t.a[k]) * d >= 0.0;
      assert t.a[k] * (t.y[k] - IonisationThreshold) >= 0.0 || t.y[k] <= IonisationThreshold;
    }
  }
}
