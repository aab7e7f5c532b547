/** The part of the density grid interface that the transport core relies on:
    the per-cell re-emission probabilities, cell initialisation, and the
    iterator over the cells of a grid. */
module DensityGrid {
  import opened Photons
  import opened Reals

  /** The recombination rates that set_reemission_probabilities evaluates at a
      temperature T with power-law fits (coefficient × (T/1e4)^exponent).
      The fits are not modelled: the rates are given values, positive for
      every positive T. */
  datatype RecombinationRates = RecombinationRates(
    alpha1H: real,     // 1.58e-13 (T/1e4)^-0.53
    alphaAagn: real,   // 4.18e-13 (T/1e4)^-0.7
    alpha1He: real,    // 1.54e-13 (T/1e4)^-0.486
    alphaE2tS: real,   // 2.1e-13  (T/1e4)^-0.381
    alphaE2sS: real,   // 2.06e-14 (T/1e4)^-0.451
    alphaE2sP: real)   // 4.17e-14 (T/1e4)^-0.695
  {
    predicate Positive() {
      alpha1H > 0.0 && alphaAagn > 0.0 && alpha1He > 0.0 &&
      alphaE2tS > 0.0 && alphaE2sS > 0.0 && alphaE2sP > 0.0
    }

    /** The four helium recombination channels, in the order in which reemit
        tests them. */
    function HeliumRates(): seq<real> {
      [alpha1He, alphaE2tS, alphaE2sS, alphaE2sP]
    }
  }

  /** The helium recombination rate as the source finally uses it: the fitted
      total is overwritten with the sum of the four channels. */
  function TotalHeliumRate(r: RecombinationRates): (total: real)
    requires r.Positive()
    ensures total > 0.0
  {
    r.alpha1He + r.alphaE2tS + r.alphaE2sS + r.alphaE2sP
  }

  /** pHion: the probability that a recombination to hydrogen emits an
      ionising photon. */
  function HydrogenIonisingProbability(r: RecombinationRates): (p: real)
    requires r.Positive()
    ensures p > 0.0 && p * r.alphaAagn == r.alpha1H
  {
    r.alpha1H / r.alphaAagn
  }

  /** pHe_em[0..3] as the source builds them: each threshold is the previous
      one plus the next channel's share of the total helium rate. */
  function HeEmissionThresholds(r: RecombinationRates): (p: seq<real>)
    requires r.Positive()
    ensures |p| == 4
  {
    var total := TotalHeliumRate(r);
    var p0 := r.alpha1He / total;
    var p1 := p0 + r.alphaE2tS / total;
    var p2 := p1 + r.alphaE2sS / total;
    var p3 := p2 + r.alphaE2sP / total;
    [p0, p1, p2, p3]
  }

  lemma AddShares(a: real, b: real, t: real)
    requires t > 0.0
    ensures a / t + b / t == (a + b) / t
  {
  }

  /** Each threshold is the share of the first k + 1 channels in the total. */
  lemma ThresholdsArePartialShares(r: RecombinationRates, k: nat)
    requires r.Positive() && k < 4
    ensures HeEmissionThresholds(r)[k] == Sum(r.HeliumRates()[..k + 1]) / TotalHeliumRate(r)
  {
    var h := r.HeliumRates();
    var t := TotalHeliumRate(r);
    var p := HeEmissionThresholds(r);
    var a, b, c, d := r.alpha1He, r.alphaE2tS, r.alphaE2sS, r.alphaE2sP;
    assert Sum(h[..1]) == a by { assert h[..1][..0] == []; }
    assert Sum(h[..2]) == a + b by { assert h[..2][..1] == h[..1]; }
    assert Sum(h[..3]) == a + b + c by { assert h[..3][..2] == h[..2]; }
    assert Sum(h[..4]) == a + b + c + d by { assert h[..4][..3] == h[..3]; }
    AddShares(a, b, t);
    AddShares(a + b, c, t);
    AddShares(a + b + c, d, t);
  }

  /** With all four rates positive the thresholds are positive and strictly
      increasing, and the last one is exactly 1: the helium branch of reemit
      never falls through to its final else. */
  lemma ThresholdsIncreaseToOne(r: RecombinationRates)
    requires r.Positive()
    ensures var p := HeEmissionThresholds(r);
      0.0 < p[0] < p[1] < p[2] < p[3] && p[3] == 1.0
  {
    var t := TotalHeliumRate(r);
    assert r.alpha1He / t > 0.0 && r.alphaE2tS / t > 0.0;
    assert r.alphaE2sS / t > 0.0 && r.alphaE2sP / t > 0.0;
    ThresholdsArePartialShares(r, 3);
    assert Sum(r.HeliumRates()[..4]) == t;
    assert t / t == 1.0;
  }

  /** The physical state of one grid cell, as far as the core reads and
      writes it.  The probabilities are derived from the temperature. */
  class DensityValues {
    var totalDensity: real
    var neutralFractionH: real
    var neutralFractionHe: real
    var temperature: real
    var heliumAbundance: real
    var pHion: real
    var pHeEm: seq<real>
    var meanIntensityH: real
    var meanIntensityHe: real

    ghost predicate Valid()
      reads this
    {
      |pHeEm| == 4
    }

    constructor ()
      ensures Valid()
    {
      totalDensity, neutralFractionH, neutralFractionHe := 0.0, 0.0, 0.0;
      temperature, heliumAbundance, pHion := 0.0, 0.0, 0.0;
      pHeEm := [0.0, 0.0, 0.0, 0.0];
      meanIntensityH, meanIntensityHe := 0.0, 0.0;
    }
  }

  /** The rectangular region that contains a grid. */
  datatype Box = Box(anchor: Vec3, sides: Vec3)

  /** The general interface of a density grid.  Grid geometry and the cell
      containers of the concrete grids are not part of this model. */
  class DensityGridInterface {
    const box: Box
    const periodic: (bool, bool, bool)

    constructor (box: Box, periodic: (bool, bool, bool))
      ensures this.box == box && this.periodic == periodic
    {
      this.box := box;
      this.periodic := periodic;
    }

    /** Writes the hydrogen probability and the four helium thresholds of the
        cell for the rates at its temperature, and nothing else. */
    method SetReemissionProbabilities(rates: RecombinationRates, cell: DensityValues)
      requires rates.Positive()
      modifies cell
      ensures cell.Valid()
      ensures cell.pHion == HydrogenIonisingProbability(rates)
      ensures cell.pHeEm == HeEmissionThresholds(rates)
      ensures cell.totalDensity == old(cell.totalDensity)
      ensures cell.neutralFractionH == old(cell.neutralFractionH)
      ensures cell.neutralFractionHe == old(cell.neutralFractionHe)
      ensures cell.temperature == old(cell.temperature)
      ensures cell.heliumAbundance == old(cell.heliumAbundance)
      ensures cell.meanIntensityH == old(cell.meanIntensityH)
      ensures cell.meanIntensityHe == old(cell.meanIntensityHe)
    {
      cell.pHion := rates.alpha1H / rates.alphaAagn;
      var alphaHe := rates.alpha1He + rates.alphaE2tS + rates.alphaE2sS + rates.alphaE2sP;
      cell.pHeEm := [0.0, 0.0, 0.0, 0.0];
      cell.pHeEm := cell.pHeEm[0 := rates.alpha1He / alphaHe];
      cell.pHeEm := cell.pHeEm[1 := cell.pHeEm[0] + rates.alphaE2tS / alphaHe];
      cell.pHeEm := cell.pHeEm[2 := cell.pHeEm[1] + rates.alphaE2sS / alphaHe];
      cell.pHeEm := cell.pHeEm[3 := cell.pHeEm[2] + rates.alphaE2sP / alphaHe];
    }

    /** Puts a cell in its initial state: almost fully ionised, at the initial
        temperature, with the re-emission probabilities of that temperature
        (whose rates are given). */
    method Initialize(initialTemperature: real, heliumAbundance: real,
                      rates: RecombinationRates, cell: DensityValues)
      requires rates.Positive()
      modifies cell
      ensures cell.Valid()
      ensures cell.neutralFractionH == 1.0e-6 && cell.neutralFractionHe == 1.0e-6
      ensures cell.temperature == initialTemperature
      ensures cell.heliumAbundance == heliumAbundance
      ensures cell.pHion == HydrogenIonisingProbability(rates)
      ensures cell.pHeEm == HeEmissionThresholds(rates)
      ensures cell.totalDensity == old(cell.totalDensity)
      ensures cell.meanIntensityH == old(cell.meanIntensityH)
      ensures cell.meanIntensityHe == old(cell.meanIntensityHe)
    {
      cell.neutralFractionH := 1.0e-6;
      cell.neutralFractionHe := 1.0e-6;
      cell.temperature := initialTemperature;
      cell.heliumAbundance := heliumAbundance;
      SetReemissionProbabilities(rates, cell);
    }
  }

  /** The range of an unsigned long index. */
  const ULongRange: int := 0x1_0000_0000_0000_0000
  newtype ULong = x: int | 0 <= x < ULongRange

  /** An iterator over the cells of a grid: a long cell index and a reference
      to the grid it belongs to. */
  class CellIterator {
    var longIndex: ULong
    const grid: DensityGridInterface

    constructor (longIndex: ULong, grid: DensityGridInterface)
      ensures this.longIndex == longIndex && this.grid == grid
    {
      this.longIndex := longIndex;
      this.grid := grid;
    }

    /** Pre-increment: the next cell of the same grid (unsigned arithmetic
        wraps around at the end of the index range). */
    method Increment()
      modifies this
      ensures old(longIndex) as int + 1 < ULongRange ==> longIndex as int == old(longIndex) as int + 1
      ensures old(longIndex) as int + 1 == ULongRange ==> longIndex == 0
      ensures longIndex != old(longIndex)
    {
      longIndex := ((longIndex as int + 1) % ULongRange) as ULong;
    }

    /** Two iterators are equal when they point to the same cell of the same
        grid object. */
    predicate Equals(it: CellIterator)
      reads this, it
      ensures Equals(it) <==> grid == it.grid && longIndex == it.longIndex
    {
      grid == it.grid && longIndex == it.longIndex
    }

    predicate NotEquals(it: CellIterator)
      reads this, it
      ensures NotEquals(it) <==> grid != it.grid || longIndex != it.longIndex
    {
      !Equals(it)
    }
  }

  /** Iterator equality is an equivalence relation. */
  lemma EqualsIsEquivalence(a: CellIterator, b: CellIterator, c: CellIterator)
    ensures a.Equals(a)
    ensures a.Equals(b) <==> b.Equals(a)
    ensures a.Equals(b) && b.Equals(c) ==> a.Equals(c)
    ensures a.NotEquals(b) <==> !a.Equals(b)
  {
  }
}
