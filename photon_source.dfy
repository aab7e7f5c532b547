/** The photon source of the Monte Carlo transport loop: it turns the discrete
    and continuous source distributions into photon packets, splits the photon
    budget of an iteration between them, and re-emits absorbed photons.
    Random draws and sampled spectra are inputs of the operations. */
module PhotonSources {
  import opened Wrappers
  import opened Reals
  import opened Photons
  import opened DensityGrid

  /** One discrete source: its position and its share of the luminosity. */
  datatype SourceEntry = SourceEntry(position: Vec3, weight: real)

  /** The discrete source distribution as the constructor reads it. */
  datatype Distribution = Distribution(sources: seq<SourceEntry>, totalLuminosity: real)

  /** The continuous source: its luminosity is its total surface area times
      the total flux of its spectrum. */
  datatype ContinuousSource = ContinuousSource(totalSurfaceArea: real, spectrumTotalFlux: real)

  /** The fatal configuration error of the constructor. */
  datatype ConfigError = WeightsDoNotSumToOne(sum: real)

  /** Discrete source weights must sum to 1 within this tolerance. */
  const NormalisationTolerance: real := 1.0e-9

  /** The share of the photon budget given to the discrete sources when both
      kinds of source shine. */
  const DiscreteFraction: real := 0.5

  /** Minimum number of photons per discrete source, and for the continuous
      source. */
  const MinPhotonsPerDiscreteSource: nat := 10
  const MinContinuousPhotons: nat := 100

  /** The frequency of the 19.8 eV helium line photon (in Hz). */
  const HeliumLineFrequency: real := 4.788e15

  /** The probability that a helium two-photon decay yields an ionising
      photon. */
  const TwoPhotonIonisingFraction: real := 0.56

  function Weights(sources: seq<SourceEntry>): (w: seq<real>)
    ensures |w| == |sources|
    ensures forall i :: 0 <= i < |sources| ==> w[i] == sources[i].weight
  {
    seq(|sources|, i requires 0 <= i < |sources| => sources[i].weight)
  }

  function Positions(sources: seq<SourceEntry>): (p: seq<Vec3>)
    ensures |p| == |sources|
    ensures forall i :: 0 <= i < |sources| ==> p[i] == sources[i].position
  {
    seq(|sources|, i requires 0 <= i < |sources| => sources[i].position)
  }

  /** The constructor's cumulative-probability loop and its normalisation
      check: entry i is the sum of the first i + 1 weights, the construction
      fails when the total is further than the tolerance from 1, and
      otherwise the last entry is set to exactly 1. */
  method CumulativeProbabilities(weights: seq<real>) returns (r: Result<seq<real>, ConfigError>)
    requires |weights| > 0
    ensures r.Failure? <==> Abs(Sum(weights) - 1.0) > NormalisationTolerance
    ensures r.Failure? ==> r.error == WeightsDoNotSumToOne(Sum(weights))
    ensures r.Success? ==> |r.value| == |weights| && r.value[|weights| - 1] == 1.0
    ensures r.Success? ==> forall i :: 0 <= i < |weights| - 1 ==> r.value[i] == Sum(weights[..i + 1])
  {
    var probabilities := seq(|weights|, _ => 0.0);
    for i := 0 to |weights|
      invariant |probabilities| == |weights|
      invariant forall j :: 0 <= j < i ==> probabilities[j] == Sum(weights[..j + 1])
    {
      SumOfLongerPrefix(weights, i);
      if i > 0 {
        probabilities := probabilities[i := probabilities[i - 1] + weights[i]];
      } else {
        assert weights[..0] == [];
        probabilities := probabilities[i := weights[i]];
      }
    }
    var last := |weights| - 1;
    assert weights[..last + 1] == weights;
    if Abs(probabilities[last] - 1.0) > NormalisationTolerance {
      return Failure(WeightsDoNotSumToOne(probabilities[last]));
    }
    probabilities := probabilities[last := 1.0];
    return Success(probabilities);
  }

  /** The photon counts of both kinds of source. */
  datatype Budget = Budget(discrete: nat, continuous: nat)

  /** The discrete share of the budget, truncated, is half the budget rounded
      down. */
  lemma HalfOfBudget(n: nat)
    ensures (DiscreteFraction * n as real).Floor == n / 2
  {
    var h := n / 2;
    assert n == 2 * h || n == 2 * h + 1;
    assert h as real <= DiscreteFraction * n as real < h as real + 1.0;
  }

  /** Step 1 of set_number_of_photons: the split of the requested number of
      photons.  A kind whose luminosity plays no part keeps its previous
      count. */
  function SplitBudget(n: nat, discreteLuminosity: real, continuousLuminosity: real,
                       previous: Budget): (b: Budget)
    ensures discreteLuminosity > 0.0 && continuousLuminosity > 0.0 ==>
      b.discrete == n / 2 && b.discrete + b.continuous == n
    ensures discreteLuminosity > 0.0 && continuousLuminosity <= 0.0 ==>
      b == Budget(n, previous.continuous)
    ensures discreteLuminosity <= 0.0 ==> b == Budget(previous.discrete, n)
  {
    if discreteLuminosity > 0.0 && continuousLuminosity > 0.0 then
      // DiscreteFraction × n, truncated to an unsigned integer
      var discrete := (DiscreteFraction * n as real).Floor;
      HalfOfBudget(n);
      Budget(discrete, n - discrete)
    else if discreteLuminosity > 0.0 then
      Budget(n, previous.continuous)
    else
      Budget(previous.discrete, n)
  }

  /** Step 2 of set_number_of_photons: positive counts are raised to their
      minimum numbers; a zero count stays zero. */
  function RaiseToFloors(b: Budget, numberOfDiscreteSources: nat): (r: Budget)
    ensures b.discrete > 0 ==>
      r.discrete >= MinPhotonsPerDiscreteSource * numberOfDiscreteSources && r.discrete >= b.discrete
    ensures b.continuous > 0 ==> r.continuous >= MinContinuousPhotons && r.continuous >= b.continuous
    ensures b.discrete == 0 ==> r.discrete == 0
    ensures b.continuous == 0 ==> r.continuous == 0
    ensures r.discrete > b.discrete ==> r.discrete == MinPhotonsPerDiscreteSource * numberOfDiscreteSources
    ensures r.continuous > b.continuous ==> r.continuous == MinContinuousPhotons
  {
    var discrete :=
      if b.discrete > 0 && b.discrete < MinPhotonsPerDiscreteSource * numberOfDiscreteSources
      then MinPhotonsPerDiscreteSource * numberOfDiscreteSources else b.discrete;
    var continuous :=
      if b.continuous > 0 && b.continuous < MinContinuousPhotons
      then MinContinuousPhotons else b.continuous;
    Budget(discrete, continuous)
  }

  /** When both kinds shine and the requested budget already meets both
      floors, the budget is used exactly: nothing is lost to rounding. */
  lemma BudgetIsExactAboveFloors(n: nat, discreteLuminosity: real, continuousLuminosity: real,
                                 previous: Budget, numberOfDiscreteSources: nat)
    requires discreteLuminosity > 0.0 && continuousLuminosity > 0.0
    requires n / 2 >= MinPhotonsPerDiscreteSource * numberOfDiscreteSources
    requires n - n / 2 >= MinContinuousPhotons
    ensures var b := RaiseToFloors(SplitBudget(n, discreteLuminosity, continuousLuminosity, previous),
                                   numberOfDiscreteSources);
      b.discrete + b.continuous == n && b.discrete == n / 2
  {
  }

  /** std::round: to the nearest integer, halfway cases away from zero. */
  function Round(x: real): (r: int)
    ensures Abs(r as real - x) <= 0.5
    ensures x >= 0.0 ==> x - 0.5 < r as real
    ensures x < 0.0 ==> r as real < x + 0.5
  {
    if x >= 0.0 then (x + 0.5).Floor else -((-x + 0.5).Floor)
  }

  /** The index into the photon stream that get_first_index returns. */
  datatype PhotonSourceIndex = PhotonSourceIndex(
    discreteActiveNumberOfPhotons: int,
    discreteActivePhotonIndex: nat,
    discreteActiveSourceIndex: nat,
    continuousActiveNumberOfPhotons: nat)

  /** The random draws and sampled values get_random_photon consumes: the
      uniform draw for the kind of source, the uniform draw for the discrete
      source, the isotropic direction and the spectrum sample of a discrete
      photon, and the sample of the continuous source. */
  datatype EmissionDraws = EmissionDraws(
    kind: real,
    source: real,
    direction: Vec3,
    discreteEnergy: real,
    continuousPosition: Vec3,
    continuousDirection: Vec3,
    continuousEnergy: real)

  /** The random draws and sampled values reemit may consume.  Each
      probability test uses its own fresh uniform draw: `absorber` decides
      between hydrogen and helium, `channel` the first test after it,
      `branch` and `subBranch` the nested tests of the helium channels.  The
      frequencies are samples of the hydrogen Lyman continuum, the helium
      Lyman continuum and the helium two-photon continuum at the cell's
      temperature. */
  datatype ReemissionDraws = ReemissionDraws(
    absorber: real,
    channel: real,
    branch: real,
    subBranch: real,
    hLycFrequency: real,
    heLycFrequency: real,
    he2pcFrequency: real,
    direction: Vec3)

  /** What reemit does with an absorbed photon. */
  datatype Reemission = Escaped | Reemitted(kind: PhotonType, frequency: real)

  /** The probability that the photon was absorbed by hydrogen rather than by
      helium. */
  function HydrogenAbsorptionProbability(neutralH: real, neutralHe: real, heliumAbundance: real,
                                         sigmaH: real, sigmaHe: real): (p: real)
    requires neutralH > 0.0 && sigmaH > 0.0
    requires neutralHe >= 0.0 && heliumAbundance >= 0.0 && sigmaHe >= 0.0
    ensures 0.0 < p <= 1.0
    ensures p == 1.0 <==> neutralHe * heliumAbundance * sigmaHe == 0.0
  {
    var ratio := neutralHe * heliumAbundance * sigmaHe / neutralH / sigmaH;
    assert ratio >= 0.0;
    assert ratio == 0.0 <==> neutralHe * heliumAbundance * sigmaHe == 0.0;
    1.0 / (1.0 + ratio)
  }

  /** The probability that a helium Lyman-alpha photon is absorbed on the spot;
      sqrtT is the square root of the cell temperature. */
  function OnTheSpotProbability(neutralH: real, neutralHe: real, sqrtT: real): (p: real)
    requires neutralH > 0.0 && neutralHe >= 0.0 && sqrtT > 0.0
    ensures 0.0 < p <= 1.0
  {
    var ratio := 77.0 * neutralHe / sqrtT / neutralH;
    assert ratio >= 0.0;
    1.0 / (1.0 + ratio)
  }

  /** The first of the four helium thresholds that x does not exceed, or 4
      when x exceeds them all. */
  function FirstThresholdAtLeast(pHeEm: seq<real>, x: real): (k: nat)
    requires |pHeEm| == 4
    ensures k <= 4
    ensures k < 4 ==> x <= pHeEm[k]
    ensures forall j :: 0 <= j < k ==> x > pHeEm[j]
  {
    if x <= pHeEm[0] then 0
    else if x <= pHeEm[1] then 1
    else if x <= pHeEm[2] then 2
    else if x <= pHeEm[3] then 3
    else 4
  }

  /** The re-emission decision tree of reemit. */
  function ReemissionOutcome(pHabs: real, pHion: real, pHeEm: seq<real>, pHots: real,
                             d: ReemissionDraws): (o: Reemission)
    requires |pHeEm| == 4
    ensures o.Reemitted? ==> o.kind == DiffuseHI || o.kind == DiffuseHeI
    ensures o.Reemitted? && o.kind == DiffuseHI ==> o.frequency == d.hLycFrequency
    ensures o.Reemitted? && o.kind == DiffuseHeI ==>
      o.frequency == d.heLycFrequency || o.frequency == HeliumLineFrequency ||
      o.frequency == d.he2pcFrequency
  {
    if d.absorber <= pHabs then
      // absorbed by hydrogen
      if d.channel <= pHion then Reemitted(DiffuseHI, d.hLycFrequency) else Escaped
    else if d.channel <= pHeEm[0] then
      Reemitted(DiffuseHeI, d.heLycFrequency)
    else if d.channel <= pHeEm[1] then
      Reemitted(DiffuseHeI, HeliumLineFrequency)
    else if d.channel <= pHeEm[2] then
      if d.branch < TwoPhotonIonisingFraction then Reemitted(DiffuseHeI, d.he2pcFrequency)
      else Escaped
    else if d.channel <= pHeEm[3] then
      // helium Lyman alpha: absorbed on the spot, or two-photon continuum
      if d.branch < pHots then
        if d.subBranch <= pHion then Reemitted(DiffuseHI, d.hLycFrequency) else Escaped
      else
        if d.subBranch < TwoPhotonIonisingFraction then Reemitted(DiffuseHeI, d.he2pcFrequency)
        else Escaped
    else
      Escaped
  }

  /** A photon absorbed by hydrogen is re-emitted, as a hydrogen Lyman
      continuum photon, exactly when the second draw does not exceed pHion. */
  lemma HydrogenBranch(pHabs: real, pHion: real, pHeEm: seq<real>, pHots: real, d: ReemissionDraws)
    requires |pHeEm| == 4 && d.absorber <= pHabs
    ensures ReemissionOutcome(pHabs, pHion, pHeEm, pHots, d) ==
      if d.channel <= pHion then Reemitted(DiffuseHI, d.hLycFrequency) else Escaped
  {
  }

  /** A photon absorbed by helium takes the channel of the first threshold the
      draw does not exceed; the second channel is the fixed line frequency,
      and a draw above every threshold is absorbed. */
  lemma HeliumBranch(pHabs: real, pHion: real, pHeEm: seq<real>, pHots: real, d: ReemissionDraws)
    requires |pHeEm| == 4 && d.absorber > pHabs
    ensures var o := ReemissionOutcome(pHabs, pHion, pHeEm, pHots, d);
      var k := FirstThresholdAtLeast(pHeEm, d.channel);
      (k == 0 ==> o == Reemitted(DiffuseHeI, d.heLycFrequency)) &&
      (k == 1 ==> o == Reemitted(DiffuseHeI, HeliumLineFrequency)) &&
      (k == 2 ==> o == if d.branch < TwoPhotonIonisingFraction
                       then Reemitted(DiffuseHeI, d.he2pcFrequency) else Escaped) &&
      (k == 3 && d.branch < pHots ==>
         o == if d.subBranch <= pHion then Reemitted(DiffuseHI, d.hLycFrequency) else Escaped) &&
      (k == 3 && d.branch >= pHots ==>
         o == if d.subBranch < TwoPhotonIonisingFraction
              then Reemitted(DiffuseHeI, d.he2pcFrequency) else Escaped) &&
      (k == 4 ==> o == Escaped)
  {
  }

  /** With the thresholds that set_reemission_probabilities builds, no uniform
      draw reaches the final else of the helium branch. */
  lemma ClosedThresholdsCoverDraws(rates: RecombinationRates, x: real)
    requires rates.Positive() && x <= 1.0
    ensures FirstThresholdAtLeast(HeEmissionThresholds(rates), x) < 4
  {
    ThresholdsIncreaseToOne(rates);
  }

  /** The photon source.  The source positions, weights, cumulative
      probabilities and luminosities are fixed at construction; the photon
      counts and photon weights are set per iteration. */
  class PhotonSource {
    const discretePositions: seq<Vec3>
    const discreteWeights: seq<real>
    const discreteProbabilities: seq<real>
    const discreteLuminosity: real
    const continuousLuminosity: real
    const totalLuminosity: real
    const hasContinuousSource: bool
    const heliumAbundance: real
    const crossSection: (nat, real) -> real

    var discreteNumberOfPhotons: nat
    var continuousNumberOfPhotons: nat
    var discretePhotonWeight: real
    var continuousPhotonWeight: real

    ghost predicate Valid()
      reads this
    {
      |discretePositions| == |discreteWeights| == |discreteProbabilities| &&
      (|discreteProbabilities| > 0 ==> discreteProbabilities[|discreteProbabilities| - 1] == 1.0) &&
      (discreteLuminosity != 0.0 ==> |discreteProbabilities| > 0) &&
      (discreteNumberOfPhotons > 0 ==> discreteLuminosity > 0.0) &&
      (!hasContinuousSource ==> continuousLuminosity == 0.0) &&
      totalLuminosity == discreteLuminosity + continuousLuminosity
    }

    /** The state the constructor leaves behind, once the cumulative
        probabilities have passed the normalisation check. */
    constructor Init(positions: seq<Vec3>, weights: seq<real>, probabilities: seq<real>,
                     discreteLuminosity: real, continuous: Option<ContinuousSource>,
                     heliumAbundance: real, crossSection: (nat, real) -> real)
      requires |positions| == |weights| == |probabilities|
      requires |probabilities| > 0 ==> probabilities[|probabilities| - 1] == 1.0
      requires discreteLuminosity != 0.0 ==> |probabilities| > 0
      ensures Valid()
      ensures discretePositions == positions && discreteWeights == weights
      ensures discreteProbabilities == probabilities
      ensures this.discreteLuminosity == discreteLuminosity
      ensures continuousLuminosity == (match continuous
        case Some(c) => c.totalSurfaceArea * c.spectrumTotalFlux
        case None => 0.0)
      ensures hasContinuousSource == continuous.Some?
      ensures this.heliumAbundance == heliumAbundance && this.crossSection == crossSection
      ensures discreteNumberOfPhotons == 0 && continuousNumberOfPhotons == 0
      ensures discretePhotonWeight == 1.0 && continuousPhotonWeight == 1.0
    {
      discretePositions := positions;
      discreteWeights := weights;
      discreteProbabilities := probabilities;
      this.discreteLuminosity := discreteLuminosity;
      var cl := match continuous
        case Some(c) => c.totalSurfaceArea * c.spectrumTotalFlux
        case None => 0.0;
      continuousLuminosity := cl;
      hasContinuousSource := continuous.Some?;
      totalLuminosity := discreteLuminosity + cl;
      this.heliumAbundance := heliumAbundance;
      this.crossSection := crossSection;
      discreteNumberOfPhotons := 0;
      continuousNumberOfPhotons := 0;
      discretePhotonWeight := 1.0;
      continuousPhotonWeight := 1.0;
    }

    /** The constructor: it reads the discrete distribution (when there is
        one) into positions, weights and cumulative probabilities, aborts when
        the weights do not sum to 1, and computes the luminosities. */
    static method Create(distribution: Option<Distribution>, continuous: Option<ContinuousSource>,
                         heliumAbundance: real, crossSection: (nat, real) -> real)
      returns (r: Result<PhotonSource, ConfigError>)
      requires distribution.Some? ==> |distribution.value.sources| > 0
      ensures r.Failure? <==>
        distribution.Some? && Abs(Sum(Weights(distribution.value.sources)) - 1.0) > NormalisationTolerance
      ensures r.Success? ==> fresh(r.value) && r.value.Valid()
      ensures r.Success? && distribution.Some? ==>
        var s := distribution.value.sources;
        r.value.discretePositions == Positions(s) && r.value.discreteWeights == Weights(s) &&
        r.value.discreteLuminosity == distribution.value.totalLuminosity &&
        (forall i :: 0 <= i < |s| - 1 ==> r.value.discreteProbabilities[i] == Sum(Weights(s)[..i + 1]))
      ensures r.Success? && distribution.None? ==>
        r.value.discretePositions == [] && r.value.discreteLuminosity == 0.0
      ensures r.Success? ==>
        r.value.hasContinuousSource == continuous.Some? &&
        r.value.continuousLuminosity == (match continuous
          case Some(c) => c.totalSurfaceArea * c.spectrumTotalFlux
          case None => 0.0) &&
        r.value.totalLuminosity == r.value.discreteLuminosity + r.value.continuousLuminosity &&
        r.value.heliumAbundance == heliumAbundance && r.value.crossSection == crossSection &&
        r.value.discreteNumberOfPhotons == 0 && r.value.continuousNumberOfPhotons == 0 &&
        r.value.discretePhotonWeight == 1.0 && r.value.continuousPhotonWeight == 1.0
    {
      var positions: seq<Vec3> := [];
      var weights: seq<real> := [];
      var probabilities: seq<real> := [];
      var discreteLuminosity := 0.0;
      if distribution.Some? {
        var s := distribution.value.sources;
        positions := Positions(s);
        weights := Weights(s);
        var cumulative := CumulativeProbabilities(weights);
        if cumulative.Failure? {
          return Failure(cumulative.error);
        }
        probabilities := cumulative.value;
        discreteLuminosity := distribution.value.totalLuminosity;
      }
      var source := new PhotonSource.Init(positions, weights, probabilities, discreteLuminosity,
                                          continuous, heliumAbundance, crossSection);
      return Success(source);
    }

    /** The photon counts of set_number_of_photons: the split of n between
        the two kinds of source, then each positive count raised to its
        floor. */
    static method PhotonCounts(n: nat, discreteLuminosity: real, continuousLuminosity: real,
                               previousDiscrete: nat, previousContinuous: nat,
                               numberOfDiscreteSources: nat)
      returns (discrete: nat, continuous: nat)
      ensures Budget(discrete, continuous) ==
        RaiseToFloors(SplitBudget(n, discreteLuminosity, continuousLuminosity,
                                  Budget(previousDiscrete, previousContinuous)),
                      numberOfDiscreteSources)
    {
      discrete, continuous := previousDiscrete, previousContinuous;
      if discreteLuminosity > 0.0 && continuousLuminosity > 0.0 {
        HalfOfBudget(n);
        discrete := (DiscreteFraction * n as real).Floor;
        continuous := n - discrete;
      } else {
        if discreteLuminosity > 0.0 {
          discrete := n;
        } else {
          continuous := n;
        }
      }
      if discrete > 0 && discrete < MinPhotonsPerDiscreteSource * numberOfDiscreteSources {
        discrete := MinPhotonsPerDiscreteSource * numberOfDiscreteSources;
      }
      if continuous > 0 && continuous < MinContinuousPhotons {
        continuous := MinContinuousPhotons;
      }
    }

    /** The weight of one photon of a kind with a positive count: the kind's
        luminosity shared evenly; a kind without photons keeps its weight. */
    static method PhotonWeight(count: nat, luminosity: real, previous: real) returns (weight: real)
      ensures count > 0 ==> count as real * weight == luminosity
      ensures count == 0 ==> weight == previous
    {
      weight := previous;
      if count > 0 {
        weight := luminosity / count as real;
        assert count as real * weight == luminosity;
      }
    }

    /** set_number_of_photons: splits n between the two kinds of source,
        raises each positive count to its floor, sets the photon weights so
        that each kind's photons carry its whole luminosity, and returns the
        number of photons actually used. */
    method SetNumberOfPhotons(n: nat) returns (total: nat)
      requires Valid()
      modifies this
      ensures Valid()
      ensures Budget(discreteNumberOfPhotons, continuousNumberOfPhotons) ==
        RaiseToFloors(SplitBudget(n, discreteLuminosity, continuousLuminosity,
                                  Budget(old(discreteNumberOfPhotons), old(continuousNumberOfPhotons))),
                      |discreteWeights|)
      ensures discreteNumberOfPhotons > 0 ==>
        discreteNumberOfPhotons as real * discretePhotonWeight == discreteLuminosity
      ensures continuousNumberOfPhotons > 0 ==>
        continuousNumberOfPhotons as real * continuousPhotonWeight == continuousLuminosity
      ensures discreteNumberOfPhotons == 0 ==> discretePhotonWeight == old(discretePhotonWeight)
      ensures continuousNumberOfPhotons == 0 ==> continuousPhotonWeight == old(continuousPhotonWeight)
      ensures total == discreteNumberOfPhotons + continuousNumberOfPhotons
    {
      var discrete, continuous := PhotonCounts(n, discreteLuminosity, continuousLuminosity,
                                               discreteNumberOfPhotons, continuousNumberOfPhotons,
                                               |discreteWeights|);
      var discreteWeight := PhotonWeight(discrete, discreteLuminosity, discretePhotonWeight);
      var continuousWeight := PhotonWeight(continuous, continuousLuminosity, continuousPhotonWeight);
      discreteNumberOfPhotons, continuousNumberOfPhotons := discrete, continuous;
      discretePhotonWeight, continuousPhotonWeight := discreteWeight, continuousWeight;
      total := discrete + continuous;
    }

    /** get_first_index: the discrete photons of the first source are emitted
        first, then the continuous ones. */
    method GetFirstIndex() returns (index: PhotonSourceIndex)
      requires Valid()
      ensures discreteNumberOfPhotons > 0 ==>
        index.discreteActiveNumberOfPhotons == Round(discreteNumberOfPhotons as real * discreteWeights[0]) &&
        index.continuousActiveNumberOfPhotons == continuousNumberOfPhotons
      ensures discreteNumberOfPhotons == 0 ==>
        index.discreteActiveNumberOfPhotons == 0 && index.continuousActiveNumberOfPhotons == 0
      ensures index.discreteActivePhotonIndex == 0 && index.discreteActiveSourceIndex == 0
    {
      var discreteActive := 0;
      var continuousActive := 0;
      if discreteNumberOfPhotons > 0 {
        discreteActive := Round(discreteNumberOfPhotons as real * discreteWeights[0]);
        continuousActive := continuousNumberOfPhotons;
      }
      index := PhotonSourceIndex(discreteActive, 0, 0, continuousActive);
    }

    /** get_total_luminosity. */
    function GetTotalLuminosity(): (l: real)
      reads this
      requires Valid()
      ensures l == discreteLuminosity + continuousLuminosity
    {
      totalLuminosity
    }

    /** set_cross_sections: the photon's cross section for every ion at the
        given energy, and the helium correction. */
    method SetCrossSections(photon: Photon, energy: real)
      requires photon.Valid()
      modifies photon, photon.crossSections
      ensures photon.Valid()
      ensures forall ion :: 0 <= ion < NumberOfIons ==> photon.crossSections[ion] == crossSection(ion, energy)
      ensures photon.crossSectionHeCorr == heliumAbundance * crossSection(IonHen, energy)
      ensures photon.position == old(photon.position) && photon.direction == old(photon.direction)
      ensures photon.energy == old(photon.energy) && photon.weight == old(photon.weight)
      ensures photon.photonType == old(photon.photonType)
    {
      for ion := 0 to NumberOfIons
        modifies photon.crossSections
        invariant forall j :: 0 <= j < ion ==> photon.crossSections[j] == crossSection(j, energy)
      {
        photon.crossSections[ion] := crossSection(ion, energy);
      }
      photon.crossSectionHeCorr := heliumAbundance * photon.crossSections[IonHen];
    }

    /** The choice of get_random_photon between a discrete and the continuous
        source. */
    predicate ChoosesDiscrete(x: real)
      reads this
      ensures ChoosesDiscrete(x) <==>
        discreteNumberOfPhotons > 0 && (continuousNumberOfPhotons == 0 || x < 0.5)
    {
      if discreteNumberOfPhotons > 0 then
        if continuousNumberOfPhotons > 0 then x < 0.5 else true
      else
        false
    }

    /** Source i is the one the linear scan stops at for draw x. */
    predicate IsScanIndex(i: nat, x: real)
      reads this
    {
      i < |discreteProbabilities| && x <= discreteProbabilities[i] &&
      forall j :: 0 <= j < i ==> x > discreteProbabilities[j]
    }

    /** The linear scan over the cumulative probabilities: the smallest index
        whose cumulative probability is at least x.  It stays in bounds
        because the last entry is 1. */
    method SelectSourceIndex(x: real) returns (i: nat)
      requires Valid() && |discreteProbabilities| > 0 && x <= 1.0
      ensures IsScanIndex(i, x)
      ensures i > 0 ==> discreteProbabilities[i - 1] < x
    {
      i := 0;
      while x > discreteProbabilities[i]
        invariant i < |discreteProbabilities|
        invariant forall j :: 0 <= j < i ==> x > discreteProbabilities[j]
        decreases |discreteProbabilities| - i
      {
        i := i + 1;
      }
    }

    /** get_random_photon: a new primary photon from a discrete source or from
        the continuous source, with its weight and its cross sections.  The
        continuous branch dereferences the continuous source, which must then
        exist. */
    method GetRandomPhoton(draws: EmissionDraws) returns (photon: Photon)
      requires Valid() && draws.source <= 1.0
      requires discreteNumberOfPhotons > 0 || hasContinuousSource
      ensures fresh(photon) && fresh(photon.crossSections) && photon.Valid()
      ensures photon.photonType == Primary
      ensures ChoosesDiscrete(draws.kind) ==>
        (exists i: nat :: IsScanIndex(i, draws.source) && photon.position == discretePositions[i]) &&
        photon.direction == draws.direction && photon.energy == draws.discreteEnergy &&
        photon.weight == discretePhotonWeight
      ensures ChoosesDiscrete(draws.kind) && |discretePositions| == 1 ==>
        photon.position == discretePositions[0]
      ensures !ChoosesDiscrete(draws.kind) ==>
        photon.position == draws.continuousPosition && photon.direction == draws.continuousDirection &&
        photon.energy == draws.continuousEnergy && photon.weight == continuousPhotonWeight
      ensures forall ion :: 0 <= ion < NumberOfIons ==>
        photon.crossSections[ion] == crossSection(ion, photon.energy)
      ensures photon.crossSectionHeCorr == heliumAbundance * crossSection(IonHen, photon.energy)
    {
      var discrete: bool;
      if discreteNumberOfPhotons > 0 {
        if continuousNumberOfPhotons > 0 {
          discrete := draws.kind < 0.5;
        } else {
          discrete := true;
        }
      } else {
        discrete := false;
      }

      var position, direction, energy, weight;
      if discrete {
        var i := SelectSourceIndex(draws.source);
        position := discretePositions[i];
        direction := draws.direction;
        energy := draws.discreteEnergy;
        weight := discretePhotonWeight;
      } else {
        position := draws.continuousPosition;
        direction := draws.continuousDirection;
        energy := draws.continuousEnergy;
        weight := continuousPhotonWeight;
      }

      photon := new Photon(position, direction, energy);
      SetCrossSections(photon, energy);
      photon.weight := weight;
    }

    /** reemit: decides whether the absorbed photon was absorbed by hydrogen
        or helium and through which channel it is re-emitted.  On re-emission
        the photon gets its new type, the new frequency as its energy, a new
        direction and the cross sections at that frequency, and reemit
        returns true; otherwise the photon is marked absorbed and reemit
        returns false.  sqrtT is the square root of the cell temperature. */
    method Reemit(photon: Photon, cell: DensityValues, draws: ReemissionDraws, sqrtT: real)
      returns (reemitted: bool)
      requires Valid() && photon.Valid() && cell.Valid()
      requires cell.neutralFractionH > 0.0 && cell.neutralFractionHe >= 0.0
      requires heliumAbundance >= 0.0
      requires photon.crossSections[IonHn] > 0.0 && photon.crossSections[IonHen] >= 0.0
      requires sqrtT > 0.0 && sqrtT * sqrtT == cell.temperature
      modifies photon, photon.crossSections
      ensures photon.Valid()
      ensures var o := ReemissionOutcome(
          HydrogenAbsorptionProbability(cell.neutralFractionH, cell.neutralFractionHe, heliumAbundance,
                                        old(photon.crossSections[IonHn]), old(photon.crossSections[IonHen])),
          cell.pHion, cell.pHeEm,
          OnTheSpotProbability(cell.neutralFractionH, cell.neutralFractionHe, sqrtT),
          draws);
        (reemitted <==> o.Reemitted?) &&
        (reemitted ==> photon.photonType == o.kind && photon.energy == o.frequency)
      ensures reemitted <==> photon.photonType != Absorbed
      ensures reemitted ==>
        (photon.photonType == DiffuseHI || photon.photonType == DiffuseHeI) &&
        photon.direction == draws.direction &&
        (forall ion :: 0 <= ion < NumberOfIons ==> photon.crossSections[ion] == crossSection(ion, photon.energy)) &&
        photon.crossSectionHeCorr == heliumAbundance * crossSection(IonHen, photon.energy)
      ensures !reemitted ==>
        photon.energy == old(photon.energy) && photon.direction == old(photon.direction) &&
        photon.crossSections[..] == old(photon.crossSections[..]) &&
        photon.crossSectionHeCorr == old(photon.crossSectionHeCorr)
      ensures photon.position == old(photon.position) && photon.weight == old(photon.weight)
    {
      var newFrequency := 0.0;
      var pHabs := HydrogenAbsorptionProbability(cell.neutralFractionH, cell.neutralFractionHe,
                                                 heliumAbundance, photon.crossSections[IonHn],
                                                 photon.crossSections[IonHen]);
      ghost var pHots := OnTheSpotProbability(cell.neutralFractionH, cell.neutralFractionHe, sqrtT);
      ghost var o := ReemissionOutcome(pHabs, cell.pHion, cell.pHeEm, pHots, draws);

      if draws.absorber <= pHabs {
        // absorbed by hydrogen
        if draws.channel <= cell.pHion {
          newFrequency := draws.hLycFrequency;
          photon.photonType := DiffuseHI;
        } else {
          photon.photonType := Absorbed;
          return false;
        }
      } else {
        // absorbed by helium
        if draws.channel <= cell.pHeEm[0] {
          newFrequency := draws.heLycFrequency;
          photon.photonType := DiffuseHeI;
        } else if draws.channel <= cell.pHeEm[1] {
          newFrequency := HeliumLineFrequency;
          photon.photonType := DiffuseHeI;
        } else if draws.channel <= cell.pHeEm[2] {
          if draws.branch < TwoPhotonIonisingFraction {
            newFrequency := draws.he2pcFrequency;
            photon.photonType := DiffuseHeI;
          } else {
            photon.photonType := Absorbed;
            return false;
          }
        } else if draws.channel <= cell.pHeEm[3] {
          var pOnTheSpot := OnTheSpotProbability(cell.neutralFractionH, cell.neutralFractionHe, sqrtT);
          if draws.branch < pOnTheSpot {
            if draws.subBranch <= cell.pHion {
              newFrequency := draws.hLycFrequency;
              photon.photonType := DiffuseHI;
            } else {
              photon.photonType := Absorbed;
              return false;
            }
          } else {
            if draws.subBranch < TwoPhotonIonisingFraction {
              newFrequency := draws.he2pcFrequency;
              photon.photonType := DiffuseHeI;
            } else {
              photon.photonType := Absorbed;
              return false;
            }
          }
        } else {
          // not reached when the thresholds close at 1
          photon.photonType := Absorbed;
          return false;
        }
      }

      assert o == Reemitted(photon.photonType, newFrequency);
      photon.energy := newFrequency;
      photon.direction := draws.direction;
      SetCrossSections(photon, newFrequency);
      return true;
    }
  }

  /** The scan index is unique: get_random_photon's choice of discrete source
      is a function of the draw. */
  lemma ScanIndexIsUnique(source: PhotonSource, x: real, i: nat, j: nat)
    requires source.IsScanIndex(i, x) && source.IsScanIndex(j, x)
    ensures i == j
  {
  }
}
