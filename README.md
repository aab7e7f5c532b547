# CMacIonize transport core in Dafny

This project models part of the core of CMacIonize, a Monte Carlo
photoionisation code. Photon packets are emitted by discrete point sources and
by a continuous source. They travel through a density grid, and when absorbed
they are re-emitted by hydrogen or helium. The model covers four parts:

- **The photon source** (`photon_source.dfy`, module `PhotonSources`):
  - construction from a discrete source distribution, with its cumulative
    probabilities and the fatal normalisation check;
  - the split of a photon budget between the discrete and the continuous
    sources, with the minimum photon counts;
  - the photon weights;
  - the first photon index;
  - the choice of source for a new photon, and the scan over the cumulative
    probabilities;
  - the per-ion cross sections;
  - the re-emission decision tree.
- **The density grid interface** (`density_grid.dfy`, module `DensityGrid`):
  - the re-emission probabilities of a cell;
  - cell initialisation;
  - the cell iterator.
- **The message formatter** behind the `error`, `warning` and `message`
  macros (`error_format.dfy`, module `ErrorFormat`): an already formatted
  text is printed as 65-column lines indented by five spaces.
- **The helium two-photon continuum spectrum** (`helium_two_photon.dfy`,
  module `HeliumTwoPhotonContinuum`):
  - the frequency grid;
  - the cumulative distribution and its normalisation;
  - the integral under the tabulated spectrum.

`photons.dfy` (module `Photons`) holds the photon packet the source creates
and re-emits. `reals.dfy` holds sums over reals. `wrappers.dfy` holds
`Option` and `Result`.

Where the source mutates state, the model does too:

- `PhotonSource` is a class whose photon counts and weights the methods
  update.
- A `Photon` keeps its per-ion cross sections in an array that
  `SetCrossSections` fills in a loop.
- `DensityValues` is a class whose fields `SetReemissionProbabilities` and
  `Initialize` write.
- The formatter is a loop over a 65-character line array.
- The spectrum is built by four loops over arrays: the grid, the increments,
  the prefix sum in place, and the normalisation in place.

Each method is proved against a reference function, and the properties
are lemmas about those functions:

- `CumulativeProbabilities` is proved against prefix sums.
- `SetNumberOfPhotons` is proved against `SplitBudget` and `RaiseToFloors`.
- `Reemit` is proved against `ReemissionOutcome`.
- `PrintIndent` is proved against the state machine `RunFrom`.
- The spectrum constructor is proved against `Frequencies` and `Cdf`.
- `GetIntegral` is proved against `Integral`.

Random draws, sampled frequencies and directions are inputs of the
operations:

- `EmissionDraws` carries those of `get_random_photon`.
- `ReemissionDraws` carries those of `reemit`, one uniform draw per test.
- The sampled values of the continuous source are also part of
  `EmissionDraws`.

Other inputs:

- The cross-section provider is a function parameter `crossSection(ion,
  energy)`.
- The recombination rate fits are given as a `RecombinationRates` value.
- The tabulated 41-row spectrum and the table indices found by the
  bracketing search are arguments of the spectrum constructor.

Two cases the code leaves unchecked are left unchecked in the model too:

- The code does not check for a configuration without any source. The
  comment at src/PhotonSource.cpp:145-148 assumes that this never happens,
  and the model does the same.
- A draw above the last helium threshold is treated as absorbed
  (src/PhotonSource.cpp:400-406). `ClosedThresholdsCoverDraws` shows that
  this cannot happen when the thresholds reach 1, as the grid builds them.

## Model

| member | source | states |
|---|---|---|
| PhotonSources.CumulativeProbabilities | src/PhotonSource.cpp:72-87 | Entry i of the cumulative probabilities is the sum of weights 0..i. Construction fails exactly when the total differs from 1 by more than 1e-9, and the error carries that total. Otherwise the last entry is exactly 1. |
| PhotonSources.PhotonSource.Create | src/PhotonSource.cpp:54-116 | Construction fails exactly when a present distribution's weights are not normalised. Otherwise the source holds the positions, the weights, the cumulative probabilities and the discrete luminosity. The continuous luminosity is surface area times total flux. The total luminosity is their sum. The counts start at 0 and both photon weights at 1. |
| PhotonSources.PhotonSource.Init | src/PhotonSource.cpp:60-116 | The state the constructor leaves once the probabilities are accepted, with the class invariant established. |
| PhotonSources.HalfOfBudget | src/PhotonSource.cpp:131-134 | Truncating 0.5 × n gives n / 2 rounded down. |
| PhotonSources.SplitBudget | src/PhotonSource.cpp:133-150 | When both luminosities are positive, the discrete count is n / 2 and the two counts sum to n. With only a discrete luminosity, all n photons are discrete and the continuous count keeps its previous value. Otherwise all n photons are continuous and the discrete count keeps its previous value. |
| PhotonSources.RaiseToFloors | src/PhotonSource.cpp:152-170 | A positive discrete count becomes at least 10 × the number of discrete sources. A positive continuous count becomes at least 100. A zero count stays zero. A count that is raised becomes exactly its floor. |
| PhotonSources.BudgetIsExactAboveFloors | src/PhotonSource.cpp:133-170 | When both kinds shine and n / 2 and n − n / 2 already meet their floors, the counts sum to exactly n, as the source's comment intends. |
| PhotonSources.PhotonSource.PhotonCounts | src/PhotonSource.cpp:133-170 | The split followed by the floors computes RaiseToFloors(SplitBudget(...)). |
| PhotonSources.PhotonSource.PhotonWeight | src/PhotonSource.cpp:152-170 | For a positive count, count × weight equals the luminosity. For a zero count, the previous weight is kept. |
| PhotonSources.PhotonSource.SetNumberOfPhotons | src/PhotonSource.cpp:128-179 | The new counts are RaiseToFloors(SplitBudget(n, previous counts)). Each kind with a positive count has count × weight equal to its luminosity. A kind without photons keeps its weight. The result is the sum of the counts. The class invariant is kept. |
| PhotonSources.Round | src/PhotonSource.cpp:194-195 | std::round: the result is within 0.5 of the argument, and halfway cases round away from zero. |
| PhotonSources.PhotonSource.GetFirstIndex | src/PhotonSource.cpp:187-203 | With discrete photons, the first source's active count is round(count × weight[0]) and the continuous count is carried over. Otherwise both counts are 0. Both indices are 0. |
| PhotonSources.PhotonSource.GetTotalLuminosity | src/PhotonSource.cpp:302 | The total luminosity is the discrete plus the continuous luminosity. |
| PhotonSources.PhotonSource.SetCrossSections | src/PhotonSource.cpp:211-219 | Every ion's cross section is the provider's value at the energy. The helium correction is the helium abundance × the neutral-helium cross section. Nothing else in the photon changes. |
| PhotonSources.PhotonSource.ChoosesDiscrete | src/PhotonSource.cpp:254-268 | Discrete exactly when the discrete count is positive and either the continuous count is zero or the draw is below 0.5. |
| PhotonSources.PhotonSource.SelectSourceIndex | src/PhotonSource.cpp:270-276 | The scan stops at the smallest i with x ≤ probabilities[i]. Because the last entry is 1, it stays in bounds for every x ≤ 1. |
| PhotonSources.ScanIndexIsUnique | src/PhotonSource.cpp:270-276 | The scan index is unique for a draw. |
| PhotonSources.PhotonSource.GetRandomPhoton | src/PhotonSource.cpp:229-295 | A primary photon. In the discrete case it gets the scanned source's position, the sampled direction and energy, and the discrete weight; with a single source the position is that source's. In the continuous case it gets the continuous sample and weight. Its cross sections are at its energy. |
| PhotonSources.HydrogenAbsorptionProbability | src/PhotonSource.cpp:321-325 | pHabs lies in (0, 1], and is 1 exactly when helium does not absorb (nHe × AHe × σHe = 0). |
| PhotonSources.OnTheSpotProbability | src/PhotonSource.cpp:368-371 | pHots lies in (0, 1]. |
| PhotonSources.FirstThresholdAtLeast | src/PhotonSource.cpp:344-406 | The index of the first helium threshold the draw does not exceed, or 4 when it exceeds them all. |
| PhotonSources.ReemissionOutcome | src/PhotonSource.cpp:327-407 | A re-emitted photon is diffuse H I with a hydrogen Lyman continuum frequency, or diffuse He I with a helium Lyman continuum, 19.8 eV line or two-photon frequency. |
| PhotonSources.HydrogenBranch | src/PhotonSource.cpp:327-340 | Absorbed by hydrogen: re-emitted as H I Lyman continuum exactly when the next draw is ≤ pHion, otherwise escapes. |
| PhotonSources.HeliumBranch | src/PhotonSource.cpp:341-406 | Absorbed by helium: the channel is the first threshold the draw does not exceed. The second channel has the fixed frequency 4.788e15. The third and fourth test 0.56 and pHots as in the source. A draw above pHe_em[3] is absorbed. |
| PhotonSources.ClosedThresholdsCoverDraws | src/PhotonSource.cpp:400-406 | With the thresholds the grid builds, no draw ≤ 1 reaches the final else of the helium branch. |
| PhotonSources.PhotonSource.Reemit | src/PhotonSource.cpp:317-417 | The decision is ReemissionOutcome on the cell's probabilities and the photon's old cross sections. It returns true exactly when the photon's type is not absorbed. On true: the type is diffuse H I or He I, the energy is the new frequency, the direction is the new one, and the cross sections are recomputed at that frequency. On false: energy, direction and cross sections are unchanged. Position and weight never change. |
| DensityGrid.HydrogenIonisingProbability | src/DensityGridInterface.hpp:59-61 | pHion, the ratio of alpha_1_H to alpha_A_agn, is positive, and pHion × alpha_A_agn equals alpha_1_H. |
| DensityGrid.HeEmissionThresholds | src/DensityGridInterface.hpp:68-75 | The four cumulative helium thresholds pHe_em[0..3], each the previous one plus the next channel's share. Their meaning is proved in ThresholdsArePartialShares and ThresholdsIncreaseToOne. |
| DensityGrid.TotalHeliumRate | src/DensityGridInterface.hpp:68-70 | The overwritten alphaHe, the sum of the four helium rates, is positive. |
| DensityGrid.ThresholdsArePartialShares | src/DensityGridInterface.hpp:70-75 | pHe_em[k] is the share of the first k + 1 helium channels in the total rate. |
| DensityGrid.ThresholdsIncreaseToOne | src/DensityGridInterface.hpp:68-75 | With positive rates, 0 < pHe_em[0] < pHe_em[1] < pHe_em[2] < pHe_em[3], and pHe_em[3] is exactly 1. |
| DensityGrid.DensityGridInterface.SetReemissionProbabilities | src/DensityGridInterface.hpp:58-76 | It writes pHion = alpha_1_H / alpha_A_agn and the four cumulative helium thresholds. No other cell field changes. |
| DensityGrid.DensityGridInterface.Initialize | src/DensityGridInterface.hpp:98-105 | Both neutral fractions become 1e-6. The temperature and helium abundance are the arguments. The re-emission probabilities are those of the given rates. Density and mean intensities are unchanged. |
| DensityGrid.DensityGridInterface.constructor | src/DensityGridInterface.hpp:86-89 | Stores the box and the periodicity flags. |
| DensityGrid.CellIterator.constructor | src/DensityGridInterface.hpp:152-153 | Stores the index and the grid. |
| DensityGrid.CellIterator.Increment | src/DensityGridInterface.hpp:188-191 | The index increases by exactly one, wrapping to 0 at the end of the unsigned long range, on the same grid. |
| DensityGrid.CellIterator.Equals | src/DensityGridInterface.hpp:199-201 | == holds exactly when both iterators refer to the same grid object and the same cell index. |
| DensityGrid.CellIterator.NotEquals | src/DensityGridInterface.hpp:199-210 | != holds exactly when the grids differ or the indices differ. |
| DensityGrid.EqualsIsEquivalence | src/DensityGridInterface.hpp:199-210 | == is reflexive, symmetric and transitive, and != is its negation. |
| ErrorFormat.RunFrom | src/Error.hpp:47-91 | The state machine of print_indent's loop: the position in the text, the current line and the lines printed so far. It has no contract of its own. The lemmas RunFromLinesFit, RunFromEmits, RunFromKeepsVisibleText and OverflowNeedsTab state its properties. |
| ErrorFormat.Wrap | src/Error.hpp:36-92 | The lines print_indent prints for a text. It fails only at the position of a tab, so a text without tabs is always printed. |
| ErrorFormat.NextWordEnd | src/Error.hpp:64-71 | The offset of the first word-ending character (tab, space, newline or terminator) after the whitespace. No character before it ends a word, and it stays within the text. |
| ErrorFormat.PrintIndent | src/Error.hpp:36-92 | The loop over the text with the 65-character line array prints exactly the lines of the reference function Wrap. It fails only where a tab would be written past the line array. |
| ErrorFormat.RunFromLinesFit | src/Error.hpp:72-84 | Every printed line has at most 65 characters. |
| ErrorFormat.LinesFit | src/Error.hpp:46-92 | Every line print_indent prints has at most 65 characters. |
| ErrorFormat.RunFromEmits | src/Error.hpp:47-91 | Printed lines are only appended. A pending partial line or character always leads to another line. |
| ErrorFormat.EmitsNothingOnlyForEmptyText | src/Error.hpp:88-91 | An empty text prints nothing, and any other text prints at least one line. |
| ErrorFormat.RunFromKeepsVisibleText | src/Error.hpp:47-91 | Concatenated, the printed lines carry exactly the text's non-whitespace characters, in input order. |
| ErrorFormat.KeepsVisibleText | src/Error.hpp:77-79 | The printed lines carry the input's visible characters in order, none lost and none added. |
| ErrorFormat.VisibleOfBlanks | src/Error.hpp:55-63 | The blanks a tab or space adds carry no visible character. |
| ErrorFormat.NewlineFlushes | src/Error.hpp:48-51 | A newline prints the current line and resets the column to 0. |
| ErrorFormat.WhitespaceWidens | src/Error.hpp:53-63 | Without a wrap, a tab adds four blanks to the line and a space one. |
| ErrorFormat.WrapStartsWordOnNewLine | src/Error.hpp:64-76 | When the whitespace and the next word would pass 65 columns, the line as it was before the whitespace is printed. A word that fits on a line then starts the next line. |
| ErrorFormat.CopyWord | src/Error.hpp:77-80 | A word that fits is copied into the line character by character, in order. |
| ErrorFormat.OverflowNeedsTab | src/Error.hpp:55-59 | Only a tab can take the line array past its end: a failure names the position of a tab in the text. |
| ErrorFormat.PrintedLine | src/Error.hpp:49 | A printed line is the five-space indent, the line left-justified in at least 65 columns, and a newline. |
| ErrorFormat.Decimal | src/Error.hpp:100 | The line number as `%i` prints it: decimal digits, with a leading 0 exactly when the number is 0. |
| ErrorFormat.DecimalDenotesNumber | src/Error.hpp:100 | The printed digits denote the line number. |
| ErrorFormat.Header | src/Error.hpp:98-124 | The first line each macro prints: the file, a colon, the function followed by "():", the digits of the line number, a colon, the kind of report and a newline. |
| ErrorFormat.Emit | src/Error.hpp:98-124 | The header followed by the printed lines of the text, on the given stream. |
| ErrorFormat.Error | src/Error.hpp:98-103 | On stderr, the location header with "Error:" and the wrapped text, then abort. |
| ErrorFormat.Warning | src/Error.hpp:109-114 | On stderr, the location header with "Warning:" and the wrapped text, without aborting. |
| ErrorFormat.Message | src/Error.hpp:120-124 | On stdout, the location header and the wrapped text, without aborting. |
| HeliumTwoPhotonContinuum.HeliumTwoPhotonContinuumSpectrum.constructor | src/HeliumTwoPhotonContinuumSpectrum.cpp:47-87 | The frequency array is the evenly spaced grid. The distribution array is the normalised prefix sum of the trapezoid increments. |
| HeliumTwoPhotonContinuum.HeliumTwoPhotonContinuumSpectrum.FillGrid | src/HeliumTwoPhotonContinuumSpectrum.cpp:54-59 | Fills the array with the grid 1 + i × 0.6 / (N − 1). |
| HeliumTwoPhotonContinuum.HeliumTwoPhotonContinuumSpectrum.FillIncrements | src/HeliumTwoPhotonContinuumSpectrum.cpp:60-78 | Entry 0 is 0. Entry i is 0.5 × (A(f[i−1]) + A(f[i])) × (f[i] − f[i−1]), where A is interpolated from the table below y = 1 and is 0 above. |
| HeliumTwoPhotonContinuum.HeliumTwoPhotonContinuumSpectrum.Accumulate | src/HeliumTwoPhotonContinuumSpectrum.cpp:79-82 | In place, each entry becomes the previous one plus 1e25 × its increment. |
| HeliumTwoPhotonContinuum.HeliumTwoPhotonContinuumSpectrum.Normalise | src/HeliumTwoPhotonContinuumSpectrum.cpp:83-86 | In place, every entry is divided by the original last entry, even though the last entry is itself divided last. |
| HeliumTwoPhotonContinuum.Frequencies | src/HeliumTwoPhotonContinuumSpectrum.cpp:54-59 | The grid has N points, point i being 1 + i × 0.6 / (N − 1). |
| HeliumTwoPhotonContinuum.GridEndpoints | src/HeliumTwoPhotonContinuumSpectrum.cpp:54-59 | The grid starts at 1 and ends at 1.6. |
| HeliumTwoPhotonContinuum.GridIsEvenlySpaced | src/HeliumTwoPhotonContinuumSpectrum.cpp:55-58 | Neighbouring grid points are 0.6 / (N − 1) apart. |
| HeliumTwoPhotonContinuum.GridIncreases | src/HeliumTwoPhotonContinuumSpectrum.cpp:55-58 | The grid strictly increases. |
| HeliumTwoPhotonContinuum.EmissionCutOff | src/HeliumTwoPhotonContinuumSpectrum.cpp:62-75 | The first grid point (y ≈ 0.66) uses the interpolated table value. The last (y > 1) contributes 0. |
| HeliumTwoPhotonContinuum.CutOffIsSpectrumEdge | src/HeliumTwoPhotonContinuumSpectrum.cpp:62-64 | y < 1 holds exactly when frequency × 3.289e15 is below 4.98e15. |
| HeliumTwoPhotonContinuum.Increments | src/HeliumTwoPhotonContinuumSpectrum.cpp:60-78 | The increments start with 0, followed by each bin's trapezoid. |
| HeliumTwoPhotonContinuum.PrefixSums | src/HeliumTwoPhotonContinuumSpectrum.cpp:79-82 | Entry i is the running sum with the 1e25 scaling. |
| HeliumTwoPhotonContinuum.Normalised | src/HeliumTwoPhotonContinuumSpectrum.cpp:83-86 | Every entry is divided by the same total, the last entry. |
| HeliumTwoPhotonContinuum.Cdf | src/HeliumTwoPhotonContinuumSpectrum.cpp:60-86 | The reference distribution the constructor is proved to build: the normalised prefix sums of the increments, one entry per grid point. CdfEndpoints and CdfIsNonDecreasing state its properties. |
| HeliumTwoPhotonContinuum.NormalisedEndpoints | src/HeliumTwoPhotonContinuumSpectrum.cpp:83-86 | Normalising keeps a leading 0 and ends at exactly 1. |
| HeliumTwoPhotonContinuum.CdfEndpoints | src/HeliumTwoPhotonContinuumSpectrum.cpp:60-86 | The distribution starts at 0 and, when the unnormalised total is non-zero, ends at exactly 1. |
| HeliumTwoPhotonContinuum.NormalisedKeepsOrder | src/HeliumTwoPhotonContinuumSpectrum.cpp:83-86 | Normalising a non-negative, non-decreasing sequence keeps it non-decreasing and between 0 and 1. |
| HeliumTwoPhotonContinuum.InterpolationIsNonNegative | src/HeliumTwoPhotonContinuumSpectrum.cpp:66-67 | Interpolating between non-negative table values at a bracketed point gives a non-negative value. |
| HeliumTwoPhotonContinuum.IncrementIsNonNegative | src/HeliumTwoPhotonContinuumSpectrum.cpp:76-77 | With non-negative table values and bracketing indices, every bin's increment is non-negative. |
| HeliumTwoPhotonContinuum.PrefixSumIsMonotone | src/HeliumTwoPhotonContinuumSpectrum.cpp:79-82 | Running sums of non-negative increments are non-negative and non-decreasing. |
| HeliumTwoPhotonContinuum.CdfIsNonDecreasing | src/HeliumTwoPhotonContinuumSpectrum.cpp:60-86 | On any increasing grid with non-negative table values, the normalised distribution never decreases and stays within [0, 1]. The spectrum's own grid is one such grid (GridIncreases). |
| HeliumTwoPhotonContinuum.Integral | src/HeliumTwoPhotonContinuumSpectrum.cpp:116-130 | The reference integral GetIntegral is proved to compute: the sum of the segments, rescaled by 4.98e15 / 3.289e15. With non-negative values on an increasing table it is non-negative. |
| HeliumTwoPhotonContinuum.GetIntegral | src/HeliumTwoPhotonContinuumSpectrum.cpp:116-130 | The loop computes Integral: the per-segment sum, rescaled by 4.98e15 / 3.289e15. |
| HeliumTwoPhotonContinuum.TableIsOrdered | src/HeliumTwoPhotonContinuumSpectrum.cpp:116-130 | Rows of an increasing table are ordered. |
| HeliumTwoPhotonContinuum.BelowThresholdAddsNothing | src/HeliumTwoPhotonContinuumSpectrum.cpp:121-127 | Segments wholly below the threshold 3.289e15 / 4.98e15 add nothing. |
| HeliumTwoPhotonContinuum.AboveThresholdAddsTrapezoids | src/HeliumTwoPhotonContinuumSpectrum.cpp:120-128 | Past the straddling segment s, the sum is A[s] × (y[s] − threshold) plus the trapezoids of every later segment. |
| HeliumTwoPhotonContinuum.IntegralStraddlingThreshold | src/HeliumTwoPhotonContinuumSpectrum.cpp:116-130 | For an increasing table, the integral is nothing below the threshold, A[s] × (y[s] − threshold) on the straddling segment s, and the trapezoid rule above it, scaled by 4.98e15 / 3.289e15. |
| HeliumTwoPhotonContinuum.IntegralAboveThreshold | src/HeliumTwoPhotonContinuumSpectrum.cpp:121-122 | A table wholly above the threshold is integrated by the trapezoid rule. |
| HeliumTwoPhotonContinuum.IntegralBelowThreshold | src/HeliumTwoPhotonContinuumSpectrum.cpp:124-127 | A table wholly below the threshold integrates to 0. |
| HeliumTwoPhotonContinuum.AccumulatedIsNonNegative | src/HeliumTwoPhotonContinuumSpectrum.cpp:119-128 | With non-negative values on an increasing table, every partial sum of segments is non-negative. |
| Photons.Photon.constructor | src/PhotonSource.cpp:289-292 | A new primary photon at the given position, direction and energy, with weight 1 and room for every ion's cross section. Photon.hpp, which defines this constructor, is not part of this model: the initial weight 1 and the primary type are assumed, and get_random_photon sets the weight right afterwards. |

## Left out

- Random number generation, `get_random_direction`, the continuous source's
  `get_random_incoming_direction` and spectrum sampling (`get_random_frequency`
  of every spectrum, including the helium two-photon spectrum's own, which
  samples the distribution built here). Every uniform draw, direction and
  sampled frequency is an input.
- The cross-section tables, the abundances and `UnitConverter`. These are
  given: a cross-section function and a helium abundance.
- DensityGrid.DensityGridInterface.Initialize: the recombination rates are an
  input and are not computed from the initial temperature. The power-law fits
  that would tie them together are left out, as described next.
- The power-law fits of the recombination rates
  (src/DensityGridInterface.hpp:59-67). The rates are given positive values,
  so `SetReemissionProbabilities` takes rates rather than a temperature.
- `sqrt` of the temperature in `reemit`. It is an input `sqrtT` with
  sqrtT × sqrtT equal to the cell temperature.
- Floating point. Doubles are reals, so rounding is not modelled. In
  particular the grid's 1.6 − 1 is exactly 0.6, and pHe_em[3] is exactly 1.
  IEEE infinities and NaN are not modelled either: the divisions in
  `HydrogenAbsorptionProbability`, `OnTheSpotProbability` and the spectrum's
  normalisation require non-zero divisors. The logged `discrete_fraction`
  (src/PhotonSource.cpp:102), which divides by a possibly zero total, is
  left out together with all logging.
- PhotonSources.PhotonSource.Create: requires a present discrete distribution
  to have at least one source, and so does
  PhotonSources.CumulativeProbabilities. For an empty distribution the source
  reads the last cumulative probability of an empty vector
  (src/PhotonSource.cpp:82 and :86), which is undefined behaviour, so the
  model has no outcome to give it.
- PhotonSources.PhotonSource.GetRandomPhoton: requires a continuous source
  when there are no discrete photons, where the source would dereference a
  missing generator.
- PhotonSources.PhotonSource.SetNumberOfPhotons: counts are unbounded
  naturals. The source computes the floor `10 * _discrete_weights.size()` as
  a `size_t` and compares it in that width. The value is narrowed only when
  it is stored into the `unsigned int` discrete count
  (src/PhotonSource.cpp:155). The returned sum of the two `unsigned int`
  counts can also wrap. Neither narrowing nor wrap-around is modelled.
- The photon source's `_continuous_number_of_photons` is not initialised by
  the source's constructor. The model starts it at 0.
- src/PhotonSource.hpp is a stale declaration that does not match
  PhotonSource.cpp. The model follows PhotonSource.cpp.
- Photon.hpp, DensityValues.hpp, the ion list and the spectrum's size
  constant are not part of this model. The ion count is a constant of 12,
  with H_n and He_n as ions 0 and 1. A new photon's initial weight of 1 and
  its primary type are assumed, since the Photon constructor is in
  Photon.hpp. The class `DensityValues` keeps only
  the fields the core reads and writes. The grid size N is a constructor
  argument (N ≥ 2).
- `Utilities::locate` and the data file read by `get_spectrum` are not part
  of this model. The table and the located row for each grid point are
  inputs.
- The virtual cell accessors of `DensityGridInterface` and the iterator's
  accessors that call them (midpoint, values, volume). They belong to the
  concrete grids, which are not part of this model.
- ErrorFormat: `sprintf` formatting of the variable arguments is not
  modelled. The text arrives already formatted. `fprintf` and `abort` become
  a `Report` holding the stream, the printed text and whether it aborts.
- ErrorFormat.PrintIndent: the C line array is not NUL-terminated before the
  prints at src/Error.hpp:49 and :82. The model prints the line's first
  linepos characters, or the characters before the cut.
- ErrorFormat.PrintIndent: a tab that arrives at column 62 or later writes
  past the 65-character array. The behaviour is undefined, so the model
  reports `TabPastLineEnd` instead.
- The `CMacIonize.cpp` driver: command-line parsing, factories, the
  MPI/OpenMP iteration loop and snapshot output.
- data/linecooling/gamma_SII.py: offline curve fitting.
- The statistical assertions of test/testPhotonSource.cpp: isotropy and the
  mean energy. The single-source position check of that test is
  `GetRandomPhoton`'s single-source clause.
- The other tests: test/testBondiProfile.cpp and
  test/testFLASHSnapshotDensityFunction.cpp.
