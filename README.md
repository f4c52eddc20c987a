# Calibration core of a radio-interferometer delay/phase pipeline

This project models, in Dafny, the numerical bookkeeping at the heart of a
calibration pipeline for a radio interferometer: antennas named `eaNN`,
baselines between pairs of antennas, and per-tuning fixed delays in four
streams `IF0`..`IF3`. It covers four parts of the repository.

- **calib_util.py.** The triangular baseline numbering `ant2bl` and its
  inverse `bl2ant`. The bookkeeping of the eigenvector gain solver
  `gaincal_cpu`:
  - the zero-ignoring average;
  - the Hermitian visibility matrix;
  - the diagonal update of each iteration;
  - the normalisation to the reference antenna.

  Also the application of gains, `applycal`.
- **sliding_rfi_flagger.py.** The sliding-median RFI flagger: `flag_rfi`,
  `flag_rfi_real` and `flag_rfi_complex_pol`.
- **calibrate_uvh5.py.** These parts of it:
  - `flag_spectrum`;
  - the baseline table of `get_ant_array_indices`;
  - the lag axis, peak selection and reference-relative rows of
    `get_res_delays`;
  - the phase table of `get_phases`.
- **antfxdelay_from_baselinefxdelay.py.** The update of the fixed-delay
  table:
  - discovery of the reference antenna;
  - re-choosing the reference from the observed antennas and rebasing on
    it;
  - applying the residual delays of tunings AC (`IF0`/`IF1`) and BD
    (`IF2`/`IF3`).

How the model is organised:

- **Modules.** Each source function becomes a Dafny module of functions,
  lemmas and methods:
  - `BaselineIndex`, `BaselineTable`, `GainCal`, `ApplyCal`, `Stats`,
    `RfiFlagger`, `AntennaNames`, `ReferenceBaselines` and
    `FixedDelayUpdate`;
  - with `ComplexArith` and `Wrappers` as shared support.
- **State changed in place.** Numpy arrays that are changed in place are
  Dafny `array`, `array2` or `array3` values. Loops are `while` loops with
  invariants. Each method is proved equal to a Dafny function of its
  inputs (a method's row names that function), and the properties are
  proved about the function.
- **The fixed-delay table** is the class `FixedDelayUpdate.FixedDelays`.
  Its `delay` field is replaced as the source updates the nested
  dictionary.
- **Outcomes of the update.** The update either returns `(0, 0)`, modelled
  as `Aborted`, or raises a Python exception, modelled as `Raised`. Both
  are modelled outcomes, not preconditions.
- **Numeric library calls are parameters.** The complex square root, the
  eigensolver, the FFT magnitudes and `numpy.angle` are passed in as
  function values or as input data. The square root must satisfy
  `IsSqrt`; the eigensolver's eigenvector must have one component per
  antenna.

## Model

| member | source | states |
|---|---|---|
| `ComplexArith.Abs` | calib_util.py:83 | The magnitude is non-negative and its square is re² + im². |
| `ComplexArith.AbsPos` | calib_util.py:83-84 | Only the zero gain has magnitude 0, so `amp > 0` selects exactly the non-zero reference gains. |
| `ComplexArith.PhaseConj` | calib_util.py:82-84 | cos φ − i sin φ, masked by `amp > 0`, is 0 for a zero value. Otherwise it is a unit phasor that turns the value into its real magnitude. |
| `ComplexArith.Recip` | calib_util.py:191-192 | 1/z, with the non-finite result at 0 replaced by 0. For z ≠ 0, z times the result is 1. |
| `BaselineIndex.Ant2Bl` | calib_util.py:16-24 | ant2bl with two arguments: the pair is sorted, then numbered a2(a2−1)/2 + a1. Its symmetry, row and round trip are proved in `Ant2BlSymmetric`, `Ant2BlInRow` and `Bl2AntAnt2Bl`. |
| `BaselineIndex.Bl2Ant` | calib_util.py:27-31 | bl2ant: a2 from the square-root formula, then a1 = i − a2(a2−1)/2. It inverts `Ant2Bl` on cross pairs (`Bl2AntValid`, `Bl2AntAnt2Bl`). |
| `BaselineIndex.Isqrt` | calib_util.py:29 | The floor of the square root: r² ≤ n < (r+1)². |
| `BaselineIndex.TwiceRowStart` | calib_util.py:24 | a2(a2−1) is always even, so the floor division in the index is exact. |
| `BaselineIndex.Ant2BlSymmetric` | calib_util.py:16-24 | The pair is sorted first, so ant2bl(i, j) = ant2bl(j, i). |
| `BaselineIndex.Ant2BlInRow` | calib_util.py:24 | For a1 < a2 the index lies in row a2, the range [a2(a2−1)/2, a2(a2+1)/2). |
| `BaselineIndex.Bl2AntRow` | calib_util.py:29 | The square-root formula for a2 picks the row that contains the index. |
| `BaselineIndex.Bl2AntValid` | calib_util.py:27-31 | Every index decodes to a pair 0 ≤ a1 < a2 that encodes back to the same index. |
| `BaselineIndex.RowUnique` | calib_util.py:24 | Rows never overlap, so an index determines its row. |
| `BaselineIndex.Bl2AntAnt2Bl` | calib_util.py:16-31 | Round trip: bl2ant(ant2bl(a1, a2)) = (a1, a2) for every 0 ≤ a1 < a2. |
| `BaselineIndex.AutoPairCollides` | calib_util.py:16-24 | An auto pair (a, a) gets the index of cross pair (0, a+1) and decodes to that pair. The numbering is meant for cross pairs only. |
| `BaselineTable.Table` | calibrate_uvh5.py:231-244 | The n autos, then the cross pairs in row-major order. Its length, entries, positions and distinctness are proved in `TableLength`, `TableEntries`, `TablePositions` and `TableDistinct`. |
| `BaselineTable.GetAntArrayIndices` | calibrate_uvh5.py:225-246 | The loops build exactly the table of the n autos followed by the crosses in row-major order. |
| `BaselineTable.TableLength` | calibrate_uvh5.py:231-244 | The table has n(n+1)/2 entries. |
| `BaselineTable.CrossesLength` | calibrate_uvh5.py:239-242 | The first r rows of crosses hold r·n − r(r+1)/2 pairs. |
| `BaselineTable.CrossesShape` | calibrate_uvh5.py:239-242 | Every cross is a pair i < j < n, taken from one of the first r rows. |
| `BaselineTable.CrossesRowMajor` | calibrate_uvh5.py:239-242 | The crosses are in strictly increasing lexicographic order. |
| `BaselineTable.CrossesPosition` | calibrate_uvh5.py:239-242 | Pair (i, j) sits at offset \|crosses of the first i rows\| + (j − i − 1). |
| `BaselineTable.TablePositions` | calibrate_uvh5.py:244 | Entry i of the table is the auto (i, i). Cross (i, j) sits at n plus its offset among the crosses. |
| `BaselineTable.TableEntries` | calibrate_uvh5.py:231-244 | Every entry is a pair a ≤ b < n. It is an auto exactly in the first n positions. |
| `BaselineTable.TableDistinct` | calibrate_uvh5.py:231-244 | No pair occurs twice in the table. |
| `BaselineTable.CrossPairOnce` | calibrate_uvh5.py:231-244 | Each cross pair (i, j) occurs, exactly once, and its reverse (j, i) never occurs. |
| `GainCal.NonZeroCount` | calib_util.py:53 | np.count_nonzero over one averaging cell. `NonZeroCountPositive`, `MeanOfZeros` and `AddedZerosKeepSum` state its properties. |
| `GainCal.Sum` | calib_util.py:55 | The sum of one averaging cell. `SumOfZerosAndValue`, `MeanOfZeros` and `AddedZerosKeepSum` state its properties. |
| `GainCal.ZeroIgnoringMean` | calib_util.py:50-57 | The averaging itself: the cell's sum divided by its count of non-zero samples, a count of 0 being replaced by 1. `MeanIgnoresZeros`, `MeanOfZeros` and `MeanIgnoresAddedZeros` state its properties. |
| `GainCal.SumOfZerosAndValue` | calib_util.py:53-55 | A cell of zeros and copies of v sums to (number of v's) · v. |
| `GainCal.MeanIgnoresZeros` | calib_util.py:50-57 | The zero-ignoring average of a cell of zeros and at least one v is exactly v. |
| `GainCal.MeanOfZeros` | calib_util.py:53-57 | An all-zero cell has count 0, which is replaced by 1, so it averages to 0 instead of failing. |
| `GainCal.AddedZerosKeepSum` | calib_util.py:53-55 | Zero samples added to a cell change neither its sum nor its count of non-zero samples. |
| `GainCal.MeanIgnoresAddedZeros` | calib_util.py:50-57 | The zero-ignoring average of a cell is the same with any number of zero samples added. |
| `GainCal.Entry` | calib_util.py:58-66 | Cell [a, b] of the matrix after the first k baselines are copied in: the last cross baseline naming (a, b) or (b, a) wins, and autos are skipped. Its properties are proved in the `Entry…` lemmas below. |
| `GainCal.BuildMatrix` | calib_util.py:58-66 | The array holds, in every cell, the `Entry` value after all baselines are copied in. |
| `GainCal.PlacePair` | calib_util.py:65-66 | Writes x at [a0, a1] and conj(x) at [a1, a0], and nothing else. |
| `GainCal.EntryDiagonalZero` | calib_util.py:64 | Autos are skipped, so the diagonal starts at zero. |
| `GainCal.EntryHermitian` | calib_util.py:64-66 | Every cell [b, a] is the conjugate of [a, b]. |
| `GainCal.EntryUnnamed` | calib_util.py:58-66 | A pair named by no baseline stays zero. |
| `GainCal.EntryOfBaseline` | calib_util.py:60-66 | A cross pair named by exactly one baseline holds that baseline's visibility. |
| `GainCal.EntryFromTable` | calib_util.py:60-66 | With the baseline table of get_ant_array_indices, cell [i, j] (i < j) holds the visibility at position n + offset(i, j), and [j, i] holds its conjugate. |
| `GainCal.Overwrite` | calib_util.py:71-72 | One iteration's write: diagonal entry i becomes w·\|v_i\|², and the rest of the matrix is kept. |
| `GainCal.Iterate` | calib_util.py:67-72 | The matrix after the given number of iterations, each one overwriting the diagonal from the eigenpair of the previous matrix. Its shape, diagonal and Hermitian symmetry are proved in the `Iterate…` lemmas. |
| `GainCal.SetDiagonal` | calib_util.py:71-72 | Diagonal entry i becomes w·\|v_i\|². The off-diagonal entries keep their values. |
| `GainCal.Iterations` | calib_util.py:67-72 | After nit iterations the matrix is the nit-th iterate. The last eigenpair is returned; with nit = 0 there is none. |
| `GainCal.IterateKeepsOffDiagonal` | calib_util.py:67-72 | The iterations change only the diagonal: the off-diagonal entries stay those of the starting matrix. |
| `GainCal.IterateShape` | calib_util.py:67-72 | Every iterate is square and the same size as the starting matrix. |
| `GainCal.IterateDiagonal` | calib_util.py:72 | After an iteration, the diagonal entry i is the real number w·\|v_i\|², where (w, v) is the eigenpair of the previous matrix. |
| `GainCal.IteratePreservesHermitian` | calib_util.py:67-72 | The iterations keep the matrix Hermitian. |
| `GainCal.SolveMatrixHermitian` | calib_util.py:58-72 | The matrix built from the data has a zero diagonal, and every iterate of it is Hermitian. |
| `GainCal.RawGain` | calib_util.py:80 | result = sqrt(w)·v, one entry per eigenvector component. |
| `GainCal.InitialMatrix` | calib_util.py:58-66 | The tdata matrix once the baseline loop is done: cell [a, b] is `Entry` after every baseline. `BuildMatrix` builds it in place; `SolveMatrixHermitian` proves its zero diagonal and that its iterates are Hermitian; `GainCalCpu`'s ensures is stated against its iterates. |
| `GainCal.Normalize` | calib_util.py:82-85 | Normalisation gives one gain per antenna. |
| `GainCal.NormalizeAt` | calib_util.py:85 | Every gain is multiplied by the reference factor cos φ − i sin φ (masked). |
| `GainCal.NormalizeRefReal` | calib_util.py:82-85 | After normalisation the reference gain is real and non-negative: its amplitude with phase 0. |
| `GainCal.NormalizeZeroRef` | calib_util.py:84-85 | A zero reference gain zeroes every gain. |
| `GainCal.RotationKeepsProduct` | calib_util.py:84-85 | Multiplying two gains by one unit phasor leaves g_j·conj(g_k) unchanged. |
| `GainCal.NormalizeKeepsProducts` | calib_util.py:80-85 | With a non-zero reference, normalisation is a pure rotation. Every amplitude and every product g_j·conj(g_k) is unchanged. |
| `GainCal.GainCalCpu` | calib_util.py:35-88 | Fails exactly when nit = 0, where the eigenpair is never bound. Otherwise the gain is the reference-normalised sqrt(w)·v of the last eigenpair, one entry per antenna. |
| `ApplyCal.InverseGain` | calib_util.py:188-192 | A zero gain gives 0. With full calibration, g times its inverse is 1. With phase-only calibration, g times its inverse is the real \|g\| and the inverse is a unit phasor. |
| `ApplyCal.CalFactor` | calib_util.py:198 | calfac for one sample: the inverse gain of a1 times the conjugate of the inverse gain of a2. `ApplyCalibration` is stated against it; `CalibrationUndoesGains`, `PhaseCalibrationKeepsAmplitudes` and `ZeroGainZeroesBaseline` state what it does to the data. |
| `ApplyCal.ApplyCalibration` | calib_util.py:168-200 | A mismatched antenna count reports the error and leaves the data unchanged. Otherwise every sample of baseline (a1, a2) is multiplied by inv(g_a1)·conj(inv(g_a2)). |
| `ApplyCal.ScaleRow` | calib_util.py:197-200 | One baseline's samples are scaled channel by channel. The other baselines are unchanged. |
| `ApplyCal.CalibrationUndoesGains` | calib_util.py:191-200 | Full calibration recovers the true visibility of data corrupted by g1·conj(g2). |
| `ApplyCal.PhaseCalibrationKeepsAmplitudes` | calib_util.py:189-200 | Phase-only calibration removes the gains' phases: the result is the true visibility scaled by \|g1\|·\|g2\|. |
| `ApplyCal.ZeroGainZeroesBaseline` | calib_util.py:192-199 | A baseline with a zero gain on either antenna is zeroed. |
| `Stats.Median` | sliding_rfi_flagger.py:19 | numpy.median of a non-empty sequence: the middle of the sorted values, or the mean of the two middle ones. Its bounds and invariance under permutation are proved in `MedianBetween`, `MedianWithin` and `MedianOfPermutation`. |
| `Stats.Sort` | sliding_rfi_flagger.py:19 | The values come out in non-decreasing order, as a permutation of the input. |
| `Stats.SortedUnique` | sliding_rfi_flagger.py:19 | A sorted permutation of a multiset is unique. |
| `Stats.MedianBetween` | sliding_rfi_flagger.py:19 | The median lies between two of the values. |
| `Stats.MedianWithin` | sliding_rfi_flagger.py:19 | Bounds on every value bound the median. |
| `Stats.MedianOfConstant` | sliding_rfi_flagger.py:23 | The median of a constant sequence is that constant. |
| `Stats.MedianOfPermutation` | sliding_rfi_flagger.py:23 | The median depends only on the multiset of values, not on their order. |
| `Stats.Deviations` | sliding_rfi_flagger.py:25 | The absolute deviation of every value from a centre, position by position. |
| `Stats.Mad` | sliding_rfi_flagger.py:25 | The median absolute deviation (scale 1) is never negative. |
| `Stats.MadOfConstant` | sliding_rfi_flagger.py:25 | A constant sequence has zero MAD. |
| `RfiFlagger.WinLow` | sliding_rfi_flagger.py:17 | The window start is i − ⌈w/2⌉, clamped at 0. |
| `RfiFlagger.LowFloor` | sliding_rfi_flagger.py:17 | int(max(0, i − w/2)) on reals equals WinLow: truncating a non-negative real is its floor. |
| `RfiFlagger.WinHigh` | sliding_rfi_flagger.py:18 | The window end is i + ⌊w/2⌋ + 1, clamped at n. |
| `RfiFlagger.HighFloor` | sliding_rfi_flagger.py:18 | int(min(i + w/2 + 1, n)) on reals equals WinHigh. |
| `RfiFlagger.WindowBounds` | sliding_rfi_flagger.py:16-19 | Every window is non-empty, inside the spectrum and contains its channel. |
| `RfiFlagger.InteriorWindow` | sliding_rfi_flagger.py:16-19 | Away from the edges a window holds w + 1 channels. |
| `RfiFlagger.WindowMedian` | sliding_rfi_flagger.py:17-19 | np.median(spec[mn:mx]) for channel i, with the window given by `WinLow` and `WinHigh`. `WindowValue` computes it, and `SmoothWithinWindow` bounds it. |
| `RfiFlagger.Smooth` | sliding_rfi_flagger.py:13-19 | The sliding-median model: one value per channel. Its bounds are proved in `SmoothWithinWindow` and `SmoothOfConstant`. |
| `RfiFlagger.SmoothModel` | sliding_rfi_flagger.py:13-19 | The loop fills the array with the sliding-median bandpass model. |
| `RfiFlagger.WindowValue` | sliding_rfi_flagger.py:17-19 | One channel's value is the median of its window. |
| `RfiFlagger.SmoothWithinWindow` | sliding_rfi_flagger.py:16-19 | Each model value is bounded by the bounds of its window. |
| `RfiFlagger.SmoothOfConstant` | sliding_rfi_flagger.py:16-19 | A constant spectrum is its own model. |
| `RfiFlagger.Where` | sliding_rfi_flagger.py:27 | The result is exactly the indices where the mask holds, in increasing order. |
| `RfiFlagger.Outliers` | sliding_rfi_flagger.py:23-27 | k is flagged iff \|diff[k] − median(diff)\| > clip · spread. The flags are in increasing order. |
| `RfiFlagger.Above` | sliding_rfi_flagger.py:81 | k is flagged iff \|diff[k] − med\| > clip · spread. The flags are in increasing order. |
| `RfiFlagger.Residual` | sliding_rfi_flagger.py:22 | diff = spec − smth, channel by channel. |
| `RfiFlagger.Flags` | sliding_rfi_flagger.py:10-29 | Every flag is a channel of the spectrum. An empty spectrum has no flags. `FlagsExactly` states which channels are flagged. |
| `RfiFlagger.FlagsUnfold` | sliding_rfi_flagger.py:22-27 | The flags are the outliers of the residual, with spread the MAD of the residual. |
| `RfiFlagger.FlagsExactly` | sliding_rfi_flagger.py:10-29 | A channel is flagged iff its residual deviates from the residual median by more than clip · MAD. The flags are increasing. |
| `RfiFlagger.NoOutliersInZeros` | sliding_rfi_flagger.py:27 | An all-zero residual has no outliers when the threshold is non-negative. |
| `RfiFlagger.ConstantSpectrumUnflagged` | sliding_rfi_flagger.py:10-29 | A constant spectrum flags nothing. |
| `RfiFlagger.FlatResidualUnflagged` | sliding_rfi_flagger.py:22-27 | A zero residual flags nothing, whatever the clip. |
| `RfiFlagger.ZeroSpreadUnflagged` | sliding_rfi_flagger.py:25-27 | With zero spread, the strict comparison flags nothing in an all-zero residual. |
| `RfiFlagger.Magnitudes` | sliding_rfi_flagger.py:12 | spec = abs(data), channel by channel. |
| `RfiFlagger.FlagRfi` | sliding_rfi_flagger.py:10-29 | Returns exactly the flags of the magnitude spectrum. |
| `RfiFlagger.Column` | sliding_rfi_flagger.py:71 | Column p of a [channel, pol] array. |
| `RfiFlagger.ColumnFlags` | sliding_rfi_flagger.py:74-82 | The flags of one polarisation against its column's residual median and \|MAD\|. A table without channels has no flags. `ColumnFlagsAsSpectrum` ties it to `Flags`. |
| `RfiFlagger.PolModel` | sliding_rfi_flagger.py:65-71 | smth[i, p] is the sliding-median model of polarisation p's column at channel i. |
| `RfiFlagger.SmoothRow` | sliding_rfi_flagger.py:68-71 | One row of the model is filled with each column's window median. The other rows are unchanged. |
| `RfiFlagger.FlagRfiPol` | sliding_rfi_flagger.py:54-85 | Returns the per-column model and a flag list for every polarisation. Each list is that column's flags. |
| `RfiFlagger.ThresholdPols` | sliding_rfi_flagger.py:79-82 | Polarisation p is flagged where \|diff − med[p]\| > clip·\|sig_md[p]\|; every p has an entry. |
| `RfiFlagger.ColumnFlagsFrom` | sliding_rfi_flagger.py:74-82 | The column's flags are computed from its residual median and MAD. |
| `RfiFlagger.ColumnFlagsAsSpectrum` | sliding_rfi_flagger.py:54-85 | Each polarisation is flagged exactly as `Flags` (flag_rfi after its `abs`) flags the column's own values. This matches flag_rfi only on non-negative columns, since flag_rfi_complex_pol takes no magnitude first. |
| `RfiFlagger.FlagSpectrum` | calibrate_uvh5.py:22-36 | Flagged channels are set to zero. Every other channel keeps its value. |
| `AntennaNames.Decimal` | calibrate_uvh5.py:583 | str(n) of a natural number, without leading zeros. `DecimalDigits` and `ParseDecimalOfDecimal` state what it produces. |
| `AntennaNames.ZeroFill` | calibrate_uvh5.py:583 | str.zfill on a string without a sign. `ZeroFillShape` states its shape. |
| `AntennaNames.ParseDecimal` | calibrate_uvh5.py:583 | The number a string of digits denotes; the inverse of `Decimal`, used to prove that names are injective. |
| `AntennaNames.DecimalDigits` | calibrate_uvh5.py:583 | str(n) is a non-empty string of digits. |
| `AntennaNames.ZeroFillShape` | calibrate_uvh5.py:583 | zfill pads with zeros on the left to the width, keeping the string. |
| `AntennaNames.ParseDecimalOfDecimal` | calibrate_uvh5.py:583 | Reading str(n) back gives n. |
| `AntennaNames.ParseIgnoresZeros` | calibrate_uvh5.py:583 | Leading zeros do not change the number read. |
| `AntennaNames.AntName` | calibrate_uvh5.py:583-584 | 'ea' + str(a).zfill(2). `NameRoundTrip`, `AntNameInjective` and `TwoDigitName` state its properties. |
| `AntennaNames.NameRoundTrip` | calibrate_uvh5.py:583-584 | The name is "ea" and at least two digits, and it reads back as the antenna number. |
| `AntennaNames.AntNameInjective` | calibrate_uvh5.py:583-584 | Two antennas get the same name iff they are the same antenna. |
| `AntennaNames.TwoDigitName` | calibrate_uvh5.py:624-625 | For antennas below 100, the name is "ea" followed by the two decimal digits ('ea%.2d'). |
| `ReferenceBaselines.FftFreq` | calibrate_uvh5.py:520 | fftfreq yields n frequencies. |
| `ReferenceBaselines.FftShift` | calibrate_uvh5.py:521 | fftshift keeps the length and rolls by n/2. `ShiftedFrequency` gives the shifted axis entry by entry. |
| `ReferenceBaselines.ShiftedFrequency` | calibrate_uvh5.py:520-521 | After fftshift, position k holds (k − n/2) · 1/(n·d). |
| `ReferenceBaselines.Lags` | calibrate_uvh5.py:517-521 | The lag axis has 1024 entries. |
| `ReferenceBaselines.LagOfIndex` | calibrate_uvh5.py:520-521 | Lag k is (k − 512) · 1/(1024·cw) · 10⁹ ns. |
| `ReferenceBaselines.LagsIncreasing` | calibrate_uvh5.py:520-521 | For a positive channel width the lags strictly increase, and lag 512 is 0. |
| `ReferenceBaselines.LagNs` | calibrate_uvh5.py:521 | A lag of k frequency-resolution steps, times 1e9 to give nanoseconds. `LagOfIndex` ties the lag axis to it, and `LagNsIncreasing` proves it increasing. |
| `ReferenceBaselines.LagNsIncreasing` | calibrate_uvh5.py:521 | A larger offset gives a strictly larger lag. |
| `ReferenceBaselines.ArgMax` | calibrate_uvh5.py:567 | argmax returns the first position of the maximum. |
| `ReferenceBaselines.PeakLags` | calibrate_uvh5.py:566-568 | Each time's delay is the lag at its spectrum's first peak. |
| `ReferenceBaselines.Mean` | calibrate_uvh5.py:594 | np.mean of the per-time delays: their sum over their count. `MeanOfConstant` and `SteadyPeak` state its properties. |
| `ReferenceBaselines.MeanOfConstant` | calibrate_uvh5.py:594 | The time mean of a constant delay is that delay. |
| `ReferenceBaselines.SteadyPeak` | calibrate_uvh5.py:558-600 | A peak at the same index k at every time gives a mean delay of exactly lag k. |
| `ReferenceBaselines.RemoveFirst` | calibrate_uvh5.py:589 | list.remove drops one element, and the first one when it matches. |
| `ReferenceBaselines.RemoveFromPair` | calibrate_uvh5.py:588-590 | Removing the reference from a pair leaves the other name. |
| `ReferenceBaselines.DelayRowFor` | calibrate_uvh5.py:586-600 | The row written for one baseline, if any. `DelayRowAttribution` and `DelayOrientation` state when it is written, whom it names and its sign. |
| `ReferenceBaselines.DelayRowAttribution` | calibrate_uvh5.py:586-600 | A row is written iff the baseline contains the reference. It names the other antenna, and it is negated iff the reference is first and the other antenna differs from it. |
| `ReferenceBaselines.DelayOrientation` | calibrate_uvh5.py:596-600 | Both orientations of a baseline give the same row when its delays change sign with orientation: x relative to the reference. |
| `ReferenceBaselines.AntNames` | calibrate_uvh5.py:583-584 | Each antenna number is mapped to its name. |
| `ReferenceBaselines.BaselineDelayRow` | calibrate_uvh5.py:558-600 | The row for baseline bl, if any: `DelayRowFor` of its two names and the time means of its RR and LL peak delays. `BaselineLine` computes it, and `DelayRows` collects it. |
| `ReferenceBaselines.DelayRows` | calibrate_uvh5.py:558-600 | The rows written for the first nbl baselines, in baseline order. `DelayRowsCount` counts them, and `ResDelays` writes exactly them. |
| `ReferenceBaselines.DelayRowsCount` | calibrate_uvh5.py:558-600 | One row is written per baseline that contains the reference. |
| `ReferenceBaselines.ResDelays` | calibrate_uvh5.py:514-604 | The loop writes exactly the `DelayRows` rows for the baselines, in baseline order. |
| `ReferenceBaselines.BaselineLine` | calibrate_uvh5.py:558-600 | One baseline's row uses the time means of the RR and LL peak delays. |
| `ReferenceBaselines.Attribution` | calibrate_uvh5.py:624-634 | The calibrated antenna and the flip of a baseline: the second antenna with +1 when the reference is first, the first with −1 when it is second, none otherwise. |
| `ReferenceBaselines.PhaseRows` | calibrate_uvh5.py:622-642 | Every filled row comes from one of the baselines seen so far. `PhaseRowsFromReference` states the rest. |
| `ReferenceBaselines.PhaseRowsFromReference` | calibrate_uvh5.py:622-642 | The phase rows, in baseline order, are one per baseline that contains the reference. Each carries the other antenna and the sign of the reference's position. |
| `ReferenceBaselines.PhaseOrientation` | calibrate_uvh5.py:626-631 | Reference first gives flip +1, reference second gives −1. Both orientations give the same phase when the phase changes sign with orientation. |
| `ReferenceBaselines.OppositeConventions` | calibrate_uvh5.py:596-631 | get_res_delays and get_phases use opposite signs for the same orientation. |
| `ReferenceBaselines.GetPhases` | calibrate_uvh5.py:606-643 | Fails iff more baselines contain the reference than there are rows. Otherwise the names are the attributed antennas, then "". The phases are flip · angle of each row, and zero beyond the filled rows. |
| `ReferenceBaselines.PhaseTable` | calibrate_uvh5.py:618-643 | The loop fills exactly the `PhaseRows` rows, or fails when they overflow the table. |
| `ReferenceBaselines.EmptyTable` | calibrate_uvh5.py:618-620 | A fresh zero table with empty names holds no rows. |
| `ReferenceBaselines.PhaseStep` | calibrate_uvh5.py:622-642 | One baseline either extends the filled rows by its attribution or reports that the rows overflow. |
| `ReferenceBaselines.AddRow` | calibrate_uvh5.py:637-642 | Writing row n keeps the table matching the rows so far plus the new one. |
| `ReferenceBaselines.RefPosition` | calibrate_uvh5.py:624-634 | The branch picks the calibrated antenna and the flip of the attribution. |
| `ReferenceBaselines.FillRow` | calibrate_uvh5.py:639-640 | Row n holds flip · angle for both polarisations. Every other row is unchanged. |
| `FixedDelayUpdate.Contains` | antfxdelay_from_baselinefxdelay.py:80 | Python's `refant in baseline` on strings: a substring test. `ContainsAt`, `BaselineContainsBoth` and `SubstringOnly` state its properties. |
| `FixedDelayUpdate.Split` | antfxdelay_from_baselinefxdelay.py:82 | `baseline.split('-')`: the pieces between separators, empty ones included, never none. `JoinSplit` and `SplitBaseline` state its properties. |
| `FixedDelayUpdate.ContainsAt` | antfxdelay_from_baselinefxdelay.py:80 | A string occurring at some position is a substring. |
| `FixedDelayUpdate.JoinSplit` | antfxdelay_from_baselinefxdelay.py:82 | Joining the pieces of split('-') gives back the baseline. |
| `FixedDelayUpdate.SplitBaseline` | antfxdelay_from_baselinefxdelay.py:82 | "x-y" with no '-' in x or y splits into [x, y]. |
| `FixedDelayUpdate.BaselineContainsBoth` | antfxdelay_from_baselinefxdelay.py:80 | Both antenna names are substrings of their baseline. |
| `FixedDelayUpdate.IndexOf` | antfxdelay_from_baselinefxdelay.py:85-89 | list.index gives the first position of x, or fails iff x is absent. |
| `FixedDelayUpdate.StreamZeros` | antfxdelay_from_baselinefxdelay.py:30-32 | The antennas with a zero delay in one stream, in file order. `StreamZerosMembers` states which they are. |
| `FixedDelayUpdate.ZeroEntries` | antfxdelay_from_baselinefxdelay.py:28-32 | The candidates list: the zero entries of each stream, stream after stream. `ZeroEntriesMembers` and `CandidatesAreZeroAntennas` state which antennas it holds, and `FixedDelays.ZeroCandidates` builds it. |
| `FixedDelayUpdate.StreamZerosMembers` | antfxdelay_from_baselinefxdelay.py:30-32 | A stream's candidates are exactly its antennas with delay 0. |
| `FixedDelayUpdate.ZeroEntriesMembers` | antfxdelay_from_baselinefxdelay.py:29-32 | The candidates are exactly the antennas with delay 0 in some stream. |
| `FixedDelayUpdate.CandidatesAreZeroAntennas` | antfxdelay_from_baselinefxdelay.py:26-32 | Over the four streams, an antenna is a candidate iff one of its delays is 0. |
| `FixedDelayUpdate.ChooseRefantAsWritten` | antfxdelay_from_baselinefxdelay.py:34-40 | The reference check as written: `all(refant)`, then `refant[0]`. `ChooseRefantAsWrittenTakesFirst` states what it does. |
| `FixedDelayUpdate.ChooseRefant` | antfxdelay_from_baselinefxdelay.py:34-40 | The reference check as the error message means it: one antenna and only one with zero delays. `ChooseRefantUnique` states what it does. |
| `FixedDelayUpdate.ChooseRefantAsWrittenTakesFirst` | antfxdelay_from_baselinefxdelay.py:34-40 | As written, the check succeeds iff there are candidates and none has an empty name, and it then takes the first candidate. No candidates raise IndexError. |
| `FixedDelayUpdate.ChooseRefantVersionsAgree` | antfxdelay_from_baselinefxdelay.py:34-40 | The two checks agree when every zero entry belongs to one antenna with a non-empty name. |
| `FixedDelayUpdate.ChooseRefantUnique` | antfxdelay_from_baselinefxdelay.py:34-40 | The corrected check picks r iff r is the only antenna with zero delays. Otherwise it takes the (0, 0) return. |
| `FixedDelayUpdate.ChooseRefantDiscrepancy` | antfxdelay_from_baselinefxdelay.py:34-40 | As written, two zero antennas pass the check and an empty list raises IndexError. The corrected check refuses both. |
| `FixedDelayUpdate.FirstObserved` | antfxdelay_from_baselinefxdelay.py:51-57 | The first displacement key that was observed, or the current reference. `FirstObservedIsFirst` states it. |
| `FixedDelayUpdate.FirstObservedIsFirst` | antfxdelay_from_baselinefxdelay.py:51-57 | The new reference is the first displacement key that was observed, or the old reference when no key was observed. |
| `FixedDelayUpdate.FirstObservedKey` | antfxdelay_from_baselinefxdelay.py:52-57 | The loop with break computes the first observed key. |
| `FixedDelayUpdate.RebasedStream` | antfxdelay_from_baselinefxdelay.py:61-63 | Rebasing keeps a stream's antennas. |
| `FixedDelayUpdate.Rebased` | antfxdelay_from_baselinefxdelay.py:61-63 | Rebasing keeps the table's antennas and rebases every stream against the reference. |
| `FixedDelayUpdate.RebasedKeepsDifferences` | antfxdelay_from_baselinefxdelay.py:61-63 | After rebasing, the reference's delay is 0 and every difference between two antennas is unchanged. |
| `FixedDelayUpdate.RebaseIdempotent` | antfxdelay_from_baselinefxdelay.py:61-63 | Rebasing twice on the same reference is rebasing once. |
| `FixedDelayUpdate.RebasedAsWritten` | antfxdelay_from_baselinefxdelay.py:61-63 | The in-place loop as written keeps a stream's antennas. Its values are given by the three lemmas below. |
| `FixedDelayUpdate.RebasedAsWrittenWithoutRef` | antfxdelay_from_baselinefxdelay.py:61-63 | When the file order does not contain the reference, the reference's entry never changes, so every listed entry drops by it. |
| `FixedDelayUpdate.RebasedAsWrittenSplit` | antfxdelay_from_baselinefxdelay.py:61-63 | With the reference at position p of a distinct file order: the entries before it drop by its delay, it becomes 0, and all others keep their delays. |
| `FixedDelayUpdate.RebasedAsWrittenPositions` | antfxdelay_from_baselinefxdelay.py:61-63 | The same by position: entry k < p is m[k] − m[ref], entry p is 0, entry k > p is m[k]. |
| `FixedDelayUpdate.RebaseVersionsAgree` | antfxdelay_from_baselinefxdelay.py:61-63 | The loop as written and the intended rebase agree when the reference is last in file order, or already has zero delay. |
| `FixedDelayUpdate.RebasedInFileOrder` | antfxdelay_from_baselinefxdelay.py:61-63 | The table after the loop as written: every stream rebased in file order; the antennas are kept. |
| `FixedDelayUpdate.RebasedTablesAgree` | antfxdelay_from_baselinefxdelay.py:61-63 | For a reference last in file order, the table as written is the intended rebased table. |
| `FixedDelayUpdate.RebaseDiscrepancy` | antfxdelay_from_baselinefxdelay.py:61-63 | Take delays A=1, R=2, B=3, rebased on R. As written, B stays at 3; the intended result is 1. |
| `FixedDelayUpdate.Shifted` | antfxdelay_from_baselinefxdelay.py:87-92 | One `-=` or `+=` on x's delay in one stream, keeping the stream's antennas. `Moved` applies it to both streams of a tuning (lines 87-92 and 123-128), and `MovedValue` gives the new values. |
| `FixedDelayUpdate.Moved` | antfxdelay_from_baselinefxdelay.py:87-92 | Moving an antenna's delays changes only the two streams of the tuning. A missing antenna is a KeyError. |
| `FixedDelayUpdate.ByPosition` | antfxdelay_from_baselinefxdelay.py:82-96 | The branch on the reference's position touches only the tuning's streams, and its failures are Python exceptions. |
| `FixedDelayUpdate.ResidualStep` | antfxdelay_from_baselinefxdelay.py:79-96 | One residual row touches only the tuning's two streams, and its failures are Python exceptions. |
| `FixedDelayUpdate.ApplyAll` | antfxdelay_from_baselinefxdelay.py:79-96 | A residual file fails only by raising. |
| `FixedDelayUpdate.ResidualSigns` | antfxdelay_from_baselinefxdelay.py:85-92 | "x-ref" subtracts the residuals from x's two delays and "ref-x" adds them. Nothing else changes. |
| `FixedDelayUpdate.BaselineSubtracts` | antfxdelay_from_baselinefxdelay.py:85-88 | A baseline "x-ref" takes the subtracting branch for x. |
| `FixedDelayUpdate.BaselineAdds` | antfxdelay_from_baselinefxdelay.py:89-92 | A baseline "ref-x" takes the adding branch for x. |
| `FixedDelayUpdate.StepSubtracts` | antfxdelay_from_baselinefxdelay.py:85-88 | A row that splits into [x, ref] subtracts its residuals from x. |
| `FixedDelayUpdate.StepAdds` | antfxdelay_from_baselinefxdelay.py:89-92 | A row that splits into [ref, x] adds its residuals to x. |
| `FixedDelayUpdate.MovedValue` | antfxdelay_from_baselinefxdelay.py:87-92 | The moved table has x's two delays shifted by the residuals. |
| `FixedDelayUpdate.ResidualOrientation` | antfxdelay_from_baselinefxdelay.py:85-92 | "x-ref" with residuals p gives the same table as "ref-x" with −p: the sign convention is consistent. |
| `FixedDelayUpdate.SubtractsFlipped` | antfxdelay_from_baselinefxdelay.py:85-88 | Subtracting p is adding −p. |
| `FixedDelayUpdate.MovedFlip` | antfxdelay_from_baselinefxdelay.py:87-92 | Subtracting (p0, p1) equals adding (−p0, −p1). |
| `FixedDelayUpdate.UnrelatedBaseline` | antfxdelay_from_baselinefxdelay.py:80 | A row whose baseline does not contain the reference changes nothing. |
| `FixedDelayUpdate.SubstringOnly` | antfxdelay_from_baselinefxdelay.py:80-85 | The substring test lets "ea10-ea11" through for reference "ea1", and list.index then raises ValueError. |
| `FixedDelayUpdate.NotAPiece` | antfxdelay_from_baselinefxdelay.py:80-85 | A reference contained in the baseline but equal to neither piece raises ValueError. |
| `FixedDelayUpdate.LoneReference` | antfxdelay_from_baselinefxdelay.py:82-91 | A baseline field equal to the reference alone raises IndexError. |
| `FixedDelayUpdate.OtherStreamsUntouched` | antfxdelay_from_baselinefxdelay.py:115-128 | A residual file never changes the streams of the other tuning. |
| `FixedDelayUpdate.ResolveRefant` | antfxdelay_from_baselinefxdelay.py:26-40 | The given reference, or the one the check as written takes from the zero-delay candidates. |
| `FixedDelayUpdate.Reselect` | antfxdelay_from_baselinefxdelay.py:42-65 | Keeps an observed reference. Otherwise it takes the first observed displacement key and rebases on it as written: KeyError when that key is not in a non-empty table, the (0, 0) return when there is no displacement map. |
| `FixedDelayUpdate.Reference` | antfxdelay_from_baselinefxdelay.py:26-65 | The reference step: `ResolveRefant`, then `Reselect`, giving the reference and the table it leaves, or how the function stops. `FixedDelays.SettleReference` is proved against it. |
| `FixedDelayUpdate.Tunings` | antfxdelay_from_baselinefxdelay.py:67-134 | AC's residuals on IF0/IF1, then BD's on IF2/IF3; the first failure ends it. With neither file, the undefined `filename` at line 135 is a NameError. |
| `FixedDelayUpdate.Update` | antfxdelay_from_baselinefxdelay.py:26-140 | The reference step, then the tunings: the final reference and table, or how the function stops. |
| `FixedDelayUpdate.TuningsKeepToTheirStreams` | antfxdelay_from_baselinefxdelay.py:67-132 | Without BD, IF2 and IF3 keep their values after the reference step; without AC, IF0 and IF1 do. |
| `FixedDelayUpdate.FixedDelays.constructor` | antfxdelay_from_baselinefxdelay.py:14-17 | A parsed table with its antennas in file order. |
| `FixedDelayUpdate.FixedDelays.ZeroCandidates` | antfxdelay_from_baselinefxdelay.py:28-32 | The nested loop collects the zero-delay antennas stream by stream, in file order. |
| `FixedDelayUpdate.FixedDelays.Rebase` | antfxdelay_from_baselinefxdelay.py:61-63 | Succeeds iff the reference is one of the table's antennas or the table is empty (otherwise KeyError). On success each stream is rebased by the loop as written, entry by entry in file order against the reference's current value (`RebasedInFileOrder`); an empty table is unchanged. |
| `FixedDelayUpdate.FixedDelays.RebaseStream` | antfxdelay_from_baselinefxdelay.py:62-63 | The inner loop re-reads the reference's entry at every step: the stream ends as `RebasedAsWritten` of its old value, and the other streams are unchanged. |
| `FixedDelayUpdate.FixedDelays.SettleReference` | antfxdelay_from_baselinefxdelay.py:26-65 | Follows the code as written: the given reference, or the first zero candidate when `all(refant)` holds; then, if it was not observed, the first observed displacement key and the as-written rebase on it. The result is `Reference`'s, including each failure. |
| `FixedDelayUpdate.FixedDelays.ApplyTunings` | antfxdelay_from_baselinefxdelay.py:67-135 | Applies AC, then BD, ending in the same table or failure as `Tunings`, including the NameError when neither file is given. |
| `FixedDelayUpdate.FixedDelays.ApplyResiduals` | antfxdelay_from_baselinefxdelay.py:79-96 | The loop over a residual file ends in the same table or failure as `ApplyAll`, stopping at the first failure. |
| `FixedDelayUpdate.FixedDelays.ApplyRow` | antfxdelay_from_baselinefxdelay.py:80-96 | One residual row, ending in the same table or failure as `ResidualStep`. |
| `FixedDelayUpdate.FixedDelays.MoveDelays` | antfxdelay_from_baselinefxdelay.py:87-92 | Moves x's two delays, or raises KeyError. |
| `FixedDelayUpdate.AntFxDelayFromBaselineFxDelay` | antfxdelay_from_baselinefxdelay.py:7-140 | Returns one of three outcomes: an unparsable file aborts; any failure of the reference selection or of the tunings is returned as that failure; otherwise the table is `Update`'s (reference check and rebase as written) and the reference is returned for saving. |

## Left out

- **Input and output.** Left out are:
  - reading the CSV files with pandas, and writing the result;
  - the saved file name built from the current date and time (lines
    97-101 and 134-138);
  - every print;
  - the residual-delay CSV file written by get_res_delays.

  A parse failure is one input (`null`). The residual files are lists of
  rows. The observed antennas and the displacement map's keys are
  sequences. Only the displacement map's keys are used, in their order.
- **gaincal_gpu** and the rest of calib_util.py outside the four functions
  named above: they are not part of this model.
- **Numeric routines.** The inverse FFT, `numpy.abs` of its output,
  `numpy.angle`, the eigensolver `linalg_cpu.eigh` and `numpy.sqrt` are
  inputs or function values with stated assumptions, not definitions.
  Floating-point rounding, NaN, infinities and the float32 storage of
  `delay_vals` are not modelled: all arithmetic is on exact reals.
- **Broadcasting and axes.** gaincal_cpu and applycal broadcast over time,
  frequency and polarisation axes. The model treats one slice, with the
  baseline axis first; no step of the source mixes slices. The `axis`
  argument and the final transposes are not modelled.
- **The averaging step.** The zero-ignoring average of gaincal_cpu
  (`avg`) is modelled on one averaging cell (`GainCal.ZeroIgnoringMean`).
  It is not wired into `GainCal.GainCalCpu`, whose input is the slice after
  any averaging.
- GainCal.GainCalCpu: requires `ref < nant`, antenna indices below `nant`
  for every cross pair among the first `|vis|` baselines (auto pairs, which
  line 64 skips, may name any antenna), and at least one entry of `ant_indices` per baseline
  (`|vis| <= |antIndices|`). In the source these are IndexErrors raised by
  numpy: `result[ref]` at line 82, the matrix writes at lines 65-66, and
  `ant_indices[i]` at line 63.
- ApplyCal.ApplyCalibration: requires, when the antenna count matches,
  every antenna index to be within the calibration table and the channel
  counts to match. The count mismatch is checked first and raises
  RuntimeError (lines 186-187), modelled as `AntennaMismatch` for every
  input. In the source the other cases are IndexErrors at line 199, or
  broadcasting errors; a gain row of length 1 would broadcast, which the
  model does not allow.
- **Negative indices.** Antenna indices, baseline indices and `ref` are
  natural numbers. numpy would wrap a negative index round to the end of
  the axis (`result[-1]` is the last antenna); that is not modelled.
- **The one-argument form of ant2bl** (calib_util.py:19-20, a pair passed
  as one sequence, of which the first two entries are used) is not
  modelled separately: it sorts the same two numbers as the two-argument
  form `BaselineIndex.Ant2Bl`.
- **flag_rfi_real** (sliding_rfi_flagger.py:31-50) has the same body as
  flag_rfi. `RfiFlagger.FlagRfi` models both; a real sample is a complex
  value with zero imaginary part.
- RfiFlagger.FlagRfiPol: models the columns as real values. numpy's median
  of complex columns (sorting by real part, then imaginary part) and the
  complex magnitude of the deviation are not modelled. On a table without
  channels numpy's median is NaN, which exact reals do not have; the model
  stands 0.0 in for it and, as numpy does, returns an empty flag list for
  every polarisation, since no channel is compared.
- FixedDelayUpdate.RebasedAsWritten: its own contract states only that
  the antennas are kept. Its values are proved in
  `RebasedAsWrittenSplit` and `RebasedAsWrittenPositions` for a file order
  without repeated antennas, which is what a parsed table has.
- **Window size.** The window size is a natural number. A negative window
  size is not modelled.
- ReferenceBaselines.ResDelays: requires a non-zero channel width, where
  fftfreq would divide by zero.
- **Time averaging of phases.** The time averaging of the visibilities in
  get_phases (line 637) happens before `numpy.angle`. It is part of the
  phase input.
- **Behaviour that is not in the modelled code.** The model does only
  what the code does:
  - gaincal_cpu indexes `result[ref]` directly (calib_util.py:82-83), with
    no fallback to another reference antenna (hence the `ref < nant`
    requirement above);
  - neither flag_spectrum nor the flagger clamps the window size;
  - flag_spectrum sets the flagged channels to 0 (calibrate_uvh5.py:35);
  - no modelled file computes a quality grade for the gains.

## Findings

The fixed-delay update itself (`FixedDelayUpdate.FixedDelays` and
`FixedDelayUpdate.AntFxDelayFromBaselineFxDelay`) follows the code as
written. The corrected definitions sit beside it for comparison, and
`ChooseRefantVersionsAgree`, `RebaseVersionsAgree` and `RebasedTablesAgree`
state when the two coincide.

| source | as written | input that shows it | evidently intended | confidence | as-written member | corrected member |
|---|---|---|---|---|---|---|
| antfxdelay_from_baselinefxdelay.py:61-63 | The rebase subtracts the reference's current delay in place, entry by entry. Once the reference's own entry is zeroed, later antennas are no longer shifted. | delays A=1, R=2, B=3 in that order, rebased on R: B stays 3 | every delay minus the reference's original delay (A=−1, R=0, B=1), keeping all differences | not executed | `FixedDelayUpdate.RebaseDiscrepancy` | `FixedDelayUpdate.RebasedKeepsDifferences` |
| antfxdelay_from_baselinefxdelay.py:34-40 | `all(refant)` tests that every candidate name is non-empty, not that there is one candidate. Two zero-delay antennas pass, and the first is taken. With no candidate, `refant[0]` raises IndexError. | zero-delay candidates ["ea01", "ea02"] give "ea01"; no candidates give IndexError | refuse (the (0, 0) return) unless exactly one antenna has zero delays, as the error message says | not executed | `FixedDelayUpdate.ChooseRefantDiscrepancy` | `FixedDelayUpdate.ChooseRefantUnique` |
