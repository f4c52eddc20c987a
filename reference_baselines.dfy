/** The reference-antenna bookkeeping of calibrate_uvh5.py: the lag axis and
    the peak-index to delay mapping of get_res_delays, the rows that
    get_res_delays writes for baselines with the reference antenna, and the
    rows that get_phases fills. The FFT, the magnitude of its output and
    numpy.angle are numerics outside this model: their results are inputs. */
module ReferenceBaselines {
  import opened Wrappers
  import opened AntennaNames

  // ---------------------------------------------------------------------
  // Lag axis (calibrate_uvh5.py:517-521)
  // ---------------------------------------------------------------------

  /** fin_nchan: the length of every inverse FFT. */
  const FineChannels: nat := 1024

  /** numpy.fft.fftfreq(n, d): 0, 1, ..., (n-1)/2 and then -(n/2), ..., -1,
      all times 1/(n*d). */
  function FftFreq(n: nat, d: real): (f: seq<real>)
    requires n > 0 && d != 0.0
    ensures |f| == n
  {
    var val := Resolution(n, d);
    var nPos := (n - 1) / 2 + 1;
    seq(n, k requires 0 <= k < n => (if k < nPos then k else k - n) as real * val)
  }

  /** The spacing 1/(n*d) of the frequency axis. */
  function Resolution(n: nat, d: real): real
    requires n > 0 && d != 0.0
  {
    NonZeroProduct(n as real, d);
    1.0 / (n as real * d)
  }

  lemma NonZeroProduct(x: real, y: real)
    requires x != 0.0 && y != 0.0
    ensures x * y != 0.0
  {
  }

  /** numpy.fft.fftshift of a one-dimensional sequence: a roll by n/2, so
      y[k] = x[(k - n/2) mod n]. */
  function FftShift(x: seq<real>): (y: seq<real>)
    ensures |y| == |x|
  {
    var n := |x|;
    seq(n, k requires 0 <= k < n => x[(k - n / 2) % n])
  }

  /** After the shift the frequency axis runs from -(n/2) to (n-1)/2 in steps
      of 1/(n*d): entry k is (k - n/2) / (n*d), for odd and even n. */
  lemma ShiftedFrequency(n: nat, d: real, k: nat)
    requires n > 0 && d != 0.0 && k < n
    ensures FftShift(FftFreq(n, d))[k] == (k - n / 2) as real * Resolution(n, d)
  {
    var f := FftFreq(n, d);
    var j := (k - n / 2) % n;
    HalvesSum(n);
    if k >= n / 2 {
      SmallMod(k - n / 2, n);
    } else {
      WrappedMod(k - n / 2, n);
    }
    assert j < (n - 1) / 2 + 1 <==> k >= n / 2;
    ShiftAt(f, k);
    FreqAt(n, d, j);
  }

  lemma HalvesSum(n: nat)
    requires n > 0
    ensures n / 2 + (n - 1) / 2 + 1 == n
  {
  }

  lemma ShiftAt(x: seq<real>, k: nat)
    requires k < |x|
    ensures FftShift(x)[k] == x[(k - |x| / 2) % |x|]
  {
  }

  lemma FreqAt(n: nat, d: real, j: nat)
    requires n > 0 && d != 0.0 && j < n
    ensures FftFreq(n, d)[j] == (if j < (n - 1) / 2 + 1 then j else j - n) as real * Resolution(n, d)
  {
  }

  lemma SmallMod(x: int, n: int)
    requires 0 <= x < n
    ensures x % n == x
  {
  }

  lemma WrappedMod(x: int, n: int)
    requires -n <= x < 0
    ensures x % n == x + n
  {
  }

  /** tlags: the shifted lag axis in nanoseconds for channel width cw. */
  function Lags(cw: real): (t: seq<real>)
    requires cw != 0.0
    ensures |t| == FineChannels
  {
    var f := FftShift(FftFreq(FineChannels, cw));
    seq(FineChannels, k requires 0 <= k < FineChannels => f[k] * 1000000000.0)
  }

  /** A lag of k frequency-resolution steps, in nanoseconds. */
  function LagNs(k: int, cw: real): real
    requires cw != 0.0
  {
    k as real * Resolution(FineChannels, cw) * 1000000000.0
  }

  /** Peak index k is the lag (k - 512) / (1024 * cw) seconds, in ns. */
  lemma LagOfIndex(cw: real, k: nat)
    requires cw != 0.0 && k < FineChannels
    ensures Lags(cw)[k] == LagNs(k - 512, cw)
  {
    ShiftedFrequency(FineChannels, cw, k);
  }

  /** For a positive channel width the lag axis is strictly increasing, and
      index 512 is zero lag. */
  lemma LagsIncreasing(cw: real, i: nat, j: nat)
    requires cw > 0.0 && i < j < FineChannels
    ensures Lags(cw)[i] < Lags(cw)[j]
    ensures Lags(cw)[512] == 0.0
  {
    LagOfIndex(cw, i);
    LagOfIndex(cw, j);
    LagOfIndex(cw, 512);
    LagNsIncreasing(i - 512, j - 512, cw);
  }

  lemma LagNsIncreasing(a: int, b: int, cw: real)
    requires cw > 0.0 && a < b
    ensures LagNs(a, cw) < LagNs(b, cw)
  {
    PositiveStep(cw);
    ScaledLess(a as real, b as real, Resolution(FineChannels, cw), 1000000000.0);
  }

  lemma PositiveStep(cw: real)
    requires cw > 0.0
    ensures Resolution(FineChannels, cw) > 0.0
  {
  }

  lemma ScaledLess(a: real, b: real, u: real, c: real)
    requires a < b && u > 0.0 && c > 0.0
    ensures a * u * c < b * u * c
  {
    assert (b - a) * u > 0.0;
    assert (b - a) * u * c > 0.0;
  }

  // ---------------------------------------------------------------------
  // Peak search (calibrate_uvh5.py:566-568, 577-579)
  // ---------------------------------------------------------------------

  /** numpy.argmax: the index of the first maximum. */
  function ArgMax(s: seq<real>): (r: nat)
    requires |s| > 0
    ensures r < |s|
    ensures forall k :: 0 <= k < |s| ==> s[k] <= s[r]
    ensures forall k :: 0 <= k < r ==> s[k] < s[r]
  {
    if |s| == 1 then 0
    else
      var r0 := ArgMax(s[..|s| - 1]);
      if s[|s| - 1] > s[r0] then |s| - 1 else r0
  }

  /** One time's lag spectrum per entry, each over the full lag axis. */
  predicate LagSpectra(spec: seq<seq<real>>) {
    |spec| > 0 && forall t :: 0 <= t < |spec| ==> |spec[t]| == FineChannels
  }

  /** delay_vals[bl, :, pol] = tlags[argmax(spec, axis = 1)]. */
  function PeakLags(spec: seq<seq<real>>, cw: real): (lags: seq<real>)
    requires cw != 0.0 && LagSpectra(spec)
    ensures |lags| == |spec|
    ensures forall t :: 0 <= t < |spec| ==> lags[t] == Lags(cw)[ArgMax(spec[t])]
  {
    seq(|spec|, t requires 0 <= t < |spec| => Lags(cw)[ArgMax(spec[t])])
  }

  function Sum(xs: seq<real>): real {
    if |xs| == 0 then 0.0 else Sum(xs[..|xs| - 1]) + xs[|xs| - 1]
  }

  /** numpy.mean of a non-empty sequence. */
  function Mean(xs: seq<real>): real
    requires |xs| > 0
  {
    Sum(xs) / |xs| as real
  }

  lemma {:induction false} SumOfConstant(xs: seq<real>, c: real)
    requires forall k :: 0 <= k < |xs| ==> xs[k] == c
    ensures Sum(xs) == |xs| as real * c
  {
    if |xs| > 0 {
      SumOfConstant(xs[..|xs| - 1], c);
    }
  }

  /** The mean over time recovers a delay that is constant over time, as the
      source assumes. */
  lemma MeanOfConstant(xs: seq<real>, c: real)
    requires |xs| > 0
    requires forall k :: 0 <= k < |xs| ==> xs[k] == c
    ensures Mean(xs) == c
  {
    SumOfConstant(xs, c);
  }

  /** A peak at the same index k at every time gives the delay of lag k. */
  lemma SteadyPeak(spec: seq<seq<real>>, cw: real, k: nat)
    requires cw != 0.0 && LagSpectra(spec) && k < FineChannels
    requires forall t :: 0 <= t < |spec| ==> ArgMax(spec[t]) == k
    ensures Mean(PeakLags(spec, cw)) == LagNs(k - 512, cw)
  {
    LagOfIndex(cw, k);
    MeanOfConstant(PeakLags(spec, cw), Lags(cw)[k]);
  }

  // ---------------------------------------------------------------------
  // Rows of get_res_delays (calibrate_uvh5.py:582-600)
  // ---------------------------------------------------------------------

  /** A line of the residual-delay file: antenna, pol0 delay, pol1 delay. */
  datatype DelayRow = DelayRow(ant: string, pol0: real, pol1: real)

  /** list.remove(x): drops the first occurrence of x. */
  function RemoveFirst(s: seq<string>, x: string): (r: seq<string>)
    requires x in s
    ensures |r| == |s| - 1
    ensures s[0] == x ==> r == s[1..]
  {
    if s[0] == x then s[1..] else [s[0]] + RemoveFirst(s[1..], x)
  }

  /** The row written for baseline name1-name2 with time-mean delays m0 and
      m1, if any. */
  function DelayRowFor(name1: string, name2: string, ref: string, m0: real, m1: real): Option<DelayRow> {
    var antBase := [name1, name2];
    if ref !in antBase then None
    else
      var antNew := RemoveFirst(antBase, ref)[0];
      if name1 == ref && name2 == ref then Some(DelayRow(antNew, m0, m1))
      else if name1 == ref then Some(DelayRow(antNew, -m0, -m1))
      else Some(DelayRow(antNew, m0, m1))
  }

  /** A row is written exactly for the baselines that contain the reference;
      it is named after the other antenna (the reference itself for the
      ref-ref baseline) and negated exactly when the reference comes first
      and the other antenna differs from it. */
  lemma DelayRowAttribution(name1: string, name2: string, ref: string, m0: real, m1: real)
    ensures DelayRowFor(name1, name2, ref, m0, m1).Some? <==> (name1 == ref || name2 == ref)
    ensures name1 == ref || name2 == ref ==>
      var row := DelayRowFor(name1, name2, ref, m0, m1).value;
      && row.ant == (if name1 == ref then name2 else name1)
      && (if name1 == ref && name2 != ref then row.pol0 == -m0 && row.pol1 == -m1
          else row.pol0 == m0 && row.pol1 == m1)
  {
    if name1 != ref && name2 == ref {
      assert RemoveFirst([name1, name2], ref) == [name1];
    }
  }

  /** Every delay is reported as the other antenna relative to the
      reference: when a baseline's delays change sign with its orientation,
      both orientations give the same row. */
  lemma DelayOrientation(x: string, ref: string, m0: real, m1: real)
    requires x != ref
    ensures DelayRowFor(ref, x, ref, -m0, -m1) == DelayRowFor(x, ref, ref, m0, m1)
    ensures DelayRowFor(x, ref, ref, m0, m1) == Some(DelayRow(x, m0, m1))
  {
    DelayRowAttribution(ref, x, ref, -m0, -m1);
    DelayRowAttribution(x, ref, ref, m0, m1);
  }

  /** The lag spectra and antenna numbers of nbl baselines. */
  predicate DelayInputs<T>(specRR: seq<seq<seq<real>>>, specLL: seq<seq<seq<real>>>, ant1: seq<T>, ant2: seq<T>) {
    |specRR| == |ant1| && |specLL| == |ant1| && |ant2| == |ant1|
    && forall bl :: 0 <= bl < |ant1| ==> LagSpectra(specRR[bl]) && LagSpectra(specLL[bl])
  }

  /** The names of a list of antenna numbers. */
  function AntNames(ants: seq<nat>): (names: seq<string>)
    ensures |names| == |ants|
    ensures forall i :: 0 <= i < |ants| ==> names[i] == AntName(ants[i])
  {
    if |ants| == 0 then [] else AntNames(ants[..|ants| - 1]) + [AntName(ants[|ants| - 1])]
  }

  /** The row for baseline bl: its antennas' names and its time-mean peak
      delays in the two polarisations. */
  function BaselineDelayRow(specRR: seq<seq<seq<real>>>, specLL: seq<seq<seq<real>>>,
                            names1: seq<string>, names2: seq<string>, cw: real, ref: string, bl: nat): Option<DelayRow>
    requires cw != 0.0 && DelayInputs(specRR, specLL, names1, names2) && bl < |names1|
  {
    DelayRowFor(names1[bl], names2[bl], ref,
                Mean(PeakLags(specRR[bl], cw)), Mean(PeakLags(specLL[bl], cw)))
  }

  /** The rows written for the first nbl baselines, in baseline order. */
  function DelayRows(specRR: seq<seq<seq<real>>>, specLL: seq<seq<seq<real>>>,
                     names1: seq<string>, names2: seq<string>, cw: real, ref: string, nbl: nat): seq<DelayRow>
    requires cw != 0.0 && DelayInputs(specRR, specLL, names1, names2) && nbl <= |names1|
  {
    if nbl == 0 then []
    else
      var prev := DelayRows(specRR, specLL, names1, names2, cw, ref, nbl - 1);
      match BaselineDelayRow(specRR, specLL, names1, names2, cw, ref, nbl - 1)
      case Some(row) => prev + [row]
      case None => prev
  }

  /** The number of the first nbl baselines that contain the reference. */
  function RefBaselineCount(names1: seq<string>, names2: seq<string>, ref: string, nbl: nat): nat
    requires |names2| == |names1| && nbl <= |names1|
  {
    if nbl == 0 then 0
    else RefBaselineCount(names1, names2, ref, nbl - 1)
         + (if names1[nbl - 1] == ref || names2[nbl - 1] == ref then 1 else 0)
  }

  /** One row per baseline that contains the reference, and none other. */
  lemma {:induction false} DelayRowsCount(specRR: seq<seq<seq<real>>>, specLL: seq<seq<seq<real>>>,
                                          names1: seq<string>, names2: seq<string>, cw: real, ref: string, nbl: nat)
    requires cw != 0.0 && DelayInputs(specRR, specLL, names1, names2) && nbl <= |names1|
    ensures |DelayRows(specRR, specLL, names1, names2, cw, ref, nbl)| == RefBaselineCount(names1, names2, ref, nbl)
  {
    if nbl > 0 {
      var bl := nbl - 1;
      DelayRowsCount(specRR, specLL, names1, names2, cw, ref, bl);
      assert LagSpectra(specRR[bl]) && LagSpectra(specLL[bl]);
      var m0, m1 := Mean(PeakLags(specRR[bl], cw)), Mean(PeakLags(specLL[bl], cw));
      DelayRowsStep(specRR, specLL, names1, names2, cw, ref, bl);
      DelayRowAttribution(names1[bl], names2[bl], ref, m0, m1);
    }
  }

  lemma DelayRowsStep(specRR: seq<seq<seq<real>>>, specLL: seq<seq<seq<real>>>,
                      names1: seq<string>, names2: seq<string>, cw: real, ref: string, bl: nat)
    requires cw != 0.0 && DelayInputs(specRR, specLL, names1, names2) && bl < |names1|
    ensures var row := DelayRowFor(names1[bl], names2[bl], ref,
                                   Mean(PeakLags(specRR[bl], cw)), Mean(PeakLags(specLL[bl], cw)));
      DelayRows(specRR, specLL, names1, names2, cw, ref, bl + 1)
      == DelayRows(specRR, specLL, names1, names2, cw, ref, bl) + (if row.Some? then [row.value] else [])
  {
  }

  /** get_res_delays without the file: one pass over the baselines, writing
      a row for each baseline that contains the reference antenna. */
  method ResDelays(specRR: seq<seq<seq<real>>>, specLL: seq<seq<seq<real>>>,
                   ant1: seq<nat>, ant2: seq<nat>, cw: real, ref: string)
    returns (rows: seq<DelayRow>)
    requires cw != 0.0 && DelayInputs(specRR, specLL, ant1, ant2)
    ensures rows == DelayRows(specRR, specLL, AntNames(ant1), AntNames(ant2), cw, ref, |ant1|)
  {
    var names1, names2 := AntNames(ant1), AntNames(ant2);
    assert DelayInputs(specRR, specLL, names1, names2);
    rows := [];
    var bl := 0;
    while bl < |ant1|
      invariant 0 <= bl <= |ant1|
      invariant rows == DelayRows(specRR, specLL, names1, names2, cw, ref, bl)
    {
      assert LagSpectra(specRR[bl]) && LagSpectra(specLL[bl]);
      var line := BaselineLine(specRR[bl], specLL[bl], names1[bl], names2[bl], cw, ref);
      DelayRowsStep(specRR, specLL, names1, names2, cw, ref, bl);
      if line.Some? {
        rows := rows + [line.value];
      }
      bl := bl + 1;
    }
  }

  /** One iteration of the baseline loop: the peak delays at every time in
      both polarisations, their means, and the line written, if any. */
  method BaselineLine(specRR: seq<seq<real>>, specLL: seq<seq<real>>, ant1Str: string, ant2Str: string,
                      cw: real, ref: string)
    returns (line: Option<DelayRow>)
    requires cw != 0.0 && LagSpectra(specRR) && LagSpectra(specLL)
    ensures line == DelayRowFor(ant1Str, ant2Str, ref, Mean(PeakLags(specRR, cw)), Mean(PeakLags(specLL, cw)))
  {
    var delay0 := PeakLags(specRR, cw);
    var delay1 := PeakLags(specLL, cw);
    var antBase := [ant1Str, ant2Str];
    line := None;
    if ref in antBase {
      RemoveFromPair(ant1Str, ant2Str, ref);
      var antNew := RemoveFirst(antBase, ref)[0];
      if ant1Str == ref && ant2Str == ref {
        return Some(DelayRow(antNew, Mean(delay0), Mean(delay1)));
      }
      if ant1Str == ref {
        line := Some(DelayRow(antNew, -Mean(delay0), -Mean(delay1)));
      }
      if ant2Str == ref {
        line := Some(DelayRow(antNew, Mean(delay0), Mean(delay1)));
      }
    }
  }

  lemma RemoveFromPair(a: string, b: string, x: string)
    requires x == a || x == b
    ensures RemoveFirst([a, b], x) == [if a == x then b else a]
  {
  }

  // ---------------------------------------------------------------------
  // get_phases (calibrate_uvh5.py:606-643)
  // ---------------------------------------------------------------------

  /** Which antenna a baseline calibrates against the reference, and the
      sign its phase gets: +1 with the reference first, -1 with it second. */
  function Attribution(name1: string, name2: string, ref: string): Option<(string, int)> {
    if name1 == ref then Some((name2, 1))
    else if name2 == ref then Some((name1, -1))
    else None
  }

  /** A filled row of phase_vals: the antenna, the sign and the baseline it
      came from. */
  datatype PhaseRow = PhaseRow(calant: string, flip: int, bl: nat)

  /** The rows filled from the first nbl baselines, in baseline order. */
  function PhaseRows(names1: seq<string>, names2: seq<string>, ref: string, nbl: nat): (rows: seq<PhaseRow>)
    requires |names2| == |names1| && nbl <= |names1|
    ensures forall k :: 0 <= k < |rows| ==> rows[k].bl < nbl
  {
    if nbl == 0 then []
    else
      var prev := PhaseRows(names1, names2, ref, nbl - 1);
      match Attribution(names1[nbl - 1], names2[nbl - 1], ref)
      case Some(a) => prev + [PhaseRow(a.0, a.1, nbl - 1)]
      case None => prev
  }

  /** Each row comes from a baseline with the reference, carries the other
      antenna and the sign of the reference's position, and the rows follow
      the baseline order. */
  lemma {:induction false} PhaseRowsFromReference(names1: seq<string>, names2: seq<string>, ref: string, nbl: nat)
    requires |names2| == |names1| && nbl <= |names1|
    ensures var rows := PhaseRows(names1, names2, ref, nbl);
      && |rows| == RefBaselineCount(names1, names2, ref, nbl)
      && (forall k :: 0 <= k < |rows| ==>
            Attribution(names1[rows[k].bl], names2[rows[k].bl], ref) == Some((rows[k].calant, rows[k].flip)))
      && (forall k, l :: 0 <= k < l < |rows| ==> rows[k].bl < rows[l].bl)
  {
    if nbl > 0 {
      PhaseRowsFromReference(names1, names2, ref, nbl - 1);
    }
  }

  /** Every phase is reported as the reference relative to the other
      antenna: when a baseline's phase changes sign with its orientation,
      both orientations give the same value. */
  lemma PhaseOrientation(x: string, ref: string, theta: real)
    requires x != ref
    ensures Attribution(ref, x, ref) == Some((x, 1))
    ensures Attribution(x, ref, ref) == Some((x, -1))
    ensures Attribution(ref, x, ref).value.1 as real * theta == Attribution(x, ref, ref).value.1 as real * -theta
  {
  }

  /** The two functions use opposite sign conventions: for a baseline with
      the reference first and value v, get_res_delays reports -v and
      get_phases reports +v; with the reference second, the reverse. */
  lemma OppositeConventions(x: string, ref: string, v: real)
    requires x != ref
    ensures DelayRowFor(ref, x, ref, v, v).value.pol0 == -v
    ensures Attribution(ref, x, ref).value.1 as real * v == v
    ensures DelayRowFor(x, ref, ref, v, v).value.pol0 == v
    ensures Attribution(x, ref, ref).value.1 as real * v == -v
  {
    DelayRowAttribution(ref, x, ref, v, v);
    DelayRowAttribution(x, ref, ref, v, v);
  }

  /** The phases of the time-averaged baseline in the two polarisations
      used, channel by channel. */
  predicate PhaseInputs<T>(ant1: seq<T>, ant2: seq<T>, angle0: seq<seq<real>>, angle1: seq<seq<real>>, nchan: nat) {
    |ant2| == |ant1| && |angle0| == |ant1| && |angle1| == |ant1|
    && forall bl :: 0 <= bl < |ant1| ==> |angle0[bl]| == nchan && |angle1[bl]| == nchan
  }

  datatype PhaseError = RowIndexOutOfRange

  /** get_phases: rows fill consecutively from counter n; a baseline with
      the reference once all nant rows are taken fails as numpy's
      IndexError. On success every row beyond the filled ones keeps the
      name "" and zero phases. */
  method GetPhases(ant1: seq<nat>, ant2: seq<nat>, angle0: seq<seq<real>>, angle1: seq<seq<real>>,
                   nant: nat, nchan: nat, ref: string)
    returns (r: Result<seq<string>, PhaseError>, phaseVals: array3<real>)
    requires PhaseInputs(ant1, ant2, angle0, angle1, nchan)
    ensures fresh(phaseVals)
    ensures phaseVals.Length0 == nant && phaseVals.Length1 == 2 && phaseVals.Length2 == nchan
    ensures var rows := PhaseRows(AntNames(ant1), AntNames(ant2), ref, |ant1|);
      && (r.Err? <==> |rows| > nant)
      && (r.Ok? ==>
            && |r.value| == nant
            && (forall k :: 0 <= k < nant ==> r.value[k] == if k < |rows| then rows[k].calant else "")
            && (forall k, c :: 0 <= k < nant && 0 <= c < nchan ==>
                  phaseVals[k, 0, c] == RowPhase(rows, angle0, k, c) && phaseVals[k, 1, c] == RowPhase(rows, angle1, k, c)))
  {
    var names1, names2 := AntNames(ant1), AntNames(ant2);
    r, phaseVals := PhaseTable(names1, names2, angle0, angle1, nant, nchan, ref);
  }

  /** The loop of get_phases over the baselines' antenna names. */
  method PhaseTable(names1: seq<string>, names2: seq<string>, angle0: seq<seq<real>>, angle1: seq<seq<real>>,
                   nant: nat, nchan: nat, ref: string)
    returns (r: Result<seq<string>, PhaseError>, phaseVals: array3<real>)
    requires PhaseInputs(names1, names2, angle0, angle1, nchan)
    ensures fresh(phaseVals)
    ensures phaseVals.Length0 == nant && phaseVals.Length1 == 2 && phaseVals.Length2 == nchan
    ensures var rows := PhaseRows(names1, names2, ref, |names1|);
      && (r.Err? <==> |rows| > nant)
      && (r.Ok? ==> TableHolds(phaseVals, r.value, rows, angle0, angle1))
  {
    var antNames;
    phaseVals, antNames := EmptyTable(nant, nchan, angle0, angle1);
    var n := 0;
    ghost var rows: seq<PhaseRow> := [];
    var bl := 0;
    while bl < |names1|
      invariant 0 <= bl <= |names1|
      invariant rows == PhaseRows(names1, names2, ref, bl)
      invariant n == |rows|
      invariant TableHolds(phaseVals, antNames, rows, angle0, angle1)
    {
      var full;
      antNames, rows, n, full := PhaseStep(phaseVals, antNames, rows, n, names1, names2, angle0, angle1, ref, bl);
      if full {
        return Err(RowIndexOutOfRange), phaseVals;
      }
      bl := bl + 1;
    }
    r := Ok(antNames);
  }

  /** One baseline of the loop: a baseline without the reference is
      skipped; otherwise the next row is filled, or, when all rows are
      taken, the loop stops (full) because the table overflows. */
  method PhaseStep(phaseVals: array3<real>, antNames: seq<string>, ghost rows: seq<PhaseRow>, n: nat,
                   names1: seq<string>, names2: seq<string>, angle0: seq<seq<real>>, angle1: seq<seq<real>>,
                   ref: string, bl: nat)
    returns (names: seq<string>, ghost rows1: seq<PhaseRow>, n1: nat, full: bool)
    requires PhaseInputs(names1, names2, angle0, angle1, phaseVals.Length2) && bl < |names1|
    requires rows == PhaseRows(names1, names2, ref, bl) && n == |rows|
    requires TableHolds(phaseVals, antNames, rows, angle0, angle1)
    modifies phaseVals
    ensures full ==> |PhaseRows(names1, names2, ref, |names1|)| > phaseVals.Length0
    ensures !full ==> rows1 == PhaseRows(names1, names2, ref, bl + 1) && n1 == |rows1|
                      && TableHolds(phaseVals, names, rows1, angle0, angle1)
  {
    assert |angle0[bl]| == phaseVals.Length2 && |angle1[bl]| == phaseVals.Length2;
    names, rows1, n1, full := antNames, rows, n, false;
    PhaseRowsStep(names1, names2, ref, bl);
    var att := RefPosition(names1[bl], names2[bl], ref);
    if att.Some? {
      var row := PhaseRow(att.value.0, att.value.1, bl);
      if n >= phaseVals.Length0 {
        PhaseRowsGrow(names1, names2, ref, bl + 1);
        return names, rows1, n1, true;
      }
      names := AddRow(phaseVals, antNames, rows, n, row, angle0, angle1);
      rows1 := rows + [row];
      n1 := n + 1;
    }
  }

  /** phase_vals and ant_names hold exactly the rows in rows, in order, and
      the initial "" and zeros beyond them. */
  ghost predicate TableHolds(phaseVals: array3<real>, antNames: seq<string>, rows: seq<PhaseRow>,
                             angle0: seq<seq<real>>, angle1: seq<seq<real>>)
    reads phaseVals
  {
    && phaseVals.Length1 == 2 && |antNames| == phaseVals.Length0 && |rows| <= phaseVals.Length0
    && (forall j :: 0 <= j < |rows| ==>
          && rows[j].bl < |angle0| && |angle0[rows[j].bl]| == phaseVals.Length2
          && rows[j].bl < |angle1| && |angle1[rows[j].bl]| == phaseVals.Length2)
    && (forall k :: 0 <= k < |antNames| ==> antNames[k] == if k < |rows| then rows[k].calant else "")
    && (forall k, c :: 0 <= k < phaseVals.Length0 && 0 <= c < phaseVals.Length2 ==>
          phaseVals[k, 0, c] == RowPhase(rows, angle0, k, c) && phaseVals[k, 1, c] == RowPhase(rows, angle1, k, c))
  }

  /** phase_vals before the loop: nant rows of zero phases, every name "". */
  method EmptyTable(nant: nat, nchan: nat, angle0: seq<seq<real>>, angle1: seq<seq<real>>)
    returns (phaseVals: array3<real>, antNames: seq<string>)
    ensures fresh(phaseVals)
    ensures phaseVals.Length0 == nant && phaseVals.Length1 == 2 && phaseVals.Length2 == nchan
    ensures TableHolds(phaseVals, antNames, [], angle0, angle1)
  {
    phaseVals := new real[nant, 2, nchan]((_, _, _) => 0.0);
    antNames := seq(nant, _ => "");
  }

  /** Fills row |rows| of phase_vals and ant_names from one more baseline. */
  method AddRow(phaseVals: array3<real>, antNames: seq<string>, ghost rows: seq<PhaseRow>, n: nat, row: PhaseRow,
                angle0: seq<seq<real>>, angle1: seq<seq<real>>)
    returns (names: seq<string>)
    requires TableHolds(phaseVals, antNames, rows, angle0, angle1) && n == |rows| < phaseVals.Length0
    requires row.bl < |angle0| && |angle0[row.bl]| == phaseVals.Length2
    requires row.bl < |angle1| && |angle1[row.bl]| == phaseVals.Length2
    modifies phaseVals
    ensures TableHolds(phaseVals, names, rows + [row], angle0, angle1)
  {
    FillRow(phaseVals, n, row.flip, angle0[row.bl], angle1[row.bl]);
    names := antNames[n := row.calant];
    RowPhaseStep(rows, row, angle0, phaseVals.Length2);
    RowPhaseStep(rows, row, angle1, phaseVals.Length2);
  }

  /** The branch on the reference's position in one baseline. */
  method RefPosition(antname1: string, antname2: string, ref: string) returns (att: Option<(string, int)>)
    ensures att == Attribution(antname1, antname2, ref)
  {
    if antname1 == ref {
      att := Some((antname2, 1));
    } else if antname2 == ref {
      att := Some((antname1, -1));
    } else {
      att := None;
    }
  }

  lemma PhaseRowsStep(names1: seq<string>, names2: seq<string>, ref: string, bl: nat)
    requires |names2| == |names1| && bl < |names1|
    ensures var a := Attribution(names1[bl], names2[bl], ref);
      PhaseRows(names1, names2, ref, bl + 1)
      == PhaseRows(names1, names2, ref, bl) + (if a.Some? then [PhaseRow(a.value.0, a.value.1, bl)] else [])
  {
  }

  /** Appending a row sets the values of row |rows| and keeps the others. */
  lemma RowPhaseStep(rows: seq<PhaseRow>, row: PhaseRow, angle: seq<seq<real>>, nchan: nat)
    requires forall j :: 0 <= j < |rows| ==> rows[j].bl < |angle| && |angle[rows[j].bl]| == nchan
    requires row.bl < |angle| && |angle[row.bl]| == nchan
    ensures forall k, c :: 0 <= k && 0 <= c < nchan ==>
      RowPhase(rows + [row], angle, k, c)
      == if k == |rows| then row.flip as real * angle[row.bl][c] else RowPhase(rows, angle, k, c)
  {
  }

  /** The value phase_vals holds at row k, channel c once the rows in rows
      are filled: flip times the angle of the row's baseline, or 0 for a row
      never filled. */
  function RowPhase(rows: seq<PhaseRow>, angle: seq<seq<real>>, k: nat, c: nat): real
    requires forall j :: 0 <= j < |rows| ==> rows[j].bl < |angle| && c < |angle[rows[j].bl]|
  {
    if k < |rows| then rows[k].flip as real * angle[rows[k].bl][c] else 0.0
  }

  /** The rows never shrink as baselines are added. */
  lemma {:induction false} PhaseRowsGrow(names1: seq<string>, names2: seq<string>, ref: string, nbl: nat)
    requires |names2| == |names1| && nbl <= |names1|
    ensures |PhaseRows(names1, names2, ref, nbl)| <= |PhaseRows(names1, names2, ref, |names1|)|
    decreases |names1| - nbl
  {
    if nbl < |names1| {
      PhaseRowsGrow(names1, names2, ref, nbl + 1);
    }
  }

  /** phase_vals[n, 0] = flip * angle0; phase_vals[n, 1] = flip * angle1;
      every other row is untouched. */
  method FillRow(phaseVals: array3<real>, n: nat, flip: int, angle0: seq<real>, angle1: seq<real>)
    requires n < phaseVals.Length0 && phaseVals.Length1 == 2
    requires |angle0| == phaseVals.Length2 && |angle1| == phaseVals.Length2
    modifies phaseVals
    ensures forall c :: 0 <= c < phaseVals.Length2 ==>
      phaseVals[n, 0, c] == flip as real * angle0[c] && phaseVals[n, 1, c] == flip as real * angle1[c]
    ensures forall k, p, c :: 0 <= k < phaseVals.Length0 && 0 <= p < 2 && 0 <= c < phaseVals.Length2 && k != n ==>
      phaseVals[k, p, c] == old(phaseVals[k, p, c])
  {
    forall c | 0 <= c < phaseVals.Length2 {
      phaseVals[n, 0, c] := flip as real * angle0[c];
    }
    forall c | 0 <= c < phaseVals.Length2 {
      phaseVals[n, 1, c] := flip as real * angle1[c];
    }
  }
}
