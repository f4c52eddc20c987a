/** The sliding-median RFI flagger of sliding_rfi_flagger.py and flag_spectrum
    of calibrate_uvh5.py. A smoothed bandpass is the median of a window of
    channels around each channel; channels whose distance from that model
    deviates from the median distance by more than clip MADs are flagged. */
module RfiFlagger {
  import opened ComplexArith
  import opened Stats

  // ---------------------------------------------------------------------
  // Window bounds (sliding_rfi_flagger.py:17-18, 38-39, 69-70)
  // ---------------------------------------------------------------------

  /** int(max([0, i - winSize/2])): true division, then truncation toward
      zero of a value that max has made non-negative. */
  function WinLow(i: nat, w: nat): (lo: nat)
    ensures lo == if i >= (w + 1) / 2 then i - (w + 1) / 2 else 0
  {
    var x := i as real - w as real / 2.0;
    var m := if 0.0 >= x then 0.0 else x;
    var lo := m.Floor;
    assert lo == if i >= (w + 1) / 2 then i - (w + 1) / 2 else 0 by {
      LowFloor(i, w);
    }
    lo
  }

  lemma LowFloor(i: nat, w: nat)
    ensures var x := i as real - w as real / 2.0;
      (if 0.0 >= x then 0.0 else x).Floor == if i >= (w + 1) / 2 then i - (w + 1) / 2 else 0
  {
    var x := i as real - w as real / 2.0;
    var h := (w + 1) / 2;
    if w % 2 == 0 {
      assert w as real / 2.0 == (w / 2) as real;
      assert x == (i - w / 2) as real;
    } else {
      assert w as real / 2.0 == h as real - 0.5;
      assert x == (i - h) as real + 0.5;
    }
  }

  /** int(min([i + winSize/2 + 1, n])). */
  function WinHigh(i: nat, w: nat, n: nat): (hi: nat)
    ensures hi == if i + w / 2 + 1 <= n then i + w / 2 + 1 else n
  {
    var x := i as real + w as real / 2.0 + 1.0;
    var m := if x <= n as real then x else n as real;
    HighFloor(i, w, n);
    m.Floor
  }

  lemma HighFloor(i: nat, w: nat, n: nat)
    ensures var x := i as real + w as real / 2.0 + 1.0;
      (if x <= n as real then x else n as real).Floor == if i + w / 2 + 1 <= n then i + w / 2 + 1 else n
  {
    var x := i as real + w as real / 2.0 + 1.0;
    if w % 2 == 0 {
      assert w as real / 2.0 == (w / 2) as real;
      assert x == (i + w / 2 + 1) as real;
    } else {
      assert w as real / 2.0 == (w / 2) as real + 0.5;
      assert x == (i + w / 2 + 1) as real + 0.5;
    }
  }

  /** Every window is a non-empty slice that contains its channel and is
      clipped at the band edges. */
  lemma WindowBounds(i: nat, w: nat, n: nat)
    requires i < n
    ensures 0 <= WinLow(i, w) <= i < WinHigh(i, w, n) <= n
  {
  }

  /** Away from the band edges a window holds winSize + 1 channels, for odd
      and even winSize alike. */
  lemma InteriorWindow(i: nat, w: nat, n: nat)
    requires (w + 1) / 2 <= i && i + w / 2 + 1 <= n
    ensures WinHigh(i, w, n) - WinLow(i, w) == w + 1
  {
  }

  // ---------------------------------------------------------------------
  // Smoothed bandpass (sliding_rfi_flagger.py:13-19, 34-40)
  // ---------------------------------------------------------------------

  /** The median of the window around channel i. */
  function WindowMedian(spec: seq<real>, w: nat, i: nat): real
    requires i < |spec|
  {
    WindowBounds(i, w, |spec|);
    Median(spec[WinLow(i, w)..WinHigh(i, w, |spec|)])
  }

  /** The smoothed model of a whole spectrum. */
  function Smooth(spec: seq<real>, w: nat): (smth: seq<real>)
    ensures |smth| == |spec|
  {
    seq(|spec|, i requires 0 <= i < |spec| => WindowMedian(spec, w, i))
  }

  /** smth = spec * 0.0, then smth[i] = median of the window, channel by
      channel. */
  method SmoothModel(spec: seq<real>, w: nat) returns (smth: array<real>)
    ensures fresh(smth)
    ensures smth[..] == Smooth(spec, w)
  {
    smth := new real[|spec|](_ => 0.0);
    var i := 0;
    while i < |spec|
      invariant 0 <= i <= |spec|
      invariant smth.Length == |spec|
      invariant smth[..i] == Smooth(spec, w)[..i]
    {
      smth[i] := WindowValue(spec, w, i);
      i := i + 1;
    }
    assert smth[..] == smth[..|spec|];
  }

  /** One channel of the model: the clipped bounds mn and mx, then the
      median of spec[mn:mx]. */
  method WindowValue(spec: seq<real>, w: nat, i: nat) returns (v: real)
    requires i < |spec|
    ensures v == WindowMedian(spec, w, i)
  {
    WindowBounds(i, w, |spec|);
    var mn := WinLow(i, w);
    var mx := WinHigh(i, w, |spec|);
    v := Median(spec[mn..mx]);
  }

  /** Each model value lies within the range of the spectrum over its
      window. */
  lemma SmoothWithinWindow(spec: seq<real>, w: nat, i: nat, lo: real, hi: real)
    requires i < |spec|
    requires forall k :: WinLow(i, w) <= k < WinHigh(i, w, |spec|) ==> lo <= spec[k] <= hi
    ensures lo <= Smooth(spec, w)[i] <= hi
  {
    WindowBounds(i, w, |spec|);
    var win := spec[WinLow(i, w)..WinHigh(i, w, |spec|)];
    assert forall k :: 0 <= k < |win| ==> win[k] == spec[WinLow(i, w) + k];
    MedianWithin(win, lo, hi);
  }

  /** A constant spectrum is its own model. */
  lemma SmoothOfConstant(spec: seq<real>, w: nat, c: real)
    requires forall k :: 0 <= k < |spec| ==> spec[k] == c
    ensures forall i :: 0 <= i < |spec| ==> Smooth(spec, w)[i] == c
  {
    forall i | 0 <= i < |spec| ensures Smooth(spec, w)[i] == c {
      SmoothWithinWindow(spec, w, i, c, c);
    }
  }

  // ---------------------------------------------------------------------
  // Threshold selection (sliding_rfi_flagger.py:22-29, 43-50, 74-82)
  // ---------------------------------------------------------------------

  /** numpy.argwhere on a one-dimensional mask: the indices that hold, in
      ascending order. */
  function Where(mask: seq<bool>): (idx: seq<nat>)
    ensures forall k :: k in idx <==> 0 <= k < |mask| && mask[k]
    ensures forall p, q :: 0 <= p < q < |idx| ==> idx[p] < idx[q]
  {
    if |mask| == 0 then []
    else
      var last := |mask| - 1;
      var init := Where(mask[..last]);
      assert forall p :: 0 <= p < |init| ==> init[p] < last by {
        forall p | 0 <= p < |init| ensures init[p] < last {
          assert init[p] in init;
        }
      }
      if mask[last] then init + [last] else init
  }

  /** The channels whose deviation from the median of diff exceeds clip
      times the spread, strictly. */
  function Outliers(diff: seq<real>, clip: real, spread: real): (bad: seq<nat>)
    requires |diff| > 0
    ensures forall k :: k in bad <==> 0 <= k < |diff| && RealAbs(diff[k] - Median(diff)) > clip * spread
    ensures forall p, q :: 0 <= p < q < |bad| ==> bad[p] < bad[q]
  {
    Above(diff, Median(diff), clip, spread)
  }

  /** argwhere(|diff - med| > clip * spread) for a centre med computed
      beforehand. */
  function Above(diff: seq<real>, med: real, clip: real, spread: real): (bad: seq<nat>)
    ensures forall k :: k in bad <==> 0 <= k < |diff| && RealAbs(diff[k] - med) > clip * spread
    ensures forall p, q :: 0 <= p < q < |bad| ==> bad[p] < bad[q]
  {
    Where(seq(|diff|, k requires 0 <= k < |diff| => RealAbs(diff[k] - med) > clip * spread))
  }

  /** spec - smth. */
  function Residual(spec: seq<real>, smth: seq<real>): (diff: seq<real>)
    requires |smth| == |spec|
    ensures |diff| == |spec|
    ensures forall k :: 0 <= k < |spec| ==> diff[k] == spec[k] - smth[k]
  {
    seq(|spec|, k requires 0 <= k < |spec| => spec[k] - smth[k])
  }

  /** What the flagger returns for a magnitude spectrum: nothing for an
      empty one, otherwise the outliers of spec - smth against clip MADs. */
  function Flags(spec: seq<real>, w: nat, clip: real): (bad: seq<nat>)
    ensures forall k :: k in bad ==> k < |spec|
  {
    if |spec| == 0 then []
    else
      var diff := Residual(spec, Smooth(spec, w));
      Outliers(diff, clip, Mad(diff))
  }

  lemma FlagsUnfold(spec: seq<real>, w: nat, clip: real)
    requires |spec| > 0
    ensures Flags(spec, w, clip) == Outliers(Residual(spec, Smooth(spec, w)), clip, Mad(Residual(spec, Smooth(spec, w))))
  {
  }

  /** Exactly the channels with |diff[k] - median(diff)| > clip * MAD(diff)
      are returned, each once, in ascending order. */
  lemma FlagsExactly(spec: seq<real>, w: nat, clip: real)
    requires |spec| > 0
    ensures var diff := Residual(spec, Smooth(spec, w));
      forall k :: k in Flags(spec, w, clip) <==>
        0 <= k < |spec| && RealAbs(diff[k] - Median(diff)) > clip * Mad(diff)
    ensures forall p, q :: 0 <= p < q < |Flags(spec, w, clip)| ==> Flags(spec, w, clip)[p] < Flags(spec, w, clip)[q]
  {
    FlagsUnfold(spec, w, clip);
  }

  /** A residual that is zero everywhere has no outliers when clip times
      the spread is not negative. */
  lemma NoOutliersInZeros(diff: seq<real>, clip: real, spread: real)
    requires |diff| > 0 && clip * spread >= 0.0
    requires forall k :: 0 <= k < |diff| ==> diff[k] == 0.0
    ensures Outliers(diff, clip, spread) == []
  {
    MedianOfConstant(diff, 0.0);
    var f := Outliers(diff, clip, spread);
    assert forall k :: k !in f;
    EmptyWithoutMembers(f);
  }

  lemma EmptyWithoutMembers(s: seq<nat>)
    requires forall k :: k !in s
    ensures s == []
  {
    if s != [] {
      FirstIsMember(s);
      assert false;
    }
  }

  lemma FirstIsMember(s: seq<nat>)
    requires |s| > 0
    ensures s[0] in s
  {
  }

  /** A flat spectrum has no outliers: its model is itself, the residual is
      zero and the strict threshold is never crossed. */
  lemma ConstantSpectrumUnflagged(spec: seq<real>, w: nat, clip: real, c: real)
    requires forall k :: 0 <= k < |spec| ==> spec[k] == c
    ensures Flags(spec, w, clip) == []
  {
    if |spec| > 0 {
      SmoothOfConstant(spec, w, c);
      ZeroResidual(spec, Smooth(spec, w));
      FlatResidualUnflagged(spec, w, clip);
    }
  }

  lemma FlatResidualUnflagged(spec: seq<real>, w: nat, clip: real)
    requires |spec| > 0
    requires forall k :: 0 <= k < |spec| ==> Residual(spec, Smooth(spec, w))[k] == 0.0
    ensures Flags(spec, w, clip) == []
  {
    FlagsUnfold(spec, w, clip);
    ZeroSpreadUnflagged(Residual(spec, Smooth(spec, w)), clip);
  }

  /** With an all-zero residual the MAD is 0, so clip * MAD is 0 and the
      strict test never holds. */
  lemma ZeroSpreadUnflagged(diff: seq<real>, clip: real)
    requires |diff| > 0
    requires forall k :: 0 <= k < |diff| ==> diff[k] == 0.0
    ensures Outliers(diff, clip, Mad(diff)) == []
  {
    MadOfConstant(diff, 0.0);
    ZeroScaledSpread(diff, clip, Mad(diff));
  }

  lemma ZeroScaledSpread(diff: seq<real>, clip: real, spread: real)
    requires |diff| > 0 && spread == 0.0
    requires forall k :: 0 <= k < |diff| ==> diff[k] == 0.0
    ensures Outliers(diff, clip, spread) == []
  {
    TimesZero(clip, spread);
    NoOutliersInZeros(diff, clip, spread);
  }

  lemma TimesZero(c: real, z: real)
    requires z == 0.0
    ensures c * z == 0.0
  {
  }

  lemma ZeroResidual(spec: seq<real>, smth: seq<real>)
    requires |smth| == |spec|
    requires forall k :: 0 <= k < |spec| ==> smth[k] == spec[k]
    ensures forall k :: 0 <= k < |spec| ==> Residual(spec, smth)[k] == 0.0
  {
  }

  /** |data[k]| for every channel. */
  function Magnitudes(sqrt: real -> real, data: seq<Complex>): (spec: seq<real>)
    requires IsSqrt(sqrt)
    ensures |spec| == |data|
    ensures forall k :: 0 <= k < |data| ==> spec[k] == Abs(sqrt, data[k])
  {
    seq(|data|, k requires 0 <= k < |data| => Abs(sqrt, data[k]))
  }

  /** flag_rfi and flag_rfi_real, which have the same body: the flags of the
      magnitude spectrum. */
  method FlagRfi(data: seq<Complex>, w: nat, clip: real, sqrt: real -> real) returns (bad: seq<nat>)
    requires IsSqrt(sqrt)
    ensures bad == Flags(Magnitudes(sqrt, data), w, clip)
  {
    var spec := Magnitudes(sqrt, data);
    var smth := SmoothModel(spec, w);
    if |spec| == 0 {
      return [];
    }
    var diff := Residual(spec, smth[..]);
    var sigMd := Mad(diff);
    bad := Outliers(diff, clip, sigMd);
  }

  // ---------------------------------------------------------------------
  // Per-polarisation flagging (sliding_rfi_flagger.py:54-85)
  // ---------------------------------------------------------------------

  /** Column p of a channel x polarisation table. */
  function Column(data: seq<seq<real>>, p: nat): (col: seq<real>)
    requires forall i :: 0 <= i < |data| ==> p < |data[i]|
    ensures |col| == |data|
    ensures forall i :: 0 <= i < |data| ==> col[i] == data[i][p]
  {
    seq(|data|, i requires 0 <= i < |data| => data[i][p])
  }

  /** Every row of a channel x polarisation table has npol entries. */
  predicate Rectangular(data: seq<seq<real>>, npol: nat) {
    forall i :: 0 <= i < |data| ==> |data[i]| == npol
  }

  /** The flags of one column, against that column's own median and |MAD|;
      an empty column has no channel to flag. */
  function ColumnFlags(data: seq<seq<real>>, npol: nat, p: nat, w: nat, clip: real): seq<nat>
    requires Rectangular(data, npol) && p < npol
  {
    if |data| == 0 then []
    else
      var col := Column(data, p);
      var diff := Residual(col, Smooth(col, w));
      Above(diff, Median(diff), clip, RealAbs(Mad(diff)))
  }

  lemma SmoothAt(spec: seq<real>, w: nat, i: nat)
    requires i < |spec|
    ensures Smooth(spec, w)[i] == WindowMedian(spec, w, i)
  {
  }

  /** smth = data * 0.0, then row i of smth = the column-wise median of the
      rows in channel i's window. */
  method PolModel(data: seq<seq<real>>, npol: nat, w: nat) returns (smth: array2<real>)
    requires Rectangular(data, npol)
    ensures fresh(smth) && smth.Length0 == |data| && smth.Length1 == npol
    ensures forall i, p :: 0 <= i < |data| && 0 <= p < npol ==> smth[i, p] == Smooth(Column(data, p), w)[i]
  {
    smth := new real[|data|, npol]((_, _) => 0.0);
    var i := 0;
    while i < |data|
      invariant 0 <= i <= |data|
      invariant forall i', p :: 0 <= i' < i && 0 <= p < npol ==> smth[i', p] == WindowMedian(Column(data, p), w, i')
    {
      SmoothRow(data, npol, w, i, smth);
      i := i + 1;
    }
    forall i, p | 0 <= i < |data| && 0 <= p < npol
      ensures smth[i, p] == Smooth(Column(data, p), w)[i]
    {
      SmoothAt(Column(data, p), w, i);
    }
  }

  /** smth[i, :] = numpy.median(data[mn:mx, :], axis = 0); the other rows are
      untouched. */
  method SmoothRow(data: seq<seq<real>>, npol: nat, w: nat, i: nat, smth: array2<real>)
    requires Rectangular(data, npol) && i < |data|
    requires smth.Length0 == |data| && smth.Length1 == npol
    modifies smth
    ensures forall p :: 0 <= p < npol ==> smth[i, p] == WindowMedian(Column(data, p), w, i)
    ensures forall i', p :: 0 <= i' < |data| && 0 <= p < npol && i' != i ==> smth[i', p] == old(smth[i', p])
  {
    forall p | 0 <= p < npol {
      smth[i, p] := WindowMedian(Column(data, p), w, i);
    }
  }

  /** flag_rfi_complex_pol: the smoothed model and, for each polarisation,
      the flags of its column. The residual, its median and its MAD are
      taken column by column before the loop, as numpy does with axis = 0.
      A table without channels has no median (numpy gives NaN); 0.0 stands
      in for it, and no channel is ever compared against it. */
  method FlagRfiPol(data: seq<seq<real>>, npol: nat, w: nat, clip: real)
    returns (badChans: map<nat, seq<nat>>, smth: array2<real>)
    requires Rectangular(data, npol)
    ensures fresh(smth) && smth.Length0 == |data| && smth.Length1 == npol
    ensures forall i, p :: 0 <= i < |data| && 0 <= p < npol ==> smth[i, p] == Smooth(Column(data, p), w)[i]
    ensures forall p: nat :: p in badChans <==> p < npol
    ensures forall p :: 0 <= p < npol ==> badChans[p] == ColumnFlags(data, npol, p, w, clip)
  {
    smth := PolModel(data, npol, w);
    var diff := seq(npol, p requires 0 <= p < npol => Residual(Column(data, p), Smooth(Column(data, p), w)));
    var med := seq(npol, p requires 0 <= p < npol => if |data| == 0 then 0.0 else Median(diff[p]));
    var sigMd := seq(npol, p requires 0 <= p < npol => if |data| == 0 then 0.0 else Mad(diff[p]));
    badChans := ThresholdPols(diff, med, sigMd, clip);
    forall q | 0 <= q < npol
      ensures badChans[q] == ColumnFlags(data, npol, q, w, clip)
    {
      ColumnFlagsFrom(data, npol, q, w, clip, diff[q], med[q], sigMd[q]);
    }
  }

  /** The loop over polarisations: bad_chans[pol] = argwhere(|diff[:, pol] -
      med[pol]| > clip * |sig_md[pol]|). */
  method ThresholdPols(diff: seq<seq<real>>, med: seq<real>, sigMd: seq<real>, clip: real)
    returns (badChans: map<nat, seq<nat>>)
    requires |med| == |diff| && |sigMd| == |diff|
    ensures forall p: nat :: p in badChans <==> p < |diff|
    ensures forall p :: 0 <= p < |diff| ==> badChans[p] == Above(diff[p], med[p], clip, RealAbs(sigMd[p]))
  {
    badChans := map[];
    var p := 0;
    while p < |diff|
      invariant 0 <= p <= |diff|
      invariant forall q: nat :: q in badChans <==> q < p
      invariant forall q :: 0 <= q < p ==> badChans[q] == Above(diff[q], med[q], clip, RealAbs(sigMd[q]))
    {
      badChans := badChans[p := Above(diff[p], med[p], clip, RealAbs(sigMd[p]))];
      p := p + 1;
    }
  }

  lemma ColumnFlagsFrom(data: seq<seq<real>>, npol: nat, p: nat, w: nat, clip: real,
                        diff: seq<real>, med: real, sigMd: real)
    requires Rectangular(data, npol) && p < npol
    requires diff == Residual(Column(data, p), Smooth(Column(data, p), w))
    requires |data| > 0 ==> med == Median(diff) && sigMd == Mad(diff)
    ensures ColumnFlags(data, npol, p, w, clip) == Above(diff, med, clip, RealAbs(sigMd))
  {
    if |data| == 0 {
      EmptyWithoutMembers(Above(diff, med, clip, RealAbs(sigMd)));
    }
  }

  /** Since a MAD is never negative, each column is flagged exactly as
      `Flags` flags that column's own values. flag_rfi applies `Flags` to
      magnitudes, so the two agree only on non-negative columns. */
  lemma ColumnFlagsAsSpectrum(data: seq<seq<real>>, npol: nat, p: nat, w: nat, clip: real)
    requires Rectangular(data, npol) && p < npol
    ensures ColumnFlags(data, npol, p, w, clip) == Flags(Column(data, p), w, clip)
  {
  }

  // ---------------------------------------------------------------------
  // flag_spectrum (calibrate_uvh5.py:22-36)
  // ---------------------------------------------------------------------

  /** Flags the spectrum and zeroes the flagged channels in place. */
  method FlagSpectrum(spectrum: array<Complex>, win: nat, threshold: real, sqrt: real -> real)
    requires IsSqrt(sqrt)
    modifies spectrum
    ensures var bad := Flags(Magnitudes(sqrt, old(spectrum[..])), win, threshold);
      forall k :: 0 <= k < spectrum.Length ==>
        spectrum[k] == if k in bad then Zero else old(spectrum[k])
  {
    var bad := FlagRfi(spectrum[..], win, threshold, sqrt);
    forall k | 0 <= k < spectrum.Length && k in bad {
      spectrum[k] := Zero;
    }
  }
}
