/** applycal of calib_util.py: divide every baseline of the data by the gains
    of its two antennas, in place. The data is a two-dimensional array whose
    first axis is the baseline and whose second axis collects every other
    axis (time, frequency, polarisation); the gains are one row per antenna
    over the same samples. */
module ApplyCal {
  import opened ComplexArith
  import opened BaselineTable

  /** The inverse gain of one antenna: 1/g, or |g|/g when only the phase is
      corrected; a non-finite inverse (g == 0) becomes 0. */
  function InverseGain(sqrt: real -> real, g: Complex, phaseOnly: bool): (r: Complex)
    requires IsSqrt(sqrt)
    ensures g == Zero ==> r == Zero
    ensures g != Zero && !phaseOnly ==> Mul(g, r) == One
    ensures g != Zero && phaseOnly ==> Mul(g, r) == Complex(Abs(sqrt, g), 0.0) && Norm2(r) == 1.0
  {
    if phaseOnly then PhaseConj(sqrt, g) else Recip(g)
  }

  /** calfac = icaldata[a1] * conj(icaldata[a2]) for one sample. */
  function CalFactor(sqrt: real -> real, cal: seq<seq<Complex>>, p: Pair, s: nat, phaseOnly: bool): Complex
    requires IsSqrt(sqrt)
    requires p.0 < |cal| && p.1 < |cal| && s < |cal[p.0]| && s < |cal[p.1]|
  {
    Mul(InverseGain(sqrt, cal[p.0][s], phaseOnly), Conj(InverseGain(sqrt, cal[p.1][s], phaseOnly)))
  }

  datatype Outcome = Applied | AntennaMismatch

  /** The antenna indices of the first nbl baselines lie inside the gain
      table, and every gain row covers the data's samples. */
  ghost predicate Fits(cal: seq<seq<Complex>>, antIndices: seq<Pair>, nbl: nat, nsamp: nat) {
    nbl <= |antIndices|
    && (forall k :: 0 <= k < nbl ==> antIndices[k].0 < |cal| && antIndices[k].1 < |cal|)
    && (forall a :: 0 <= a < |cal| ==> |cal[a]| == nsamp)
  }

  /** With as many gain rows as the caller expects, every sample of every
      baseline is multiplied by its calibration factor; otherwise the data is
      left alone and the antenna-count error is reported. */
  method ApplyCalibration(data: array2<Complex>, cal: seq<seq<Complex>>, nantCheck: nat,
                          antIndices: seq<Pair>, phaseOnly: bool, sqrt: real -> real)
    returns (r: Outcome)
    requires IsSqrt(sqrt)
    requires |cal| == nantCheck ==> Fits(cal, antIndices, data.Length0, data.Length1)
    modifies data
    ensures |cal| != nantCheck ==> r == AntennaMismatch && unchanged(data)
    ensures |cal| == nantCheck ==> r == Applied
    ensures |cal| == nantCheck ==>
      forall b, s :: 0 <= b < data.Length0 && 0 <= s < data.Length1 ==>
        data[b, s] == Mul(old(data[b, s]), CalFactor(sqrt, cal, antIndices[b], s, phaseOnly))
  {
    if |cal| != nantCheck {
      return AntennaMismatch;
    }
    var b := 0;
    while b < data.Length0
      invariant 0 <= b <= data.Length0
      invariant forall b', s :: 0 <= b' < b && 0 <= s < data.Length1 ==>
        data[b', s] == Mul(old(data[b', s]), CalFactor(sqrt, cal, antIndices[b'], s, phaseOnly))
      invariant forall b', s :: b <= b' < data.Length0 && 0 <= s < data.Length1 ==>
        data[b', s] == old(data[b', s])
    {
      var p := antIndices[b];
      var calfac := seq(data.Length1, s requires 0 <= s < data.Length1 => CalFactor(sqrt, cal, p, s, phaseOnly));
      ScaleRow(data, b, calfac);
      b := b + 1;
    }
    r := Applied;
  }

  /** data[b, :] *= calfac: one baseline row times a vector of factors;
      every other row is untouched. */
  method ScaleRow(data: array2<Complex>, b: nat, calfac: seq<Complex>)
    requires b < data.Length0 && |calfac| == data.Length1
    modifies data
    ensures forall s :: 0 <= s < data.Length1 ==> data[b, s] == Mul(old(data[b, s]), calfac[s])
    ensures forall b', s :: 0 <= b' < data.Length0 && 0 <= s < data.Length1 && b' != b ==>
      data[b', s] == old(data[b', s])
  {
    var s := 0;
    while s < data.Length1
      invariant 0 <= s <= data.Length1
      invariant forall s' :: 0 <= s' < s ==> data[b, s'] == Mul(old(data[b, s']), calfac[s'])
      invariant forall b', s' :: 0 <= b' < data.Length0 && 0 <= s' < data.Length1 && (b' != b || s <= s') ==>
        data[b', s'] == old(data[b', s'])
    {
      data[b, s] := Mul(data[b, s], calfac[s]);
      s := s + 1;
    }
  }

  /** Data corrupted by the gains, V * g1 * conj(g2), is restored to V by
      the full calibration when both gains are non-zero. */
  lemma CalibrationUndoesGains(sqrt: real -> real, g1: Complex, g2: Complex, v: Complex)
    requires IsSqrt(sqrt)
    requires g1 != Zero && g2 != Zero
    ensures Mul(Mul(Mul(g1, Conj(g2)), v),
                Mul(InverseGain(sqrt, g1, false), Conj(InverseGain(sqrt, g2, false)))) == v
  {
    var i1 := InverseGain(sqrt, g1, false);
    var i2 := InverseGain(sqrt, g2, false);
    calc {
      Mul(Mul(Mul(g1, Conj(g2)), v), Mul(i1, Conj(i2)));
      == { MulComm(Mul(g1, Conj(g2)), v); MulAssoc(v, Mul(g1, Conj(g2)), Mul(i1, Conj(i2))); }
      Mul(v, Mul(Mul(g1, Conj(g2)), Mul(i1, Conj(i2))));
      == { Rearrange(g1, Conj(g2), i1, Conj(i2)); }
      Mul(v, Mul(Mul(g1, i1), Mul(Conj(g2), Conj(i2))));
      == { assert Mul(g1, i1) == One; }
      Mul(v, Mul(One, Mul(Conj(g2), Conj(i2))));
      == { ConjMul(g2, i2); assert Mul(g2, i2) == One; }
      Mul(v, Mul(One, Conj(One)));
      == { MulOne(One); MulOne(v); }
      v;
    }
  }

  /** Phase-only calibration removes the gains' phases and keeps their
      amplitudes: the result is V scaled by |g1| * |g2|. */
  lemma PhaseCalibrationKeepsAmplitudes(sqrt: real -> real, g1: Complex, g2: Complex, v: Complex)
    requires IsSqrt(sqrt)
    requires g1 != Zero && g2 != Zero
    ensures Mul(Mul(Mul(g1, Conj(g2)), v),
                Mul(InverseGain(sqrt, g1, true), Conj(InverseGain(sqrt, g2, true))))
            == Scale(Abs(sqrt, g1) * Abs(sqrt, g2), v)
  {
    var i1 := InverseGain(sqrt, g1, true);
    var i2 := InverseGain(sqrt, g2, true);
    var r1 := Abs(sqrt, g1);
    var r2 := Abs(sqrt, g2);
    calc {
      Mul(Mul(Mul(g1, Conj(g2)), v), Mul(i1, Conj(i2)));
      == { MulComm(Mul(g1, Conj(g2)), v); MulAssoc(v, Mul(g1, Conj(g2)), Mul(i1, Conj(i2))); }
      Mul(v, Mul(Mul(g1, Conj(g2)), Mul(i1, Conj(i2))));
      == { Rearrange(g1, Conj(g2), i1, Conj(i2)); }
      Mul(v, Mul(Mul(g1, i1), Mul(Conj(g2), Conj(i2))));
      == { ConjMul(g2, i2); }
      Mul(v, Mul(Complex(r1, 0.0), Conj(Complex(r2, 0.0))));
      == { RealProduct(r1, r2); }
      Mul(v, Complex(r1 * r2, 0.0));
      ==
      Scale(r1 * r2, v);
    }
  }

  lemma RealProduct(x: real, y: real)
    ensures Mul(Complex(x, 0.0), Conj(Complex(y, 0.0))) == Complex(x * y, 0.0)
  {
  }

  /** A baseline with a zero (flagged) gain on either antenna is zeroed. */
  lemma ZeroGainZeroesBaseline(sqrt: real -> real, cal: seq<seq<Complex>>, p: Pair, s: nat, phaseOnly: bool)
    requires IsSqrt(sqrt)
    requires p.0 < |cal| && p.1 < |cal| && s < |cal[p.0]| && s < |cal[p.1]|
    requires cal[p.0][s] == Zero || cal[p.1][s] == Zero
    ensures CalFactor(sqrt, cal, p, s, phaseOnly) == Zero
  {
    var i1 := InverseGain(sqrt, cal[p.0][s], phaseOnly);
    var i2 := InverseGain(sqrt, cal[p.1][s], phaseOnly);
    if cal[p.0][s] == Zero {
      assert i1 == Zero;
      ZeroMul(Conj(i2));
    } else {
      assert i2 == Zero;
      MulByZero(i1);
    }
  }
}
