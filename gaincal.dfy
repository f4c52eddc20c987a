/** The bookkeeping of gaincal_cpu in calib_util.py, for one (time, frequency,
    polarisation) slice: the source broadcasts every step over those axes and
    no step mixes two slices. The Hermitian eigensolver is a function value
    `eigh` that returns the largest eigenvalue and its eigenvector; sqrt is a
    function value that satisfies ComplexArith.IsSqrt. */
module GainCal {
  import opened ComplexArith
  import opened BaselineTable
  import opened Wrappers

  // ---------------------------------------------------------------------
  // Averaging that ignores exact zeros (calib_util.py:50-57)
  // ---------------------------------------------------------------------

  /** numpy.count_nonzero over one averaging cell. */
  function NonZeroCount(s: seq<Complex>): nat {
    if s == [] then 0 else NonZeroCount(s[..|s| - 1]) + (if s[|s| - 1] != Zero then 1 else 0)
  }

  /** The sum of one averaging cell. */
  function Sum(s: seq<Complex>): Complex {
    if s == [] then Zero else Add(Sum(s[..|s| - 1]), s[|s| - 1])
  }

  /** The sum divided by the number of non-zero samples, a count of 0 being
      replaced by 1. */
  function ZeroIgnoringMean(s: seq<Complex>): Complex {
    var norm := NonZeroCount(s);
    var norm' := if norm == 0 then 1 else norm;
    Scale(1.0 / norm' as real, Sum(s))
  }

  /** A cell whose samples are all 0 or v sums to (number of v's) * v. */
  lemma {:induction false} SumOfZerosAndValue(s: seq<Complex>, v: Complex)
    requires v != Zero
    requires forall k :: 0 <= k < |s| ==> s[k] == Zero || s[k] == v
    ensures Sum(s) == Scale(NonZeroCount(s) as real, v)
  {
    if s != [] {
      var init := s[..|s| - 1];
      SumOfZerosAndValue(init, v);
      var c := NonZeroCount(init) as real;
      if s[|s| - 1] == v {
        ScaleSucc(c, v);
      }
    }
  }

  lemma ScaleSucc(c: real, v: Complex)
    ensures Add(Scale(c, v), v) == Scale(c + 1.0, v)
  {
    assert (c + 1.0) * v.re == c * v.re + v.re;
    assert (c + 1.0) * v.im == c * v.im + v.im;
  }

  /** Zero samples are ignored: a cell holding only 0 and one value v, with v
      at least once, averages to exactly v. */
  lemma MeanIgnoresZeros(s: seq<Complex>, v: Complex)
    requires v != Zero
    requires forall k :: 0 <= k < |s| ==> s[k] == Zero || s[k] == v
    requires exists k :: 0 <= k < |s| && s[k] == v
    ensures ZeroIgnoringMean(s) == v
  {
    SumOfZerosAndValue(s, v);
    var k :| 0 <= k < |s| && s[k] == v;
    NonZeroCountPositive(s, k);
    var c := NonZeroCount(s) as real;
    assert c > 0.0;
    calc {
      ZeroIgnoringMean(s);
      == Scale(1.0 / c, Scale(c, v));
      == Complex((1.0 / c) * (c * v.re), (1.0 / c) * (c * v.im));
      == { assert (1.0 / c) * c == 1.0; }
      v;
    }
  }

  lemma {:induction false} NonZeroCountPositive(s: seq<Complex>, k: nat)
    requires k < |s| && s[k] != Zero
    ensures NonZeroCount(s) > 0
  {
    if k < |s| - 1 {
      NonZeroCountPositive(s[..|s| - 1], k);
    }
  }

  /** Zero samples added to a cell change neither its sum nor its count of
      non-zero samples. */
  lemma {:induction false} AddedZerosKeepSum(s: seq<Complex>, z: seq<Complex>)
    requires forall k :: 0 <= k < |z| ==> z[k] == Zero
    ensures NonZeroCount(s + z) == NonZeroCount(s) && Sum(s + z) == Sum(s)
    decreases |z|
  {
    if z == [] {
      assert s + z == s;
    } else {
      var z' := z[..|z| - 1];
      AddedZerosKeepSum(s, z');
      LastZero(s + z', Zero);
      assert s + z == (s + z') + [Zero];
    }
  }

  /** One zero sample at the end changes neither the sum nor the count. */
  lemma LastZero(s: seq<Complex>, zero: Complex)
    requires zero == Zero
    ensures NonZeroCount(s + [zero]) == NonZeroCount(s) && Sum(s + [zero]) == Sum(s)
  {
    var t := s + [zero];
    assert t[..|t| - 1] == s;
    AddZero(Sum(s));
  }

  lemma AddZero(a: Complex)
    ensures Add(a, Zero) == a
  {
  }

  /** So the zero-ignoring average of a cell is the same with zero samples
      added. */
  lemma MeanIgnoresAddedZeros(s: seq<Complex>, z: seq<Complex>)
    requires forall k :: 0 <= k < |z| ==> z[k] == Zero
    ensures ZeroIgnoringMean(s + z) == ZeroIgnoringMean(s)
  {
    AddedZerosKeepSum(s, z);
  }

  /** An all-zero cell averages to 0 instead of failing on a zero count. */
  lemma {:induction false} MeanOfZeros(s: seq<Complex>)
    requires forall k :: 0 <= k < |s| ==> s[k] == Zero
    ensures NonZeroCount(s) == 0 && Sum(s) == Zero
    ensures ZeroIgnoringMean(s) == Zero
  {
    if s != [] {
      MeanOfZeros(s[..|s| - 1]);
    }
  }

  // ---------------------------------------------------------------------
  // The antenna x antenna matrix (calib_util.py:58-66)
  // ---------------------------------------------------------------------

  /** Cell [a, b] after the first k baselines have been copied in: the
      latest baseline (a, b) or (b, a) with distinct antennas sets it, to the
      visibility or to its conjugate; nothing else touches it. */
  function Entry(vis: seq<Complex>, antIndices: seq<Pair>, k: nat, a: nat, b: nat): Complex
    requires k <= |vis| <= |antIndices|
  {
    if k == 0 then Zero
    else
      var p := antIndices[k - 1];
      if p.0 != p.1 && p == (a, b) then vis[k - 1]
      else if p.0 != p.1 && p == (b, a) then Conj(vis[k - 1])
      else Entry(vis, antIndices, k - 1, a, b)
  }

  /** Fills a zero matrix from the baseline-indexed slice, skipping autos. */
  method BuildMatrix(vis: seq<Complex>, nant: nat, antIndices: seq<Pair>) returns (t: array2<Complex>)
    requires |vis| <= |antIndices|
    requires forall k :: 0 <= k < |vis| && antIndices[k].0 != antIndices[k].1 ==> antIndices[k].0 < nant && antIndices[k].1 < nant
    ensures fresh(t) && t.Length0 == nant && t.Length1 == nant
    ensures forall a, b :: 0 <= a < nant && 0 <= b < nant ==> t[a, b] == Entry(vis, antIndices, |vis|, a, b)
  {
    t := new Complex[nant, nant]((_, _) => Zero);
    var i := 0;
    while i < |vis|
      invariant 0 <= i <= |vis|
      invariant forall a, b :: 0 <= a < nant && 0 <= b < nant ==> t[a, b] == Entry(vis, antIndices, i, a, b)
    {
      var a0, a1 := antIndices[i].0, antIndices[i].1;
      if a0 != a1 {
        PlacePair(t, a0, a1, vis[i]);
      }
      i := i + 1;
    }
  }

  /** tdata[a0, a1] = x; tdata[a1, a0] = conj(x). */
  method PlacePair(t: array2<Complex>, a0: nat, a1: nat, x: Complex)
    requires a0 < t.Length0 && a1 < t.Length0 && t.Length0 == t.Length1 && a0 != a1
    modifies t
    ensures forall a, b :: 0 <= a < t.Length0 && 0 <= b < t.Length1 ==>
      t[a, b] == if (a, b) == (a0, a1) then x else if (a, b) == (a1, a0) then Conj(x) else old(t[a, b])
  {
    t[a0, a1] := x;
    t[a1, a0] := Conj(x);
  }

  /** Autos are skipped: the diagonal starts at zero. */
  lemma {:induction false} EntryDiagonalZero(vis: seq<Complex>, antIndices: seq<Pair>, k: nat, a: nat)
    requires k <= |vis| <= |antIndices|
    ensures Entry(vis, antIndices, k, a, a) == Zero
  {
    if k > 0 {
      EntryDiagonalZero(vis, antIndices, k - 1, a);
    }
  }

  /** The matrix is Hermitian: [b, a] is the conjugate of [a, b]. */
  lemma {:induction false} EntryHermitian(vis: seq<Complex>, antIndices: seq<Pair>, k: nat, a: nat, b: nat)
    requires k <= |vis| <= |antIndices|
    ensures Entry(vis, antIndices, k, b, a) == Conj(Entry(vis, antIndices, k, a, b))
  {
    if k > 0 {
      EntryHermitian(vis, antIndices, k - 1, a, b);
    }
  }

  /** A pair named by no baseline stays zero. */
  lemma {:induction false} EntryUnnamed(vis: seq<Complex>, antIndices: seq<Pair>, k: nat, a: nat, b: nat)
    requires k <= |vis| <= |antIndices|
    requires forall m :: 0 <= m < k ==> antIndices[m] != (a, b) && antIndices[m] != (b, a)
    ensures Entry(vis, antIndices, k, a, b) == Zero
  {
    if k > 0 {
      EntryUnnamed(vis, antIndices, k - 1, a, b);
    }
  }

  /** A cross pair named by exactly one baseline m (in either orientation)
      holds that baseline's visibility. */
  lemma {:induction false} EntryOfBaseline(vis: seq<Complex>, antIndices: seq<Pair>, k: nat, m: nat)
    requires m < k <= |vis| <= |antIndices|
    requires antIndices[m].0 != antIndices[m].1
    requires forall m' :: 0 <= m' < k && m' != m ==>
      antIndices[m'] != antIndices[m] && antIndices[m'] != (antIndices[m].1, antIndices[m].0)
    ensures Entry(vis, antIndices, k, antIndices[m].0, antIndices[m].1) == vis[m]
  {
    var a, b := antIndices[m].0, antIndices[m].1;
    if k - 1 == m {
      EntryUnnamed(vis, antIndices, m, a, b);
    } else {
      EntryOfBaseline(vis, antIndices, k - 1, m);
    }
  }

  /** With the table of get_ant_array_indices, cell [i, j] (i < j) holds the
      visibility at position nant + |Crosses(nant, i)| + (j - i - 1), and
      cell [j, i] its conjugate. */
  lemma EntryFromTable(vis: seq<Complex>, n: nat, i: nat, j: nat)
    requires |vis| == |Table(n)|
    requires i < j < n
    ensures n + |Crosses(n, i)| + (j - i - 1) < |vis|
    ensures Entry(vis, Table(n), |vis|, i, j) == vis[n + |Crosses(n, i)| + (j - i - 1)]
    ensures Entry(vis, Table(n), |vis|, j, i) == Conj(vis[n + |Crosses(n, i)| + (j - i - 1)])
  {
    var t := Table(n);
    TablePositions(n, i, j);
    CrossPairOnce(n, i, j);
    var m := n + |Crosses(n, i)| + (j - i - 1);
    forall m' | 0 <= m' < |vis| && m' != m
      ensures t[m'] != t[m] && t[m'] != (t[m].1, t[m].0)
    {
      if m' < m { TableDistinct(n, m', m); } else { TableDistinct(n, m, m'); }
    }
    EntryOfBaseline(vis, t, |vis|, m);
    EntryHermitian(vis, t, |vis|, i, j);
  }

  // ---------------------------------------------------------------------
  // The eigen iteration (calib_util.py:67-80)
  // ---------------------------------------------------------------------

  type Matrix = seq<seq<Complex>>

  /** Largest eigenvalue of a Hermitian matrix and its eigenvector. */
  datatype EigenPair = EigenPair(w: real, v: seq<Complex>)

  /** What the model assumes of the eigensolver: the eigenvector has one
      component per antenna. */
  ghost predicate EighShape(eigh: Matrix -> EigenPair) {
    forall m {:trigger eigh(m)} :: |eigh(m).v| == |m|
  }

  ghost predicate Square(m: Matrix) {
    forall a :: 0 <= a < |m| ==> |m[a]| == |m|
  }

  ghost predicate Hermitian(m: Matrix) {
    Square(m) && forall a, b :: 0 <= a < |m| && 0 <= b < |m| ==> m[b][a] == Conj(m[a][b])
  }

  /** The matrix an array holds. */
  function Snapshot(t: array2<Complex>): (m: Matrix)
    reads t
    ensures |m| == t.Length0 && forall a :: 0 <= a < |m| ==> |m[a]| == t.Length1
  {
    seq(t.Length0, a requires 0 <= a < t.Length0 reads t => seq(t.Length1, b requires 0 <= b < t.Length1 reads t => t[a, b]))
  }

  /** One solver step's write: diagonal entry i becomes w * |v_i|^2. */
  function Overwrite(m: Matrix, p: EigenPair): Matrix {
    seq(|m|, a requires 0 <= a < |m| =>
      seq(|m[a]|, b requires 0 <= b < |m[a]| =>
        if a == b && a < |p.v| then Complex(p.w * Norm2(p.v[a]), 0.0) else m[a][b]))
  }

  /** The matrix after `it` solver iterations. */
  ghost function Iterate(m: Matrix, it: nat, eigh: Matrix -> EigenPair): Matrix {
    if it == 0 then m else Overwrite(Iterate(m, it - 1, eigh), eigh(Iterate(m, it - 1, eigh)))
  }

  /** Writes w * |v_i|^2 on the diagonal, in place. */
  method SetDiagonal(t: array2<Complex>, p: EigenPair)
    requires t.Length0 == t.Length1 == |p.v|
    modifies t
    ensures Snapshot(t) == Overwrite(old(Snapshot(t)), p)
  {
    ghost var m0 := Snapshot(t);
    var i := 0;
    while i < t.Length0
      invariant 0 <= i <= t.Length0
      invariant forall a, b :: 0 <= a < t.Length0 && 0 <= b < t.Length1 ==>
        t[a, b] == if a == b && a < i then Complex(p.w * Norm2(p.v[a]), 0.0) else m0[a][b]
    {
      t[i, i] := Complex(p.w * Norm2(p.v[i]), 0.0);
      i := i + 1;
    }
    MatrixExt(Snapshot(t), Overwrite(m0, p));
  }

  lemma MatrixExt(m1: Matrix, m2: Matrix)
    requires |m1| == |m2|
    requires forall a :: 0 <= a < |m1| ==> |m1[a]| == |m2[a]|
    requires forall a, b :: 0 <= a < |m1| && 0 <= b < |m1[a]| ==> m1[a][b] == m2[a][b]
    ensures m1 == m2
  {
    forall a | 0 <= a < |m1| ensures m1[a] == m2[a] {
      assert m1[a] == m2[a];
    }
  }

  /** The nit iterations; returns the last eigenpair, or None when the loop
      never ran (the source then fails on an unbound name). */
  method Iterations(t: array2<Complex>, nit: nat, eigh: Matrix -> EigenPair) returns (last: Option<EigenPair>)
    requires t.Length0 == t.Length1
    requires EighShape(eigh)
    modifies t
    ensures Snapshot(t) == Iterate(old(Snapshot(t)), nit, eigh)
    ensures last == if nit == 0 then None else Some(eigh(Iterate(old(Snapshot(t)), nit - 1, eigh)))
  {
    ghost var m0 := Snapshot(t);
    last := None;
    var it := 0;
    while it < nit
      invariant 0 <= it <= nit
      invariant Snapshot(t) == Iterate(m0, it, eigh)
      invariant last == if it == 0 then None else Some(eigh(Iterate(m0, it - 1, eigh)))
    {
      var p := eigh(Snapshot(t));
      SetDiagonal(t, p);
      last := Some(p);
      it := it + 1;
    }
  }

  /** Each iteration changes the diagonal only; the off-diagonal entries are
      those of the starting matrix. */
  lemma {:induction false} IterateKeepsOffDiagonal(m: Matrix, it: nat, eigh: Matrix -> EigenPair, a: nat, b: nat)
    requires Square(m) && EighShape(eigh)
    requires a < |m| && b < |m| && a != b
    ensures Square(Iterate(m, it, eigh)) && |Iterate(m, it, eigh)| == |m|
    ensures Iterate(m, it, eigh)[a][b] == m[a][b]
  {
    if it > 0 {
      IterateKeepsOffDiagonal(m, it - 1, eigh, a, b);
      IterateShape(m, it - 1, eigh);
    }
  }

  lemma {:induction false} IterateShape(m: Matrix, it: nat, eigh: Matrix -> EigenPair)
    requires Square(m)
    ensures Square(Iterate(m, it, eigh)) && |Iterate(m, it, eigh)| == |m|
  {
    if it > 0 {
      IterateShape(m, it - 1, eigh);
    }
  }

  /** After at least one iteration, diagonal entry i is w * |v_i|^2 (a real
      number) for the eigenpair of the previous matrix. */
  lemma IterateDiagonal(m: Matrix, it: nat, eigh: Matrix -> EigenPair, i: nat)
    requires Square(m) && EighShape(eigh)
    requires it > 0 && i < |m|
    ensures |Iterate(m, it, eigh)| == |m| && |Iterate(m, it, eigh)[i]| == |m|
    ensures var p := eigh(Iterate(m, it - 1, eigh));
      i < |p.v| && Iterate(m, it, eigh)[i][i] == Complex(p.w * Norm2(p.v[i]), 0.0)
  {
    IterateShape(m, it - 1, eigh);
    IterateShape(m, it, eigh);
  }

  /** The iteration keeps the matrix Hermitian: the new diagonal is real. */
  lemma {:induction false} IteratePreservesHermitian(m: Matrix, it: nat, eigh: Matrix -> EigenPair)
    requires Hermitian(m) && EighShape(eigh)
    ensures Hermitian(Iterate(m, it, eigh))
  {
    if it > 0 {
      IteratePreservesHermitian(m, it - 1, eigh);
    }
  }

  // ---------------------------------------------------------------------
  // Gain and reference normalisation (calib_util.py:80-85)
  // ---------------------------------------------------------------------

  /** result = sqrt(w) * v. */
  function RawGain(p: EigenPair, sqrt: real -> real): seq<Complex> {
    seq(|p.v|, k requires 0 <= k < |p.v| => Scale(sqrt(p.w), p.v[k]))
  }

  /** Every antenna's gain times the reference factor. */
  function Normalize(sqrt: real -> real, raw: seq<Complex>, ref: nat): (g: seq<Complex>)
    requires IsSqrt(sqrt) && ref < |raw|
    ensures |g| == |raw|
  {
    var fac := PhaseConj(sqrt, raw[ref]);
    seq(|raw|, k requires 0 <= k < |raw| => Mul(raw[k], fac))
  }

  lemma NormalizeAt(sqrt: real -> real, raw: seq<Complex>, ref: nat, k: nat)
    requires IsSqrt(sqrt) && ref < |raw| && k < |raw|
    ensures Normalize(sqrt, raw, ref)[k] == Mul(raw[k], PhaseConj(sqrt, raw[ref]))
  {
  }

  /** After normalisation the reference gain is real and non-negative: its
      amplitude, with phase 0. */
  lemma NormalizeRefReal(sqrt: real -> real, raw: seq<Complex>, ref: nat)
    requires IsSqrt(sqrt) && ref < |raw|
    ensures Normalize(sqrt, raw, ref)[ref] == Complex(Abs(sqrt, raw[ref]), 0.0)
  {
    NormalizeAt(sqrt, raw, ref, ref);
    var z := raw[ref];
    var fac := PhaseConj(sqrt, z);
    if z == Zero {
      assert fac == Zero;
      MulByZero(z);
      AbsOfZero(sqrt);
    } else {
      assert Mul(z, fac) == Complex(Abs(sqrt, z), 0.0);
    }
  }

  /** A zero reference gain zeroes the whole solution. */
  lemma NormalizeZeroRef(sqrt: real -> real, raw: seq<Complex>, ref: nat)
    requires IsSqrt(sqrt) && ref < |raw| && raw[ref] == Zero
    ensures forall k :: 0 <= k < |raw| ==> Normalize(sqrt, raw, ref)[k] == Zero
  {
    forall k | 0 <= k < |raw| ensures Normalize(sqrt, raw, ref)[k] == Zero {
      ZeroRefAt(sqrt, raw, ref, k);
    }
  }

  lemma ZeroRefAt(sqrt: real -> real, raw: seq<Complex>, ref: nat, k: nat)
    requires IsSqrt(sqrt) && ref < |raw| && raw[ref] == Zero && k < |raw|
    ensures Normalize(sqrt, raw, ref)[k] == Zero
  {
    NormalizeAt(sqrt, raw, ref, k);
    MulByZero(raw[k]);
  }

  /** Multiplying two values by one unit phasor leaves a * conj(b) alone. */
  lemma RotationKeepsProduct(a: Complex, b: Complex, fac: Complex)
    requires Norm2(fac) == 1.0
    ensures Mul(Mul(a, fac), Conj(Mul(b, fac))) == Mul(a, Conj(b))
  {
    MulConjSelf(fac);
    calc {
      Mul(Mul(a, fac), Conj(Mul(b, fac)));
      == { ConjMul(b, fac); }
      Mul(Mul(a, fac), Mul(Conj(b), Conj(fac)));
      == { Rearrange(a, fac, Conj(b), Conj(fac)); }
      Mul(Mul(a, Conj(b)), Mul(fac, Conj(fac)));
      == Mul(Mul(a, Conj(b)), One);
      == Mul(a, Conj(b));
    }
  }

  /** With a non-zero reference, normalisation is a pure phase rotation: every
      amplitude and every product g_j * conj(g_k) is unchanged. */
  lemma NormalizeKeepsProducts(sqrt: real -> real, raw: seq<Complex>, ref: nat, j: nat, k: nat)
    requires IsSqrt(sqrt) && ref < |raw| && raw[ref] != Zero
    requires j < |raw| && k < |raw|
    ensures var g := Normalize(sqrt, raw, ref);
      Mul(g[j], Conj(g[k])) == Mul(raw[j], Conj(raw[k])) && Norm2(g[j]) == Norm2(raw[j])
  {
    var fac := PhaseConj(sqrt, raw[ref]);
    NormalizeAt(sqrt, raw, ref, j);
    NormalizeAt(sqrt, raw, ref, k);
    RotationKeepsProduct(raw[j], raw[k], fac);
    RotationKeepsProduct(raw[j], raw[j], fac);
    var g := Normalize(sqrt, raw, ref);
    MulConjSelf(g[j]);
    MulConjSelf(raw[j]);
  }

  // ---------------------------------------------------------------------
  // The whole solve for one slice (calib_util.py:35-88)
  // ---------------------------------------------------------------------

  /** The matrix BuildMatrix produces, as a value. */
  function InitialMatrix(vis: seq<Complex>, antIndices: seq<Pair>, nant: nat): Matrix
    requires |vis| <= |antIndices|
  {
    seq(nant, a requires 0 <= a < nant => seq(nant, b requires 0 <= b < nant => Entry(vis, antIndices, |vis|, a, b)))
  }

  datatype GainError = NoIteration

  /** gaincal_cpu on one slice. With nit == 0 the eigenpair is never bound
      and the source stops with an error; otherwise the gain is the
      reference-normalised sqrt(w) * v of the last iteration. */
  method GainCalCpu(vis: seq<Complex>, nant: nat, antIndices: seq<Pair>, ref: nat, nit: nat,
                    eigh: Matrix -> EigenPair, sqrt: real -> real)
    returns (r: Result<seq<Complex>, GainError>)
    requires |vis| <= |antIndices|
    requires forall k :: 0 <= k < |vis| && antIndices[k].0 != antIndices[k].1 ==> antIndices[k].0 < nant && antIndices[k].1 < nant
    requires ref < nant
    requires EighShape(eigh) && IsSqrt(sqrt)
    ensures nit == 0 <==> r.Err?
    ensures r.Ok? ==>
      var p := eigh(Iterate(InitialMatrix(vis, antIndices, nant), nit - 1, eigh));
      |p.v| == nant && r.value == Normalize(sqrt, RawGain(p, sqrt), ref)
  {
    var t := BuildMatrix(vis, nant, antIndices);
    MatrixExt(Snapshot(t), InitialMatrix(vis, antIndices, nant));
    var last := Iterations(t, nit, eigh);
    if last.None? {
      return Err(NoIteration);
    }
    var p := last.value;
    assert |p.v| == nant by {
      assert |Iterate(InitialMatrix(vis, antIndices, nant), nit - 1, eigh)| == nant by {
        IterateLength(InitialMatrix(vis, antIndices, nant), nit - 1, eigh);
      }
    }
    var raw := RawGain(p, sqrt);
    r := Ok(Normalize(sqrt, raw, ref));
  }

  lemma {:induction false} IterateLength(m: Matrix, it: nat, eigh: Matrix -> EigenPair)
    ensures |Iterate(m, it, eigh)| == |m|
  {
    if it > 0 { IterateLength(m, it - 1, eigh); }
  }

  /** The starting matrix of the solve is Hermitian with a zero diagonal, and
      every later iterate stays Hermitian. */
  lemma SolveMatrixHermitian(vis: seq<Complex>, antIndices: seq<Pair>, nant: nat, eigh: Matrix -> EigenPair, it: nat)
    requires |vis| <= |antIndices| && EighShape(eigh)
    ensures forall a :: 0 <= a < nant ==> InitialMatrix(vis, antIndices, nant)[a][a] == Zero
    ensures Hermitian(Iterate(InitialMatrix(vis, antIndices, nant), it, eigh))
  {
    var m := InitialMatrix(vis, antIndices, nant);
    forall a | 0 <= a < nant ensures m[a][a] == Zero {
      EntryDiagonalZero(vis, antIndices, |vis|, a);
    }
    forall a, b | 0 <= a < nant && 0 <= b < nant ensures m[b][a] == Conj(m[a][b]) {
      EntryHermitian(vis, antIndices, |vis|, a, b);
    }
    IteratePreservesHermitian(m, it, eigh);
  }
}
