/** Complex arithmetic over pairs of reals, as numpy's complex128 computes it
    when rounding is ignored. The library square root is not defined here: it
    is passed in as a function value that satisfies IsSqrt, so every member that
    needs a magnitude states the one fact it relies on about it. */
module ComplexArith {

  datatype Complex = Complex(re: real, im: real)

  const Zero := Complex(0.0, 0.0)
  const One := Complex(1.0, 0.0)

  function Add(a: Complex, b: Complex): Complex {
    Complex(a.re + b.re, a.im + b.im)
  }

  function Sub(a: Complex, b: Complex): Complex {
    Complex(a.re - b.re, a.im - b.im)
  }

  function Mul(a: Complex, b: Complex): Complex {
    Complex(a.re * b.re - a.im * b.im, a.re * b.im + a.im * b.re)
  }

  function Conj(a: Complex): Complex {
    Complex(a.re, -a.im)
  }

  /** A real scalar times a complex value. */
  function Scale(k: real, a: Complex): Complex {
    Complex(k * a.re, k * a.im)
  }

  /** |a|^2 = re^2 + im^2, the quantity the solver writes on the diagonal. */
  function Norm2(a: Complex): (r: real)
    ensures r >= 0.0
  {
    a.re * a.re + a.im * a.im
  }

  lemma SquarePos(x: real)
    requires x != 0.0
    ensures x * x > 0.0
  {
    if x < 0.0 {
      calc { x * x; == (-x) * (-x); > 0.0; }
    }
  }

  /** Only zero has a zero squared magnitude. */
  lemma Norm2Pos(a: Complex)
    requires a != Zero
    ensures Norm2(a) > 0.0
  {
    if a.re != 0.0 {
      SquarePos(a.re);
      calc { Norm2(a); == a.re * a.re + a.im * a.im; >= a.re * a.re; > 0.0; }
    } else {
      SquarePos(a.im);
      calc { Norm2(a); == a.im * a.im; > 0.0; }
    }
  }

  /** What the model assumes of the library square root: on non-negative
      arguments it returns the non-negative root. */
  ghost predicate IsSqrt(sqrt: real -> real) {
    forall x {:trigger sqrt(x)} :: 0.0 <= x ==> 0.0 <= sqrt(x) && sqrt(x) * sqrt(x) == x
  }

  /** numpy.abs on a complex value. */
  function Abs(sqrt: real -> real, a: Complex): (r: real)
    requires IsSqrt(sqrt)
    ensures r >= 0.0 && r * r == Norm2(a)
  {
    sqrt(Norm2(a))
  }

  /** Only zero has a zero magnitude. */
  lemma AbsPos(sqrt: real -> real, a: Complex)
    requires IsSqrt(sqrt)
    requires a != Zero
    ensures Abs(sqrt, a) > 0.0
  {
    Norm2Pos(a);
  }

  lemma MulComm(a: Complex, b: Complex)
    ensures Mul(a, b) == Mul(b, a)
  {
  }

  lemma MulAssoc(a: Complex, b: Complex, c: Complex)
    ensures Mul(Mul(a, b), c) == Mul(a, Mul(b, c))
  {
  }

  /** a * conj(a) is the real number |a|^2. */
  lemma MulConjSelf(a: Complex)
    ensures Mul(a, Conj(a)) == Complex(Norm2(a), 0.0)
  {
  }

  lemma ConjMul(a: Complex, b: Complex)
    ensures Conj(Mul(a, b)) == Mul(Conj(a), Conj(b))
  {
  }

  /** cos(phi) - i sin(phi) for phi the phase of z, times (|z| > 0). With
      cos(phi) = re/|z| and sin(phi) = im/|z| this is conj(z)/|z|, or 0. */
  function PhaseConj(sqrt: real -> real, z: Complex): (fac: Complex)
    requires IsSqrt(sqrt)
    ensures z == Zero ==> fac == Zero
    ensures z != Zero ==> Norm2(fac) == 1.0 && Mul(z, fac) == Complex(Abs(sqrt, z), 0.0)
  {
    var amp := Abs(sqrt, z);
    if amp > 0.0 then
      var inv := 1.0 / amp;
      FactorFacts(z, amp);
      Complex(z.re * inv, -(z.im * inv))
    else
      AmpZero(sqrt, z);
      Zero
  }

  lemma AmpZero(sqrt: real -> real, z: Complex)
    requires IsSqrt(sqrt) && Abs(sqrt, z) <= 0.0
    ensures z == Zero
  {
    if z != Zero { AbsPos(sqrt, z); }
  }

  lemma InvMul(d: real)
    requires d != 0.0
    ensures d * (1.0 / d) == 1.0
  {
  }

  lemma MulRight(a: real, b: real, c: real)
    requires a == b
    ensures a * c == b * c
  {
  }

  /** conj(z)/|z| is a unit phasor that turns z into |z|. */
  lemma FactorFacts(z: Complex, amp: real)
    requires amp > 0.0 && amp * amp == Norm2(z)
    ensures var inv := 1.0 / amp; Norm2(Complex(z.re * inv, -(z.im * inv))) == 1.0
    ensures var inv := 1.0 / amp; Mul(z, Complex(z.re * inv, -(z.im * inv))) == Complex(amp, 0.0)
  {
    var inv := 1.0 / amp;
    var re, im := z.re, z.im;
    InvMul(amp);
    var n := re * re + im * im;
    assert (re * inv) * (re * inv) + (-(im * inv)) * (-(im * inv)) == n * (inv * inv);
    MulRight(n, amp * amp, inv * inv);
    assert (amp * amp) * (inv * inv) == (amp * inv) * (amp * inv);
    assert re * (re * inv) - im * (-(im * inv)) == n * inv;
    MulRight(n, amp * amp, inv);
    assert (amp * amp) * inv == amp * (amp * inv);
    assert re * (-(im * inv)) + im * (re * inv) == 0.0;
  }

  lemma AbsOfZero(sqrt: real -> real)
    requires IsSqrt(sqrt)
    ensures Abs(sqrt, Zero) == 0.0
  {
    var r := Abs(sqrt, Zero);
    assert r * r == Norm2(Zero) == 0.0;
    SquareZero(r);
  }

  lemma SquareZero(r: real)
    requires r >= 0.0 && r * r == 0.0
    ensures r == 0.0
  {
    if r > 0.0 {
      calc { 0.0; == r * r; > { SquarePos(r); } 0.0; }
    }
  }

  lemma MulOne(a: Complex)
    ensures Mul(a, One) == a
  {
  }

  lemma ZeroMul(a: Complex)
    ensures Mul(Zero, a) == Zero
  {
  }

  lemma MulByZero(a: Complex)
    ensures Mul(a, Zero) == Zero
  {
  }


  /** 1/z, which is conj(z)/|z|^2 when z is not zero. At zero numpy's result
      is not finite and the callers replace it by 0, so that is folded in. */
  function Recip(z: Complex): (r: Complex)
    ensures z == Zero ==> r == Zero
    ensures z != Zero ==> Mul(z, r) == One
  {
    if z == Zero then Zero
    else
      Norm2Pos(z);
      var inv := 1.0 / Norm2(z);
      RecipFacts(z);
      Complex(z.re * inv, -(z.im * inv))
  }

  lemma RecipFacts(z: Complex)
    requires z != Zero
    ensures Norm2(z) > 0.0
    ensures var inv := 1.0 / Norm2(z); Mul(z, Complex(z.re * inv, -(z.im * inv))) == One
  {
    Norm2Pos(z);
    var n := Norm2(z);
    var inv := 1.0 / n;
    InvMul(n);
    assert z.re * (z.re * inv) - z.im * (-(z.im * inv)) == n * inv;
    assert z.re * (-(z.im * inv)) + z.im * (z.re * inv) == 0.0;
  }

  lemma Rearrange(a: Complex, b: Complex, c: Complex, d: Complex)
    ensures Mul(Mul(a, b), Mul(c, d)) == Mul(Mul(a, c), Mul(b, d))
  {
    MulAssoc(a, b, Mul(c, d));
    MulAssoc(b, c, d);
    MulComm(b, c);
    MulAssoc(c, b, d);
    MulAssoc(a, c, Mul(b, d));
  }
}
