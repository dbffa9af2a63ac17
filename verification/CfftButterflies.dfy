/**
  The straight-line butterflies of the passes in libfaad/cfft.c, value by
  value, and what each computes: a DFT of length 2, 3, 4 or 5.

  The decimal literals of `passf3` and `passf5` stand for the exact cosines
  and sines they approximate, so they are the parameters `Consts` here.
 */
module CfftButterflies {
  import opened Complexes

  /** sin(2 pi/3); cos and sin of 2 pi/5; cos and sin of 4 pi/5. */
  datatype Consts = Consts(taui: real, tr11: real, ti11: real, tr12: real, ti12: real)

  const TAUR := -0.5

  /** ComplexMult: two products that the callers use as one complex product. */
  function ComplexMult(x1: real, x2: real, c1: real, c2: real): (real, real) {
    (x1 * c1 + x2 * c2, x2 * c1 - x1 * c2)
  }

  /** A twiddle multiplication as the "pos" passes write it, imaginary part first. */
  function TwiddlePos(d: Complex, wa: Complex): Complex {
    var (im, re) := ComplexMult(d.im, d.re, wa.re, wa.im);
    Complex(re, im)
  }

  /** A twiddle multiplication as the "neg" passes write it, real part first. */
  function TwiddleNeg(d: Complex, wa: Complex): Complex {
    var (re, im) := ComplexMult(d.re, d.im, wa.re, wa.im);
    Complex(re, im)
  }

  function Twiddle(isign: int, d: Complex, wa: Complex): Complex {
    if isign == 1 then TwiddlePos(d, wa) else TwiddleNeg(d, wa)
  }

  /** The root the sign selects: `w` for +1, its conjugate for -1. */
  function Signed(isign: int, w: Complex): Complex { if isign == 1 then w else Conj(w) }

  lemma TwiddleIsMul(isign: int, d: Complex, wa: Complex)
    ensures Twiddle(isign, d, wa) == Mul(d, Signed(isign, wa))
  {}

  /* ---------- Butterflies ---------- */

  function Fly2(c0: Complex, c1: Complex): (Complex, Complex) {
    (Add(c0, c1), Sub(c0, c1))
  }

  function Fly3(isign: int, k: Consts, c0: Complex, c1: Complex, c2: Complex): (Complex, Complex, Complex) {
    var t2 := Add(c1, c2);
    var u2 := Add(c0, Scale(TAUR, t2));
    var u3 := Scale(k.taui, Sub(c1, c2));
    if isign == 1 then
      (Add(c0, t2), Complex(u2.re - u3.im, u2.im + u3.re), Complex(u2.re + u3.im, u2.im - u3.re))
    else
      (Add(c0, t2), Complex(u2.re + u3.im, u2.im - u3.re), Complex(u2.re - u3.im, u2.im + u3.re))
  }

  function Fly4(isign: int, c0: Complex, c1: Complex, c2: Complex, c3: Complex): (Complex, Complex, Complex, Complex) {
    var t2 := Add(c0, c2);
    var t1 := Sub(c0, c2);
    var t3 := Add(c3, c1);
    var t4 := Complex(c3.im - c1.im, c1.re - c3.re);
    if isign == 1 then
      (Add(t2, t3), Add(t1, t4), Sub(t2, t3), Sub(t1, t4))
    else
      (Add(t2, t3), Sub(t1, t4), Sub(t2, t3), Add(t1, t4))
  }

  /** The two ComplexMult calls of `passf5`, on the real and on the imaginary parts: (c5, c4). */
  function Cross5(isign: int, k: Consts, t5: Complex, t4: Complex): (Complex, Complex) {
    if isign == 1 then
      var (u5re, u4re) := ComplexMult(k.ti11, k.ti12, t5.re, t4.re);
      var (u5im, u4im) := ComplexMult(k.ti11, k.ti12, t5.im, t4.im);
      (Complex(u5re, u5im), Complex(u4re, u4im))
    else
      var (u4re, u5re) := ComplexMult(k.ti12, k.ti11, t5.re, t4.re);
      var (u4im, u5im) := ComplexMult(k.ti12, k.ti11, t5.im, t4.im);
      (Complex(u5re, u5im), Complex(u4re, u4im))
  }

  function Fly5(isign: int, k: Consts, c0: Complex, c1: Complex, c2: Complex, c3: Complex, c4: Complex)
    : (Complex, Complex, Complex, Complex, Complex)
  {
    var t2 := Add(c1, c4);
    var t3 := Add(c2, c3);
    var t4 := Sub(c2, c3);
    var t5 := Sub(c1, c4);
    var u2 := Add(Add(c0, Scale(k.tr11, t2)), Scale(k.tr12, t3));
    var u3 := Add(Add(c0, Scale(k.tr12, t2)), Scale(k.tr11, t3));
    var (u5, u4) := Cross5(isign, k, t5, t4);
    if isign == 1 then
      (Add(Add(c0, t2), t3),
       Complex(u2.re - u5.im, u2.im + u5.re),
       Complex(u3.re - u4.im, u3.im + u4.re),
       Complex(u3.re + u4.im, u3.im - u4.re),
       Complex(u2.re + u5.im, u2.im - u5.re))
    else
      (Add(Add(c0, t2), t3),
       Complex(u2.re + u5.im, u2.im - u5.re),
       Complex(u3.re + u4.im, u3.im - u4.re),
       Complex(u3.re - u4.im, u3.im + u4.re),
       Complex(u2.re - u5.im, u2.im + u5.re))
  }

  /* ---------- Short sums the butterflies are compared with ---------- */

  function Comb2(c0: Complex, c1: Complex, z1: Complex): Complex { Add(c0, Mul(c1, z1)) }

  function Comb3(c0: Complex, c1: Complex, c2: Complex, z1: Complex, z2: Complex): Complex {
    Add(Comb2(c0, c1, z1), Mul(c2, z2))
  }

  function Comb4(c0: Complex, c1: Complex, c2: Complex, c3: Complex, z1: Complex, z2: Complex, z3: Complex): Complex {
    Add(Comb3(c0, c1, c2, z1, z2), Mul(c3, z3))
  }

  function Comb5(c0: Complex, c1: Complex, c2: Complex, c3: Complex, c4: Complex,
                 z1: Complex, z2: Complex, z3: Complex, z4: Complex): Complex {
    Add(Comb4(c0, c1, c2, c3, z1, z2, z3), Mul(c4, z4))
  }

  function Minus(): Complex { Complex(-1.0, 0.0) }

  /** A product as two real multiples, so that the comparisons below are linear in them. */
  lemma MulSplit(c: Complex, p: real, u: real)
    ensures var a, b := Scale(p, c), Scale(u, c);
            && Mul(c, Complex(p, u)) == Complex(a.re - b.im, a.im + b.re)
            && Mul(c, Complex(p, -u)) == Complex(a.re + b.im, a.im - b.re)
  {}

  lemma ScaleLinear(r: real, a: Complex, b: Complex)
    ensures Scale(r, Add(a, b)) == Add(Scale(r, a), Scale(r, b))
    ensures Scale(r, Sub(a, b)) == Sub(Scale(r, a), Scale(r, b))
  {}

  lemma Fly2Correct(c0: Complex, c1: Complex)
    ensures Fly2(c0, c1).0 == Comb2(c0, c1, ONE) && Fly2(c0, c1).1 == Comb2(c0, c1, Minus())
  {}

  /** The primitive cube root of unity with the sign of the transform. */
  function Root3(isign: int, k: Consts): Complex { Signed(isign, Complex(TAUR, k.taui)) }

  lemma Fly3Correct(isign: int, k: Consts, c0: Complex, c1: Complex, c2: Complex)
    ensures var f, z := Fly3(isign, k, c0, c1, c2), Root3(isign, k);
            && f.0 == Comb3(c0, c1, c2, ONE, ONE)
            && f.1 == Comb3(c0, c1, c2, z, Conj(z))
            && f.2 == Comb3(c0, c1, c2, Conj(z), z)
  {
    MulOne(c1);
    MulOne(c2);
    MulSplit(c1, TAUR, k.taui);
    MulSplit(c2, TAUR, k.taui);
    ScaleLinear(TAUR, c1, c2);
    ScaleLinear(k.taui, c1, c2);
    hide Scale, Mul;
  }

  lemma Fly4Correct(isign: int, c0: Complex, c1: Complex, c2: Complex, c3: Complex)
    ensures var f, z := Fly4(isign, c0, c1, c2, c3), Signed(isign, IMAG);
            && f.0 == Comb4(c0, c1, c2, c3, ONE, ONE, ONE)
            && f.1 == Comb4(c0, c1, c2, c3, z, Minus(), Conj(z))
            && f.2 == Comb4(c0, c1, c2, c3, Minus(), ONE, Minus())
            && f.3 == Comb4(c0, c1, c2, c3, Conj(z), Minus(), z)
  {}

  function Root5(isign: int, k: Consts): Complex { Signed(isign, Complex(k.tr11, k.ti11)) }

  function Root5Squared(isign: int, k: Consts): Complex { Signed(isign, Complex(k.tr12, k.ti12)) }

  /** Output `j` of the DFT of length five of the values c0..c4, in the sign's direction. */
  function Dft5(isign: int, k: Consts, c0: Complex, c1: Complex, c2: Complex, c3: Complex, c4: Complex,
                j: nat): Complex {
    var z, y := Root5(isign, k), Root5Squared(isign, k);
    match j
    case 0 => Comb5(c0, c1, c2, c3, c4, ONE, ONE, ONE, ONE)
    case 1 => Comb5(c0, c1, c2, c3, c4, z, y, Conj(y), Conj(z))
    case 2 => Comb5(c0, c1, c2, c3, c4, y, Conj(z), z, Conj(y))
    case 3 => Comb5(c0, c1, c2, c3, c4, Conj(y), z, Conj(z), y)
    case _ => Comb5(c0, c1, c2, c3, c4, Conj(z), Conj(y), y, z)
  }

  function Output5(f: (Complex, Complex, Complex, Complex, Complex), j: nat): Complex {
    match j
    case 0 => f.0
    case 1 => f.1
    case 2 => f.2
    case 3 => f.3
    case _ => f.4
  }

  lemma Cross5Is(isign: int, k: Consts, t5: Complex, t4: Complex)
    ensures var f, s, d := Cross5(isign, k, t5, t4), Scale(k.ti11, t5), Scale(k.ti12, t4);
            f.0 == if isign == 1 then Add(s, d) else Sub(s, d)
    ensures var f, s, d := Cross5(isign, k, t5, t4), Scale(k.ti12, t5), Scale(k.ti11, t4);
            f.1 == if isign == 1 then Sub(s, d) else Add(s, d)
  {
    Commute(t5.re, k.ti11);
    Commute(t4.re, k.ti12);
    Commute(t5.re, k.ti12);
    Commute(t4.re, k.ti11);
    Commute(t5.im, k.ti11);
    Commute(t4.im, k.ti12);
    Commute(t5.im, k.ti12);
    Commute(t4.im, k.ti11);
  }

  lemma Commute(x: real, y: real)
    ensures x * y == y * x
  {}

  /** The real multiples both sides of the radix-5 comparison are made of. */
  lemma Multiples5(k: Consts, c1: Complex, c2: Complex, c3: Complex, c4: Complex)
    ensures && Scale(k.tr11, Add(c1, c4)) == Add(Scale(k.tr11, c1), Scale(k.tr11, c4))
            && Scale(k.tr12, Add(c1, c4)) == Add(Scale(k.tr12, c1), Scale(k.tr12, c4))
            && Scale(k.tr11, Add(c2, c3)) == Add(Scale(k.tr11, c2), Scale(k.tr11, c3))
            && Scale(k.tr12, Add(c2, c3)) == Add(Scale(k.tr12, c2), Scale(k.tr12, c3))
            && Scale(k.ti11, Sub(c1, c4)) == Sub(Scale(k.ti11, c1), Scale(k.ti11, c4))
            && Scale(k.ti12, Sub(c1, c4)) == Sub(Scale(k.ti12, c1), Scale(k.ti12, c4))
            && Scale(k.ti11, Sub(c2, c3)) == Sub(Scale(k.ti11, c2), Scale(k.ti11, c3))
            && Scale(k.ti12, Sub(c2, c3)) == Sub(Scale(k.ti12, c2), Scale(k.ti12, c3))
  {
    hide Scale;
    ScaleLinear(k.tr11, c1, c4);
    ScaleLinear(k.tr12, c1, c4);
    ScaleLinear(k.tr11, c2, c3);
    ScaleLinear(k.tr12, c2, c3);
    ScaleLinear(k.ti11, c1, c4);
    ScaleLinear(k.ti12, c1, c4);
    ScaleLinear(k.ti11, c2, c3);
    ScaleLinear(k.ti12, c2, c3);
  }

  lemma Products5(k: Consts, c: Complex)
    ensures Mul(c, ONE) == c
    ensures var a, b := Scale(k.tr11, c), Scale(k.ti11, c);
            && Mul(c, Complex(k.tr11, k.ti11)) == Complex(a.re - b.im, a.im + b.re)
            && Mul(c, Complex(k.tr11, -k.ti11)) == Complex(a.re + b.im, a.im - b.re)
    ensures var a, b := Scale(k.tr12, c), Scale(k.ti12, c);
            && Mul(c, Complex(k.tr12, k.ti12)) == Complex(a.re - b.im, a.im + b.re)
            && Mul(c, Complex(k.tr12, -k.ti12)) == Complex(a.re + b.im, a.im - b.re)
  {
    MulOne(c);
    MulSplit(c, k.tr11, k.ti11);
    MulSplit(c, k.tr12, k.ti12);
  }

  /** The backward butterfly of `passf5` is the DFT of length five. */
  lemma Fly5Backward(k: Consts, c0: Complex, c1: Complex, c2: Complex, c3: Complex, c4: Complex, j: nat)
    ensures Output5(Fly5(1, k, c0, c1, c2, c3, c4), j) == Dft5(1, k, c0, c1, c2, c3, c4, j)
  {
    hide Scale, Mul, Cross5;
    Multiples5(k, c1, c2, c3, c4);
    Cross5Is(1, k, Sub(c1, c4), Sub(c2, c3));
    Products5(k, c1);
    Products5(k, c2);
    Products5(k, c3);
    Products5(k, c4);
  }

  /** The forward one is the DFT of length five with its third and fourth inputs exchanged. */
  lemma Fly5Forward(k: Consts, c0: Complex, c1: Complex, c2: Complex, c3: Complex, c4: Complex, j: nat)
    ensures Output5(Fly5(-1, k, c0, c1, c2, c3, c4), j) == Dft5(-1, k, c0, c1, c3, c2, c4, j)
  {
    hide Scale, Mul, Cross5;
    Multiples5(k, c1, c2, c3, c4);
    Cross5Is(-1, k, Sub(c1, c4), Sub(c2, c3));
    Products5(k, c1);
    Products5(k, c2);
    Products5(k, c3);
    Products5(k, c4);
  }
}
