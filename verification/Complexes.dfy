/**
  Complex numbers over exact reals, as the transform code uses them
  (`complex_t`, `RE`, `IM`, libfaad/common.h), with the powers of a root of
  unity and the finite sums that a discrete Fourier transform is made of.
 */
module Complexes {

  datatype Complex = Complex(re: real, im: real)

  const ZERO := Complex(0.0, 0.0)
  const ONE := Complex(1.0, 0.0)
  const IMAG := Complex(0.0, 1.0)

  function Add(a: Complex, b: Complex): Complex { Complex(a.re + b.re, a.im + b.im) }

  function Sub(a: Complex, b: Complex): Complex { Complex(a.re - b.re, a.im - b.im) }

  function Mul(a: Complex, b: Complex): Complex {
    Complex(a.re * b.re - a.im * b.im, a.re * b.im + a.im * b.re)
  }

  function Conj(a: Complex): Complex { Complex(a.re, -a.im) }

  function Scale(r: real, a: Complex): Complex { Complex(r * a.re, r * a.im) }

  /* ---------- Ring laws ---------- */

  lemma MulAssoc(a: Complex, b: Complex, c: Complex)
    ensures Mul(Mul(a, b), c) == Mul(a, Mul(b, c))
  {}

  lemma MulComm(a: Complex, b: Complex)
    ensures Mul(a, b) == Mul(b, a)
  {}

  lemma MulAdd(a: Complex, b: Complex, c: Complex)
    ensures Mul(a, Add(b, c)) == Add(Mul(a, b), Mul(a, c))
  {}

  lemma MulOne(a: Complex)
    ensures Mul(ONE, a) == a && Mul(a, ONE) == a
  {}

  lemma MulZero(a: Complex)
    ensures Mul(ZERO, a) == ZERO && Mul(a, ZERO) == ZERO
  {}

  lemma AddLaws(a: Complex, b: Complex, c: Complex)
    ensures Add(a, b) == Add(b, a) && Add(Add(a, b), c) == Add(a, Add(b, c)) && Add(a, ZERO) == a
  {}

  lemma ConjMul(a: Complex, b: Complex)
    ensures Conj(Mul(a, b)) == Mul(Conj(a), Conj(b))
  {}

  function Sq(x: real): real { x * x }

  /** The squared magnitude. */
  function Norm(a: Complex): real { Sq(a.re) + Sq(a.im) }

  lemma ConjMulSelf(a: Complex)
    ensures Mul(Conj(a), a) == Complex(Norm(a), 0.0) == Mul(a, Conj(a))
  {}

  lemma ProductPositive(x: real)
    requires x != 0.0
    ensures x * x > 0.0
  {
    if x < 0.0 { assert (-x) * (-x) > 0.0; }
  }

  lemma SqPositive(x: real)
    requires x != 0.0
    ensures Sq(x) > 0.0
  {
    calc { Sq(x); x * x; > { ProductPositive(x); } 0.0; }
  }

  lemma SqZero()
    ensures Sq(0.0) == 0.0
  {}

  lemma NormPositive(a: Complex)
    requires a != ZERO
    ensures Norm(a) > 0.0
  {
    hide Sq;
    SqZero();
    if a.re != 0.0 { SqPositive(a.re); }
    if a.im != 0.0 { SqPositive(a.im); }
  }

  /** There are no zero divisors. */
  lemma MulIsZero(a: Complex, b: Complex)
    requires Mul(a, b) == ZERO && a != ZERO
    ensures b == ZERO
  {
    NormPositive(a);
    ConjMulSelf(a);
    MulAssoc(Conj(a), a, b);
    hide Norm;
    var m := Norm(a);
    assert Scale(m, b) == Mul(Complex(m, 0.0), b) == Mul(Conj(a), ZERO) == ZERO;
    CancelFactor(m, b.re);
    CancelFactor(m, b.im);
  }

  lemma CancelFactor(m: real, x: real)
    requires m != 0.0 && m * x == 0.0
    ensures x == 0.0
  {
    assert x == (m * x) / m;
  }

  /* ---------- Powers ---------- */

  function Pow(w: Complex, k: nat): Complex {
    if k == 0 then ONE else Mul(w, Pow(w, k - 1))
  }

  lemma {:induction false} PowAdd(w: Complex, a: nat, b: nat)
    ensures Pow(w, a + b) == Mul(Pow(w, a), Pow(w, b))
  {
    if a == 0 {
      MulOne(Pow(w, b));
    } else {
      PowAdd(w, a - 1, b);
      MulAssoc(w, Pow(w, a - 1), Pow(w, b));
    }
  }

  lemma {:induction false} PowMul(w: Complex, a: nat, b: nat)
    ensures Pow(Pow(w, a), b) == Pow(w, a * b)
  {
    hide Mul;
    if b == 0 {
    } else {
      PowMul(w, a, b - 1);
      PowAdd(w, a, a * (b - 1));
      assert a + a * (b - 1) == a * b;
    }
  }

  lemma {:induction false} PowOne(k: nat)
    ensures Pow(ONE, k) == ONE
  {
    hide Mul;
    if k > 0 { PowOne(k - 1); MulOne(ONE); }
  }

  lemma {:induction false} PowConj(w: Complex, k: nat)
    ensures Pow(Conj(w), k) == Conj(Pow(w, k))
  {
    if k > 0 {
      PowConj(w, k - 1);
      ConjMul(w, Pow(w, k - 1));
    }
  }

  /** Exponents of an n-th root of unity only matter modulo n. */
  lemma PowPeriodic(w: Complex, n: nat, a: nat, k: nat)
    requires Pow(w, n) == ONE
    ensures Pow(w, a + n * k) == Pow(w, a)
  {
    hide Mul;
    PowAdd(w, a, n * k);
    PowMul(w, n, k);
    PowOne(k);
    MulOne(Pow(w, a));
  }

  /* ---------- Finite sums ---------- */

  function Sum(f: int -> Complex, n: nat): Complex {
    if n == 0 then ZERO else Add(Sum(f, n - 1), f(n - 1))
  }

  lemma {:induction false} SumEq(f: int -> Complex, g: int -> Complex, n: nat)
    requires forall i | 0 <= i < n :: f(i) == g(i)
    ensures Sum(f, n) == Sum(g, n)
  {
    if n > 0 { SumEq(f, g, n - 1); }
  }

  lemma {:induction false} SumZero(f: int -> Complex, n: nat)
    requires forall i | 0 <= i < n :: f(i) == ZERO
    ensures Sum(f, n) == ZERO
  {
    if n > 0 { SumZero(f, n - 1); }
  }

  lemma {:induction false} SumAdd(f: int -> Complex, g: int -> Complex, n: nat)
    ensures Sum(i => Add(f(i), g(i)), n) == Add(Sum(f, n), Sum(g, n))
  {
    if n > 0 { SumAdd(f, g, n - 1); }
  }

  /** Every term of `f` multiplied by `c`. */
  function Scaled(c: Complex, f: int -> Complex): int -> Complex { i => Mul(c, f(i)) }

  lemma {:induction false} SumMul(c: Complex, f: int -> Complex, n: nat)
    ensures Mul(c, Sum(f, n)) == Sum(Scaled(c, f), n)
  {
    hide Mul, Add;
    if n == 0 {
      MulZero(c);
    } else {
      SumMul(c, f, n - 1);
      MulAdd(c, Sum(f, n - 1), f(n - 1));
    }
  }

  /** The order of a double sum may be exchanged. */
  lemma {:induction false} SumSwap(f: (int, int) -> Complex, g: int -> Complex, h: int -> Complex, m: nat, n: nat)
    requires forall i | 0 <= i < m :: g(i) == Sum(j => f(i, j), n)
    requires forall j | 0 <= j < n :: h(j) == Sum(i => f(i, j), m)
    ensures Sum(g, m) == Sum(h, n)
  {
    hide Mul, Add;
    if m == 0 {
      SumZero(h, n);
    } else {
      var last := j => f(m - 1, j);
      var h' := j => Sum(i => f(i, j), m - 1);
      SumSwap(f, g, h', m - 1, n);
      SumAdd(h', last, n);
      SumEq(h, j => Add(h'(j), last(j)), n);
      SumEq(last, j => f(m - 1, j), n);
    }
  }

  function Shift(f: int -> Complex, a: int): int -> Complex { i => f(a + i) }

  lemma {:induction false} SumConcat(f: int -> Complex, a: nat, b: nat)
    ensures Sum(f, a + b) == Add(Sum(f, a), Sum(Shift(f, a), b))
  {
    if b == 0 {
    } else {
      SumConcat(f, a, b - 1);
      AddLaws(Sum(f, a), Sum(Shift(f, a), b - 1), f(a + b - 1));
    }
  }

  /** A sum of p * q terms is a sum of p sums of q consecutive terms. */
  lemma {:induction false} SumSplit(f: int -> Complex, g: int -> Complex, p: nat, q: nat)
    requires forall m | 0 <= m < p :: g(m) == Sum(Shift(f, m * q), q)
    ensures Sum(g, p) == Sum(f, p * q)
  {
    hide Mul, Add, Shift;
    if p == 0 {
    } else {
      SumSplit(f, g, p - 1, q);
      ProductStep(p, q);
      SumConcat(f, (p - 1) * q, q);
    }
  }

  lemma ProductStep(p: nat, q: nat)
    requires p > 0
    ensures (p - 1) * q >= 0 && (p - 1) * q + q == p * q
  {}
}
