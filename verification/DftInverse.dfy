/** The two transforms undo each other up to the factor n. */
module DftInverse {
  import opened Complexes
  import opened Dft

  /** `w` lies on the unit circle and its powers first return to one at n. */
  ghost predicate PrimitiveRoot(w: Complex, n: nat) {
    && n > 0
    && Pow(w, n) == ONE
    && Mul(w, Conj(w)) == ONE
    && forall k | 0 < k < n :: Pow(w, k) != ONE
  }

  lemma ConjPrimitive(w: Complex, n: nat)
    requires PrimitiveRoot(w, n)
    ensures PrimitiveRoot(Conj(w), n)
  {
    hide Mul, Pow;
    PowConj(w, n);
    MulComm(w, Conj(w));
    forall k | 0 < k < n
      ensures Pow(Conj(w), k) != ONE
    {
      PowConj(w, k);
      assert Pow(w, k) != ONE;
    }
  }

  function Powers(z: Complex): int -> Complex { q => Tw(z, q) }

  lemma {:induction false} Geometric(z: Complex, n: nat)
    ensures Mul(Sub(ONE, z), Sum(Powers(z), n)) == Sub(ONE, Pow(z, n))
  {
    if n == 0 {
      MulZero(Sub(ONE, z));
    } else {
      Geometric(z, n - 1);
      GeometricStep(z, Sum(Powers(z), n - 1), Pow(z, n - 1));
    }
  }

  lemma GeometricStep(z: Complex, s: Complex, p: Complex)
    requires Mul(Sub(ONE, z), s) == Sub(ONE, p)
    ensures Mul(Sub(ONE, z), Add(s, p)) == Sub(ONE, Mul(z, p))
  {
    calc {
      Mul(Sub(ONE, z), Add(s, p));
      { MulAdd(Sub(ONE, z), s, p); }
      Add(Sub(ONE, p), Mul(Sub(ONE, z), p));
      Sub(ONE, Mul(z, p));
    }
  }

  /** The powers of a root of unity other than one sum to zero. */
  lemma RootsSumToZero(z: Complex, n: nat)
    requires Pow(z, n) == ONE && z != ONE
    ensures Sum(Powers(z), n) == ZERO
  {
    Geometric(z, n);
    MulIsZero(Sub(ONE, z), Sum(Powers(z), n));
  }

  lemma {:induction false} OnesSum(n: nat)
    ensures Sum(Powers(ONE), n) == Complex(n as real, 0.0)
  {
    hide Mul, Pow;
    if n > 0 {
      OnesSum(n - 1);
      PowOne(n - 1);
      assert Powers(ONE)(n - 1) == ONE;
    }
  }

  /* ---------- The mixed root conj(w)^s * w^t ---------- */

  function Mixed(w: Complex, s: nat, t: nat): Complex { Mul(Pow(Conj(w), s), Pow(w, t)) }

  lemma {:induction false} PowOfMul(a: Complex, b: Complex, q: nat)
    ensures Pow(Mul(a, b), q) == Mul(Pow(a, q), Pow(b, q))
  {
    if q == 0 {
    } else {
      PowOfMul(a, b, q - 1);
      Interchange(a, b, Pow(a, q - 1), Pow(b, q - 1));
    }
  }

  lemma Interchange(a: Complex, b: Complex, c: Complex, d: Complex)
    ensures Mul(Mul(a, b), Mul(c, d)) == Mul(Mul(a, c), Mul(b, d))
  {
    hide Mul;
    MulAssoc(a, b, Mul(c, d));
    MulAssoc(b, c, d);
    MulComm(b, c);
    MulAssoc(c, b, d);
    MulAssoc(a, c, Mul(b, d));
  }

  lemma MixedPow(w: Complex, s: nat, t: nat, q: nat)
    ensures Pow(Mixed(w, s, t), q) == Mul(Pow(Conj(w), s * q), Pow(w, q * t))
  {
    hide Mul;
    PowOfMul(Pow(Conj(w), s), Pow(w, t), q);
    PowMul(Conj(w), s, q);
    PowMul(w, t, q);
    assert t * q == q * t;
  }

  lemma {:induction false} MixedCancels(w: Complex, s: nat)
    requires Mul(w, Conj(w)) == ONE
    ensures Mixed(w, s, s) == ONE
  {
    hide Mul;
    PowOfMul(Conj(w), w, s);
    MulComm(w, Conj(w));
    PowOne(s);
  }

  lemma MixedIsRoot(w: Complex, n: nat, s: nat, t: nat)
    requires PrimitiveRoot(w, n) && s < n && t < n
    ensures Pow(Mixed(w, s, t), n) == ONE
    ensures s == t ==> Mixed(w, s, t) == ONE
    ensures s != t ==> Mixed(w, s, t) != ONE
  {
    hide Mul;
    MixedPow(w, s, t, n);
    ConjPrimitive(w, n);
    PowPeriodic(w, n, 0, t);
    PowPeriodic(Conj(w), n, 0, s);
    assert s * n == 0 + n * s && n * t == 0 + n * t;
    MulOne(ONE);
    MixedCancels(w, s);
    MixedCancels(w, t);
    if s < t {
      PowAdd(w, s, t - s);
      MulAssoc(Pow(Conj(w), s), Pow(w, s), Pow(w, t - s));
      MulOne(Pow(w, t - s));
    } else if t < s {
      PowAdd(Conj(w), s - t, t);
      MulAssoc(Pow(Conj(w), s - t), Pow(Conj(w), t), Pow(w, t));
      MulOne(Pow(Conj(w), s - t));
    }
  }

  /* ---------- The inverse law ---------- */

  function Cross(x: seq<Complex>, w: Complex, t: nat): (int, int) -> Complex {
    (s, q) => if s < 0 || q < 0 then ZERO else Mul(At(x, s), Pow(Mixed(w, s, t), q))
  }

  /** One term of the outer transform is a sum over the original samples. */
  lemma CrossRow(x: seq<Complex>, w: Complex, t: nat, q: nat)
    requires q < |x|
    ensures DftTerm(Transform(x, Conj(w)), w, t)(q) == Sum(s => Cross(x, w, t)(s, q), |x|)
  {
    hide Mul, Add, Pow;
    var f := DftTerm(x, Conj(w), q);
    var c := Tw(w, q * t);
    SumMul(c, f, |x|);
    MulComm(c, Coefficient(x, Conj(w), q));
    forall s | 0 <= s < |x|
      ensures Scaled(c, f)(s) == Cross(x, w, t)(s, q)
    {
      MixedPow(w, s, t, q);
      MulComm(c, f(s));
      MulAssoc(At(x, s), Tw(Conj(w), s * q), c);
    }
    SumEq(Scaled(c, f), s => Cross(x, w, t)(s, q), |x|);
  }

  /** Summed over the frequencies, a sample survives only at its own position. */
  lemma CrossColumn(x: seq<Complex>, w: Complex, t: nat, s: nat)
    requires PrimitiveRoot(w, |x|) && s < |x| && t < |x|
    ensures Sum(q => Cross(x, w, t)(s, q), |x|) == if s == t then Scale(|x| as real, x[t]) else ZERO
  {
    hide Mul, Add, Pow;
    var z := Mixed(w, s, t);
    MixedIsRoot(w, |x|, s, t);
    SumMul(x[s], Powers(z), |x|);
    var col := q => Cross(x, w, t)(s, q);
    forall q | 0 <= q < |x|
      ensures col(q) == Scaled(x[s], Powers(z))(q)
    {
      assert Powers(z)(q) == Pow(z, q);
      assert Cross(x, w, t)(s, q) == Mul(At(x, s), Pow(z, q));
    }
    SumEq(col, Scaled(x[s], Powers(z)), |x|);
    if s == t {
      OnesSum(|x|);
      ScaleIsMul(x[t], |x| as real);
    } else {
      RootsSumToZero(z, |x|);
      MulZero(x[s]);
    }
  }

  lemma ScaleIsMul(a: Complex, r: real)
    ensures Mul(a, Complex(r, 0.0)) == Scale(r, a)
  {}

  function Single(c: Complex, t: nat): int -> Complex { s => if s == t then c else ZERO }

  lemma {:induction false} SumSingle(c: Complex, t: nat, n: nat)
    ensures Sum(Single(c, t), n) == if t < n then c else ZERO
  {
    if n > 0 {
      SumSingle(c, t, n - 1);
      AddLaws(c, ZERO, ZERO);
    }
  }

  function Scaling(r: real, x: seq<Complex>): seq<Complex> {
    seq(|x|, i requires 0 <= i < |x| => Scale(r, x[i]))
  }

  /** Transforming with conj(w) and then with w multiplies every sample by n. */
  lemma InverseLaw(x: seq<Complex>, w: Complex)
    requires PrimitiveRoot(w, |x|)
    ensures Transform(Transform(x, Conj(w)), w) == Scaling(|x| as real, x)
  {
    hide Mul, Add, Pow, Scale, Cross, PrimitiveRoot;
    var y := Transform(x, Conj(w));
    forall t | 0 <= t < |x|
      ensures Coefficient(y, w, t) == Scale(|x| as real, x[t])
    {
      var c := Scale(|x| as real, x[t]);
      forall q | 0 <= q < |x|
        ensures DftTerm(y, w, t)(q) == Sum(s => Cross(x, w, t)(s, q), |x|)
      {
        CrossRow(x, w, t, q);
      }
      forall s | 0 <= s < |x|
        ensures Single(c, t)(s) == Sum(q => Cross(x, w, t)(s, q), |x|)
      {
        CrossColumn(x, w, t, s);
      }
      SumSwap(Cross(x, w, t), Single(c, t), DftTerm(y, w, t), |x|, |x|);
      SumSingle(c, t, |x|);
    }
  }
}
