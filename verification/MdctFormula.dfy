/**
  The cosine sum that the transforms of libfaad/mdct.c are a fast form of:
  with 2N-ths of a quarter circle as the unit of angle, output t of the
  inverse is 2/N times the sum over j of X[j] cos(2pi/N (t + 1/2 + N/4)(j + 1/2)).
 */
module MdctFormula {
  import opened Arithmetic
  import opened Complexes
  import opened Dft
  import opened DftInverse
  import opened Mdct
  import opened MdctInfo

  /** `r` turns by a 2N-th of a quarter circle, N being 8 * n8. */
  ghost predicate Turns(r: Complex, n8: nat) { n8 > 0 && Mul(r, Conj(r)) == ONE && Pow(r, 16 * n8) == IMAG }

  /** The table `sincos`: at angle (k + 1/8) / N of the circle, with squared magnitude 2/N. */
  ghost predicate AtAngles(sincos: seq<Complex>, r: Complex, c: real, n8: nat) {
    && |sincos| == 2 * n8 && c * c == Level(n8)
    && forall k | 0 <= k < |sincos| :: sincos[k] == Scale(c, Pow(r, 8 * k + 1))
  }

  function Cosine(r: Complex, m: nat): real { Pow(r, m).re }

  /** The sum of x[j] cos(2 a (2 j + 1) units of angle) over the first `n` coefficients. */
  function CosineSum(x: seq<real>, r: Complex, a: nat, n: nat): real {
    if n == 0 then 0.0 else CosineSum(x, r, a, n - 1) + RAt(x, n - 1) * Cosine(r, OddMultiple(a, n - 1))
  }

  function OddMultiple(a: int, j: int): (e: int)
    ensures a >= 0 && j >= 0 ==> e >= 0
  {
    2 * a * (2 * j + 1)
  }

  /** Such a table has the magnitude that the other results ask for. */
  lemma AnglesScaled(sincos: seq<Complex>, r: Complex, c: real, n8: nat)
    requires Turns(r, n8) && AtAngles(sincos, r, c, n8)
    ensures Scaled2(sincos, n8)
  {
    hide Pow, Level, Mul;
    forall k | 0 <= k < |sincos|
      ensures Mul(Conj(sincos[k]), sincos[k]) == Complex(Level(n8), 0.0)
    {
      PowUnit(r, 8 * k + 1);
      UnitScaled(Pow(r, 8 * k + 1), c);
    }
  }

  lemma UnitScaled(p: Complex, c: real)
    requires Mul(Conj(p), p) == ONE
    ensures Mul(Conj(Scale(c, p)), Scale(c, p)) == Complex(c * c, 0.0)
  {
    ScaleMul(c, Conj(p), Scale(c, p));
    ScaleMul(c, Conj(p), p);
    ScaleScale(c, c, ONE);
    ConjScale(c, p);
    hide Mul, Conj;
  }

  /* ---------- Angles as integers ---------- */

  /** A whole circle has `m` units. */
  ghost predicate Whole(r: Complex, m: nat) { m > 0 && Mul(r, Conj(r)) == ONE && Pow(r, m) == ONE }

  /** The direction at angle `e`. */
  function Dir(r: Complex, m: nat, e: int): Complex { if m == 0 then ONE else Pow(r, e % m) }

  /** A whole circle, a half and a quarter. */
  function Circle(n8: nat): nat { 64 * n8 }

  function Half(n8: nat): nat { 32 * n8 }

  function Quarter(n8: nat): nat { 16 * n8 }

  lemma DirIs(r: Complex, m: nat, e: nat)
    requires Whole(r, m)
    ensures Dir(r, m, e) == Pow(r, e)
  {
    hide Pow, Mul, Conj;
    Division(e, m);
    PowAt(r, m, e, e % m, e / m);
  }

  lemma Division(e: nat, m: nat)
    requires m > 0
    ensures e % m + m * (e / m) == e
  {}

  lemma PowAt(r: Complex, m: nat, e: nat, s: nat, q: nat)
    requires Pow(r, m) == ONE && s + m * q == e
    ensures Pow(r, s) == Pow(r, e)
  {
    hide Pow;
    PowPeriodic(r, m, s, q);
  }

  lemma SameMod(m: nat, e: int, k: int)
    requires m > 0
    ensures (e + m * k) % m == e % m
  {
    var q := e / m;
    assert e == m * q + e % m;
    assert e + m * k == m * (q + k) + e % m;
    UniqueMod(m, q + k, e % m);
  }

  lemma UniqueMod(m: nat, q: int, s: nat)
    requires s < m
    ensures (m * q + s) % m == s
  {
    var z := m * q + s;
    assert z == m * (z / m) + z % m;
    SmallMultiple(m, z / m - q, s - z % m);
  }

  lemma SmallMultiple(m: nat, d: int, e: int)
    requires -(m as int) < e < m
    ensures m * d == e ==> d == 0 && e == 0
  {
    assert d >= 1 ==> m * d >= m;
    assert d <= -1 ==> m * d <= -1 * m;
  }

  lemma DirTurn(r: Complex, m: nat, e: int, k: int)
    requires Whole(r, m)
    ensures Dir(r, m, e + m * k) == Dir(r, m, e)
  {
    SameMod(m, e, k);
  }

  lemma DirAdd(r: Complex, m: nat, a: int, b: int)
    requires Whole(r, m)
    ensures Dir(r, m, a + b) == Mul(Dir(r, m, a), Dir(r, m, b))
  {
    hide Mul, Pow;
    var s, t := a % m, b % m;
    assert a == m * (a / m) + s && b == m * (b / m) + t;
    assert a + b == (s + t) + m * (a / m + b / m);
    DirTurn(r, m, s + t, a / m + b / m);
    DirIs(r, m, s + t);
    PowAdd(r, s, t);
  }

  lemma DirUnit(r: Complex, m: nat, e: int)
    requires Whole(r, m)
    ensures Mul(Conj(Dir(r, m, e)), Dir(r, m, e)) == ONE
  {
    PowUnit(r, e % m);
  }

  lemma {:induction false} PowUnit(r: Complex, k: nat)
    requires Mul(r, Conj(r)) == ONE
    ensures Mul(Conj(Pow(r, k)), Pow(r, k)) == ONE
  {
    hide Mul, Conj;
    if k == 0 {
      OneUnit();
    } else {
      PowUnit(r, k - 1);
      ConjMul(r, Pow(r, k - 1));
      MulComm(r, Conj(r));
      Interchange(Conj(r), Conj(Pow(r, k - 1)), r, Pow(r, k - 1));
      MulOne(ONE);
    }
  }

  lemma OneUnit()
    ensures Mul(Conj(ONE), ONE) == ONE
  {}

  /** The opposite angle is the conjugate direction. */
  lemma DirNeg(r: Complex, m: nat, e: int)
    requires Whole(r, m)
    ensures Dir(r, m, -e) == Conj(Dir(r, m, e))
  {
    hide Mul, Conj, Dir;
    var d, n := Dir(r, m, e), Dir(r, m, -e);
    DirAdd(r, m, e, -e);
    DirIs(r, m, 0);
    assert Mul(d, n) == ONE;
    DirUnit(r, m, e);
    MulAssoc(Conj(d), d, n);
    MulOne(n);
    MulOne(Conj(d));
  }

  lemma WholeIs(r: Complex, n8: nat)
    requires Turns(r, n8)
    ensures Whole(r, Circle(n8))
    ensures Dir(r, Circle(n8), Quarter(n8)) == IMAG && Dir(r, Circle(n8), Half(n8)) == Complex(-1.0, 0.0)
  {
    hide Mul;
    PowMul(r, 16 * n8, 4);
    PowMul(r, 16 * n8, 2);
    Imaginary();
    DirIs(r, Circle(n8), 16 * n8);
    DirIs(r, Circle(n8), 32 * n8);
  }

  lemma Imaginary()
    ensures Pow(IMAG, 2) == Complex(-1.0, 0.0) && Pow(IMAG, 4) == ONE
  {
    hide Mul;
    Squares();
    PowerOne(IMAG);
    PowAdd(IMAG, 1, 1);
    PowAdd(IMAG, 2, 2);
  }

  lemma Squares()
    ensures Mul(IMAG, IMAG) == Complex(-1.0, 0.0) && Mul(Complex(-1.0, 0.0), Complex(-1.0, 0.0)) == ONE
  {
    TimesImag(IMAG);
    TimesMinus(Complex(-1.0, 0.0));
    hide Mul;
  }

  lemma TimesImag(a: Complex)
    ensures Mul(IMAG, a) == Complex(-a.im, a.re)
  {}

  lemma TimesMinus(a: Complex)
    ensures Mul(Complex(-1.0, 0.0), a) == Complex(-a.re, -a.im)
  {}

  lemma PowerOne(r: Complex)
    ensures Pow(r, 1) == r
  {
    hide Mul;
    MulOne(r);
    assert Pow(r, 1) == Mul(r, Pow(r, 0));
  }

  /* ---------- Sums in pairs ---------- */

  function Reversed(f: int -> Complex, n: int): int -> Complex { i => f(n - 1 - i) }

  lemma {:induction false} SumReversed(f: int -> Complex, n: nat)
    ensures Sum(Reversed(f, n), n) == Sum(f, n)
  {
    hide Add;
    if n > 0 {
      SumReversed(f, n - 1);
      SumConcat(Reversed(f, n), 1, n - 1);
      SumEq(Shift(Reversed(f, n), 1), Reversed(f, n - 1), n - 1);
      var g := Reversed(f, n);
      assert Sum(g, 1) == Add(Sum(g, 0), g(0)) == Add(ZERO, f(n - 1));
      AddLaws(ZERO, f(n - 1), ZERO);
      AddLaws(f(n - 1), Sum(f, n - 1), ZERO);
    }
  }

  function Evens(f: int -> Complex): int -> Complex { k => f(2 * k) }

  function Odds(f: int -> Complex): int -> Complex { k => f(2 * k + 1) }

  lemma {:induction false} SumEvenOdd(f: int -> Complex, n: nat)
    ensures Sum(f, 2 * n) == Add(Sum(Evens(f), n), Sum(Odds(f), n))
  {
    hide Add;
    if n > 0 {
      SumEvenOdd(f, n - 1);
      assert Sum(f, 2 * n - 1) == Add(Sum(f, 2 * n - 2), f(2 * n - 2));
      AddFour(Sum(Evens(f), n - 1), Sum(Odds(f), n - 1), f(2 * n - 2), f(2 * n - 1));
    } else {
      AddLaws(ZERO, ZERO, ZERO);
    }
  }

  lemma AddFour(a: Complex, b: Complex, c: Complex, d: Complex)
    ensures Add(Add(Add(a, b), c), d) == Add(Add(a, c), Add(b, d))
  {}

  /** Terms from both ends: even ones upwards, odd ones downwards. */
  function Pairs(f: int -> Complex, n: int): int -> Complex { k => Add(f(2 * k), f(2 * n - 1 - 2 * k)) }

  lemma SumPairs(f: int -> Complex, n: nat)
    ensures Sum(f, 2 * n) == Sum(Pairs(f, n), n)
  {
    hide Add;
    SumEvenOdd(f, n);
    var e, o := Evens(f), Reversed(Odds(f), n);
    SumReversed(Odds(f), n);
    SumAdd(e, o, n);
    SumEq(i => Add(e(i), o(i)), Pairs(f, n), n);
  }

  lemma {:induction false} SameReal(f: int -> Complex, g: int -> Complex, n: nat)
    requires forall k | 0 <= k < n :: f(k).re == g(k).re
    ensures Sum(f, n).re == Sum(g, n).re
  {
    if n > 0 { SameReal(f, g, n - 1); }
  }

  lemma {:induction false} ImaginaryReal(f: int -> Complex, g: int -> Complex, n: nat)
    requires forall k | 0 <= k < n :: f(k).im == g(k).re
    ensures Sum(f, n).im == Sum(g, n).re
  {
    if n > 0 { ImaginaryReal(f, g, n - 1); }
  }

  lemma {:induction false} OppositeReal(f: int -> Complex, g: int -> Complex, n: nat)
    requires forall k | 0 <= k < n :: f(k).re == -g(k).re
    ensures Sum(f, n).re == -Sum(g, n).re
  {
    if n > 0 { OppositeReal(f, g, n - 1); }
  }

  /* ---------- Waves ---------- */

  /** Coefficient `j` in the direction at angle 2 a (2 j + 1). */
  function WaveTerm(x: seq<real>, r: Complex, n8: nat, a: int): int -> Complex {
    j => Scale(RAt(x, j), Dir(r, Circle(n8), OddMultiple(a, j)))
  }

  function Wave(x: seq<real>, r: Complex, n8: nat, a: int): real { Sum(WaveTerm(x, r, n8, a), 4 * n8).re }

  lemma {:induction false} CosineSumIs(x: seq<real>, r: Complex, n8: nat, a: nat, n: nat)
    requires Turns(r, n8)
    ensures CosineSum(x, r, a, n) == Sum(WaveTerm(x, r, n8, a), n).re
  {
    hide Dir, Circle, Half, Quarter, Turns, RAt, Pow, OddMultiple, Scale;
    if n > 0 {
      CosineSumIs(x, r, n8, a, n - 1);
      CosineIs(r, n8, OddMultiple(a, n - 1), RAt(x, n - 1));
    }
  }

  lemma CosineIs(r: Complex, n8: nat, e: nat, v: real)
    requires Turns(r, n8)
    ensures Scale(v, Dir(r, Circle(n8), e)).re == v * Cosine(r, e)
  {
    hide Dir, Pow;
    WholeIs(r, n8);
    DirIs(r, Circle(n8), e);
  }

  lemma NegatedAngle(a: int, j: int)
    ensures OddMultiple(-a, j) == -OddMultiple(a, j)
  {}

  /** The cosine is even. */
  lemma WaveEven(x: seq<real>, r: Complex, n8: nat, a: int)
    requires Turns(r, n8)
    ensures Wave(x, r, n8, -a) == Wave(x, r, n8, a)
  {
    hide Dir, Circle, Half, Quarter, Whole, Turns, RAt, OddMultiple;
    WholeIs(r, n8);
    forall j | 0 <= j < 4 * n8
      ensures WaveTerm(x, r, n8, -a)(j).re == WaveTerm(x, r, n8, a)(j).re
    {
      NegatedAngle(a, j);
      DirNeg(r, Circle(n8), OddMultiple(a, j));
    }
    SameReal(WaveTerm(x, r, n8, -a), WaveTerm(x, r, n8, a), 4 * n8);
  }

  lemma HalfAngle(a: int, j: int, n8: nat)
    ensures OddMultiple(a + 16 * n8, j) == OddMultiple(a, j) + (Half(n8) + Circle(n8) * j)
  {}

  lemma HalfTurn(r: Complex, n8: nat, e: int, j: int, v: real)
    requires Turns(r, n8)
    ensures Scale(v, Dir(r, Circle(n8), e + (Half(n8) + Circle(n8) * j))).re == -Scale(v, Dir(r, Circle(n8), e)).re
  {
    hide Dir, Circle, Half, Quarter, Whole, Turns, Mul, Scale;
    WholeIs(r, n8);
    MinusParts(v, Dir(r, Circle(n8), e));
    DirAdd(r, Circle(n8), e, Half(n8) + Circle(n8) * j);
    DirTurn(r, Circle(n8), Half(n8), j);
  }

  lemma MinusParts(v: real, d: Complex)
    ensures Scale(v, Mul(d, Complex(-1.0, 0.0))).re == -Scale(v, d).re
  {}

  /** Half a circle further the odd multiples change their sign. */
  lemma WaveHalf(x: seq<real>, r: Complex, n8: nat, a: int)
    requires Turns(r, n8)
    ensures Wave(x, r, n8, a + 16 * n8) == -Wave(x, r, n8, a)
  {
    hide Dir, Circle, Half, Quarter, Turns, RAt, OddMultiple, Scale;
    forall j | 0 <= j < 4 * n8
      ensures WaveTerm(x, r, n8, a + 16 * n8)(j).re == -WaveTerm(x, r, n8, a)(j).re
    {
      HalfAngle(a, j, n8);
      HalfTurn(r, n8, OddMultiple(a, j), j, RAt(x, j));
    }
    OppositeReal(WaveTerm(x, r, n8, a + 16 * n8), WaveTerm(x, r, n8, a), 4 * n8);
  }

  lemma WaveMirror(x: seq<real>, r: Complex, n8: nat, a: int)
    requires Turns(r, n8)
    ensures Wave(x, r, n8, 16 * n8 - a) == -Wave(x, r, n8, a)
  {
    hide Wave, Turns;
    WaveHalf(x, r, n8, -a);
    WaveEven(x, r, n8, a);
    assert -a + 16 * n8 == 16 * n8 - a;
  }

  /* ---------- The transformed numbers are waves ---------- */

  /** The angle that coefficient pair `k` has in transformed number `q`. */
  function Angle(k: int, q: int): int { 2 * (4 * k + 1) * (4 * q + 1) }

  lemma AngleSum(k: nat, q: nat)
    ensures (8 * k + 1) + 32 * (k * q) + (8 * q + 1) == Angle(k, q) >= 0
  {}

  lemma Angles(k: int, q: int, n8: nat)
    ensures OddMultiple(4 * q + 1, 2 * k) == Angle(k, q)
    ensures OddMultiple(4 * q + 1, 4 * n8 - 1 - 2 * k) == -Angle(k, q) + (Quarter(n8) + Circle(n8) * q)
    ensures OddMultiple(4 * q + 1 + 8 * n8, 2 * k) == Angle(k, q) + (Quarter(n8) + Circle(n8) * k)
    ensures OddMultiple(4 * q + 1 + 8 * n8, 4 * n8 - 1 - 2 * k) == -Angle(k, q) + Circle(n8) * (q - k + 2 * n8)
  {}

  lemma QuarterTurns(r: Complex, n8: nat, e: int, j: int)
    requires Turns(r, n8)
    ensures Dir(r, Circle(n8), e + (Quarter(n8) + Circle(n8) * j)) == Mul(Dir(r, Circle(n8), e), IMAG)
  {
    hide Dir, Circle, Half, Quarter, Whole, Turns, Mul;
    WholeIs(r, n8);
    DirAdd(r, Circle(n8), e, Quarter(n8) + Circle(n8) * j);
    DirTurn(r, Circle(n8), Quarter(n8), j);
  }

  /** The two coefficients of pair `k`, turned by the angle of pair `k` and number `q`. */
  function TurnedPair(x: seq<real>, r: Complex, n8: nat, q: int): int -> Complex {
    k => Mul(Complex(RAt(x, 4 * n8 - 1 - 2 * k), RAt(x, 2 * k)), Dir(r, Circle(n8), Angle(k, q)))
  }

  /** Number `q` shows one wave in its imaginary part and one, a quarter further, in its real part. */
  lemma PairIsWave(x: seq<real>, r: Complex, n8: nat, q: int, k: int)
    requires Turns(r, n8)
    ensures TurnedPair(x, r, n8, q)(k).im == Pairs(WaveTerm(x, r, n8, 4 * q + 1), 2 * n8)(k).re
    ensures TurnedPair(x, r, n8, q)(k).re == Pairs(WaveTerm(x, r, n8, 4 * q + 1 + 8 * n8), 2 * n8)(k).re
  {
    hide Dir, Circle, Half, Quarter, Turns, RAt, Angle, OddMultiple, Mul, Scale, Conj, Add;
    PairAngles(r, n8, q, k);
    PairParts(RAt(x, 4 * n8 - 1 - 2 * k), RAt(x, 2 * k), Dir(r, Circle(n8), Angle(k, q)));
    assert 2 * (2 * n8) - 1 - 2 * k == 4 * n8 - 1 - 2 * k;
  }

  lemma PairAngles(r: Complex, n8: nat, q: int, k: int)
    requires Turns(r, n8)
    ensures var d := Dir(r, Circle(n8), Angle(k, q));
            && Dir(r, Circle(n8), OddMultiple(4 * q + 1, 2 * k)) == d
            && Dir(r, Circle(n8), OddMultiple(4 * q + 1, 4 * n8 - 1 - 2 * k)) == Mul(Conj(d), IMAG)
            && Dir(r, Circle(n8), OddMultiple(4 * q + 1 + 8 * n8, 2 * k)) == Mul(d, IMAG)
            && Dir(r, Circle(n8), OddMultiple(4 * q + 1 + 8 * n8, 4 * n8 - 1 - 2 * k)) == Conj(d)
  {
    hide Dir, Circle, Half, Quarter, Turns, Angle, OddMultiple, Mul, Conj;
    Angles(k, q, n8);
    FourAngles(r, n8, Angle(k, q), q, k, q - k + 2 * n8);
  }

  lemma FourAngles(r: Complex, n8: nat, e: int, q: int, k: int, j: int)
    requires Turns(r, n8)
    ensures var d := Dir(r, Circle(n8), e);
            && Dir(r, Circle(n8), -e + (Quarter(n8) + Circle(n8) * q)) == Mul(Conj(d), IMAG)
            && Dir(r, Circle(n8), e + (Quarter(n8) + Circle(n8) * k)) == Mul(d, IMAG)
            && Dir(r, Circle(n8), -e + Circle(n8) * j) == Conj(d)
  {
    hide Dir, Circle, Half, Quarter, Whole, Turns, Mul, Conj;
    WholeIs(r, n8);
    DirNeg(r, Circle(n8), e);
    QuarterTurns(r, n8, -e, q);
    QuarterTurns(r, n8, e, k);
    DirTurn(r, Circle(n8), -e, j);
  }

  lemma PairParts(a: real, b: real, d: Complex)
    ensures Mul(Complex(a, b), d).im == Add(Scale(b, d), Scale(a, Mul(Conj(d), IMAG))).re
    ensures Mul(Complex(a, b), d).re == Add(Scale(b, Mul(d, IMAG)), Scale(a, Conj(d))).re
  {}

  lemma PairsAreWaves(x: seq<real>, r: Complex, n8: nat, q: int)
    requires Turns(r, n8)
    ensures Sum(TurnedPair(x, r, n8, q), 2 * n8).im == Wave(x, r, n8, 4 * q + 1)
    ensures Sum(TurnedPair(x, r, n8, q), 2 * n8).re == Wave(x, r, n8, 4 * q + 1 + 8 * n8)
  {
    hide TurnedPair, WaveTerm, Pairs;
    forall k | 0 <= k < 2 * n8
      ensures TurnedPair(x, r, n8, q)(k).im == Pairs(WaveTerm(x, r, n8, 4 * q + 1), 2 * n8)(k).re
      ensures TurnedPair(x, r, n8, q)(k).re == Pairs(WaveTerm(x, r, n8, 4 * q + 1 + 8 * n8), 2 * n8)(k).re
    {
      PairIsWave(x, r, n8, q, k);
    }
    ImaginaryReal(TurnedPair(x, r, n8, q), Pairs(WaveTerm(x, r, n8, 4 * q + 1), 2 * n8), 2 * n8);
    SumPairs(WaveTerm(x, r, n8, 4 * q + 1), 2 * n8);
    SameReal(TurnedPair(x, r, n8, q), Pairs(WaveTerm(x, r, n8, 4 * q + 1 + 8 * n8), 2 * n8), 2 * n8);
    SumPairs(WaveTerm(x, r, n8, 4 * q + 1 + 8 * n8), 2 * n8);
  }

  /* ---------- The inverse transform ---------- */

  lemma ScalesOut(a: Complex, p: Complex, t: Complex, u: Complex, c: real)
    ensures Mul(Scale(c, u), Mul(Mul(a, Scale(c, p)), t)) == Scale(c * c, Mul(a, Mul(Mul(p, t), u)))
  {
    hide Mul;
    MulComm(Scale(c, u), Mul(Mul(a, Scale(c, p)), t));
    MulAssoc(a, Scale(c, p), t);
    ScaleMul(c, p, t);
    ScaleMul(c, a, Mul(p, t));
    MulAssoc(a, Mul(p, t), u);
    ScaleMul(c, Mul(a, Mul(p, t)), u);
    ScaleScale(c, c, Mul(Mul(a, Mul(p, t)), u));
    ScaleMul(c, Mul(a, Mul(p, t)), Scale(c, u));
  }

  /** One term of the transform, with both twiddles. */
  lemma TermIs(x: seq<real>, sincos: seq<Complex>, r: Complex, c: real, n8: nat, k: nat, q: nat)
    requires Turns(r, n8) && AtAngles(sincos, r, c, n8) && k < 2 * n8 && q < 2 * n8
    ensures Mul(sincos[q], DftTerm(ImdctIn(x, sincos, n8), Pow(r, 32), q)(k))
         == Scale(Level(n8), TurnedPair(x, r, n8, q)(k))
  {
    hide Mul, Scale, Turns, RAt, Angle, Level, Circle, Dir, Pow;
    var a := Complex(RAt(x, 4 * n8 - 1 - 2 * k), RAt(x, 2 * k));
    ScalesOut(a, Pow(r, 8 * k + 1), Tw(Pow(r, 32), k * q), Pow(r, 8 * q + 1), c);
    TwiddlesMeet(r, n8, k, q);
    assert ImdctIn(x, sincos, n8)[k] == Mul(a, sincos[k]);
    assert DftTerm(ImdctIn(x, sincos, n8), Pow(r, 32), q)(k) == Mul(Mul(a, sincos[k]), Tw(Pow(r, 32), k * q));
  }

  lemma TwiddlesMeet(r: Complex, n8: nat, k: nat, q: nat)
    requires Turns(r, n8)
    ensures Mul(Mul(Pow(r, 8 * k + 1), Tw(Pow(r, 32), k * q)), Pow(r, 8 * q + 1)) == Dir(r, Circle(n8), Angle(k, q))
  {
    hide Mul, Whole, Turns, Angle, Dir, Pow, Circle;
    WholeIs(r, n8);
    var e := k * q;
    assert e >= 0;
    AngleSum(k, q);
    PowMul(r, 32, e);
    PowAdd(r, 8 * k + 1, 32 * e);
    PowAdd(r, 8 * k + 1 + 32 * e, 8 * q + 1);
    DirIs(r, Circle(n8), Angle(k, q));
  }

  lemma {:induction false} SumScale(l: real, f: int -> Complex, g: int -> Complex, n: nat)
    requires forall k | 0 <= k < n :: f(k) == Scale(l, g(k))
    ensures Sum(f, n) == Scale(l, Sum(g, n))
  {
    if n > 0 { SumScale(l, f, g, n - 1); }
  }

  /** After the second twiddle. */
  lemma TurnedBackIs(x: seq<real>, sincos: seq<Complex>, r: Complex, c: real, n8: nat, q: nat)
    requires Turns(r, n8) && AtAngles(sincos, r, c, n8) && q < 2 * n8
    ensures var y := TurnedBack(Transform(ImdctIn(x, sincos, n8), Pow(r, 32)), sincos)[q];
            y.im == Level(n8) * Wave(x, r, n8, 4 * q + 1) && y.re == Level(n8) * Wave(x, r, n8, 4 * q + 1 + 8 * n8)
  {
    hide Mul, Turns, RAt, Angle, Level, Circle, Dir, Pow, Scale, TurnedPair, DftTerm, Wave, ImdctIn;
    var z, w := ImdctIn(x, sincos, n8), Pow(r, 32);
    var f := DftTerm(z, w, q);
    SumMul(sincos[q], f, 2 * n8);
    MulComm(sincos[q], Sum(f, 2 * n8));
    forall k | 0 <= k < 2 * n8
      ensures Scaled(sincos[q], f)(k) == Scale(Level(n8), TurnedPair(x, r, n8, q)(k))
    {
      TermIs(x, sincos, r, c, n8, k, q);
    }
    SumScale(Level(n8), Scaled(sincos[q], f), TurnedPair(x, r, n8, q), 2 * n8);
    PairsAreWaves(x, r, n8, q);
    ScaleParts(Level(n8), Sum(TurnedPair(x, r, n8, q), 2 * n8));
  }

  lemma ScaleParts(l: real, a: Complex)
    ensures Scale(l, a).re == l * a.re && Scale(l, a).im == l * a.im
  {}

  lemma OppositeProduct(l: real, a: real, b: real)
    requires a == -b
    ensures -(l * a) == l * b
  {}

  /** The eight outputs of one step of the reordering loop are waves at their own angles. */
  lemma RowIsWave(x: seq<real>, y: seq<Complex>, r: Complex, l: real, n8: nat, k: nat)
    requires Turns(r, n8) && k < n8 && |y| == 2 * n8
    requires forall q: nat | q < 2 * n8 ::
               y[q].im == l * Wave(x, r, n8, 4 * q + 1) && y[q].re == l * Wave(x, r, n8, 4 * q + 1 + 8 * n8)
    ensures ReorderAt(y, n8, 2 * k) == l * Wave(x, r, n8, 4 * k + 1 + 4 * n8)
    ensures ReorderAt(y, n8, 2 * k + 1) == l * Wave(x, r, n8, 4 * k + 3 + 4 * n8)
    ensures ReorderAt(y, n8, 2 * n8 + 2 * k) == l * Wave(x, r, n8, 4 * k + 1 + 8 * n8)
    ensures ReorderAt(y, n8, 2 * n8 + 2 * k + 1) == l * Wave(x, r, n8, 4 * k + 3 + 8 * n8)
    ensures ReorderAt(y, n8, 4 * n8 + 2 * k) == l * Wave(x, r, n8, 4 * k + 1 + 12 * n8)
    ensures ReorderAt(y, n8, 4 * n8 + 2 * k + 1) == l * Wave(x, r, n8, 4 * k + 3 + 12 * n8)
    ensures ReorderAt(y, n8, 6 * n8 + 2 * k) == l * Wave(x, r, n8, 4 * k + 1 + 16 * n8)
    ensures ReorderAt(y, n8, 6 * n8 + 2 * k + 1) == l * Wave(x, r, n8, 4 * k + 3 + 16 * n8)
  {
    hide Wave, Turns, ReorderAt;
    RowValues(y, n8, k);
    var a := 4 * k + 3;
    WaveMirror(x, r, n8, a + 4 * n8);
    WaveMirror(x, r, n8, a + 8 * n8);
    WaveMirror(x, r, n8, a + 12 * n8);
    WaveHalf(x, r, n8, 4 * k + 1);
    WaveHalf(x, r, n8, a);
    WaveMirror(x, r, n8, a);
    assert 4 * (n8 - 1 - k) + 1 + 8 * n8 == 16 * n8 - (a + 4 * n8);
    assert 4 * (2 * n8 - 1 - k) + 1 == 16 * n8 - (a + 8 * n8);
    assert 4 * (n8 - 1 - k) + 1 == 16 * n8 - (a + 12 * n8);
    assert 4 * (2 * n8 - 1 - k) + 1 + 8 * n8 == 16 * n8 - a;
    assert 4 * (n8 + k) + 1 == 4 * k + 1 + 4 * n8;
    OppositeProduct(l, Wave(x, r, n8, 16 * n8 - (a + 4 * n8)), Wave(x, r, n8, a + 4 * n8));
    OppositeProduct(l, Wave(x, r, n8, 16 * n8 - (a + 8 * n8)), Wave(x, r, n8, a + 8 * n8));
    OppositeProduct(l, Wave(x, r, n8, 16 * n8 - (a + 12 * n8)), Wave(x, r, n8, a + 12 * n8));
    OppositeProduct(l, Wave(x, r, n8, 4 * k + 1), Wave(x, r, n8, 4 * k + 1 + 16 * n8));
  }

  /** `faad_imdct` computes the inverse transform of its definition, for any length its FFT has. */
  lemma ImdctFormula(x: seq<real>, sincos: seq<Complex>, r: Complex, c: real, n8: nat, t: nat)
    requires Turns(r, n8) && AtAngles(sincos, r, c, n8) && t < 8 * n8
    ensures ImdctOf(x, sincos, Pow(r, 32), n8)[t] == Level(n8) * CosineSum(x, r, 2 * t + 1 + 4 * n8, 4 * n8)
  {
    hide Turns, AtAngles, Wave, ImdctIn, Transform, TurnedBack, CosineSum, ReorderAt, Level, Pow;
    var y := TurnedBack(Transform(ImdctIn(x, sincos, n8), Pow(r, 32)), sincos);
    forall q: nat | q < 2 * n8
      ensures y[q].im == Level(n8) * Wave(x, r, n8, 4 * q + 1)
      ensures y[q].re == Level(n8) * Wave(x, r, n8, 4 * q + 1 + 8 * n8)
    {
      TurnedBackIs(x, sincos, r, c, n8, q);
    }
    var quarter := if t < 2 * n8 then 0 else if t < 4 * n8 then 1 else if t < 6 * n8 then 2 else 3;
    RowIsWave(x, y, r, Level(n8), n8, (t - quarter * (2 * n8)) / 2);
    WaveIs(x, r, n8, 2 * t + 1 + 4 * n8);
  }

  lemma WaveIs(x: seq<real>, r: Complex, n8: nat, a: nat)
    requires Turns(r, n8)
    ensures CosineSum(x, r, a, 4 * n8) == Wave(x, r, n8, a)
  {
    CosineSumIs(x, r, n8, a, 4 * n8);
  }

  /* ---------- The forward transform ---------- */

  /** The angle at which sample `u` enters coefficient `t`. */
  function Phase(n8: nat, u: int, t: int): (e: int)
    ensures u >= 0 && t >= 0 ==> e >= 0
  {
    OddMultiple(2 * u + 1 + 4 * n8, t)
  }

  /** The sum of x[u] cos(2 (2 u + 1 + N/2) (2 t + 1) units of angle) over the first `n` samples. */
  function SampleSum(x: seq<real>, r: Complex, n8: nat, t: nat, n: nat): real {
    if n == 0 then 0.0
    else SampleSum(x, r, n8, t, n - 1) + RAt(x, n - 1) * Cosine(r, Phase(n8, n - 1, t))
  }

  function SampleTerm(x: seq<real>, r: Complex, n8: nat, t: int): int -> Complex {
    u => Scale(RAt(x, u), Dir(r, Circle(n8), Phase(n8, u, t)))
  }

  lemma {:induction false} SampleSumIs(x: seq<real>, r: Complex, n8: nat, t: nat, n: nat)
    requires Turns(r, n8)
    ensures SampleSum(x, r, n8, t, n) == Sum(SampleTerm(x, r, n8, t), n).re
  {
    hide Dir, Circle, Turns, RAt, Pow, Phase, Scale, Cosine;
    if n > 0 {
      SampleSumIs(x, r, n8, t, n - 1);
      CosineIs(r, n8, Phase(n8, n - 1, t), RAt(x, n - 1));
    }
  }

  function Plus(a: int -> Complex, b: int -> Complex): int -> Complex { k => Add(a(k), b(k)) }

  lemma {:induction false} SumPlus(a: int -> Complex, b: int -> Complex, n: nat)
    ensures Sum(Plus(a, b), n) == Add(Sum(a, n), Sum(b, n))
  {
    hide Add;
    if n > 0 {
      SumPlus(a, b, n - 1);
      AddPairs(Sum(a, n - 1), a(n - 1), Sum(b, n - 1), b(n - 1));
    } else {
      AddLaws(ZERO, ZERO, ZERO);
    }
  }

  lemma AddPairs(a: Complex, b: Complex, c: Complex, d: Complex)
    ensures Add(Add(a, b), Add(c, d)) == Add(Add(a, c), Add(b, d))
  {}

  /** One term from each end of both halves. */
  function Four(f: int -> Complex, n: int): int -> Complex { Plus(Pairs(f, n), Pairs(Shift(f, 2 * n), n)) }

  /** One term from each end of each of the four quarters. */
  function Eight(f: int -> Complex, n: int): int -> Complex { Plus(Four(f, n), Four(Shift(f, 4 * n), n)) }

  lemma SumFour(f: int -> Complex, n: nat)
    ensures Sum(f, 4 * n) == Sum(Four(f, n), n)
  {
    hide Add, Pairs, Shift, Plus;
    SumConcat(f, 2 * n, 2 * n);
    SumPairs(f, n);
    SumPairs(Shift(f, 2 * n), n);
    SumPlus(Pairs(f, n), Pairs(Shift(f, 2 * n), n), n);
  }

  lemma SumEight(f: int -> Complex, n: nat)
    ensures Sum(f, 8 * n) == Sum(Eight(f, n), n)
  {
    hide Add, Four, Shift, Plus;
    SumConcat(f, 4 * n, 4 * n);
    SumFour(f, n);
    SumFour(Shift(f, 4 * n), n);
    SumPlus(Four(f, n), Four(Shift(f, 4 * n), n), n);
  }

  /** The folded number `k`, turned back by the angle of `k` and `q`. */
  function TurnedFoldTerm(x: seq<real>, r: Complex, n8: nat, q: int): int -> Complex {
    k => Mul(FoldAt(x, n8, k), Conj(Dir(r, Circle(n8), Angle(k, q))))
  }

  lemma SampleAngles(k: int, q: int, n8: nat)
    ensures var e, a := Angle(k, q), 4 * k + 1;
            var h, i := Half(n8) + Circle(n8) * (2 * q), Quarter(n8) + Circle(n8) * q;
            && OddMultiple(a, 2 * q) == e && OddMultiple(16 * n8 + a, 2 * q) == e + h
            && OddMultiple(16 * n8 - a, 2 * q) == -e + h && OddMultiple(8 * n8 + a, 2 * q) == e + i
            && OddMultiple(8 * n8 - a, 2 * q) == -e + i && OddMultiple(24 * n8 - a, 2 * q) == (-e + i) + h
  {}

  lemma DirHalf(r: Complex, n8: nat, e: int, j: int)
    requires Turns(r, n8)
    ensures Dir(r, Circle(n8), e + (Half(n8) + Circle(n8) * j)) == Mul(Dir(r, Circle(n8), e), Complex(-1.0, 0.0))
  {
    hide Dir, Circle, Half, Quarter, Whole, Turns, Mul;
    WholeIs(r, n8);
    DirAdd(r, Circle(n8), e, Half(n8) + Circle(n8) * j);
    DirTurn(r, Circle(n8), Half(n8), j);
  }

  /** The directions in which the samples folded into number `k` enter coefficient 2q. */
  lemma SampleDirs(r: Complex, n8: nat, k: int, q: int)
    requires Turns(r, n8)
    ensures var d, a := Dir(r, Circle(n8), Angle(k, q)), 4 * k + 1;
            var minus := Complex(-1.0, 0.0);
            && Dir(r, Circle(n8), OddMultiple(a, 2 * q)) == d
            && Dir(r, Circle(n8), OddMultiple(16 * n8 + a, 2 * q)) == Mul(d, minus)
            && Dir(r, Circle(n8), OddMultiple(16 * n8 - a, 2 * q)) == Mul(Conj(d), minus)
            && Dir(r, Circle(n8), OddMultiple(8 * n8 + a, 2 * q)) == Mul(d, IMAG)
            && Dir(r, Circle(n8), OddMultiple(8 * n8 - a, 2 * q)) == Mul(Conj(d), IMAG)
            && Dir(r, Circle(n8), OddMultiple(24 * n8 - a, 2 * q)) == Mul(Mul(Conj(d), IMAG), minus)
  {
    hide Dir, Circle, Half, Quarter, Whole, Turns, Angle, OddMultiple, Mul, Conj;
    var e := Angle(k, q);
    WholeIs(r, n8);
    SampleAngles(k, q, n8);
    DirNeg(r, Circle(n8), e);
    DirHalf(r, n8, e, 2 * q);
    DirHalf(r, n8, -e, 2 * q);
    QuarterTurns(r, n8, e, q);
    QuarterTurns(r, n8, -e, q);
    DirHalf(r, n8, -e + (Quarter(n8) + Circle(n8) * q), 2 * q);
  }

  /** From coefficient 2q to coefficient N/2 - 1 - 2q: the conjugate, a quarter turned to one side or the other. */
  lemma OtherAngle(p: int, q: int, n8: nat)
    ensures OddMultiple(4 * p + 1, 4 * n8 - 1 - 2 * q)
         == -OddMultiple(4 * p + 1, 2 * q) + (Quarter(n8) + Circle(n8) * p)
    ensures OddMultiple(4 * p - 1, 4 * n8 - 1 - 2 * q)
         == -(OddMultiple(4 * p - 1, 2 * q) + (Quarter(n8) + Circle(n8) * -p))
  {}

  lemma OtherDirs(r: Complex, n8: nat, p: int, q: int)
    requires Turns(r, n8)
    ensures Dir(r, Circle(n8), OddMultiple(4 * p + 1, 4 * n8 - 1 - 2 * q)).re
         == Dir(r, Circle(n8), OddMultiple(4 * p + 1, 2 * q)).im
    ensures Dir(r, Circle(n8), OddMultiple(4 * p - 1, 4 * n8 - 1 - 2 * q)).re
         == -Dir(r, Circle(n8), OddMultiple(4 * p - 1, 2 * q)).im
  {
    hide Dir, Circle, Half, Quarter, Whole, Turns, OddMultiple, Mul, Conj;
    var e, f := OddMultiple(4 * p + 1, 2 * q), OddMultiple(4 * p - 1, 2 * q);
    WholeIs(r, n8);
    OtherAngle(p, q, n8);
    DirNeg(r, Circle(n8), e);
    QuarterTurns(r, n8, -e, p);
    DirNeg(r, Circle(n8), f + (Quarter(n8) + Circle(n8) * -p));
    QuarterTurns(r, n8, f, -p);
    QuarterParts(Dir(r, Circle(n8), e));
    QuarterParts(Dir(r, Circle(n8), f));
  }

  lemma QuarterParts(d: Complex)
    ensures Mul(Conj(d), IMAG).re == d.im && Conj(Mul(d, IMAG)).re == -d.im
  {}

  lemma DirParts(d: Complex)
    ensures var minus := Complex(-1.0, 0.0);
            && Mul(d, minus).re == -d.re && Mul(d, minus).im == -d.im
            && Mul(Conj(d), minus).re == -d.re && Mul(Conj(d), minus).im == d.im
            && Mul(d, IMAG).re == -d.im && Mul(d, IMAG).im == d.re
            && Mul(Conj(d), IMAG).re == d.im && Mul(Conj(d), IMAG).im == d.re
            && Mul(Mul(Conj(d), IMAG), minus).re == -d.im && Mul(Mul(Conj(d), IMAG), minus).im == -d.re
  {}

  lemma LowAlgebra(a: real, b: real, c: real, e: real, d: Complex)
    ensures Mul(Complex(a + b, c - e), Conj(d)).re == -(a * -d.re + b * -d.re + c * -d.im + e * d.im)
    ensures Mul(Complex(a + b, c - e), Conj(d)).im == a * -d.im + b * -d.im + c * d.re + e * -d.re
  {}

  lemma HighAlgebra(a: real, b: real, c: real, e: real, d: Complex)
    ensures Mul(Complex(a - b, c + e), Conj(d)).re == -(a * -d.re + b * d.re + c * -d.im + e * -d.im)
    ensures Mul(Complex(a - b, c + e), Conj(d)).im == a * -d.im + b * d.im + c * d.re + e * d.re
  {}

  /** The real part of the term of sample `u` at coefficients 2q and N/2 - 1 - 2q, by its direction at 2q. */
  lemma SampleParts(x: seq<real>, r: Complex, n8: nat, q: int, u: int, p: int)
    requires Turns(r, n8)
    ensures var f, g := SampleTerm(x, r, n8, 2 * q), SampleTerm(x, r, n8, 4 * n8 - 1 - 2 * q);
            var d := Dir(r, Circle(n8), OddMultiple(2 * u + 1 + 4 * n8, 2 * q));
            && f(u).re == RAt(x, u) * d.re
            && (2 * u + 1 + 4 * n8 == 4 * p + 1 ==> g(u).re == RAt(x, u) * d.im)
            && (2 * u + 1 + 4 * n8 == 4 * p - 1 ==> g(u).re == RAt(x, u) * -d.im)
  {
    hide Dir, Circle, Turns, OddMultiple, RAt, Scale;
    OtherDirs(r, n8, p, q);
    ScaleParts(RAt(x, u), Dir(r, Circle(n8), OddMultiple(2 * u + 1 + 4 * n8, 2 * q)));
    ScaleParts(RAt(x, u), Dir(r, Circle(n8), OddMultiple(2 * u + 1 + 4 * n8, 4 * n8 - 1 - 2 * q)));
  }

  /** Four samples, folded and turned back, against their own waves at coefficients 2q and N/2 - 1 - 2q. */
  lemma LowFoldParts(x: seq<real>, r: Complex, n8: nat, q: int, k: nat)
    requires Turns(r, n8) && k < n8
    ensures var f, g := SampleTerm(x, r, n8, 2 * q), SampleTerm(x, r, n8, 4 * n8 - 1 - 2 * q);
            var z := TurnedFoldTerm(x, r, n8, q)(k);
            && z.re == -(f(6 * n8 - 1 - 2 * k).re + f(6 * n8 + 2 * k).re + f(2 * n8 + 2 * k).re
                + f(2 * n8 - 1 - 2 * k).re)
            && z.im == g(6 * n8 - 1 - 2 * k).re + g(6 * n8 + 2 * k).re + g(2 * n8 + 2 * k).re + g(2 * n8 - 1 - 2 * k).re
  {
    hide Dir, Circle, Half, Quarter, Turns, Angle, OddMultiple, RAt, Mul, Conj, Scale, SampleTerm;
    var d, a := Dir(r, Circle(n8), Angle(k, q)), 4 * k + 1;
    SampleDirs(r, n8, k, q);
    DirParts(d);
    LowAlgebra(RAt(x, 6 * n8 - 1 - 2 * k), RAt(x, 6 * n8 + 2 * k), RAt(x, 2 * n8 + 2 * k), RAt(x, 2 * n8 - 1 - 2 * k),
        d);
    SampleParts(x, r, n8, q, 6 * n8 - 1 - 2 * k, 4 * n8 - k);
    SampleParts(x, r, n8, q, 6 * n8 + 2 * k, 4 * n8 + k);
    SampleParts(x, r, n8, q, 2 * n8 + 2 * k, 2 * n8 + k);
    SampleParts(x, r, n8, q, 2 * n8 - 1 - 2 * k, 2 * n8 - k);
    assert 2 * (6 * n8 - 1 - 2 * k) + 1 + 4 * n8 == 16 * n8 - a == 4 * (4 * n8 - k) - 1;
    assert 2 * (6 * n8 + 2 * k) + 1 + 4 * n8 == 16 * n8 + a == 4 * (4 * n8 + k) + 1;
    assert 2 * (2 * n8 + 2 * k) + 1 + 4 * n8 == 8 * n8 + a == 4 * (2 * n8 + k) + 1;
    assert 2 * (2 * n8 - 1 - 2 * k) + 1 + 4 * n8 == 8 * n8 - a == 4 * (2 * n8 - k) - 1;
  }

  lemma HighFoldParts(x: seq<real>, r: Complex, n8: nat, q: int, j: nat)
    requires Turns(r, n8) && j < n8
    ensures var f, g := SampleTerm(x, r, n8, 2 * q), SampleTerm(x, r, n8, 4 * n8 - 1 - 2 * q);
            var z := TurnedFoldTerm(x, r, n8, q)(n8 + j);
            && z.re == -(f(4 * n8 - 1 - 2 * j).re + f(2 * j).re + f(4 * n8 + 2 * j).re + f(8 * n8 - 1 - 2 * j).re)
            && z.im == g(4 * n8 - 1 - 2 * j).re + g(2 * j).re + g(4 * n8 + 2 * j).re + g(8 * n8 - 1 - 2 * j).re
  {
    hide Dir, Circle, Half, Quarter, Turns, Angle, OddMultiple, RAt, Mul, Conj, Scale, SampleTerm;
    var d, a := Dir(r, Circle(n8), Angle(n8 + j, q)), 4 * (n8 + j) + 1;
    SampleDirs(r, n8, n8 + j, q);
    DirParts(d);
    HighAlgebra(RAt(x, 4 * n8 - 1 - 2 * j), RAt(x, 2 * j), RAt(x, 4 * n8 + 2 * j), RAt(x, 8 * n8 - 1 - 2 * j), d);
    SampleParts(x, r, n8, q, 4 * n8 - 1 - 2 * j, 3 * n8 - j);
    SampleParts(x, r, n8, q, 2 * j, n8 + j);
    SampleParts(x, r, n8, q, 4 * n8 + 2 * j, 3 * n8 + j);
    SampleParts(x, r, n8, q, 8 * n8 - 1 - 2 * j, 5 * n8 - j);
    assert 2 * (4 * n8 - 1 - 2 * j) + 1 + 4 * n8 == 16 * n8 - a == 4 * (3 * n8 - j) - 1;
    assert 2 * (2 * j) + 1 + 4 * n8 == a == 4 * (n8 + j) + 1;
    assert 2 * (4 * n8 + 2 * j) + 1 + 4 * n8 == 8 * n8 + a == 4 * (3 * n8 + j) + 1;
    assert 2 * (8 * n8 - 1 - 2 * j) + 1 + 4 * n8 == 24 * n8 - a == 4 * (5 * n8 - j) - 1;
  }

  lemma FourParts(f: int -> Complex, n: int, k: int)
    ensures Four(f, n)(k).re == f(2 * k).re + f(2 * n - 1 - 2 * k).re + f(2 * n + 2 * k).re + f(4 * n - 1 - 2 * k).re
  {
    assert 2 * n + (2 * n - 1 - 2 * k) == 4 * n - 1 - 2 * k;
    var a, b := Pairs(f, n), Pairs(Shift(f, 2 * n), n);
    assert a(k) == Add(f(2 * k), f(2 * n - 1 - 2 * k));
    assert b(k) == Add(f(2 * n + 2 * k), f(4 * n - 1 - 2 * k));
    assert Four(f, n)(k) == Add(a(k), b(k));
  }

  lemma EightParts(f: int -> Complex, n: int, k: int)
    ensures Eight(f, n)(k).re
         == f(2 * k).re + f(2 * n - 1 - 2 * k).re + f(2 * n + 2 * k).re + f(4 * n - 1 - 2 * k).re
          + f(4 * n + 2 * k).re + f(6 * n - 1 - 2 * k).re + f(6 * n + 2 * k).re + f(8 * n - 1 - 2 * k).re
  {
    FourParts(f, n, k);
    FourParts(Shift(f, 4 * n), n, k);
    hide Four;
    assert 4 * n + (2 * n - 1 - 2 * k) == 6 * n - 1 - 2 * k && 4 * n + (4 * n - 1 - 2 * k) == 8 * n - 1 - 2 * k;
    assert 4 * n + (2 * n + 2 * k) == 6 * n + 2 * k;
  }

  /** The folded numbers, summed, show two coefficients of the samples. */
  lemma FoldedIsWave(x: seq<real>, r: Complex, n8: nat, q: int)
    requires Turns(r, n8)
    ensures var z := Sum(TurnedFoldTerm(x, r, n8, q), 2 * n8);
            && z.re == -Sum(SampleTerm(x, r, n8, 2 * q), 8 * n8).re
            && z.im == Sum(SampleTerm(x, r, n8, 4 * n8 - 1 - 2 * q), 8 * n8).re
  {
    hide TurnedFoldTerm, SampleTerm, Eight, Shift, Turns;
    var z, f, g := TurnedFoldTerm(x, r, n8, q), SampleTerm(x, r, n8, 2 * q), SampleTerm(x, r, n8, 4 * n8 - 1 - 2 * q);
    var both := Plus(z, Shift(z, n8));
    forall k: nat | k < n8
      ensures both(k).re == -Eight(f, n8)(k).re && both(k).im == Eight(g, n8)(k).re
    {
      BothIs(z, n8, k);
      LowFoldParts(x, r, n8, q, k);
      HighFoldParts(x, r, n8, q, k);
      EightParts(f, n8, k);
      EightParts(g, n8, k);
    }
    SumConcat(z, n8, n8);
    SumPlus(z, Shift(z, n8), n8);
    OppositeReal(both, Eight(f, n8), n8);
    ImaginaryReal(both, Eight(g, n8), n8);
    SumEight(f, n8);
    SumEight(g, n8);
  }

  lemma BothIs(z: int -> Complex, n: int, k: int)
    ensures Plus(z, Shift(z, n))(k).re == z(k).re + z(n + k).re
    ensures Plus(z, Shift(z, n))(k).im == z(k).im + z(n + k).im
  {}

  /** One term of the forward transform, with both twiddles. */
  lemma FoldTermIs(x: seq<real>, sincos: seq<Complex>, r: Complex, c: real, n8: nat, k: nat, q: nat)
    requires Turns(r, n8) && AtAngles(sincos, r, c, n8) && k < 2 * n8 && q < 2 * n8
    ensures Mul(Conj(sincos[q]), DftTerm(MdctIn(x, sincos, n8), Conj(Pow(r, 32)), q)(k))
         == Scale(2.0, TurnedFoldTerm(x, r, n8, q)(k))
  {
    hide Mul, Scale, Turns, FoldAt, Angle, Level, Circle, Dir, Pow, Conj;
    var a, t := FoldAt(x, n8, k), Tw(Pow(r, 32), k * q);
    var p, u := Pow(r, 8 * k + 1), Pow(r, 8 * q + 1);
    ConjScale(c, p);
    ConjScale(c, u);
    ConjTw(Pow(r, 32), k * q);
    assert MdctIn(x, sincos, n8)[k] == Scale((8 * n8) as real, Mul(a, Scale(c, Conj(p))));
    TwoIs(n8);
    FactorOut(a, Conj(p), Conj(t), Conj(u), c, (8 * n8) as real, Level(n8));
    TwiddlesMeet(r, n8, k, q);
    ConjMul(p, t);
    ConjMul(Mul(p, t), u);
  }

  lemma ConjScale(c: real, a: Complex)
    ensures Conj(Scale(c, a)) == Scale(c, Conj(a))
  {}

  lemma ConjTw(w: Complex, e: int)
    ensures Tw(Conj(w), e) == Conj(Tw(w, e))
  {
    if e >= 0 { PowConj(w, e); }
  }

  lemma FactorOut(a: Complex, p: Complex, t: Complex, u: Complex, c: real, n: real, l: real)
    requires l == c * c && n * l == 2.0
    ensures Mul(Scale(c, u), Mul(Scale(n, Mul(a, Scale(c, p))), t)) == Scale(2.0, Mul(a, Mul(Mul(p, t), u)))
  {
    hide Mul, Scale;
    var b := Mul(a, Scale(c, p));
    ScaleMul(n, b, t);
    ScaleMul(n, Scale(c, u), Mul(b, t));
    ScalesOut(a, p, t, u, c);
    ScaleScale(n, l, Mul(a, Mul(Mul(p, t), u)));
  }

  lemma TwoIs(n8: nat)
    requires n8 > 0
    ensures (8 * n8) as real * Level(n8) == 2.0
  {
    var v := (4 * n8) as real;
    assert (8 * n8) as real == 2.0 * v;
    assert 2.0 * v * (1.0 / v) == 2.0;
  }

  /** After the second twiddle. */
  lemma TurnedIs(x: seq<real>, sincos: seq<Complex>, r: Complex, c: real, n8: nat, q: nat)
    requires Turns(r, n8) && AtAngles(sincos, r, c, n8) && q < 2 * n8
    ensures var y := Turned(Transform(MdctIn(x, sincos, n8), Conj(Pow(r, 32))), sincos)[q];
            && y.re == 2.0 * -Sum(SampleTerm(x, r, n8, 2 * q), 8 * n8).re
            && y.im == 2.0 * Sum(SampleTerm(x, r, n8, 4 * n8 - 1 - 2 * q), 8 * n8).re
  {
    hide Mul, Turns, Pow, Scale, TurnedFoldTerm, SampleTerm, DftTerm, MdctIn, Conj, Level;
    var z, w := MdctIn(x, sincos, n8), Conj(Pow(r, 32));
    var f, s := DftTerm(z, w, q), Conj(sincos[q]);
    SumMul(s, f, 2 * n8);
    MulComm(s, Sum(f, 2 * n8));
    forall k | 0 <= k < 2 * n8
      ensures Scaled(s, f)(k) == Scale(2.0, TurnedFoldTerm(x, r, n8, q)(k))
    {
      FoldTermIs(x, sincos, r, c, n8, k, q);
    }
    SumScale(2.0, Scaled(s, f), TurnedFoldTerm(x, r, n8, q), 2 * n8);
    FoldedIsWave(x, r, n8, q);
    ScaleParts(2.0, Sum(TurnedFoldTerm(x, r, n8, q), 2 * n8));
  }

  lemma MirrorAngle(u: int, t: int, n8: nat)
    ensures OddMultiple(2 * u + 1 + 4 * n8, 8 * n8 - 1 - t)
         == -OddMultiple(2 * u + 1 + 4 * n8, t) + (Half(n8) + Circle(n8) * (u + 2 * n8))
  {}

  /** The second half of the coefficients mirrors the first with the opposite sign. */
  lemma CoefficientMirror(x: seq<real>, r: Complex, n8: nat, t: int)
    requires Turns(r, n8)
    ensures Sum(SampleTerm(x, r, n8, 8 * n8 - 1 - t), 8 * n8).re == -Sum(SampleTerm(x, r, n8, t), 8 * n8).re
  {
    hide Dir, Circle, Half, Turns, RAt, OddMultiple, Scale;
    forall u | 0 <= u < 8 * n8
      ensures SampleTerm(x, r, n8, 8 * n8 - 1 - t)(u).re == -SampleTerm(x, r, n8, t)(u).re
    {
      MirrorAngle(u, t, n8);
      MirrorTurn(r, n8, OddMultiple(2 * u + 1 + 4 * n8, t), u + 2 * n8, RAt(x, u));
    }
    OppositeReal(SampleTerm(x, r, n8, 8 * n8 - 1 - t), SampleTerm(x, r, n8, t), 8 * n8);
  }

  lemma MirrorTurn(r: Complex, n8: nat, e: int, j: int, v: real)
    requires Turns(r, n8)
    ensures Scale(v, Dir(r, Circle(n8), -e + (Half(n8) + Circle(n8) * j))).re == -Scale(v, Dir(r, Circle(n8), e)).re
  {
    hide Dir, Circle, Half, Whole, Turns, Scale;
    WholeIs(r, n8);
    HalfTurn(r, n8, -e, j, v);
    DirNeg(r, Circle(n8), e);
    ConjReal(v, Dir(r, Circle(n8), e));
  }

  lemma ConjReal(v: real, d: Complex)
    ensures Scale(v, Conj(d)).re == Scale(v, d).re
  {}

  /** `faad_mdct` around an exact FFT computes the forward transform of its definition. */
  lemma ForwardFormula(x: seq<real>, sincos: seq<Complex>, r: Complex, c: real, n8: nat, t: nat)
    requires Turns(r, n8) && AtAngles(sincos, r, c, n8) && t < 8 * n8
    ensures MdctOut(Transform(MdctIn(x, sincos, n8), Conj(Pow(r, 32))), sincos, n8)[t]
         == 2.0 * SampleSum(x, r, n8, t, 8 * n8)
  {
    hide Turns, AtAngles, MdctIn, Transform, Turned, SampleSum, SpreadAt, Pow, SampleTerm, Conj, Source;
    var y := Turned(Transform(MdctIn(x, sincos, n8), Conj(Pow(r, 32))), sincos);
    SourceIs(n8, 0, t);
    var q := Source(n8, t);
    SourceIs(n8, q, t);
    TurnedIs(x, sincos, r, c, n8, q);
    SpreadValues(y, n8, q);
    CoefficientMirror(x, r, n8, 2 * q);
    CoefficientMirror(x, r, n8, 4 * n8 - 1 - 2 * q);
    SampleSumIs(x, r, n8, t, 8 * n8);
    assert 8 * n8 - 1 - (4 * n8 - 1 - 2 * q) == 4 * n8 + 2 * q;
  }
}
