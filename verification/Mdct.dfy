/** The transforms of libfaad/mdct.c around the complex FFT. */
module Mdct {
  import opened Complexes
  import opened Dft
  import opened DftInverse

  /** Sizes as `faad_mdct_init` uses them: N is 8 * n8, and the reordering loop needs n8 even. */
  predicate Size(n8: nat) { n8 > 0 && n8 % 2 == 0 }

  /** The table `sincos`: N/4 complex numbers of squared magnitude 2/N. */
  ghost predicate Scaled2(sincos: seq<Complex>, n8: nat) {
    && |sincos| == 2 * n8
    && forall k | 0 <= k < |sincos| :: Mul(Conj(sincos[k]), sincos[k]) == Complex(Level(n8), 0.0)
  }

  function Level(n8: nat): real { if n8 == 0 then 0.0 else 1.0 / (4 * n8) as real }

  function RAt(x: seq<real>, i: int): real { if 0 <= i < |x| then x[i] else 0.0 }

  /* ---------- faad_mdct ---------- */

  /** The folding of the N inputs into N/4 complex numbers. */
  function FoldAt(x: seq<real>, n8: nat, k: int): Complex {
    var n4, n2, n := 2 * n8, 4 * n8, 8 * n8;
    if k < n8 then
      Complex(RAt(x, n - n4 - 1 - 2 * k) + RAt(x, n - n4 + 2 * k), RAt(x, n4 + 2 * k) - RAt(x, n4 - 1 - 2 * k))
    else
      var j := k - n8;
      Complex(RAt(x, n2 - 1 - 2 * j) - RAt(x, 2 * j), RAt(x, n2 + 2 * j) + RAt(x, n - 1 - 2 * j))
  }

  function MdctIn(x: seq<real>, sincos: seq<Complex>, n8: nat): (z: seq<Complex>)
    ensures |z| == 2 * n8
  {
    seq(2 * n8, k => Scale((8 * n8) as real, Mul(FoldAt(x, n8, k), Conj(At(sincos, k)))))
  }

  /** Coefficient `t` of the output, from the transformed numbers. */
  function SpreadAt(y: seq<Complex>, n8: nat, t: int): real {
    var n2, n := 4 * n8, 8 * n8;
    if t < n2 then (if t % 2 == 0 then -At(y, t / 2).re else At(y, (n2 - 1 - t) / 2).im)
    else (if t % 2 == 0 then -At(y, (t - n2) / 2).im else At(y, (n - 1 - t) / 2).re)
  }

  function Turned(z: seq<Complex>, sincos: seq<Complex>): (y: seq<Complex>)
    ensures |y| == |z|
  {
    seq(|z|, k => Mul(At(z, k), Conj(At(sincos, k))))
  }

  function MdctOut(z: seq<Complex>, sincos: seq<Complex>, n8: nat): (r: seq<real>)
    ensures |r| == 8 * n8
  {
    seq(8 * n8, t => SpreadAt(Turned(z, sincos), n8, t))
  }

  /* ---------- faad_imdct ---------- */

  function ImdctIn(x: seq<real>, sincos: seq<Complex>, n8: nat): (z: seq<Complex>)
    ensures |z| == 2 * n8
  {
    seq(2 * n8, k => Mul(Complex(RAt(x, 4 * n8 - 1 - 2 * k), RAt(x, 2 * k)), At(sincos, k)))
  }

  function TurnedBack(z: seq<Complex>, sincos: seq<Complex>): (y: seq<Complex>)
    ensures |y| == |z|
  {
    seq(|z|, k => Mul(At(z, k), At(sincos, k)))
  }

  /** The reordering of the N/4 numbers into N outputs, in four quarters of even and odd positions. */
  function ReorderAt(z: seq<Complex>, n8: nat, t: int): real {
    var n4, n2 := 2 * n8, 4 * n8;
    if t < n4 then (if t % 2 == 0 then At(z, n8 + t / 2).im else -At(z, n8 - 1 - t / 2).re)
    else if t < n2 then (if t % 2 == 0 then At(z, (t - n4) / 2).re else -At(z, n4 - 1 - (t - n4) / 2).im)
    else if t < n2 + n4 then (if t % 2 == 0 then At(z, n8 + (t - n2) / 2).re else -At(z, n8 - 1 - (t - n2) / 2).im)
    else (if t % 2 == 0 then -At(z, (t - n2 - n4) / 2).im else At(z, n4 - 1 - (t - n2 - n4) / 2).re)
  }

  function Reordered(z: seq<Complex>, n8: nat): (r: seq<real>)
    ensures |r| == 8 * n8
  {
    seq(8 * n8, t => ReorderAt(z, n8, t))
  }

  function ImdctOut(z: seq<Complex>, sincos: seq<Complex>, n8: nat): (r: seq<real>)
    ensures |r| == 8 * n8
  {
    Reordered(TurnedBack(z, sincos), n8)
  }

  /* ---------- Time-domain aliasing ---------- */

  /** What the inverse transform leaves of a block: each half with its mirror image, odd then even. */
  function AliasAt(x: seq<real>, n8: nat, t: int): real {
    if t < 4 * n8 then RAt(x, t) - RAt(x, 4 * n8 - 1 - t) else RAt(x, t) + RAt(x, 12 * n8 - 1 - t)
  }

  function Aliased(x: seq<real>, n8: nat): (r: seq<real>)
    ensures |r| == 8 * n8
  {
    seq(8 * n8, t => AliasAt(x, n8, t))
  }

  function MinusI(): Complex { Complex(0.0, -1.0) }

  function FoldTurned(x: seq<real>, n8: nat): (z: seq<Complex>)
    ensures |z| == 2 * n8
  {
    seq(2 * n8, k => Mul(MinusI(), FoldAt(x, n8, k)))
  }

  lemma MinusIMul(a: Complex)
    ensures Mul(MinusI(), a) == Complex(a.im, -a.re)
  {}

  lemma LowFold(x: seq<real>, n8: nat, k: nat, n: nat)
    requires k < n8 && n == 2 * k
    ensures At(FoldTurned(x, n8), k)
         == Complex(RAt(x, 2 * n8 + n) - RAt(x, 2 * n8 - 1 - n), -(RAt(x, 6 * n8 - 1 - n) + RAt(x, 6 * n8 + n)))
  {
    hide Mul, RAt;
    MinusIMul(FoldAt(x, n8, k));
  }

  lemma HighFold(x: seq<real>, n8: nat, k: nat, n: nat)
    requires n8 <= k < 2 * n8 && n == 2 * (k - n8)
    ensures At(FoldTurned(x, n8), k)
         == Complex(RAt(x, 4 * n8 + n) + RAt(x, 8 * n8 - 1 - n), -(RAt(x, 4 * n8 - 1 - n) - RAt(x, n)))
  {
    hide Mul, RAt;
    MinusIMul(FoldAt(x, n8, k));
  }

  lemma RowValues(z: seq<Complex>, n8: nat, k: nat)
    requires k < n8 && |z| == 2 * n8
    ensures ReorderAt(z, n8, 2 * k) == z[n8 + k].im && ReorderAt(z, n8, 2 * k + 1) == -z[n8 - 1 - k].re
    ensures ReorderAt(z, n8, 2 * n8 + 2 * k) == z[k].re && ReorderAt(z, n8, 2 * n8 + 2 * k + 1) == -z[2 * n8 - 1 - k].im
    ensures ReorderAt(z, n8, 4 * n8 + 2 * k) == z[n8 + k].re
    ensures ReorderAt(z, n8, 4 * n8 + 2 * k + 1) == -z[n8 - 1 - k].im
    ensures ReorderAt(z, n8, 6 * n8 + 2 * k) == -z[k].im && ReorderAt(z, n8, 6 * n8 + 2 * k + 1) == z[2 * n8 - 1 - k].re
  {}

  /** The eight outputs of one step of the reordering loop, for the folded numbers turned by -i. */
  lemma FoldRow(x: seq<real>, n8: nat, k: nat)
    requires k < n8
    ensures var z := FoldTurned(x, n8);
            && ReorderAt(z, n8, 2 * k) == AliasAt(x, n8, 2 * k)
            && ReorderAt(z, n8, 2 * k + 1) == AliasAt(x, n8, 2 * k + 1)
            && ReorderAt(z, n8, 2 * n8 + 2 * k) == AliasAt(x, n8, 2 * n8 + 2 * k)
            && ReorderAt(z, n8, 2 * n8 + 2 * k + 1) == AliasAt(x, n8, 2 * n8 + 2 * k + 1)
            && ReorderAt(z, n8, 4 * n8 + 2 * k) == AliasAt(x, n8, 4 * n8 + 2 * k)
            && ReorderAt(z, n8, 4 * n8 + 2 * k + 1) == AliasAt(x, n8, 4 * n8 + 2 * k + 1)
            && ReorderAt(z, n8, 6 * n8 + 2 * k) == AliasAt(x, n8, 6 * n8 + 2 * k)
            && ReorderAt(z, n8, 6 * n8 + 2 * k + 1) == AliasAt(x, n8, 6 * n8 + 2 * k + 1)
  {
    hide RAt, FoldTurned, ReorderAt;
    RowValues(FoldTurned(x, n8), n8, k);
    HighFold(x, n8, n8 + k, 2 * k);
    LowFold(x, n8, k, 2 * k);
    LowFold(x, n8, n8 - 1 - k, 2 * n8 - 2 - 2 * k);
    HighFold(x, n8, 2 * n8 - 1 - k, 2 * n8 - 2 - 2 * k);
  }

  /** Reordering the folded numbers, turned by -i, gives the aliased block. */
  lemma ReorderFold(x: seq<real>, n8: nat, t: nat)
    requires t < 8 * n8
    ensures ReorderAt(FoldTurned(x, n8), n8, t) == AliasAt(x, n8, t)
  {
    hide RAt, FoldTurned, ReorderAt, AliasAt;
    var q := if t < 2 * n8 then 0 else if t < 4 * n8 then 1 else if t < 6 * n8 then 2 else 3;
    var r := t - q * (2 * n8);
    FoldRow(x, n8, r / 2);
  }

  function TimesEach(c: Complex, z: seq<Complex>): (r: seq<Complex>)
    ensures |r| == |z|
  {
    seq(|z|, k => Mul(c, At(z, k)))
  }

  /** The transform is linear. */
  lemma TransformTimes(c: Complex, z: seq<Complex>, w: Complex)
    ensures Transform(TimesEach(c, z), w) == TimesEach(c, Transform(z, w))
  {
    hide Mul, Add, Tw;
    forall q | 0 <= q < |z|
      ensures Coefficient(TimesEach(c, z), w, q) == Mul(c, Coefficient(z, w, q))
    {
      var f, g := DftTerm(TimesEach(c, z), w, q), DftTerm(z, w, q);
      forall t | 0 <= t < |z|
        ensures f(t) == Scaled(c, g)(t)
      {
        MulAssoc(c, At(z, t), Tw(w, t * q));
      }
      SumEq(f, Scaled(c, g), |z|);
      SumMul(c, g, |z|);
    }
  }

  /** The coefficients the inverse reads are those the forward transform wrote, turned by -i. */
  lemma SpreadRead(y: seq<Complex>, n8: nat, k: nat)
    requires k < 2 * n8 == |y|
    ensures Complex(SpreadAt(y, n8, 4 * n8 - 1 - 2 * k), SpreadAt(y, n8, 2 * k)) == Mul(MinusI(), At(y, k))
  {
    MinusIMul(At(y, k));
    hide Mul;
    assert (2 * k) % 2 == 0 && (2 * k) / 2 == k;
    assert (4 * n8 - 1 - 2 * k) % 2 == 1;
  }

  lemma PreTwist(z: Complex, s: Complex, r: real)
    requires Mul(Conj(s), s) == Complex(r, 0.0)
    ensures Mul(Mul(MinusI(), Mul(z, Conj(s))), s) == Mul(Scale(r, MinusI()), z)
  {
    hide Mul;
    var m := MinusI();
    MulAssoc(m, Mul(z, Conj(s)), s);
    MulAssoc(z, Conj(s), s);
    MulComm(z, Complex(r, 0.0));
    MulAssoc(m, Complex(r, 0.0), z);
    ScaleIsMul(m, r);
  }

  lemma PostTwist(a: Complex, s: Complex, r: real, n: real, m: real)
    requires Mul(Conj(s), s) == Complex(r, 0.0) && r * m * n * r == 1.0
    ensures Mul(Mul(Scale(r, MinusI()), Scale(m, Scale(n, Mul(a, Conj(s))))), s) == Mul(MinusI(), a)
  {
    var p := Mul(a, Conj(s));
    assert Mul(p, s) == Scale(r, a) by {
      hide Mul;
      MulAssoc(a, Conj(s), s);
      ScaleIsMul(a, r);
    }
    Factors4(p, s, r, n, m, m * n, r * (m * n));
    ScaleOut(a, r, r * (m * n));
  }

  lemma ScaleMul(r: real, a: Complex, b: Complex)
    ensures Mul(Scale(r, a), b) == Scale(r, Mul(a, b)) == Mul(a, Scale(r, b))
  {}

  lemma ScaleScale(r: real, s: real, a: Complex)
    ensures Scale(r, Scale(s, a)) == Scale(r * s, a)
  {}

  lemma Factors4(p: Complex, s: Complex, r: real, n: real, m: real, mn: real, q: real)
    requires mn == m * n && q == r * mn
    ensures Mul(Mul(Scale(r, MinusI()), Scale(m, Scale(n, p))), s) == Scale(q, Mul(MinusI(), Mul(p, s)))
  {
    var i := MinusI();
    ScaleScale(m, n, p);
    ScaleMul(r, i, Scale(mn, p));
    ScaleMul(mn, i, p);
    ScaleScale(r, mn, Mul(i, p));
    ScaleMul(q, Mul(i, p), s);
    MulAssoc(i, p, s);
    hide *;
  }

  lemma ScaleOut(a: Complex, r: real, q: real)
    requires q * r == 1.0
    ensures Scale(q, Mul(MinusI(), Scale(r, a))) == Mul(MinusI(), a)
  {
    ScaleMul(r, MinusI(), a);
    ScaleScale(q, r, Mul(MinusI(), a));
    hide Mul;
  }

  lemma Levels(n8: nat)
    requires n8 > 0
    ensures Level(n8) * (2 * n8) as real * (8 * n8) as real * Level(n8) == 1.0
  {
    var v := (4 * n8) as real;
    var l := Level(n8);
    assert l * v == 1.0;
    assert (2 * n8) as real * (8 * n8) as real == v * v;
    assert l * (2 * n8) as real * (8 * n8) as real * l == (l * v) * (l * v);
  }

  /** The inverse transform's input is the forward FFT's output times a constant. */
  lemma ReadBack(zf: seq<Complex>, sincos: seq<Complex>, n8: nat)
    requires |zf| == 2 * n8 && Scaled2(sincos, n8)
    ensures ImdctIn(MdctOut(zf, sincos, n8), sincos, n8) == TimesEach(Scale(Level(n8), MinusI()), zf)
  {
    hide Mul, Scale, SpreadAt;
    forall k | 0 <= k < 2 * n8
      ensures ImdctIn(MdctOut(zf, sincos, n8), sincos, n8)[k] == Mul(Scale(Level(n8), MinusI()), zf[k])
    {
      SpreadRead(Turned(zf, sincos), n8, k);
      PreTwist(zf[k], sincos[k], Level(n8));
    }
  }

  /** One block through exact forward and inverse transforms comes back aliased, with scale one. */
  lemma AliasingIdentity(x: seq<real>, sincos: seq<Complex>, w: Complex, n8: nat)
    requires n8 > 0 && |x| == 8 * n8 && Scaled2(sincos, n8) && PrimitiveRoot(w, 2 * n8)
    ensures var coef := MdctOut(Transform(MdctIn(x, sincos, n8), Conj(w)), sincos, n8);
            ImdctOut(Transform(ImdctIn(coef, sincos, n8), w), sincos, n8) == Aliased(x, n8)
  {
    hide Mul, Scale, PrimitiveRoot, FoldAt, Transform, SpreadAt, ReorderAt;
    var z := MdctIn(x, sincos, n8);
    var zf := Transform(z, Conj(w));
    ReadBack(zf, sincos, n8);
    TransformTimes(Scale(Level(n8), MinusI()), zf, w);
    InverseLaw(z, w);
    Levels(n8);
    var back := Transform(ImdctIn(MdctOut(zf, sincos, n8), sincos, n8), w);
    forall k | 0 <= k < 2 * n8
      ensures TurnedBack(back, sincos)[k] == FoldTurned(x, n8)[k]
    {
      assert At(z, k) == Scale((8 * n8) as real, Mul(FoldAt(x, n8, k), Conj(sincos[k])));
      PostTwist(FoldAt(x, n8, k), sincos[k], Level(n8), (8 * n8) as real, (2 * n8) as real);
    }
    assert TurnedBack(back, sincos) == FoldTurned(x, n8);
    forall t | 0 <= t < 8 * n8
      ensures ReorderAt(FoldTurned(x, n8), n8, t) == AliasAt(x, n8, t)
    {
      ReorderFold(x, n8, t);
    }
  }
}
