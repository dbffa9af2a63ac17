/** For which block lengths the transforms of libfaad/mdct.c meet the aliasing identity. */
module MdctExact {
  import opened Complexes
  import opened Dft
  import opened DftInverse
  import opened CfftFactors
  import opened CfftDriver
  import opened CfftForward
  import opened Mdct
  import opened MdctInfo
  import opened MdctFormula

  /* ---------- Everything after the forward FFT is injective ---------- */

  lemma ReorderInjective(z: seq<Complex>, z': seq<Complex>, n8: nat)
    requires |z| == |z'| == 2 * n8 && Reordered(z, n8) == Reordered(z', n8)
    ensures z == z'
  {
    hide ReorderAt;
    forall k | 0 <= k < 2 * n8
      ensures z[k] == z'[k]
    {
      var j := if k < n8 then k else k - n8;
      RowValues(z, n8, j);
      RowValues(z', n8, j);
      SameReordered(z, z', n8, 2 * j);
      SameReordered(z, z', n8, 2 * n8 + 2 * j);
      SameReordered(z, z', n8, 4 * n8 + 2 * j);
      SameReordered(z, z', n8, 6 * n8 + 2 * j);
    }
  }

  lemma SameReordered(z: seq<Complex>, z': seq<Complex>, n8: nat, t: nat)
    requires Reordered(z, n8) == Reordered(z', n8) && t < 8 * n8
    ensures ReorderAt(z, n8, t) == ReorderAt(z', n8, t)
  {
    hide ReorderAt;
    assert Reordered(z, n8)[t] == Reordered(z', n8)[t];
  }

  lemma MulCancels(a: Complex, b: Complex, s: Complex)
    requires s != ZERO && Mul(s, a) == Mul(s, b)
    ensures a == b
  {
    assert Mul(s, Sub(a, b)) == Sub(Mul(s, a), Mul(s, b));
    hide Mul;
    MulIsZero(s, Sub(a, b));
  }

  lemma LevelPositive(n8: nat, s: Complex)
    requires n8 > 0 && Mul(Conj(s), s) == Complex(Level(n8), 0.0)
    ensures s != ZERO && Scale(Level(n8), MinusI()) != ZERO
  {
    assert Level(n8) * (4 * n8) as real == 1.0;
    if s == ZERO { MulZero(Conj(s)); }
  }

  lemma TimesInjective(c: Complex, z: seq<Complex>, z': seq<Complex>)
    requires c != ZERO && |z| == |z'| && TimesEach(c, z) == TimesEach(c, z')
    ensures z == z'
  {
    hide Mul;
    forall k | 0 <= k < |z|
      ensures z[k] == z'[k]
    {
      assert TimesEach(c, z)[k] == TimesEach(c, z')[k];
      MulCancels(z[k], z'[k], c);
    }
  }

  lemma TurnedBackInjective(z: seq<Complex>, z': seq<Complex>, sincos: seq<Complex>, n8: nat)
    requires n8 > 0 && |z| == |z'| == 2 * n8 && Scaled2(sincos, n8) && TurnedBack(z, sincos) == TurnedBack(z', sincos)
    ensures z == z'
  {
    hide Mul;
    forall k | 0 <= k < |z|
      ensures z[k] == z'[k]
    {
      assert TurnedBack(z, sincos)[k] == TurnedBack(z', sincos)[k];
      LevelPositive(n8, sincos[k]);
      MulComm(z[k], sincos[k]);
      MulComm(z'[k], sincos[k]);
      MulCancels(z[k], z'[k], sincos[k]);
    }
  }

  /** What the decoder makes of the forward FFT's output determines that output. */
  lemma AfterFftInjective(zf: seq<Complex>, zf': seq<Complex>, sincos: seq<Complex>, w: Complex, n8: nat)
    requires n8 > 0 && |zf| == |zf'| == 2 * n8 && Scaled2(sincos, n8) && PrimitiveRoot(w, 2 * n8)
    requires ImdctOf(MdctOut(zf, sincos, n8), sincos, w, n8) == ImdctOf(MdctOut(zf', sincos, n8), sincos, w, n8)
    ensures zf == zf'
  {
    hide Transform, TimesEach, TurnedBack, Reordered, ImdctIn, MdctOut, PrimitiveRoot;
    var c := Scale(Level(n8), MinusI());
    ReadBack(zf, sincos, n8);
    ReadBack(zf', sincos, n8);
    var b, b' := Transform(TimesEach(c, zf), w), Transform(TimesEach(c, zf'), w);
    ReorderInjective(TurnedBack(b, sincos), TurnedBack(b', sincos), n8);
    TurnedBackInjective(b, b', sincos, n8);
    TransformInjective(TimesEach(c, zf), TimesEach(c, zf'), w);
    LevelPositive(n8, sincos[0]);
    TimesInjective(c, zf, zf');
  }

  /* ---------- Everything before it is onto ---------- */

  /** Samples that fold to `g`, all of them in the middle half of the block. */
  function UnfoldAt(g: seq<Complex>, n8: nat, t: int): real {
    if t < 2 * n8 then 0.0
    else if t < 4 * n8 then (if t % 2 == 0 then At(g, (t - 2 * n8) / 2).im else At(g, n8 + (4 * n8 - 1 - t) / 2).re)
    else if t < 6 * n8 then (if t % 2 == 0 then At(g, n8 + (t - 4 * n8) / 2).im else At(g, (6 * n8 - 1 - t) / 2).re)
    else 0.0
  }

  function Unfold(g: seq<Complex>, n8: nat): (x: seq<real>)
    ensures |x| == 8 * n8
  {
    seq(8 * n8, t => UnfoldAt(g, n8, t))
  }

  lemma UnfoldIs(g: seq<Complex>, n8: nat, t: nat)
    requires t < 8 * n8
    ensures RAt(Unfold(g, n8), t) == UnfoldAt(g, n8, t)
  {
    hide UnfoldAt;
  }

  lemma UnfoldLow(g: seq<Complex>, n8: nat, k: nat)
    requires k < n8
    ensures UnfoldAt(g, n8, 6 * n8 - 1 - 2 * k) == At(g, k).re && UnfoldAt(g, n8, 6 * n8 + 2 * k) == 0.0
    ensures UnfoldAt(g, n8, 2 * n8 + 2 * k) == At(g, k).im && UnfoldAt(g, n8, 2 * n8 - 1 - 2 * k) == 0.0
  {
    hide At;
    Parities(n8, k);
  }

  lemma UnfoldHigh(g: seq<Complex>, n8: nat, k: nat)
    requires k < n8
    ensures UnfoldAt(g, n8, 4 * n8 - 1 - 2 * k) == At(g, n8 + k).re && UnfoldAt(g, n8, 2 * k) == 0.0
    ensures UnfoldAt(g, n8, 4 * n8 + 2 * k) == At(g, n8 + k).im && UnfoldAt(g, n8, 8 * n8 - 1 - 2 * k) == 0.0
  {
    hide At;
    Parities(n8, k);
  }

  lemma UnfoldMiddle(g: seq<Complex>, n8: nat)
    ensures Middle(Unfold(g, n8), n8)
  {}

  lemma FoldUnfold(g: seq<Complex>, n8: nat, k: nat)
    requires k < 2 * n8 == |g|
    ensures FoldAt(Unfold(g, n8), n8, k) == At(g, k)
  {
    hide At, UnfoldAt, Unfold, RAt;
    if k < n8 {
      UnfoldLow(g, n8, k);
      UnfoldIs(g, n8, 6 * n8 - 1 - 2 * k);
      UnfoldIs(g, n8, 6 * n8 + 2 * k);
      UnfoldIs(g, n8, 2 * n8 + 2 * k);
      UnfoldIs(g, n8, 2 * n8 - 1 - 2 * k);
    } else {
      var j := k - n8;
      UnfoldHigh(g, n8, j);
      UnfoldIs(g, n8, 4 * n8 - 1 - 2 * j);
      UnfoldIs(g, n8, 2 * j);
      UnfoldIs(g, n8, 4 * n8 + 2 * j);
      UnfoldIs(g, n8, 8 * n8 - 1 - 2 * j);
    }
  }

  lemma Parities(n8: nat, k: nat)
    requires k < n8
    ensures (6 * n8 - 1 - 2 * k) % 2 == 1 && (6 * n8 + 2 * k) % 2 == 0 && (2 * n8 + 2 * k) % 2 == 0
    ensures (4 * n8 - 1 - 2 * k) % 2 == 1 && (4 * n8 + 2 * k) % 2 == 0 && (8 * n8 - 1 - 2 * k) % 2 == 1
    ensures (6 * n8 - 1 - (6 * n8 - 1 - 2 * k)) / 2 == k
  {}

  /** Samples that enter the forward FFT as `z`. */
  function Samples(z: seq<Complex>, sincos: seq<Complex>, n8: nat): (x: seq<real>)
    ensures |x| == 8 * n8
  {
    Unfold(seq(|z|, k => Scale(0.5, Mul(At(z, k), At(sincos, k)))), n8)
  }

  /** Zero outside the middle half of a block. */
  ghost predicate Middle(x: seq<real>, n8: nat) {
    forall t: nat | t < |x| && !(2 * n8 <= t < 6 * n8) :: x[t] == 0.0
  }

  lemma SamplesEnter(z: seq<Complex>, sincos: seq<Complex>, n8: nat)
    requires n8 > 0 && |z| == 2 * n8 && Scaled2(sincos, n8)
    ensures MdctIn(Samples(z, sincos, n8), sincos, n8) == z && Middle(Samples(z, sincos, n8), n8)
  {
    hide Mul, Scale, FoldAt, Unfold;
    var g := seq(|z|, k => Scale(0.5, Mul(At(z, k), At(sincos, k))));
    UnfoldMiddle(g, n8);
    forall k | 0 <= k < 2 * n8
      ensures MdctIn(Samples(z, sincos, n8), sincos, n8)[k] == z[k]
    {
      FoldUnfold(g, n8, k);
      HalfTwist(z[k], sincos[k], n8);
    }
  }

  lemma HalfTwist(z: Complex, s: Complex, n8: nat)
    requires n8 > 0 && Mul(Conj(s), s) == Complex(Level(n8), 0.0)
    ensures Scale((8 * n8) as real, Mul(Scale(0.5, Mul(z, s)), Conj(s))) == z
  {
    var n := (8 * n8) as real;
    ScaleMul(0.5, Mul(z, s), Conj(s));
    MulAssoc(z, s, Conj(s));
    MulComm(s, Conj(s));
    ScaleIsMul(z, Level(n8));
    ScaleScale(0.5, Level(n8), z);
    ScaleScale(n, 0.5 * Level(n8), z);
    HalfLevel(n8);
    ScaleOne(z);
    hide Mul, Scale;
  }

  lemma HalfLevel(n8: nat)
    requires n8 > 0
    ensures (8 * n8) as real * (0.5 * Level(n8)) == 1.0
  {
    assert Level(n8) * (4 * n8) as real == 1.0;
  }

  lemma ScaleOne(z: Complex)
    ensures Scale(1.0, z) == z
  {}

  /* ---------- Main result ---------- */

  /**
    `faad_imdct` after `faad_mdct` gives every block back with its halves
    aliased, exactly when five does not divide N/4.
   */
  lemma AliasingIff(sincos: seq<Complex>, w: Complex, fs: seq<nat>, n8: nat)
    requires n8 > 0 && Scaled2(sincos, n8) && PrimitiveRoot(w, 2 * n8) && Factors(fs, 2 * n8) && AllRadix(fs)
    ensures AtLeast2(fs)
    ensures (forall x: seq<real> | |x| == 8 * n8 ::
               ImdctOf(MdctOf(x, sincos, w, fs, n8), sincos, w, n8) == Aliased(x, n8))
       <==> (2 * n8) % 5 != 0
  {
    FactorsAtLeast2(fs, 2 * n8);
    if (2 * n8) % 5 != 0 {
      forall x: seq<real> | |x| == 8 * n8
        ensures ImdctOf(MdctOf(x, sincos, w, fs, n8), sincos, w, n8) == Aliased(x, n8)
      {
        AliasingHolds(x, sincos, w, fs, n8);
      }
    } else {
      var x := AliasingFails(sincos, w, fs, n8);
    }
  }

  /** `faad_mdct` computes the cosine sums of its definition on every block, exactly when five does not divide N/4. */
  lemma ForwardFormulaIff(sincos: seq<Complex>, r: Complex, c: real, fs: seq<nat>, n8: nat)
    requires Turns(r, n8) && AtAngles(sincos, r, c, n8) && PrimitiveRoot(Pow(r, 32), 2 * n8)
    requires Factors(fs, 2 * n8) && AllRadix(fs)
    ensures AtLeast2(fs)
    ensures (forall x: seq<real> | |x| == 8 * n8 ::
               MdctOf(x, sincos, Pow(r, 32), fs, n8)
                 == seq(8 * n8, t requires 0 <= t => 2.0 * SampleSum(x, r, n8, t, 8 * n8)))
       <==> (2 * n8) % 5 != 0
  {
    hide Transform, MdctIn, MdctOut, Cfftf1Of, Product, ImdctOf, PrimitiveRoot, Scaled2, Factors, Turns, AtAngles,
        SampleSum;
    hide Pow, Aliased;
    var w := Pow(r, 32);
    FactorsAtLeast2(fs, 2 * n8);
    Positive(r, n8);
    AnglesScaled(sincos, r, c, n8);
    forall x: seq<real> | |x| == 8 * n8
      ensures MdctOut(Transform(MdctIn(x, sincos, n8), Conj(w)), sincos, n8)
           == seq(8 * n8, t requires 0 <= t => 2.0 * SampleSum(x, r, n8, t, 8 * n8))
    {
      forall t: nat | t < 8 * n8
        ensures MdctOut(Transform(MdctIn(x, sincos, n8), Conj(w)), sincos, n8)[t]
            == 2.0 * SampleSum(x, r, n8, t, 8 * n8)
      {
        ForwardFormula(x, sincos, r, c, n8, t);
      }
    }
    if (2 * n8) % 5 != 0 {
      ForwardIff(w, fs, 2 * n8);
    } else {
      var x := AliasingFails(sincos, w, fs, n8);
      Identity(x, sincos, w, n8);
    }
  }

  lemma Positive(r: Complex, n8: nat)
    requires Turns(r, n8)
    ensures n8 > 0
  {}

  lemma AliasingHolds(x: seq<real>, sincos: seq<Complex>, w: Complex, fs: seq<nat>, n8: nat)
    requires n8 > 0 && Scaled2(sincos, n8) && PrimitiveRoot(w, 2 * n8) && Factors(fs, 2 * n8) && AllRadix(fs)
    requires (2 * n8) % 5 != 0 && |x| == 8 * n8 && AtLeast2(fs)
    ensures ImdctOf(MdctOf(x, sincos, w, fs, n8), sincos, w, n8) == Aliased(x, n8)
  {
    hide Transform, MdctIn, MdctOut, Aliased, Cfftf1Of, Product, ImdctOf, PrimitiveRoot, Scaled2, Factors;
    Identity(x, sincos, w, n8);
    ForwardIff(w, fs, 2 * n8);
    assert Cfftf1Of(-1, w, MdctIn(x, sincos, n8), fs) == Transform(MdctIn(x, sincos, n8), Conj(w));
  }

  lemma AliasingFails(sincos: seq<Complex>, w: Complex, fs: seq<nat>, n8: nat) returns (x: seq<real>)
    requires n8 > 0 && Scaled2(sincos, n8) && PrimitiveRoot(w, 2 * n8) && Factors(fs, 2 * n8) && AllRadix(fs)
    requires (2 * n8) % 5 == 0 && AtLeast2(fs)
    ensures |x| == 8 * n8 && Middle(x, n8) && ImdctOf(MdctOf(x, sincos, w, fs, n8), sincos, w, n8) != Aliased(x, n8)
  {
    hide Transform, MdctIn, MdctOut, Aliased, Samples, Cfftf1Of, Product, ImdctOf, PrimitiveRoot, Scaled2, Factors;
    ForwardIff(w, fs, 2 * n8);
    var z: seq<Complex> :| |z| == 2 * n8 && Cfftf1Of(-1, w, z, fs) != Transform(z, Conj(w));
    x := Samples(z, sincos, n8);
    SamplesEnter(z, sincos, n8);
    Identity(x, sincos, w, n8);
    if ImdctOf(MdctOf(x, sincos, w, fs, n8), sincos, w, n8) == Aliased(x, n8) {
      AfterFftInjective(Cfftf1Of(-1, w, z, fs), Transform(z, Conj(w)), sincos, w, n8);
    }
  }

  lemma Identity(x: seq<real>, sincos: seq<Complex>, w: Complex, n8: nat)
    requires n8 > 0 && |x| == 8 * n8 && Scaled2(sincos, n8) && PrimitiveRoot(w, 2 * n8)
    ensures ImdctOf(MdctOut(Transform(MdctIn(x, sincos, n8), Conj(w)), sincos, n8), sincos, w, n8) == Aliased(x, n8)
  {
    hide Transform, MdctIn, MdctOut, ImdctIn, ImdctOut, Aliased, Scaled2, PrimitiveRoot;
    AliasingIdentity(x, sincos, w, n8);
  }
}
