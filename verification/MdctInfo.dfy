/** `faad_mdct` and `faad_imdct` of libfaad/mdct.c on arrays. */
module MdctInfo {
  import opened Complexes
  import opened Dft
  import opened DftInverse
  import opened CfftPasses
  import opened CfftFactors
  import opened CfftDriver
  import CfftInfo
  import opened Mdct

  /** Position of `t` within its quarter of the block. */
  function Rank(n8: nat, t: int): int {
    if t < 2 * n8 then t else if t < 4 * n8 then t - 2 * n8 else if t < 6 * n8 then t - 4 * n8 else t - 6 * n8
  }

  /** What the inverse transform makes of the coefficients `x`. */
  ghost function ImdctOf(x: seq<real>, sincos: seq<Complex>, w: Complex, n8: nat): (r: seq<real>)
    ensures |r| == 8 * n8
  {
    ImdctOut(Transform(ImdctIn(x, sincos, n8), w), sincos, n8)
  }

  /** What the forward transform makes of the samples `x`, `fs` being the factors of the FFT. */
  ghost function MdctOf(x: seq<real>, sincos: seq<Complex>, w: Complex, fs: seq<nat>, n8: nat): (r: seq<real>)
    requires AtLeast2(fs)
    ensures |r| == 8 * n8
  {
    MdctOut(Cfftf1Of(-1, w, MdctIn(x, sincos, n8), fs), sincos, n8)
  }

  /** `b` is `a` with `v` written from position `o` on. */
  ghost predicate Written(a: seq<real>, b: seq<real>, o: nat, v: seq<real>) {
    && |a| == |b| && o + |v| <= |b|
    && b[o..o + |v|] == v
    && forall i | 0 <= i < |b| && !(o <= i < o + |v|) :: b[i] == a[i]
  }

  class Info {
    const n8: nat
    const N: nat
    const sincos: seq<Complex>
    const cfft: CfftInfo.Info

    ghost predicate Valid()
      reads cfft.tab, cfft.ifac
    {
      && Size(n8) && N == 8 * n8 && |sincos| == 2 * n8 && Scaled2(sincos, n8)
      && cfft.Valid() && cfft.n == 2 * n8 && FiveSmooth(2 * n8)
    }

    /** `faad_mdct_init`, given the table for the block length and the root of the FFT it creates. */
    constructor (n8: nat, sincos: seq<Complex>, cfft: CfftInfo.Info)
      requires Size(n8) && Scaled2(sincos, n8) && cfft.Valid() && cfft.n == 2 * n8 && FiveSmooth(2 * n8)
      ensures Valid() && this.n8 == n8 && this.sincos == sincos && this.cfft == cfft
    {
      this.n8, this.N, this.sincos, this.cfft := n8, 8 * n8, sincos, cfft;
    }

    /** The inverse transform of `xIn` into `xOut[o..o + N]`. */
    method FaadImdct(xIn: seq<real>, xOut: array<real>, o: nat)
      requires Valid() && |xIn| >= N / 2 && o + N <= xOut.Length
      modifies xOut, cfft.work
      ensures Valid() && Written(old(xOut[..]), xOut[..], o, ImdctOf(xIn, sincos, cfft.w, n8))
    {
      hide FiveSmooth, Scaled2, Transform, Cfftf1Of, ImdctIn, TurnedBack;
      hide Reordered, PrimitiveRoot, UnitRoot, Factors, Table;
      var z1 := new Complex[2 * n8](_ => ZERO);
      PreIfft(n8, xIn, sincos, z1);
      cfft.Cfftb(z1);
      PostIfft(n8, sincos, z1);
      Reorder(n8, z1, xOut, o);
    }

    /** The forward transform of `xIn` into `xOut`. */
    method FaadMdct(xIn: array<real>, xOut: array<real>)
      requires Valid() && xIn.Length == N == xOut.Length && xIn != xOut
      modifies xOut, cfft.work
      ensures Valid() && cfft.ifac.Length == 15 && cfft.ifac[1] <= 10 && AtLeast2(cfft.Fs())
      ensures xOut[..] == MdctOf(xIn[..], sincos, cfft.w, cfft.Fs(), n8)
    {
      hide FiveSmooth, Scaled2, Transform, Run, MdctIn, MdctOut, PrimitiveRoot, UnitRoot, Factors, Table;
      FactorsAtLeast2(cfft.Fs(), 2 * n8);
      var z1 := new Complex[2 * n8](_ => ZERO);
      PreFft(n8, xIn, sincos, z1);
      cfft.Cfftf(z1);
      PostFft(n8, sincos, z1, xOut);
    }
  }

  /** The loop before the forward FFT. */
  method PreFft(n8: nat, xIn: array<real>, sincos: seq<Complex>, z1: array<Complex>)
    requires xIn.Length == 8 * n8 && |sincos| == z1.Length == 2 * n8
    modifies z1
    ensures z1[..] == MdctIn(xIn[..], sincos, n8)
  {
    hide Mul, Scale, Conj, Untwiddle;
    var n4, n2, nn := 2 * n8, 4 * n8, 8 * n8;
    var scale := (8 * n8) as real;
    var k := 0;
    while k < n8
      invariant 0 <= k <= n8
      invariant forall i | 0 <= i < 2 * n8 && (i < k || n8 <= i < n8 + k) :: z1[i] == MdctIn(xIn[..], sincos, n8)[i]
    {
      var n := 2 * k;
      var x := Complex(xIn[nn - n4 - 1 - n] + xIn[nn - n4 + n], xIn[n4 + n] - xIn[n4 - 1 - n]);
      UntwiddleIs(x, sincos[k]);
      z1[k] := Scale(scale, Untwiddle(x, sincos[k]));
      x := Complex(xIn[n2 - 1 - n] - xIn[n], xIn[n2 + n] + xIn[nn - 1 - n]);
      UntwiddleIs(x, sincos[k + n8]);
      z1[k + n8] := Scale(scale, Untwiddle(x, sincos[k + n8]));
      k := k + 1;
    }
  }

  /** The four outputs of the loop after the forward FFT. */
  lemma SpreadValues(y: seq<Complex>, n8: nat, k: nat)
    requires k < 2 * n8 == |y|
    ensures SpreadAt(y, n8, 2 * k) == -y[k].re && SpreadAt(y, n8, 4 * n8 - 1 - 2 * k) == y[k].im
    ensures SpreadAt(y, n8, 4 * n8 + 2 * k) == -y[k].im && SpreadAt(y, n8, 8 * n8 - 1 - 2 * k) == y[k].re
  {
    EvenOdd(k);
    EvenOdd(2 * n8 - 1 - k);
    EvenOdd(2 * n8 + k);
    EvenOdd(4 * n8 - 1 - k);
    hide At;
    assert 4 * n8 - 1 - 2 * k == 2 * (2 * n8 - 1 - k) + 1;
    assert 4 * n8 + 2 * k == 2 * (2 * n8 + k);
    assert 8 * n8 - 1 - 2 * k == 2 * (4 * n8 - 1 - k) + 1;
    assert At(y, k) == y[k];
  }

  lemma EvenOdd(m: nat)
    ensures (2 * m) % 2 == 0 && (2 * m) / 2 == m && (2 * m + 1) % 2 == 1
  {}

  /** The number whose real and imaginary parts output `t` shows. */
  function Source(n8: nat, t: int): int {
    if t < 4 * n8 then (if t % 2 == 0 then t / 2 else (4 * n8 - 1 - t) / 2)
    else (if t % 2 == 0 then (t - 4 * n8) / 2 else (8 * n8 - 1 - t) / 2)
  }

  lemma SourceIs(n8: nat, k: nat, t: nat)
    requires k < 2 * n8 && t < 8 * n8
    ensures Source(n8, t) == k
       <==> t == 2 * k || t == 4 * n8 - 1 - 2 * k || t == 4 * n8 + 2 * k || t == 8 * n8 - 1 - 2 * k
    ensures 0 <= Source(n8, t) < 2 * n8
  {}

  method PostFft(n8: nat, sincos: seq<Complex>, z1: array<Complex>, xOut: array<real>)
    requires xOut.Length == 8 * n8 && |sincos| == z1.Length == 2 * n8
    modifies xOut
    ensures xOut[..] == MdctOut(z1[..], sincos, n8)
  {
    hide Mul, Conj, Untwiddle, SpreadAt, Source;
    ghost var y := Turned(z1[..], sincos);
    var n2, nn := 4 * n8, 8 * n8;
    forall t: nat | t < 8 * n8 && n8 > 0
      ensures 0 <= Source(n8, t) < 2 * n8
    {
      SourceIs(n8, 0, t);
    }
    var k := 0;
    while k < 2 * n8
      invariant 0 <= k <= 2 * n8
      invariant forall t | 0 <= t < 8 * n8 && Source(n8, t) < k :: xOut[t] == SpreadAt(y, n8, t)
    {
      var n := 2 * k;
      UntwiddleIs(z1[k], sincos[k]);
      SpreadValues(y, n8, k);
      forall t: nat | t < 8 * n8
        ensures Source(n8, t) == k <==> t == 2 * k || t == n2 - 1 - 2 * k || t == n2 + 2 * k || t == nn - 1 - 2 * k
      {
        SourceIs(n8, k, t);
      }
      var x := Untwiddle(z1[k], sincos[k]);
      xOut[n] := -x.re;
      xOut[n2 - 1 - n] := x.im;
      xOut[n2 + n] := -x.im;
      xOut[nn - 1 - n] := x.re;
      k := k + 1;
    }
  }

  /** ComplexMult writing the real part first: the product with the conjugate of a table entry. */
  function Untwiddle(x: Complex, s: Complex): Complex {
    Complex(x.re * s.re + x.im * s.im, x.im * s.re - x.re * s.im)
  }

  lemma UntwiddleIs(x: Complex, s: Complex)
    ensures Untwiddle(x, s) == Mul(x, Conj(s))
  {}

  /** The loop before the inverse FFT. */
  method PreIfft(n8: nat, xIn: seq<real>, sincos: seq<Complex>, z1: array<Complex>)
    requires |xIn| >= 4 * n8 && |sincos| == z1.Length == 2 * n8
    modifies z1
    ensures z1[..] == ImdctIn(xIn, sincos, n8)
  {
    hide Mul, PreTwiddle;
    var k := 0;
    while k < 2 * n8
      invariant 0 <= k <= 2 * n8
      invariant forall i | 0 <= i < k :: z1[i] == ImdctIn(xIn, sincos, n8)[i]
    {
      PreTwiddleIs(xIn[2 * k], xIn[4 * n8 - 1 - 2 * k], sincos[k]);
      z1[k] := PreTwiddle(xIn[2 * k], xIn[4 * n8 - 1 - 2 * k], sincos[k]);
      k := k + 1;
    }
  }

  /** The loop after the inverse FFT. */
  method PostIfft(n8: nat, sincos: seq<Complex>, z1: array<Complex>)
    requires |sincos| == z1.Length == 2 * n8
    modifies z1
    ensures z1[..] == TurnedBack(old(z1[..]), sincos)
  {
    hide Mul, PreTwiddle;
    var k := 0;
    while k < 2 * n8
      invariant 0 <= k <= 2 * n8
      invariant forall i | 0 <= i < k :: z1[i] == TurnedBack(old(z1[..]), sincos)[i]
      invariant forall i | k <= i < 2 * n8 :: z1[i] == old(z1[i])
    {
      PreTwiddleIs(z1[k].im, z1[k].re, sincos[k]);
      z1[k] := PreTwiddle(z1[k].im, z1[k].re, sincos[k]);
      k := k + 1;
    }
  }

  /** ComplexMult writing the imaginary part first: the product of (im, re) with a table entry. */
  function PreTwiddle(im: real, re: real, s: Complex): Complex {
    Complex(re * s.re - im * s.im, im * s.re + re * s.im)
  }

  lemma PreTwiddleIs(im: real, re: real, s: Complex)
    ensures PreTwiddle(im, re, s) == Mul(Complex(re, im), s)
  {}

  lemma RankIs(n8: nat, k: nat)
    requires k < n8
    ensures forall t | 0 <= t < 8 * n8 :: 2 * k <= Rank(n8, t) <= 2 * k + 1 <==>
              || t == 2 * k || t == 2 * k + 1 || t == 2 * n8 + 2 * k || t == 2 * n8 + 2 * k + 1
              || t == 4 * n8 + 2 * k || t == 4 * n8 + 2 * k + 1 || t == 6 * n8 + 2 * k || t == 6 * n8 + 2 * k + 1
  {}

  /** The eight outputs the reordering takes from position `k` of each eighth. */
  method PutRow(n8: nat, z1: array<Complex>, xOut: array<real>, o: nat, k: nat)
    requires k < n8 && z1.Length == 2 * n8 && o + 8 * n8 <= xOut.Length
    modifies xOut
    ensures forall t | 0 <= t < 8 * n8 :: xOut[o + t] ==
              if 2 * k <= Rank(n8, t) <= 2 * k + 1 then ReorderAt(z1[..], n8, t) else old(xOut[o + t])
    ensures forall i | 0 <= i < xOut.Length && !(o <= i < o + 8 * n8) :: xOut[i] == old(xOut[i])
  {
    hide ReorderAt, Rank;
    RowValues(z1[..], n8, k);
    RankIs(n8, k);
    var n4, n2 := 2 * n8, 4 * n8;
    xOut[o + 2 * k] := z1[n8 + k].im;
    xOut[o + 1 + 2 * k] := -z1[n8 - 1 - k].re;
    xOut[o + n4 + 2 * k] := z1[k].re;
    xOut[o + n4 + 1 + 2 * k] := -z1[n4 - 1 - k].im;
    xOut[o + n2 + 2 * k] := z1[n8 + k].re;
    xOut[o + n2 + 1 + 2 * k] := -z1[n8 - 1 - k].im;
    xOut[o + n2 + n4 + 2 * k] := -z1[k].im;
    xOut[o + n2 + n4 + 1 + 2 * k] := z1[n4 - 1 - k].re;
  }

  method Reorder(n8: nat, z1: array<Complex>, xOut: array<real>, o: nat)
    requires Size(n8) && z1.Length == 2 * n8 && o + 8 * n8 <= xOut.Length
    modifies xOut
    ensures Written(old(xOut[..]), xOut[..], o, Reordered(z1[..], n8))
  {
    hide ReorderAt;
    var k := 0;
    while k < n8
      invariant 0 <= k <= n8 && k % 2 == 0
      invariant forall t | 0 <= t < 8 * n8 && Rank(n8, t) < 2 * k :: xOut[o + t] == ReorderAt(z1[..], n8, t)
      invariant forall i | 0 <= i < xOut.Length && !(o <= i < o + 8 * n8) :: xOut[i] == old(xOut[i])
    {
      PutRow(n8, z1, xOut, o, k);
      PutRow(n8, z1, xOut, o, k + 1);
      k := k + 2;
    }
    forall t | 0 <= t < 8 * n8
      ensures xOut[o + t] == ReorderAt(z1[..], n8, t)
    {
      assert Rank(n8, t) < 2 * n8;
    }
  }
}
