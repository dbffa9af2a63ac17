/**
  The forward butterfly of radix five exchanges two of its inputs
  (libfaad/cfft.c:519-522 and 616-619): which lengths this harms, and when
  `cfftb` undoes `cfftf`.
 */
module CfftForward {
  import opened Arithmetic
  import opened Complexes
  import opened Dft
  import opened DftInverse
  import opened CfftButterflies
  import opened CfftPasses
  import opened Cfft
  import opened CfftFactors
  import opened CfftDriver

  /** Row `q` of `a`, of length `ido`, is zero except for `c` at position `p`. */
  ghost predicate Lone(a: seq<Complex>, ido: nat, q: nat, p: nat, c: Complex) {
    forall i: nat | i < ido :: RowAt(a, ido, q, i) == if i == p then c else ZERO
  }

  /** Element `i` of row `q`. */
  function RowAt(a: seq<Complex>, ido: nat, q: nat, i: nat): Complex { At(a, q * ido + i) }

  /** A sum with one term that is not zero. */
  lemma SumOnly(f: int -> Complex, n: nat, m: nat, c: Complex)
    requires m < n && f(m) == c && forall i | 0 <= i < n && i != m :: f(i) == ZERO
    ensures Sum(f, n) == c
  {
    SumEq(f, Single(c, m), n);
    SumSingle(c, m, n);
  }

  lemma RowElement(ip: nat, ido: nat, q: nat, m: nat, i: nat)
    requires m < ip && i < ido
    ensures q * (ip * ido) + (m * ido + i) == (q * ip + m) * ido + i
    ensures 0 <= m * ido + i < ip * ido
  {
    MulStep(m, ip, ido);
    RowIndex(q, ip, m, ido, i);
  }

  lemma SamePosition(ido: nat, m: nat, i: nat, m': nat, i': nat)
    requires i < ido && i' < ido
    ensures m * ido + i == m' * ido + i' <==> m == m' && i == i'
  {
    DivMod(i, ido, m);
    DivMod(i', ido, m');
  }

  /** The inputs of column `i`: only input `m` of column `p` is not zero. */
  lemma LoneTerm(a: seq<Complex>, w: Complex, ip: nat, l1: nat, ido: nat, q: nat, m: nat, p: nat, c: Complex, j: nat,
                 i: nat, o: nat)
    requires m < ip && p < ido && i < ido && o < ip && Lone(a, ip * ido, q, m * ido + p, c)
    ensures PassTerm(a, w, ip, l1, ido, j, q, i)(o) == if i == p && o == m then Mul(c, Tw(w, l1 * ido * (j * m)))
        else ZERO
  {
    hide Mul, Tw;
    RowElement(ip, ido, q, o, i);
    SamePosition(ido, o, i, m, p);
    assert RowAt(a, ip * ido, q, o * ido + i) == if o * ido + i == m * ido + p then c else ZERO;
    MulZero(Tw(w, l1 * ido * (j * o)));
  }

  lemma LoneValue(a: seq<Complex>, w: Complex, ip: nat, l1: nat, ido: nat, q: nat, m: nat, p: nat, c: Complex, j: nat,
                  i: nat)
    requires m < ip && p < ido && i < ido && Lone(a, ip * ido, q, m * ido + p, c) && (j == 0 || p == 0)
    ensures PassValue(a, w, ip, l1, ido, j, q, i) == if i == p then Mul(c, Tw(w, l1 * ido * (j * m))) else ZERO
  {
    hide Mul, Tw, Lone, PassTerm;
    var f, d := PassTerm(a, w, ip, l1, ido, j, q, i), Mul(c, Tw(w, l1 * ido * (j * m)));
    forall o | 0 <= o < ip
      ensures f(o) == if i == p && o == m then d else ZERO
    {
      LoneTerm(a, w, ip, l1, ido, q, m, p, c, j, i, o);
    }
    if i == p {
      SumOnly(f, ip, m, d);
      NoTurn(w, i, j, l1);
      MulOne(d);
    } else {
      SumZero(f, ip);
      MulZero(Tw(w, i * j * l1));
    }
  }

  /** What block `j` of a pass makes of a row with one element, at input `m` of column `p`. */
  lemma LonePass(a: seq<Complex>, w: Complex, ip: nat, l1: nat, ido: nat, q: nat, m: nat, p: nat, c: Complex, j: nat)
    requires |a| == ip * l1 * ido && q < l1 && m < ip && p < ido && j < ip
    requires Lone(a, ip * ido, q, m * ido + p, c) && (j == 0 || p == 0)
    ensures Lone(Pass(a, w, ip, l1, ido), ido, j * l1 + q, p, Mul(c, Tw(w, l1 * ido * (j * m))))
  {
    hide Mul, Pass, Pow, Tw, PassValue, At;
    var b, d := Pass(a, w, ip, l1, ido), Mul(c, Tw(w, l1 * ido * (j * m)));
    PassIsPass(a, w, ip, l1, ido);
    var row := j * l1 + q;
    forall i: nat | i < ido
      ensures RowAt(b, ido, row, i) == if i == p then d else ZERO
    {
      assert At(b, Cell(l1, ido, j, q, i)) == PassValue(a, w, ip, l1, ido, j, q, i);
      LoneValue(a, w, ip, l1, ido, q, m, p, c, j, i);
    }
  }

  lemma NoTurn(w: Complex, i: nat, j: nat, l1: nat)
    requires i == 0 || j == 0
    ensures Tw(w, i * j * l1) == ONE
  {
    assert i * j * l1 == 0;
  }

  lemma SwappedElement(a: seq<Complex>, l1: nat, ido: nat, q: nat, o: nat, i: nat)
    requires |a| == 5 * l1 * ido && q < l1 && o < 5 && i < ido
    ensures RowAt(Swap23(a, ido), 5 * ido, q, o * ido + i)
         == RowAt(a, 5 * ido, q, (if o == 2 then 3 else if o == 3 then 2 else o) * ido + i)
  {
    hide Swap23, At;
    RowElement(5, ido, q, o, i);
    RowElement(5, ido, q, if o == 2 then 3 else if o == 3 then 2 else o, i);
    SwappedInput(a, l1, ido, q, i, o);
  }

  /** The exchange of inputs moves a lone element of input two to input three and leaves input zero. */
  lemma LoneSwapped(a: seq<Complex>, l1: nat, ido: nat, q: nat, m: nat, p: nat, c: Complex)
    requires |a| == 5 * l1 * ido && q < l1 && p < ido && (m == 0 || m == 2)
    requires Lone(a, 5 * ido, q, m * ido + p, c)
    ensures Lone(Swap23(a, ido), 5 * ido, q, (if m == 0 then 0 else 3) * ido + p, c)
  {
    hide Swap23, At, RowAt;
    var b, m' := Swap23(a, ido), if m == 0 then 0 else 3;
    forall e: nat | e < 5 * ido
      ensures RowAt(b, 5 * ido, q, e) == if e == m' * ido + p then c else ZERO
    {
      var o, i := e / ido, e % ido;
      QuotientBound(e, 5, ido);
      assert e == o * ido + i;
      SwappedElement(a, l1, ido, q, o, i);
      Moved(a, ido, q, m, p, c, o, i);
    }
  }

  lemma Moved(a: seq<Complex>, ido: nat, q: nat, m: nat, p: nat, c: Complex, o: nat, i: nat)
    requires p < ido && i < ido && o < 5 && (m == 0 || m == 2) && Lone(a, 5 * ido, q, m * ido + p, c)
    ensures RowAt(a, 5 * ido, q, (if o == 2 then 3 else if o == 3 then 2 else o) * ido + i)
         == if o * ido + i == (if m == 0 then 0 else 3) * ido + p then c else ZERO
  {
    hide At, RowAt;
    var o' := if o == 2 then 3 else if o == 3 then 2 else o;
    MulStep(o', 5, ido);
    SamePosition(ido, o, i, if m == 0 then 0 else 3, p);
    SamePosition(ido, o', i, m, p);
    assert RowAt(a, 5 * ido, q, o' * ido + i) == if o' * ido + i == m * ido + p then c else ZERO;
  }

  /** A lone element in column `p` of input zero stays where it is in block zero of any pass. */
  lemma LoneStays(w: Complex, a: seq<Complex>, ip: nat, l1: nat, ido: nat, q: nat, p: nat, c: Complex)
    requires Radix(ip) && |a| == ip * l1 * ido && q < l1 && p < ido && Lone(a, ip * ido, q, p, c)
    ensures Lone(PassOf(-1, w, a, ip, l1, ido), ido, q, p, c)
  {
    hide Lone, Swap23, Pass, Mul;
    assert 0 * ido + p == p && 0 * l1 + q == q;
    if ip == 5 { LoneSwapped(a, l1, ido, q, 0, p, c); }
    var r := Read(-1, ip, ido, a);
    LonePass(r, Conj(w), ip, l1, ido, q, 0, p, c, 0);
    assert l1 * ido * (0 * 0) == 0;
    MulOne(c);
  }

  /** The first pass of radix five gives row l1 a lone element with the wrong factor. */
  lemma LoneTurns(w: Complex, a: seq<Complex>, l1: nat, ido: nat)
    requires l1 > 0 && ido > 0 && |a| == 5 * l1 * ido && Lone(a, 5 * ido, 0, 2 * ido, ONE)
    ensures Lone(PassOf(-1, w, a, 5, l1, ido), ido, l1, 0, Pow(Conj(w), 3 * (l1 * ido)))
  {
    hide Lone, Swap23, Pass, Mul, Pow;
    assert 2 * ido + 0 == 2 * ido && 1 * l1 + 0 == l1 && l1 * ido * (1 * 3) == 3 * (l1 * ido);
    LoneSwapped(a, l1, ido, 0, 2, 0, ONE);
    LonePass(Swap23(a, ido), Conj(w), 5, l1, ido, 0, 3, 0, ONE, 1);
    MulOne(Pow(Conj(w), 3 * (l1 * ido)));
  }

  /* ---------- A whole run on one impulse ---------- */

  function Impulse(n: nat, p: nat): (x: seq<Complex>)
    ensures |x| == n
  {
    seq(n, i => if i == p then ONE else ZERO)
  }

  lemma {:induction false} PrefixProducts(fs: seq<nat>, k: nat, m: nat)
    requires k <= m <= |fs| && AtLeast2(fs)
    ensures Product(fs[..k]) <= Product(fs[..m])
  {
    hide Product;
    if k < m {
      PrefixProducts(fs, k, m - 1);
      ProductAt(fs, m - 1);
      ScaleLe(Product(fs[..m - 1]), 1, fs[m - 1]);
    }
  }

  /** The sizes of turn `m`, multiplied out. */
  lemma Sizes(fs: seq<nat>, m: nat)
    requires m < |fs| && AtLeast2(fs)
    ensures fs[m] * Product(fs[..m]) * Product(fs[m + 1..]) == Product(fs)
    ensures Product(fs[m..]) == fs[m] * Product(fs[m + 1..])
    ensures Product(fs[..m]) > 0 && Product(fs[m + 1..]) > 0
  {
    hide Product;
    ProductAt(fs, m);
    StageEnd(fs, m);
    Commutes(fs[m], Product(fs[..m]));
  }

  /** Up to the chosen pass of radix five, row zero holds the impulse. */
  lemma {:induction false} ImpulseBefore(w: Complex, fs: seq<nat>, f: nat, m: nat)
    requires AtLeast2(fs) && AllRadix(fs) && m <= f < |fs| && fs[f] == 5
    ensures var p := 2 * Product(fs[f + 1..]);
            Lone(Run(-1, w, Impulse(Product(fs), p), fs, m), Product(fs[m..]), 0, p, ONE)
  {
    hide Product, PassOf, Run;
    var p := 2 * Product(fs[f + 1..]);
    var x := Impulse(Product(fs), p);
    if m == 0 {
      RunStarts(-1, w, x, fs);
      Ends(fs);
    } else {
      hide Lone, Impulse;
      ImpulseBefore(w, fs, f, m - 1);
      RunTurn(-1, w, x, fs, m - 1);
      Sizes(fs, m - 1);
      Sizes(fs, f);
      SuffixProducts(fs, m, f);
      LoneStays(w, Run(-1, w, x, fs, m - 1), fs[m - 1], Product(fs[..m - 1]), Product(fs[m..]), 0, p, ONE);
    }
  }

  /** From there on row l1 holds its wrongly turned element. */
  lemma {:induction false} ImpulseAfter(w: Complex, fs: seq<nat>, f: nat, m: nat)
    requires AtLeast2(fs) && AllRadix(fs) && f < m <= |fs| && fs[f] == 5
    ensures var l, ido := Product(fs[..f]), Product(fs[f + 1..]);
            Lone(Run(-1, w, Impulse(Product(fs), 2 * ido), fs, m), Product(fs[m..]), l, 0, Pow(Conj(w), 3 * (l * ido)))
  {
    hide Product, PassOf, Run, Lone, Impulse, Pow;
    var l, ido := Product(fs[..f]), Product(fs[f + 1..]);
    var x := Impulse(Product(fs), 2 * ido);
    RunTurn(-1, w, x, fs, m - 1);
    Sizes(fs, m - 1);
    if m == f + 1 {
      ImpulseBefore(w, fs, f, f);
      LoneTurns(w, Run(-1, w, x, fs, f), l, ido);
    } else {
      ImpulseAfter(w, fs, f, m - 1);
      PrefixProducts(fs, f + 1, m - 1);
      Sizes(fs, f);
      ProductAt(fs, f);
      Grows(l);
      LoneStays(w, Run(-1, w, x, fs, m - 1), fs[m - 1], Product(fs[..m - 1]), Product(fs[m..]), l, 0,
                Pow(Conj(w), 3 * (l * ido)));
    }
  }

  lemma Grows(l: nat)
    requires l > 0
    ensures l < l * 5
  {}

  lemma ImpulseTransform(w: Complex, n: nat, p: nat, q: nat)
    requires p < n && q < n
    ensures Transform(Impulse(n, p), w)[q] == Tw(w, p * q)
  {
    hide Mul, Tw;
    var x := Impulse(n, p);
    forall t | 0 <= t < n
      ensures DftTerm(x, w, q)(t) == if t == p then Tw(w, p * q) else ZERO
    {
      MulOne(Tw(w, t * q));
      MulZero(Tw(w, t * q));
    }
    SumOnly(DftTerm(x, w, q), n, p, Tw(w, p * q));
  }

  lemma PowersDiffer(w: Complex, n: nat, h: nat)
    requires PrimitiveRoot(w, n) && n == 5 * h
    ensures Pow(w, 3 * h) != Pow(w, 2 * h)
  {
    hide Mul, Pow;
    assert Pow(w, h) != ONE;
    PowAdd(w, h, 2 * h);
    UnitPower(w, 2 * h);
    var a, b := Pow(w, h), Pow(w, 2 * h);
    MulAssoc(a, b, Conj(b));
    MulOne(a);
  }

  /** A forward run with a pass of radix five is wrong on this impulse. */
  lemma ForwardFails(w: Complex, fs: seq<nat>, f: nat)
    requires AtLeast2(fs) && AllRadix(fs) && f < |fs| && fs[f] == 5 && PrimitiveRoot(w, Product(fs))
    ensures var x := Impulse(Product(fs), 2 * Product(fs[f + 1..]));
            Cfftf1Of(-1, w, x, fs) != Transform(x, Conj(w))
  {
    hide Product, Run, Impulse, Pow, PrimitiveRoot, Transform;
    var n, l, ido := Product(fs), Product(fs[..f]), Product(fs[f + 1..]);
    var x := Impulse(n, 2 * ido);
    Sizes(fs, f);
    FifthOf(n, l, ido);
    ImpulseAfter(w, fs, f, |fs|);
    WholeProduct(fs);
    assert RowAt(Cfftf1Of(-1, w, x, fs), 1, l, 0) == Pow(Conj(w), 3 * (l * ido));
    ImpulseTransform(Conj(w), n, 2 * ido, l);
    ConjPrimitive(w, n);
    PowersDiffer(Conj(w), n, l * ido);
  }

  lemma FifthOf(n: nat, l: nat, ido: nat)
    requires n == 5 * l * ido && l > 0 && ido > 0
    ensures n == 5 * (l * ido) && l < n && 2 * ido < n && 2 * ido * l == 2 * (l * ido)
  {
    ScaleLe(l, 1, ido);
    ScaleLe(ido, 1, l);
  }

  /* ---------- Main results ---------- */

  /** `cfftf` is the forward DFT on every input exactly for the lengths that five does not divide. */
  lemma ForwardIff(w: Complex, fs: seq<nat>, n: nat)
    requires Factors(fs, n) && AllRadix(fs) && PrimitiveRoot(w, n)
    ensures (forall x: seq<Complex> | |x| == n :: Cfftf1Of(-1, w, x, fs) == Transform(x, Conj(w))) <==> n % 5 != 0
  {
    hide Product, Transform, Run, Pow;
    FactorsAtLeast2(fs, n);
    FiveIsPrime(fs);
    if n % 5 != 0 {
      forall x: seq<Complex> | |x| == n
        ensures Cfftf1Of(-1, w, x, fs) == Transform(x, Conj(w))
      {
        RunIsTransform(-1, w, x, fs);
      }
    } else {
      var f :| 0 <= f < |fs| && fs[f] == 5;
      ForwardFails(w, fs, f);
    }
  }

  /** `cfftb` is the backward DFT on every input. */
  lemma BackwardCorrect(w: Complex, x: seq<Complex>, fs: seq<nat>)
    requires Factors(fs, |x|) && AllRadix(fs) && Pow(w, |x|) == ONE
    ensures Cfftf1Of(1, w, x, fs) == Transform(x, w)
  {
    RunIsTransform(1, w, x, fs);
  }

  /** `cfftb` after `cfftf` multiplies every input by n, exactly for the lengths that five does not divide. */
  lemma RoundTripIff(w: Complex, fs: seq<nat>, n: nat)
    requires Factors(fs, n) && AllRadix(fs) && PrimitiveRoot(w, n)
    ensures (forall x: seq<Complex> | |x| == n ::
               Cfftf1Of(1, w, Cfftf1Of(-1, w, x, fs), fs) == Scaling(n as real, x)) <==> n % 5 != 0
  {
    hide Product, Transform, Run, PrimitiveRoot, Scaling;
    FactorsAtLeast2(fs, n);
    PrimitiveReturns(w, n);
    FiveIsPrime(fs);
    forall x: seq<Complex> | |x| == n
      ensures Cfftf1Of(1, w, Cfftf1Of(-1, w, x, fs), fs) == Scaling(n as real, x)
         <==> Cfftf1Of(-1, w, x, fs) == Transform(x, Conj(w))
    {
      var y := Cfftf1Of(-1, w, x, fs);
      BackwardCorrect(w, y, fs);
      InverseLaw(x, w);
      if Transform(y, w) == Transform(Transform(x, Conj(w)), w) {
        TransformInjective(y, Transform(x, Conj(w)), w);
      }
    }
    ForwardIff(w, fs, n);
  }

  lemma PrimitiveReturns(w: Complex, n: nat)
    requires PrimitiveRoot(w, n)
    ensures Pow(w, n) == ONE
  {}

  lemma TransformInjective(x: seq<Complex>, y: seq<Complex>, w: Complex)
    requires |x| == |y| && PrimitiveRoot(w, |x|) && Transform(x, w) == Transform(y, w)
    ensures x == y
  {
    hide Transform, PrimitiveRoot, Scale;
    ConjPrimitive(w, |x|);
    assert Conj(Conj(w)) == w;
    InverseLaw(x, Conj(w));
    InverseLaw(y, Conj(w));
    PrimitivePositive(w, |x|);
    forall i | 0 <= i < |x|
      ensures x[i] == y[i]
    {
      assert Scaling(|x| as real, x)[i] == Scaling(|x| as real, y)[i];
      ScaleInjective(|x| as real, x[i], y[i]);
    }
  }

  lemma PrimitivePositive(w: Complex, n: nat)
    requires PrimitiveRoot(w, n)
    ensures n > 0
  {}

  lemma ScaleInjective(r: real, a: Complex, b: Complex)
    requires r != 0.0 && Scale(r, a) == Scale(r, b)
    ensures a == b
  {
    CancelFactor(r, a.re - b.re);
    CancelFactor(r, a.im - b.im);
  }

  /** The hypotheses on the root can be met: the imaginary unit is a root of order four. */
  lemma RootOfFour(k: Consts)
    ensures PrimitiveRoot(IMAG, 4) && UnitRoot(IMAG, 4, k)
  {
    MulImag(ONE);
    MulImag(IMAG);
    MulImag(Minus());
    MulImag(Conj(IMAG));
    hide Mul;
    assert Pow(IMAG, 1) == Mul(IMAG, Pow(IMAG, 0)) == IMAG;
    assert Pow(IMAG, 2) == Mul(IMAG, IMAG);
    assert Pow(IMAG, 3) == Mul(IMAG, Minus());
    assert Pow(IMAG, 4) == ONE;
  }

  lemma MulImag(a: Complex)
    ensures Mul(IMAG, a) == Complex(-a.im, a.re)
  {}
}
