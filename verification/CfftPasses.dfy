/**
  What each pass of libfaad/cfft.c stores, in terms of the self-sorting
  factorisation of module Dft.
 */
module CfftPasses {
  import opened Arithmetic
  import opened Complexes
  import opened Dft
  import opened CfftButterflies

  /**
    `w` is the n-th root of unity exp(2 pi i/n) as far as the passes can tell:
    it lies on the unit circle and the constants are the sines and cosines of
    the small roots it generates.
   */
  ghost predicate UnitRoot(w: Complex, n: nat, k: Consts) {
    && n > 0
    && Pow(w, n) == ONE
    && Mul(w, Conj(w)) == ONE
    && (n % 2 == 0 ==> Pow(w, n / 2) == Minus())
    && (n % 3 == 0 ==> Pow(w, n / 3) == Complex(TAUR, k.taui))
    && (n % 4 == 0 ==> Pow(w, n / 4) == IMAG)
    && (n % 5 == 0 ==> Pow(w, n / 5) == Complex(k.tr11, k.ti11) && Pow(w, 2 * (n / 5)) == Complex(k.tr12, k.ti12))
  }

  lemma SignedPow(isign: int, w: Complex, e: nat)
    ensures Pow(Signed(isign, w), e) == Signed(isign, Pow(w, e))
  {
    PowConj(w, e);
  }

  /** On the unit circle the power n - e is the conjugate of the power e. */
  lemma ConjPower(w: Complex, n: nat, e: nat)
    requires Pow(w, n) == ONE && Mul(w, Conj(w)) == ONE && e <= n
    ensures Pow(w, n - e) == Conj(Pow(w, e))
  {
    hide Mul, Pow;
    UnitPower(w, e);
    PowAdd(w, n - e, e);
    MulAssoc(Pow(w, n - e), Pow(w, e), Conj(Pow(w, e)));
    MulOne(Pow(w, n - e));
    MulOne(Conj(Pow(w, e)));
  }

  lemma {:induction false} UnitPower(w: Complex, e: nat)
    requires Mul(w, Conj(w)) == ONE
    ensures Mul(Pow(w, e), Conj(Pow(w, e))) == ONE
  {
    hide Mul;
    if e == 0 {
      MulOne(ONE);
      assert Conj(ONE) == ONE;
    } else {
      UnitPower(w, e - 1);
      var p := Pow(w, e - 1);
      ConjMul(w, p);
      MulAssoc(Mul(w, p), Conj(w), Conj(p));
      MulComm(w, p);
      MulAssoc(p, w, Conj(w));
      MulOne(p);
    }
  }

  /** The small roots with the sign of the transform: radix `ip`, exponent `e` below `ip`. */
  function SmallRoot(isign: int, k: Consts, ip: nat, e: int): Complex {
    if e == 0 then ONE
    else if ip == 2 then Minus()
    else if ip == 3 then (if e == 1 then Root3(isign, k) else Conj(Root3(isign, k)))
    else if ip == 4 then (if e == 1 then Signed(isign, IMAG) else if e == 2 then Minus() else Conj(Signed(isign, IMAG)))
    else if e == 1 then Root5(isign, k)
    else if e == 2 then Root5Squared(isign, k)
    else if e == 3 then Conj(Root5Squared(isign, k))
    else Conj(Root5(isign, k))
  }

  predicate Radix(ip: nat) { ip == 2 || ip == 3 || ip == 4 || ip == 5 }

  lemma Roots3(w: Complex, k: Consts, h: nat)
    requires UnitRoot(w, 3 * h, k)
    ensures Pow(w, h) == Complex(TAUR, k.taui) && Pow(w, 2 * h) == Conj(Complex(TAUR, k.taui))
  {
    hide Mul, Pow;
    assert (3 * h) / 3 == h;
    ConjPower(w, 3 * h, h);
  }

  lemma Roots4(w: Complex, k: Consts, h: nat)
    requires UnitRoot(w, 4 * h, k)
    ensures Pow(w, h) == IMAG && Pow(w, 2 * h) == Minus() && Pow(w, 3 * h) == Conj(IMAG)
  {
    hide Mul, Pow;
    assert (4 * h) / 4 == h && (4 * h) % 2 == 0 && (4 * h) / 2 == 2 * h;
    ConjPower(w, 4 * h, h);
  }

  lemma Roots5(w: Complex, k: Consts, h: nat)
    requires UnitRoot(w, 5 * h, k)
    ensures Pow(w, h) == Complex(k.tr11, k.ti11) && Pow(w, 2 * h) == Complex(k.tr12, k.ti12)
    ensures Pow(w, 3 * h) == Conj(Complex(k.tr12, k.ti12)) && Pow(w, 4 * h) == Conj(Complex(k.tr11, k.ti11))
  {
    hide Mul, Pow;
    assert (5 * h) / 5 == h;
    ConjPower(w, 5 * h, h);
    ConjPower(w, 5 * h, 2 * h);
  }

  /** Power h*e of the signed root, for n = ip*h, is the small root with exponent e. */
  lemma SmallRootIs(isign: int, w: Complex, k: Consts, ip: nat, h: nat, e: nat)
    requires Radix(ip) && UnitRoot(w, ip * h, k) && e < ip
    ensures Pow(Signed(isign, w), h * e) == SmallRoot(isign, k, ip, e)
  {
    hide Mul, Pow, UnitRoot;
    SignedPow(isign, w, h * e);
    if ip == 2 {
      Roots2(w, k, h);
    } else if ip == 3 {
      Roots3(w, k, h);
    } else if ip == 4 {
      Roots4(w, k, h);
    } else {
      Roots5(w, k, h);
    }
    PowZero(w);
    if e == 0 {
    } else if e == 1 {
    } else if e == 2 {
    } else if e == 3 {
    } else {
      assert e == 4;
    }
  }

  lemma Roots2(w: Complex, k: Consts, h: nat)
    requires UnitRoot(w, 2 * h, k)
    ensures Pow(w, h) == Minus()
  {
    hide Mul, Pow;
    assert (2 * h) / 2 == h;
  }

  lemma PowZero(w: Complex)
    ensures Pow(w, 0) == ONE
  {}

  /** The same for any exponent, reduced modulo the radix. */
  lemma SmallRootAt(isign: int, w: Complex, k: Consts, ip: nat, h: nat, e: nat)
    requires Radix(ip) && UnitRoot(w, ip * h, k)
    ensures Pow(Signed(isign, w), h * e) == SmallRoot(isign, k, ip, e % ip)
  {
    hide Mul, Pow;
    var r, q := e % ip, e / ip;
    assert e == r + ip * q;
    ExponentSplit(h, e, r, ip, q);
    SignedPow(isign, w, ip * h);
    assert Conj(ONE) == ONE;
    PowPeriodic(Signed(isign, w), ip * h, h * r, q);
    SmallRootIs(isign, w, k, ip, h, r);
  }

  lemma ExponentSplit(h: nat, e: nat, r: nat, ip: nat, q: nat)
    requires e == r + ip * q
    ensures h * e == h * r + (ip * h) * q
  {}

  /* ---------- Stored values, radix by radix ---------- */

  lemma SumUpTo5(f: int -> Complex)
    ensures Sum(f, 2) == Add(f(0), f(1))
    ensures Sum(f, 3) == Add(Add(f(0), f(1)), f(2))
    ensures Sum(f, 4) == Add(Add(Add(f(0), f(1)), f(2)), f(3))
    ensures Sum(f, 5) == Add(Add(Add(Add(f(0), f(1)), f(2)), f(3)), f(4))
  {
    assert Sum(f, 1) == Add(ZERO, f(0)) == f(0);
    assert Sum(f, 2) == Add(Sum(f, 1), f(1));
    assert Sum(f, 3) == Add(Sum(f, 2), f(2));
    assert Sum(f, 4) == Add(Sum(f, 3), f(3));
  }

  /** The elements of the column (row, i) that a pass of radix `ip` combines. */
  function Input(a: seq<Complex>, ip: nat, ido: nat, row: int, i: int, m: int): Complex {
    At(a, (row * ip + m) * ido + i)
  }

  /** The DFT of length `ip` of a column, output `j`. */
  function SmallDft(isign: int, k: Consts, a: seq<Complex>, ip: nat, ido: nat, row: int, i: int, j: nat): Complex {
    var r := e => SmallRoot(isign, k, ip, e);
    var c := m => Input(a, ip, ido, row, i, m);
    if ip == 2 then Comb2(c(0), c(1), r(j % 2))
    else if ip == 3 then Comb3(c(0), c(1), c(2), r(j % 3), r(2 * j % 3))
    else if ip == 4 then Comb4(c(0), c(1), c(2), c(3), r(j % 4), r(2 * j % 4), r(3 * j % 4))
    else Comb5(c(0), c(1), c(2), c(3), c(4), r(j % 5), r(2 * j % 5), r(3 * j % 5), r(4 * j % 5))
  }

  lemma PassTermIs(isign: int, w: Complex, k: Consts, a: seq<Complex>, ip: nat, l1: nat, ido: nat, j: nat, row: int,
                   i: int, m: nat)
    requires Radix(ip) && UnitRoot(w, ip * (l1 * ido), k)
    ensures PassTerm(a, Signed(isign, w), ip, l1, ido, j, row, i)(m)
         == Mul(Input(a, ip, ido, row, i, m), SmallRoot(isign, k, ip, (j * m) % ip))
  {
    hide Mul, Pow, UnitRoot, SmallRoot;
    NonNegative(l1, ido, j * m);
    SmallRootAt(isign, w, k, ip, l1 * ido, j * m);
  }

  lemma NonNegative(x: nat, y: nat, z: nat)
    ensures x * y >= 0 && x * y * z >= 0
  {}

  /** The stored value is the small DFT of its column times the twiddle factor. */
  lemma PassValueIs(isign: int, w: Complex, k: Consts, a: seq<Complex>, ip: nat, l1: nat, ido: nat, j: nat, row: int,
                    i: nat)
    requires Radix(ip) && UnitRoot(w, ip * (l1 * ido), k)
    ensures PassValue(a, Signed(isign, w), ip, l1, ido, j, row, i)
         == Mul(SmallDft(isign, k, a, ip, ido, row, i, j), Signed(isign, Tw(w, i * j * l1)))
  {
    hide Mul, Pow, UnitRoot, Add, Input, SmallRoot;
    var f := PassTerm(a, Signed(isign, w), ip, l1, ido, j, row, i);
    SumUpTo5(f);
    forall m: nat | 0 <= m < 5
      ensures f(m) == Mul(Input(a, ip, ido, row, i, m), SmallRoot(isign, k, ip, (j * m) % ip))
    {
      PassTermIs(isign, w, k, a, ip, l1, ido, j, row, i, m);
    }
    RootZero(isign, k, ip);
    MulOne(Input(a, ip, ido, row, i, 0));
    NonNegative(i, j, l1);
    SignedPow(isign, w, i * j * l1);
    assert f(0) == Input(a, ip, ido, row, i, 0);
    assert j * 1 == j && j * 2 == 2 * j && j * 3 == 3 * j && j * 4 == 4 * j;
    assert f(1) == Mul(Input(a, ip, ido, row, i, 1), SmallRoot(isign, k, ip, j % ip));
    assert f(2) == Mul(Input(a, ip, ido, row, i, 2), SmallRoot(isign, k, ip, 2 * j % ip));
    assert f(3) == Mul(Input(a, ip, ido, row, i, 3), SmallRoot(isign, k, ip, 3 * j % ip));
    assert f(4) == Mul(Input(a, ip, ido, row, i, 4), SmallRoot(isign, k, ip, 4 * j % ip));
  }

  lemma RootZero(isign: int, k: Consts, ip: nat)
    ensures SmallRoot(isign, k, ip, 0) == ONE
  {}

  /* ---------- What the butterflies of the code compute ---------- */

  /** `a` with the third and fourth of every five consecutive groups of `ido` exchanged. */
  function Swap23(a: seq<Complex>, ido: nat): (b: seq<Complex>)
    requires ido > 0
    ensures |b| == |a|
  {
    seq(|a|, o => var m := (o / ido) % 5; At(a, if m == 2 then o + ido else if m == 3 then o - ido else o))
  }

  /** The array whose pass is computed: the forward radix-5 pass exchanges two inputs. */
  function Read(isign: int, ip: nat, ido: nat, a: seq<Complex>): (b: seq<Complex>)
    requires ido > 0
    ensures |b| == |a|
  {
    if isign != 1 && ip == 5 then Swap23(a, ido) else a
  }

  lemma SwappedInput(a: seq<Complex>, l1: nat, ido: nat, row: nat, i: nat, m: nat)
    requires i < ido && row < l1 && m < 5 && |a| == 5 * l1 * ido
    ensures Input(Swap23(a, ido), 5, ido, row, i, m)
         == Input(a, 5, ido, row, i, if m == 2 then 3 else if m == 3 then 2 else m)
  {
    var o := (row * 5 + m) * ido + i;
    DivMod(i, ido, row * 5 + m);
    DivMod(m, 5, row);
    InputBound(5, l1, ido, row, i, m);
    assert (row * 5 + m + 1) * ido + i == o + ido;
    assert (row * 5 + m - 1) * ido + i == o - ido;
  }

  lemma InputBound(ip: nat, l1: nat, ido: nat, row: nat, i: nat, m: nat)
    requires i < ido && row < l1 && m < ip
    ensures 0 <= (row * ip + m) * ido + i < ip * l1 * ido
  {
    MulStep(row, l1, ip);
    assert row * ip + m < l1 * ip == ip * l1;
    MulStep(row * ip + m, ip * l1, ido);
  }

  /** Output `j` of the butterfly the code applies to the column (row, i). */
  function Output(isign: int, k: Consts, a: seq<Complex>, ip: nat, ido: nat, row: int, i: int, j: nat): Complex {
    var c0, c1 := Input(a, ip, ido, row, i, 0), Input(a, ip, ido, row, i, 1);
    var c2, c3, c4 := Input(a, ip, ido, row, i, 2), Input(a, ip, ido, row, i, 3), Input(a, ip, ido, row, i, 4);
    if ip == 2 then
      var f := Fly2(c0, c1); if j == 0 then f.0 else f.1
    else if ip == 3 then
      var f := Fly3(isign, k, c0, c1, c2); if j == 0 then f.0 else if j == 1 then f.1 else f.2
    else if ip == 4 then
      var f := Fly4(isign, c0, c1, c2, c3); if j == 0 then f.0 else if j == 1 then f.1 else if j == 2 then f.2 else f.3
    else
      Output5(Fly5(isign, k, c0, c1, c2, c3, c4), j)
  }

  lemma OutputIs(isign: int, k: Consts, a: seq<Complex>, ip: nat, l1: nat, ido: nat, row: nat, i: nat, j: nat)
    requires Radix(ip) && (isign == 1 || isign == -1) && j < ip && i < ido && row < l1 && |a| == ip * l1 * ido
    ensures Output(isign, k, a, ip, ido, row, i, j) == SmallDft(isign, k, Read(isign, ip, ido, a), ip, ido, row, i, j)
  {
    hide Mul, Add, Input, Swap23;
    var c0, c1 := Input(a, ip, ido, row, i, 0), Input(a, ip, ido, row, i, 1);
    var c2, c3, c4 := Input(a, ip, ido, row, i, 2), Input(a, ip, ido, row, i, 3), Input(a, ip, ido, row, i, 4);
    if ip == 2 {
      hide Fly2, Comb2;
      Fly2Correct(c0, c1);
    } else if ip == 3 {
      hide Fly3, Comb3;
      Fly3Correct(isign, k, c0, c1, c2);
    } else if ip == 4 {
      hide Fly4, Comb4;
      Fly4Correct(isign, c0, c1, c2, c3);
    } else {
      Output5Is(isign, k, a, l1, ido, row, i, j);
    }
  }

  lemma Output5Is(isign: int, k: Consts, a: seq<Complex>, l1: nat, ido: nat, row: nat, i: nat, j: nat)
    requires (isign == 1 || isign == -1) && j < 5 && i < ido && row < l1 && |a| == 5 * l1 * ido
    ensures Output(isign, k, a, 5, ido, row, i, j) == SmallDft(isign, k, Read(isign, 5, ido, a), 5, ido, row, i, j)
  {
    hide Mul, Add, Input, Swap23, Fly5, Comb5, Output5;
    var c0, c1 := Input(a, 5, ido, row, i, 0), Input(a, 5, ido, row, i, 1);
    var c2, c3, c4 := Input(a, 5, ido, row, i, 2), Input(a, 5, ido, row, i, 3), Input(a, 5, ido, row, i, 4);
    if isign == 1 {
      Fly5Backward(k, c0, c1, c2, c3, c4, j);
    } else {
      Fly5Forward(k, c0, c1, c2, c3, c4, j);
      forall m: nat | m < 5
        ensures Input(Swap23(a, ido), 5, ido, row, i, m)
             == Input(a, 5, ido, row, i, if m == 2 then 3 else if m == 3 then 2 else m)
      {
        SwappedInput(a, l1, ido, row, i, m);
      }
    }
    if j == 0 {} else if j == 1 {} else if j == 2 {} else if j == 3 {} else {}
  }

  /** The array a pass of the code leaves, as a function of the one it reads. */
  function PassOf(isign: int, w: Complex, a: seq<Complex>, ip: nat, l1: nat, ido: nat): (b: seq<Complex>)
    requires l1 > 0 && ido > 0
    ensures |b| == |a|
  {
    Pass(Read(isign, ip, ido, a), Signed(isign, w), ip, l1, ido)
  }

  /** Storing the twiddled butterfly outputs of a column stores that column of the pass. */
  lemma StoredColumn(isign: int, w: Complex, k: Consts, a: seq<Complex>, ip: nat, l1: nat, ido: nat, row: nat, i: nat,
                     j: nat)
    requires Radix(ip) && (isign == 1 || isign == -1) && UnitRoot(w, ip * l1 * ido, k)
    requires j < ip && i < ido && row < l1 && |a| == ip * l1 * ido
    ensures 0 <= Cell(l1, ido, j, row, i) < |a|
    ensures PassOf(isign, w, a, ip, l1, ido)[Cell(l1, ido, j, row, i)]
         == Twiddle(isign, Output(isign, k, a, ip, ido, row, i, j), Tw(w, i * j * l1))
  {
    hide Mul, Add, Input, Swap23, Output, SmallDft, UnitRoot, PassValue, Twiddle;
    CellBound(ip, l1, ido, j, row, i);
    CellCoordinates(l1, ido, j, row, i);
    OutputIs(isign, k, a, ip, l1, ido, row, i, j);
    assert ip * (l1 * ido) == ip * l1 * ido;
    PassValueIs(isign, w, k, Read(isign, ip, ido, a), ip, l1, ido, j, row, i);
    TwiddleIsMul(isign, Output(isign, k, a, ip, ido, row, i, j), Tw(w, i * j * l1));
  }
}
