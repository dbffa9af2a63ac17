/**
  `cffti`, `cfftf` and `cfftb` (libfaad/cfft.c): the drivers on arrays, what a
  run of passes computes, and when the two transforms undo each other.
 */
module CfftDriver {
  import opened Complexes
  import opened Dft
  import opened DftInverse
  import opened CfftButterflies
  import opened CfftPasses
  import opened Cfft
  import opened CfftFactors

  /** One turn of the driver's loop: a factor above five has no pass. */
  function Step(isign: int, w: Complex, a: seq<Complex>, ip: nat, l1: nat, ido: nat): (b: seq<Complex>)
    requires l1 > 0 && ido > 0
    ensures |b| == |a|
  {
    if Radix(ip) then PassOf(isign, w, a, ip, l1, ido) else a
  }

  predicate AtLeast2(fs: seq<nat>) { forall k | 0 <= k < |fs| :: fs[k] >= 2 }

  /** The array after the passes for the first `k` factors. */
  function Run(isign: int, w: Complex, x: seq<Complex>, fs: seq<nat>, k: nat): (a: seq<Complex>)
    requires k <= |fs| && AtLeast2(fs)
    ensures |a| == |x|
  {
    if k == 0 then x
    else
      ProductAtLeast1(fs[..k - 1]);
      ProductAtLeast1(fs[k..]);
      Step(isign, w, Run(isign, w, x, fs, k - 1), fs[k - 1], Product(fs[..k - 1]), Product(fs[k..]))
  }

  function Cfftf1Of(isign: int, w: Complex, x: seq<Complex>, fs: seq<nat>): (a: seq<Complex>)
    requires AtLeast2(fs)
    ensures |a| == |x|
  {
    Run(isign, w, x, fs, |fs|)
  }

  ghost predicate DriverReady(n: nat, c: array<Complex>, ch: array<Complex>, ifac: seq<nat>, wa: seq<Complex>,
                              k: Consts, w: Complex) {
    && n >= 2 && c != ch && c.Length == ch.Length == n
    && |ifac| >= 2 && |ifac| >= 2 + ifac[1]
    && Factors(ifac[2..2 + ifac[1]], n) && Table(wa, w, ifac[2..2 + ifac[1]])
    && UnitRoot(w, n, k)
  }

  /** What one turn of the loop needs and leaves. */
  lemma Turn(n: nat, fs: seq<nat>, m: nat, wa: seq<Complex>, w: Complex)
    requires m < |fs| && Factors(fs, n) && Table(wa, w, fs)
    ensures var ip, l1, ido := fs[m], Product(fs[..m]), Product(fs[m + 1..]);
            && l1 > 0 && ido > 0 && ip * l1 > 0 && n / (ip * l1) == ido && ip * l1 * ido == n
            && ip * l1 == Product(fs[..m + 1])
            && (ip == 2 ==> l1 == 1)
            && (n - Product(fs[m..])) + (ip - 1) * ido == n - ido
            && (ip <= 5 ==> Stage(wa, n - Product(fs[m..]), w, ip, l1, ido))
  {
    hide Product, Stage;
    var ip, l1, ido := fs[m], Product(fs[..m]), Product(fs[m + 1..]);
    StageEnd(fs, m);
    ProductAt(fs, m);
    Commutes(ip, l1);
    ExactDivision(ip * l1, ido);
    Ends(fs);
    assert TableAt(wa, w, fs, m);
  }

  lemma Commutes(a: nat, b: nat)
    ensures a * b == b * a
  {}

  lemma FactorsAtLeast2(fs: seq<nat>, n: nat)
    requires Factors(fs, n)
    ensures AtLeast2(fs) && Product(fs) == n
  {}

  lemma RunStarts(isign: int, w: Complex, x: seq<Complex>, fs: seq<nat>)
    requires AtLeast2(fs)
    ensures Run(isign, w, x, fs, 0) == x
  {}

  lemma RunTurn(isign: int, w: Complex, x: seq<Complex>, fs: seq<nat>, m: nat)
    requires m < |fs| && AtLeast2(fs)
    ensures Product(fs[..m]) > 0 && Product(fs[m + 1..]) > 0
    ensures Run(isign, w, x, fs, m + 1)
         == Step(isign, w, Run(isign, w, x, fs, m), fs[m], Product(fs[..m]), Product(fs[m + 1..]))
  {
    hide Product, Step;
    ProductAtLeast1(fs[..m]);
    ProductAtLeast1(fs[m + 1..]);
  }

  method OnePass(isign: int, ip: nat, ido: nat, l1: nat, src: array<Complex>, dst: array<Complex>,
                 wa: seq<Complex>, iw: nat, k: Consts, ghost w: Complex)
    requires Radix(ip) && (isign == 1 || isign == -1) && l1 > 0 && ido > 0 && (ip == 2 ==> l1 == 1)
    requires src != dst && src.Length == dst.Length == ip * l1 * ido
    requires UnitRoot(w, ip * l1 * ido, k) && Stage(wa, iw, w, ip, l1, ido)
    modifies dst
    ensures dst[..] == PassOf(isign, w, src[..], ip, l1, ido)
  {
    hide PassOf, UnitRoot, Twiddles;
    Passf(isign, ip, ido, l1, src, dst, wa, iw, k, w);
    assert src[..ip * l1 * ido] == src[..] && dst[..ip * l1 * ido] == dst[..];
  }

  /** The body of the driver's loop. */
  method OneTurn(isign: int, n: nat, ip: nat, l1: nat, ghost d: nat, na: int, iw: nat, c: array<Complex>,
                 ch: array<Complex>, wa: seq<Complex>, k: Consts, ghost w: Complex)
    returns (na': int, l2: nat, iw': nat)
    requires (isign == 1 || isign == -1) && (na == 0 || na == 1)
    requires c != ch && c.Length == ch.Length == n && UnitRoot(w, n, k)
    requires ip >= 2 && l1 > 0 && d > 0 && ip * l1 > 0 && n / (ip * l1) == d
    requires ip * l1 * d == n && (ip == 2 ==> l1 == 1)
    requires ip <= 5 ==> Stage(wa, iw, w, ip, l1, d)
    modifies c, ch
    ensures (na' == 0 || na' == 1) && l2 == ip * l1 && iw' == iw + (ip - 1) * d
    ensures (if na' == 0 then c[..] else ch[..]) == Step(isign, w, old(if na == 0 then c[..] else ch[..]), ip, l1, d)
  {
    hide PassOf, UnitRoot, Stage;
    l2 := ip * l1;
    var ido := n / l2;
    na' := na;
    if ip == 2 || ip == 3 || ip == 4 || ip == 5 {
      if na == 0 {
        OnePass(isign, ip, ido, l1, c, ch, wa, iw, k, w);
      } else {
        OnePass(isign, ip, ido, l1, ch, c, wa, iw, k, w);
      }
      na' := 1 - na;
    }
    iw' := iw + (ip - 1) * ido;
  }

  method CopyBack(n: nat, c: array<Complex>, ch: array<Complex>)
    requires c != ch && c.Length == ch.Length == n
    modifies c
    ensures c[..] == ch[..]
  {
    var i := 0;
    while i < n
      invariant 0 <= i <= n && c[..i] == ch[..i]
    {
      c[i] := ch[i];
      i := i + 1;
    }
  }

  /** The passes in turn, ping-ponging between `c` and `ch`. */
  method Cfftf1(isign: int, n: nat, c: array<Complex>, ch: array<Complex>, ifac: seq<nat>, wa: seq<Complex>,
                k: Consts, ghost w: Complex)
    requires DriverReady(n, c, ch, ifac, wa, k, w) && (isign == 1 || isign == -1)
    modifies c, ch
    ensures c[..] == Cfftf1Of(isign, w, old(c[..]), ifac[2..2 + ifac[1]])
  {
    hide Product, Stage, UnitRoot, Table, PassOf, Run, Twiddles, Factors;
    ghost var fs := ifac[2..2 + ifac[1]];
    ghost var x := c[..];
    var nf, na, l1, iw, k1 := ifac[1], 0, 1, 0, 2;
    Ends(fs);
    FactorsAtLeast2(fs, n);
    RunStarts(isign, w, x, fs);
    while k1 <= nf + 1
      invariant 2 <= k1 <= nf + 2 && (na == 0 || na == 1)
      invariant l1 == Product(fs[..k1 - 2]) && iw == n - Product(fs[k1 - 2..])
      invariant (if na == 0 then c[..] else ch[..]) == Run(isign, w, x, fs, k1 - 2)
    {
      Turn(n, fs, k1 - 2, wa, w);
      RunTurn(isign, w, x, fs, k1 - 2);
      na, l1, iw := OneTurn(isign, n, ifac[k1], l1, Product(fs[k1 - 1..]), na, iw, c, ch, wa, k, w);
      k1 := k1 + 1;
    }
    if na == 1 { CopyBack(n, c, ch); }
  }

  /* ---------- What a run computes ---------- */

  /** Radices the passes know; `cffti1` leaves no other for a 5-smooth length. */
  predicate AllRadix(fs: seq<nat>) { forall k | 0 <= k < |fs| :: Radix(fs[k]) }

  /** No inputs are exchanged when transforming backward, nor for a radix other than five. */
  lemma StepStraight(isign: int, w: Complex, a: seq<Complex>, ip: nat, l1: nat, ido: nat)
    requires l1 > 0 && ido > 0 && Radix(ip) && (isign == 1 || ip != 5)
    ensures Step(isign, w, a, ip, l1, ido) == Pass(a, Signed(isign, w), ip, l1, ido)
  {
    hide Pass;
  }

  lemma SignedUnit(isign: int, w: Complex, n: nat)
    requires Pow(w, n) == ONE
    ensures Pow(Signed(isign, w), n) == ONE
  {
    hide Pow, Signed;
    SignedPow(isign, w, n);
    SignedOne(isign);
  }

  lemma {:induction false} ReadsStraight(isign: int, w: Complex, x: seq<Complex>, fs: seq<nat>, m: nat)
    requires m <= |fs| && AllRadix(fs) && Product(fs) == |x| && Pow(w, |x|) == ONE
    requires isign == 1 || 5 !in fs
    ensures Rows(Run(isign, w, x, fs, m), x, Signed(isign, w), Product(fs[..m]), Product(fs[m..]))
  {
    hide Product, Rows, Pass, Pow, Step, Signed, Run;
    Ends(fs);
    if m == 0 {
      RowsInitially(x, Signed(isign, w));
      RunStarts(isign, w, x, fs);
    } else {
      ReadsStraight(isign, w, x, fs, m - 1);
      RunTurn(isign, w, x, fs, m - 1);
      ProductAt(fs, m - 1);
      SignedUnit(isign, w, |x|);
      var a, ip, l1, ido := Run(isign, w, x, fs, m - 1), fs[m - 1], Product(fs[..m - 1]), Product(fs[m..]);
      StepStraight(isign, w, a, ip, l1, ido);
      PassRows(a, x, Signed(isign, w), ip, l1, ido);
    }
  }

  lemma PassRows(a: seq<Complex>, x: seq<Complex>, w: Complex, ip: nat, l1: nat, ido: nat)
    requires l1 > 0 && ido > 0 && |a| == |x| && l1 * (ip * ido) == |x|
    requires Pow(w, |x|) == ONE && Rows(a, x, w, l1, ip * ido)
    ensures Rows(Pass(a, w, ip, l1, ido), x, w, l1 * ip, ido)
  {
    hide Rows, Pass, Pow, Mul, IsPass;
    LengthIs(ip, l1, ido);
    PassIsPass(a, w, ip, l1, ido);
    PassKeepsRows(a, Pass(a, w, ip, l1, ido), x, w, ip, l1, ido);
  }

  /** Whenever no butterfly exchanges inputs, the run is the DFT in the direction of the sign. */
  lemma RunIsTransform(isign: int, w: Complex, x: seq<Complex>, fs: seq<nat>)
    requires AllRadix(fs) && Product(fs) == |x| && Pow(w, |x|) == ONE
    requires isign == 1 || 5 !in fs
    ensures Cfftf1Of(isign, w, x, fs) == Transform(x, Signed(isign, w))
  {
    hide Product, Rows, Transform, Pow;
    ReadsStraight(isign, w, x, fs, |fs|);
    WholeProduct(fs);
    RowsFinally(Cfftf1Of(isign, w, x, fs), x, Signed(isign, w));
  }

  lemma WholeProduct(fs: seq<nat>)
    ensures Product(fs[..|fs|]) == Product(fs) && Product(fs[|fs|..]) == 1
  {
    assert fs[..|fs|] == fs;
  }

  lemma {:induction false} FiveIsPrime(fs: seq<nat>)
    requires AllRadix(fs)
    ensures Product(fs) % 5 == 0 <==> 5 in fs
  {
    if fs != [] {
      hide Product;
      ProductHead(fs, 0);
      FiveIsPrime(fs[1..]);
      assert fs[0..] == fs == [fs[0]] + fs[1..];
      TimesRadix(fs[0], Product(fs[1..]));
    } else {
      assert Product(fs) == 1;
    }
  }

  lemma TimesRadix(ip: nat, p: nat)
    requires Radix(ip)
    ensures (ip * p) % 5 == 0 <==> ip == 5 || p % 5 == 0
  {
    if ip == 2 {
      assert (2 * p) % 5 == 0 <==> p % 5 == 0;
    } else if ip == 3 {
      assert (3 * p) % 5 == 0 <==> p % 5 == 0;
    } else if ip == 4 {
      assert (4 * p) % 5 == 0 <==> p % 5 == 0;
    } else {
      assert (5 * p) % 5 == 0;
    }
  }
}
