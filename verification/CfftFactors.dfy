/** The factorisation and the twiddle table of `cffti1` (libfaad/cfft.c). */
module CfftFactors {
  import opened Arithmetic
  import opened Complexes
  import opened Dft
  import opened Cfft

  function Product(s: seq<nat>): nat { if s == [] then 1 else s[0] * Product(s[1..]) }

  lemma {:induction false} ProductConcat(s: seq<nat>, t: seq<nat>)
    ensures Product(s + t) == Product(s) * Product(t)
  {
    if s == [] {
      assert s + t == t;
    } else {
      ProductConcat(s[1..], t);
      assert (s + t)[1..] == s[1..] + t;
      Associate(s[0], Product(s[1..]), Product(t));
    }
  }

  lemma Associate(a: nat, b: nat, c: nat)
    ensures a * (b * c) == (a * b) * c
  {}

  lemma ProductOne(p: nat)
    ensures Product([p]) == p
  {
    assert Product([p]) == p * Product([p][1..]);
  }

  function Pow3(k: nat): nat { if k == 0 then 1 else 3 * Pow3(k - 1) }

  predicate Divides(d: nat, n: nat) { d > 0 && n % d == 0 }

  /** No prime factor above five, said without primes: every divisor but one is a multiple of 2, 3 or 5. */
  ghost predicate FiveSmooth(n: nat) {
    forall d: nat | d > 1 && Divides(d, n) :: d % 2 == 0 || d % 3 == 0 || d % 5 == 0
  }

  /** What the passes need of the factor list: factor two only in front. */
  predicate Factors(fs: seq<nat>, n: nat) {
    && Product(fs) == n
    && (forall k | 0 <= k < |fs| :: fs[k] >= 2)
    && (forall k | 1 <= k < |fs| :: fs[k] != 2)
  }

  lemma DividesTimes(d: nat, q: nat)
    requires d > 0
    ensures Divides(d, d * q) && (d * q) / d == q
  {
    DivMod(0, d, q);
    assert q * d + 0 == d * q;
  }

  lemma DividesTrans(d: nat, m: nat, q: nat)
    requires Divides(d, m)
    ensures Divides(d, m * q) && Divides(d, q * m)
  {
    var c := m / d;
    assert m == d * c;
    Associate(d, c, q);
    DividesTimes(d, c * q);
  }

  lemma SmoothQuotient(p: nat, m: nat)
    requires FiveSmooth(p * m)
    ensures FiveSmooth(m)
  {
    forall d: nat | d > 1 && Divides(d, m)
      ensures d % 2 == 0 || d % 3 == 0 || d % 5 == 0
    {
      DividesTrans(d, m, p);
    }
  }

  /** Nothing up to `t` divides `m`, except one. */
  ghost predicate NoneUpTo(t: nat, m: nat) { forall d: nat | 2 <= d <= t :: !Divides(d, m) }

  lemma NoneQuotient(t: nat, p: nat, m: nat)
    requires NoneUpTo(t, p * m)
    ensures NoneUpTo(t, m)
  {
    forall d: nat | 2 <= d <= t
      ensures !Divides(d, m)
    {
      if Divides(d, m) {
        DividesTrans(d, m, p);
      }
    }
  }

  lemma NoneNext(t: nat, m: nat)
    requires t >= 2 && NoneUpTo(t, m) && !Divides(t + 2, m) && (t + 1) % 2 == 0
    ensures NoneUpTo(t + 2, m)
  {
    forall d: nat | 2 <= d <= t + 2
      ensures !Divides(d, m)
    {
      if d == t + 1 && Divides(d, m) {
        assert m == d * (m / d);
        DividesTrans(2, d, m / d);
      }
    }
  }

  /* ---------- Trial division ---------- */

  const NTRYH := [3, 4, 2, 5]

  /** What the search knows after trying `j` candidates, the last of them `ntry`, with `fs` found and `nl` left. */
  ghost predicate Searched(n: nat, j: nat, ntry: nat, fs: seq<nat>, nl: nat) {
    && nl > 0 && Product(fs) * nl == n
    && (forall k | 0 <= k < |fs| :: fs[k] >= 2)
    && (forall k | 1 <= k < |fs| :: fs[k] != 2)
    && (j < 3 ==> forall k | 0 <= k < |fs| :: fs[k] >= 3)
    && (|fs| > 0 ==> 2 * Pow3(|fs| - 1) * nl <= n)
    && ((forall k | 0 <= k < |fs| :: fs[k] >= 3) ==> Pow3(|fs|) * nl <= n)
    && (FiveSmooth(n) ==> FiveSmooth(nl) && (j <= 4 || nl == 1) && forall k | 0 <= k < |fs| :: fs[k] <= 5)
    && (1 <= j <= 4 ==> ntry == NTRYH[j - 1])
    && (j >= 4 ==> ntry >= 5 && ntry % 2 == 1)
  }

  /** The candidates tried so far, exhausted. */
  ghost predicate Exhausted(j: nat, ntry: nat, nl: nat) {
    && (j >= 1 ==> !Divides(3, nl))
    && (j >= 2 ==> !Divides(4, nl))
    && (j >= 3 ==> !Divides(2, nl))
    && (j >= 4 ==> NoneUpTo(ntry, nl))
  }

  lemma SmallNone(nl: nat)
    requires !Divides(3, nl) && !Divides(4, nl) && !Divides(2, nl) && !Divides(5, nl)
    ensures NoneUpTo(5, nl)
  {}

  /** A number with no divisor up to `t` is one or exceeds `t`. */
  lemma NoneMeansLarge(t: nat, m: nat)
    requires m > 0 && NoneUpTo(t, m)
    ensures m == 1 || m > t
  {
    DividesTimes(m, 1);
    assert Divides(m, m);
  }

  lemma SmoothDone(nl: nat)
    requires nl > 0 && FiveSmooth(nl) && NoneUpTo(5, nl)
    ensures nl == 1
  {
    assert !Divides(2, nl) && !Divides(3, nl) && !Divides(5, nl);
    DividesTimes(nl, 1);
    assert Divides(nl, nl);
  }

  /** At most ten factors are found, so all of them fit `ifac[15]`. */
  lemma FactorCount(n: nat, k: nat, nl: nat)
    requires k > 0 && nl > 0 && 2 * Pow3(k - 1) * nl <= n <= 65535
    ensures k <= 10
  {
    assert Pow3(5) == 243;
    assert Pow3(10) == 59049;
    ScaleLe(2 * Pow3(k - 1), 1, nl);
    if k > 10 { Pow3Grows(10, k - 1); }
  }

  lemma {:induction false} Pow3Grows(a: nat, b: nat)
    requires a <= b
    ensures Pow3(a) <= Pow3(b)
  {
    if a < b { Pow3Grows(a, b - 1); }
  }

  /** Dividing out one more candidate. */
  lemma FoundStep(n: nat, j: nat, ntry: nat, fs: seq<nat>, nl: nat, nq: nat)
    requires Searched(n, j, ntry, fs, nl) && nl == ntry * nq && j >= 1 && ntry >= 3
    ensures Searched(n, j, ntry, fs + [ntry], nq)
  {
    ProductConcat(fs, [ntry]);
    ProductOne(ntry);
    Associate(Product(fs), ntry, nq);
    if FiveSmooth(n) { SmoothQuotient(ntry, nq); }
    BoundStep(n, |fs|, ntry, nl, nq);
    var gs := fs + [ntry];
    assert forall k | 0 <= k < |fs| :: gs[k] == fs[k];
    assert (forall k | 0 <= k < |gs| :: gs[k] >= 3) ==> forall k | 0 <= k < |fs| :: fs[k] >= 3;
  }

  lemma BoundStep(n: nat, k: nat, ntry: nat, nl: nat, nq: nat)
    requires ntry >= 3 && nl == ntry * nq
    ensures Pow3(k) * nl <= n ==> Pow3(k + 1) * nq <= n && 2 * Pow3(k) * nq <= n
    ensures k > 0 && 2 * Pow3(k - 1) * nl <= n ==> 2 * Pow3(k) * nq <= n
  {
    assert 3 * nq <= nl;
    ScaleLe(Pow3(k), 3 * nq, nl);
    if k > 0 { ScaleLe(2 * Pow3(k - 1), 3 * nq, nl); }
  }

  lemma ScaleLe(c: nat, x: nat, y: nat)
    requires x <= y
    ensures c * x <= c * y
  {}

  /** Factor two goes to the front; it is found at most once. */
  lemma FoundTwo(n: nat, fs: seq<nat>, nl: nat, nq: nat)
    requires Searched(n, 3, 2, fs, nl) && nl == 2 * nq && forall k | 0 <= k < |fs| :: fs[k] >= 3
    ensures Searched(n, 3, 2, [2] + fs, nq)
  {
    ProductConcat([2], fs);
    ProductOne(2);
    Associate(2, Product(fs), nq);
    assert Product([2] + fs) * nq == Product(fs) * nl by {
      Associate(Product(fs), 2, nq);
    }
    if FiveSmooth(n) { SmoothQuotient(2, nq); }
    assert 2 * Pow3(|fs|) * nq == Pow3(|fs|) * nl by { Associate(Pow3(|fs|), 2, nq); }
  }

  predicate AllAbove2(fs: seq<nat>) { forall k | 0 <= k < |fs| :: fs[k] >= 3 }

  function Inserted(ntry: nat, fs: seq<nat>): seq<nat> { if ntry == 2 then [2] + fs else fs + [ntry] }

  lemma Found(n: nat, j: nat, ntry: nat, fs: seq<nat>, nl: nat, nq: nat)
    requires Searched(n, j, ntry, fs, nl) && nl == ntry * nq && j >= 1 && n <= 65535
    requires ntry == 2 ==> AllAbove2(fs)
    ensures Searched(n, j, ntry, Inserted(ntry, fs), nq) && |fs| + 1 <= 10
    ensures ntry != 2 && AllAbove2(fs) ==> AllAbove2(Inserted(ntry, fs))
  {
    if ntry == 2 {
      FoundTwo(n, fs, nl, nq);
    } else {
      FoundStep(n, j, ntry, fs, nl, nq);
    }
    FactorCount(n, |fs| + 1, nq);
  }

  /** Candidate number `j + 1`. */
  function Candidate(j: nat, ntry: nat): nat { if j < 4 then NTRYH[j] else ntry + 2 }

  lemma Next(n: nat, j: nat, ntry: nat, fs: seq<nat>, nl: nat)
    requires Searched(n, j, ntry, fs, nl) && Exhausted(j, ntry, nl) && nl != 1
    ensures Searched(n, j + 1, Candidate(j, ntry), fs, nl) && Candidate(j, ntry) >= 2
    ensures j <= 2 ==> OneTwo(nl, fs)
    ensures j >= 4 ==> 5 <= ntry < n && ntry % 2 == 1
    ensures Candidate(j, ntry) == 2 ==> j == 2
  {
    hide FiveSmooth, Pow3, Divides;
    if j >= 4 { NextLarge(n, ntry, fs, nl); }
    assert NTRYH[0] == 3 && NTRYH[1] == 4 && NTRYH[2] == 2 && NTRYH[3] == 5;
  }

  lemma NextLarge(n: nat, ntry: nat, fs: seq<nat>, nl: nat)
    requires nl > 1 && Product(fs) * nl == n && (forall k | 0 <= k < |fs| :: fs[k] >= 2)
    requires ntry >= 5 && NoneUpTo(ntry, nl) && (FiveSmooth(n) ==> FiveSmooth(nl))
    ensures ntry < n && !FiveSmooth(n)
  {
    hide Divides, Product, FiveSmooth;
    NoneMeansLarge(ntry, nl);
    ProductAtLeast1(fs);
    ScaleLe(nl, 1, Product(fs));
    assert NoneUpTo(5, nl);
    if FiveSmooth(nl) { SmoothDone(nl); }
  }

  lemma {:induction false} ProductAtLeast1(fs: seq<nat>)
    requires forall k | 0 <= k < |fs| :: fs[k] >= 2
    ensures Product(fs) >= 1
  {
    if fs != [] {
      ProductAtLeast1(fs[1..]);
      ScaleLe(fs[0], 1, Product(fs[1..]));
    }
  }

  lemma StillExhausted(j: nat, t: nat, p: nat, nl: nat, nq: nat)
    requires Exhausted(j, t, nl) && nl == p * nq
    ensures Exhausted(j, t, nq)
  {
    if Divides(3, nq) { DividesTrans(3, nq, p); }
    if Divides(4, nq) { DividesTrans(4, nq, p); }
    if Divides(2, nq) { DividesTrans(2, nq, p); }
    if j >= 4 { NoneQuotient(t, p, nq); }
  }

  /** When the inner loop stops, its candidate is exhausted too. */
  lemma NowExhausted(j: nat, t: nat, ntry: nat, nl: nat)
    requires j >= 1 && Exhausted(j - 1, t, nl) && ntry == Candidate(j - 1, t)
    requires ntry >= 2 && (nl == 1 || Remainder(nl, ntry) != 0)
    requires j > 4 ==> t >= 5 && t % 2 == 1
    ensures Exhausted(j, ntry, nl)
  {
    if nl == 1 { assert !Divides(ntry, nl); }
    if j == 4 {
      SmallNone(nl);
    } else if j > 4 {
      NoneNext(t, nl);
    }
  }

  lemma SearchStarts(n: nat)
    requires n > 0
    ensures Searched(n, 0, 0, [], n) && Exhausted(0, 0, n)
  {}

  lemma SearchEnds(n: nat, j: nat, ntry: nat, fs: seq<nat>)
    requires Searched(n, j, ntry, fs, 1)
    ensures Factors(fs, n) && (FiveSmooth(n) ==> forall k | 0 <= k < |fs| :: fs[k] <= 5)
  {}

  /** Storing the `nf`-th factor; a factor two moves the others up by one. */
  method Record(ifac: array<nat>, nf: nat, ntry: nat, ghost fs: seq<nat>)
    requires nf == |fs| + 1 && nf + 2 <= ifac.Length && ifac[2..1 + nf] == fs
    modifies ifac
    ensures ifac[2..2 + nf] == Inserted(ntry, fs)
  {
    ifac[nf + 1] := ntry;
    if ntry == 2 && nf != 1 {
      var i := 2;
      while i <= nf
        invariant 2 <= i <= nf + 1
        invariant forall m | 2 <= m < nf - i + 3 :: ifac[m] == fs[m - 2]
        invariant forall m | nf - i + 3 < m < nf + 2 :: ifac[m] == fs[m - 3]
      {
        var ib := nf - i + 2;
        ifac[ib + 1] := ifac[ib];
        i := i + 1;
      }
      ifac[2] := 2;
    }
  }

  function Quotient(nl: nat, ntry: nat): nat requires ntry > 0 { nl / ntry }

  function Remainder(nl: nat, ntry: nat): int requires ntry > 0 { nl - ntry * Quotient(nl, ntry) }

  /** While two is the candidate it has not been found yet, or no other is left. */
  predicate OneTwo(nl: nat, fs: seq<nat>) { nl % 2 != 0 || AllAbove2(fs) }

  lemma Divided(n: nat, j: nat, t: nat, ntry: nat, fs: seq<nat>, nl: nat)
    requires j >= 1 && n <= 65535 && Searched(n, j, ntry, fs, nl) && Exhausted(j - 1, t, nl)
    requires ntry >= 2 && nl != 1 && Remainder(nl, ntry) == 0 && (ntry == 2 ==> j == 3 && OneTwo(nl, fs))
    ensures var nq := Quotient(nl, ntry);
            && 0 < nq < nl && Exhausted(j - 1, t, nq)
            && Searched(n, j, ntry, Inserted(ntry, fs), nq) && |fs| + 1 <= 10
            && (ntry == 2 ==> OneTwo(nq, Inserted(ntry, fs)))
  {
    hide Searched, Exhausted, Inserted;
    var nq := Quotient(nl, ntry);
    assert nl == ntry * nq;
    SearchedPositive(n, j, ntry, fs, nl);
    QuotientRange(nl, ntry, nq);
    StillExhausted(j - 1, t, ntry, nl, nq);
    if ntry == 2 { OddQuotient(t, nl, nq); }
    Found(n, j, ntry, fs, nl, nq);
  }

  lemma SearchedPositive(n: nat, j: nat, ntry: nat, fs: seq<nat>, nl: nat)
    requires Searched(n, j, ntry, fs, nl)
    ensures nl > 0
  {}

  lemma QuotientRange(nl: nat, p: nat, q: nat)
    requires nl > 0 && p >= 2 && nl == p * q
    ensures 0 < q < nl
  {}

  lemma OddQuotient(t: nat, nl: nat, nq: nat)
    requires nl == 2 * nq && Exhausted(2, t, nl)
    ensures nq % 2 != 0
  {
    assert !Divides(4, nl);
  }

  /** The goto loops of `cffti1` that fill `ifac`. */
  method Factorise(n: nat, ifac: array<nat>)
    requires 2 <= n <= 65535 && ifac.Length == 15
    modifies ifac
    ensures ifac[0] == n && ifac[1] <= 10
    ensures Factors(ifac[2..2 + ifac[1]], n)
    ensures FiveSmooth(n) ==> forall k | 2 <= k < 2 + ifac[1] :: ifac[k] <= 5
  {
    hide Searched, Exhausted, FiveSmooth, NoneUpTo, Inserted, Product;
    hide Factors, Divides, AllAbove2, OneTwo, Quotient, Remainder;
    var nl: nat, nf: nat, j: nat, ntry: nat := n, 0, 0, 0;
    ghost var fs: seq<nat> := [];
    SearchStarts(n);
    while nl != 1
      invariant nf <= 10 && nf == |fs| && ifac[2..2 + nf] == fs
      invariant Searched(n, j, ntry, fs, nl) && Exhausted(j, ntry, nl)
      decreases if j < 4 then n + 4 - j else n - ntry
    {
      ghost var t := ntry;
      Next(n, j, ntry, fs, nl);
      j := j + 1;
      if j <= 4 { ntry := NTRYH[j - 1]; } else { ntry := ntry + 2; }
      while nl != 1 && Remainder(nl, ntry) == 0
        invariant nf <= 10 && nf == |fs| && ifac[2..2 + nf] == fs
        invariant Searched(n, j, ntry, fs, nl) && Exhausted(j - 1, t, nl)
        invariant ntry == 2 ==> OneTwo(nl, fs)
      {
        Divided(n, j, t, ntry, fs, nl);
        nf := nf + 1;
        Record(ifac, nf, ntry, fs);
        fs := Inserted(ntry, fs);
        nl := Quotient(nl, ntry);
      }
      NowExhausted(j, t, ntry, nl);
    }
    SearchEnds(n, j, ntry, fs);
    ifac[0], ifac[1] := n, nf;
    assert ifac[2..2 + nf] == fs;
  }

  /* ---------- The twiddle table ---------- */

  /** Stage `k` of the table holds the twiddles the pass for factor `k` reads. */
  ghost predicate TableAt(wa: seq<Complex>, w: Complex, fs: seq<nat>, k: nat)
    requires k < |fs|
  {
    fs[k] <= 5 ==>
      Stage(wa, Product(fs) - Product(fs[k..]), w, fs[k], Product(fs[..k]), Product(fs[k + 1..]))
  }

  ghost predicate Table(wa: seq<Complex>, w: Complex, fs: seq<nat>) {
    forall k | 0 <= k < |fs| :: TableAt(wa, w, fs, k)
  }

  ghost predicate Stage(wa: seq<Complex>, iw: int, w: Complex, ip: nat, l1: nat, ido: nat) {
    && 0 <= iw && iw + (ip - 1) * ido <= |wa|
    && Twiddles(wa, iw, w, ip, l1, ido)
  }

  /** The innermost loop: `ido` further powers of w^ld, after a one at `i1`. */
  method FillPowers(wa: array<Complex>, i1: nat, ip: nat, ido: nat, ld: nat, w: Complex)
    requires i1 + ido < wa.Length
    modifies wa
    ensures forall o | 0 <= o < i1 :: wa[o] == old(wa[o])
    ensures ip <= 5 ==> forall ii | 0 <= ii < ido :: wa[i1 + ii] == Tw(w, ii * ld)
  {
    hide Tw, Pow;
    var i := i1;
    wa[i] := ONE;
    var fi, ii := 0, 0;
    PowersStart(w, ld);
    while ii < ido
      invariant fi == ii <= ido && i == i1 + ii
      invariant forall o | 0 <= o < i1 :: wa[o] == old(wa[o])
      invariant forall m | 0 <= m <= ii :: wa[i1 + m] == Tw(w, m * ld)
    {
      i := i + 1;
      fi := fi + 1;
      wa[i] := Unit(w, fi * ld);
      ii := ii + 1;
    }
    if ip > 5 { wa[i1] := wa[i]; }
  }

  /** cos and sin of 2 pi e/n, as a power of w = exp(2 pi i/n). */
  function Unit(w: Complex, e: nat): Complex { Tw(w, e) }

  lemma PowersStart(w: Complex, ld: nat)
    ensures Tw(w, 0 * ld) == ONE
  {}

  /** The loop over j of `cffti1`, for one factor. */
  method FillStage(wa: array<Complex>, iw: nat, ip: nat, l1: nat, ido: nat, w: Complex) returns (i: nat)
    requires ip >= 2 && ido > 0 && iw + (ip - 1) * ido < wa.Length
    modifies wa
    ensures i == iw + (ip - 1) * ido
    ensures forall o | 0 <= o < iw :: wa[o] == old(wa[o])
    ensures ip <= 5 ==> Stage(wa[..], iw, w, ip, l1, ido)
  {
    hide Tw;
    i := iw;
    var ld, j := 0, 0;
    while j < ip - 1
      invariant 0 <= j <= ip - 1 && i == iw + j * ido && ld == j * l1
      invariant forall o | 0 <= o < iw :: wa[o] == old(wa[o])
      invariant ip <= 5 ==> forall j': nat, m: nat | 1 <= j' <= j && m < ido ::
                  0 <= Tix(iw, ido, m, j') < i && wa[Tix(iw, ido, m, j')] == Tw(w, m * j' * l1)
    {
      StageIndex(iw, ip, ido, j);
      ghost var before := wa[..];
      ld := ld + l1;
      FillPowers(wa, i, ip, ido, ld, w);
      if ip <= 5 {
        forall j': nat, m: nat | 1 <= j' <= j + 1 && m < ido
          ensures 0 <= Tix(iw, ido, m, j') < i + ido && wa[Tix(iw, ido, m, j')] == Tw(w, m * j' * l1)
        {
          if j' <= j {
            assert before[Tix(iw, ido, m, j')] == Tw(w, m * j' * l1);
          } else {
            assert Tix(iw, ido, m, j') == i + m;
            Exponent(m, j', l1);
          }
        }
      }
      i := i + ido;
      j := j + 1;
    }
  }

  lemma StageIndex(iw: nat, ip: nat, ido: nat, j: nat)
    requires j < ip - 1
    ensures iw + j * ido + ido <= iw + (ip - 1) * ido
    ensures (j + 1) * ido == j * ido + ido
  {
    MulStep(j, ip - 1, ido);
  }

  lemma Exponent(m: nat, j: nat, l1: nat)
    ensures m * j * l1 == m * (j * l1)
  {}

  lemma ProductHead(fs: seq<nat>, k: nat)
    requires k < |fs|
    ensures Product(fs[k..]) == fs[k] * Product(fs[k + 1..])
  {
    assert fs[k..][1..] == fs[k + 1..];
  }

  /** Products before, at and after factor `k`. */
  lemma ProductAt(fs: seq<nat>, k: nat)
    requires k < |fs|
    ensures Product(fs[..k]) * fs[k] == Product(fs[..k + 1])
    ensures Product(fs[k..]) == fs[k] * Product(fs[k + 1..])
    ensures Product(fs[..k]) * Product(fs[k..]) == Product(fs)
    ensures Product(fs[..k + 1]) * Product(fs[k + 1..]) == Product(fs)
  {
    hide Product;
    ProductHead(fs, k);
    assert fs[..k + 1] == fs[..k] + [fs[k]];
    ProductConcat(fs[..k], [fs[k]]);
    ProductOne(fs[k]);
    assert fs[..k] + fs[k..] == fs;
    ProductConcat(fs[..k], fs[k..]);
    assert fs[..k + 1] + fs[k + 1..] == fs;
    ProductConcat(fs[..k + 1], fs[k + 1..]);
  }

  /** The table of stage `k` ends before that of stage `k + 1`. */
  lemma StageEnd(fs: seq<nat>, k: nat)
    requires k < |fs| && forall m | 0 <= m < |fs| :: fs[m] >= 2
    ensures var p, q := Product(fs[k..]), Product(fs[k + 1..]);
            && 1 <= q < p <= Product(fs)
            && (Product(fs) - p) + (fs[k] - 1) * q == Product(fs) - q
    ensures Product(fs[..k]) >= 1 && Product(fs[..k + 1]) >= 1
  {
    hide Product;
    ProductAt(fs, k);
    ProductAtLeast1(fs[k + 1..]);
    ProductAtLeast1(fs[..k]);
    ProductAtLeast1(fs[..k + 1]);
    StageArithmetic(fs[k], Product(fs[k + 1..]), Product(fs[k..]), Product(fs[..k]), Product(fs));
  }

  lemma StageArithmetic(ip: nat, q: nat, p: nat, l: nat, n: nat)
    requires p == ip * q && n == l * p && ip >= 2 && q >= 1 && l >= 1
    ensures q < p <= n && (n - p) + (ip - 1) * q == n - q
  {
    ScaleLe(q, 2, ip);
    ScaleLe(p, 1, l);
    assert (ip - 1) * q == ip * q - q;
  }

  lemma TableKept(a: seq<Complex>, b: seq<Complex>, w: Complex, fs: seq<nat>, k: nat, i: nat)
    requires k < |fs| && (forall m | 0 <= m < |fs| :: fs[m] >= 2)
    requires TableAt(a, w, fs, k) && |a| == |b| == Product(fs)
    requires Product(fs) - Product(fs[k + 1..]) <= i <= |a| && a[..i] == b[..i]
    ensures TableAt(b, w, fs, k)
  {
    hide Product;
    var iw, ido, ip := Product(fs) - Product(fs[k..]), Product(fs[k + 1..]), fs[k];
    StageEnd(fs, k);
    if ip <= 5 {
      forall j: nat, m: nat | 1 <= j < ip && m < ido
        ensures At(b, Tix(iw, ido, m, j)) == Tw(w, m * j * Product(fs[..k]))
      {
        TableIndices(iw, ip, ido, m);
        assert a[..i][Tix(iw, ido, m, j)] == b[..i][Tix(iw, ido, m, j)];
      }
    }
  }

  lemma {:induction false} SuffixProducts(fs: seq<nat>, k: nat, m: nat)
    requires k <= m <= |fs| && forall o | 0 <= o < |fs| :: fs[o] >= 2
    ensures Product(fs[m..]) <= Product(fs[k..])
  {
    if k < m {
      SuffixProducts(fs, k, m - 1);
      StageEnd(fs, m - 1);
    }
  }

  /** The second half of `cffti1`. */
  method FillTable(n: nat, wa: array<Complex>, fs: seq<nat>, w: Complex)
    requires n >= 2 && wa.Length == n && Factors(fs, n)
    modifies wa
    ensures Table(wa[..], w, fs)
  {
    hide TableAt, Stage, Product;
    var i, l1, k1 := 0, 1, 0;
    Ends(fs);
    while k1 < |fs|
      invariant 0 <= k1 <= |fs| && l1 == Product(fs[..k1]) && i == n - Product(fs[k1..])
      invariant forall k | 0 <= k < k1 :: TableAt(wa[..], w, fs, k)
    {
      var ip := fs[k1];
      var l2 := l1 * ip;
      StageEnd(fs, k1);
      ProductAt(fs, k1);
      ExactDivision(l2, Product(fs[k1 + 1..]));
      var ido := n / l2;
      ghost var before := wa[..];
      ghost var start := i;
      i := FillStage(wa, i, ip, l1, ido, w);
      forall k | 0 <= k < k1
        ensures TableAt(wa[..], w, fs, k)
      {
        SuffixProducts(fs, k + 1, k1);
        TableKept(before, wa[..], w, fs, k, start);
      }
      TableMade(wa[..], w, fs, k1);
      l1 := l2;
      k1 := k1 + 1;
    }
  }

  lemma TableMade(wa: seq<Complex>, w: Complex, fs: seq<nat>, k: nat)
    requires k < |fs|
    requires fs[k] <= 5 ==> Stage(wa, Product(fs) - Product(fs[k..]), w, fs[k], Product(fs[..k]), Product(fs[k + 1..]))
    ensures TableAt(wa, w, fs, k)
  {}

  lemma Ends(fs: seq<nat>)
    ensures Product(fs[..0]) == 1 && Product(fs[0..]) == Product(fs)
  {
    assert fs[0..] == fs;
  }

  lemma ExactDivision(d: nat, q: nat)
    requires d > 0
    ensures (d * q) / d == q
  {
    DivMod(0, d, q);
    assert q * d + 0 == d * q;
  }

  /** `cffti1`: the factors of `n` and the twiddles laid out for them. */
  method Cffti1(n: nat, wa: array<Complex>, ifac: array<nat>, w: Complex)
    requires 2 <= n <= 65535 && ifac.Length == 15 && wa.Length == n
    modifies wa, ifac
    ensures ifac[0] == n && ifac[1] <= 10
    ensures Factors(ifac[2..2 + ifac[1]], n)
    ensures FiveSmooth(n) ==> forall k | 2 <= k < 2 + ifac[1] :: ifac[k] <= 5
    ensures Table(wa[..], w, ifac[2..2 + ifac[1]])
  {
    hide TableAt, Factors, FiveSmooth;
    Factorise(n, ifac);
    FillTable(n, wa, ifac[2..2 + ifac[1]], w);
  }
}
