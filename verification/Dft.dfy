/**
  The discrete Fourier transform as the reference definition of what
  `cfftf` and `cfftb` compute, and the one-step law of the self-sorting
  mixed-radix factorisation they use.
 */
module Dft {
  import opened Arithmetic
  import opened Complexes

  /** Element `i` of `a`, zero outside. */
  function At(a: seq<Complex>, i: int): Complex { if 0 <= i < |a| then a[i] else ZERO }

  /** Power `k` of `w`; ONE for the negative exponents that never occur. */
  function Tw(w: Complex, k: int): Complex { if k < 0 then ONE else Pow(w, k) }

  /** The t-th term of the q-th DFT coefficient of `x`. */
  function DftTerm(x: seq<Complex>, w: Complex, q: int): int -> Complex {
    t => Mul(At(x, t), Tw(w, t * q))
  }

  /** Coefficient `q` of the DFT of `x` taken with the root `w`. */
  function Coefficient(x: seq<Complex>, w: Complex, q: int): Complex {
    Sum(DftTerm(x, w, q), |x|)
  }

  /** The DFT of `x` taken with the root `w`: sum over t of x[t] * w^(t*q), for each q. */
  function Transform(x: seq<Complex>, w: Complex): (r: seq<Complex>)
    ensures |r| == |x|
  {
    seq(|x|, q => Coefficient(x, w, q))
  }

  /* ---------- Row form ---------- */

  function RowTerm(a: seq<Complex>, w: Complex, l1: nat, ido: nat, q: int, r: int): int -> Complex {
    i => Mul(At(a, q * ido + i), Tw(w, l1 * i * r))
  }

  /** Row `q` of `a`, cut into rows of length `ido`, transformed with the root w^l1 at frequency `r`. */
  function RowDft(a: seq<Complex>, w: Complex, l1: nat, ido: nat, q: int, r: int): Complex {
    Sum(RowTerm(a, w, l1, ido, q, r), ido)
  }

  /**
    What holds between two passes: `a` consists of `l1` rows of length `ido`,
    and row `q` transformed gives the coefficients of `x` congruent to q modulo l1.
   */
  ghost predicate Rows(a: seq<Complex>, x: seq<Complex>, w: Complex, l1: nat, ido: nat) {
    && |a| == |x| == l1 * ido
    && forall q, r | 0 <= q < l1 && 0 <= r < ido ::
         RowDft(a, w, l1, ido, q, r) == Coefficient(x, w, l1 * r + q)
  }

  lemma RowsInitially(x: seq<Complex>, w: Complex)
    ensures Rows(x, x, w, 1, |x|)
  {
    hide Mul, Add, Tw;
    forall q, r | 0 <= q < 1 && 0 <= r < |x|
      ensures RowDft(x, w, 1, |x|, q, r) == Coefficient(x, w, 1 * r + q)
    {
      SumEq(RowTerm(x, w, 1, |x|, q, r), DftTerm(x, w, r), |x|);
    }
  }

  lemma RowsFinally(a: seq<Complex>, x: seq<Complex>, w: Complex)
    requires Rows(a, x, w, |x|, 1)
    ensures a == Transform(x, w)
  {
    hide Mul;
    forall q | 0 <= q < |x|
      ensures a[q] == Coefficient(x, w, q)
    {
      var f := RowTerm(a, w, |x|, 1, q, 0);
      assert RowDft(a, w, |x|, 1, q, 0) == Coefficient(x, w, |x| * 0 + q);
      assert Sum(f, 1) == Add(Sum(f, 0), f(0)) == Add(ZERO, f(0));
      AddLaws(f(0), ZERO, ZERO);
      assert f(0) == Mul(At(a, q), Tw(w, 0));
      MulOne(a[q]);
    }
  }

  /* ---------- One pass ---------- */

  function PassTerm(a: seq<Complex>, w: Complex, ip: nat, l1: nat, ido: nat, j: int, k: int, i: int): int -> Complex {
    m => Mul(At(a, (k * ip + m) * ido + i), Tw(w, l1 * ido * (j * m)))
  }

  /**
    What a pass of radix `ip` stores at block `j`, row `k`, column `i`: the
    radix-`ip` butterfly of column `i` of row `k`, times the twiddle factor.
   */
  function PassValue(a: seq<Complex>, w: Complex, ip: nat, l1: nat, ido: nat, j: int, k: int, i: int): Complex {
    Mul(Sum(PassTerm(a, w, ip, l1, ido, j, k, i), ip), Tw(w, i * j * l1))
  }

  /** Where a pass stores that value. */
  function Cell(l1: nat, ido: nat, j: int, k: int, i: int): int { (j * l1 + k) * ido + i }

  ghost predicate IsPass(a: seq<Complex>, b: seq<Complex>, w: Complex, ip: nat, l1: nat, ido: nat) {
    && |a| == |b| == ip * l1 * ido
    && forall j, k, i | 0 <= j < ip && 0 <= k < l1 && 0 <= i < ido ::
         At(b, Cell(l1, ido, j, k, i)) == PassValue(a, w, ip, l1, ido, j, k, i)
  }

  /* ---------- A pass keeps the row form ---------- */

  /** The common term of the two double sums below. */
  function StepTerm(a: seq<Complex>, w: Complex, ip: nat, l1: nat, ido: nat, k: int, f: int): (int, int) -> Complex {
    (m, i) => Mul(At(a, (k * ip + m) * ido + i), Tw(w, l1 * (m * ido + i) * f))
  }

  lemma ExponentIdentity(ip: nat, l1: nat, ido: nat, j: nat, m: nat, i: nat, r: nat)
    ensures l1 * (m * ido + i) * (ip * r + j)
         == l1 * ido * (j * m) + i * j * l1 + l1 * ip * i * r + (ip * l1 * ido) * (m * r)
    ensures l1 * ido * (j * m) >= 0 && i * j * l1 >= 0 && l1 * ip * i * r >= 0
  {}

  /** Twiddle factors collapse into one, because w is an n-th root of unity. */
  lemma TwiddleCollapse(c: Complex, w: Complex, n: nat, e1: nat, e2: nat, e3: nat, z: nat, e: int)
    requires Pow(w, n) == ONE && e == e1 + e2 + e3 + n * z
    ensures Mul(Tw(w, e3), Mul(Tw(w, e2), Mul(c, Tw(w, e1)))) == Mul(c, Tw(w, e))
  {
    hide Mul, Add, Pow;
    PowPeriodic(w, n, e1 + e2 + e3, z);
    PowAdd(w, e1 + e2, e3);
    PowAdd(w, e1, e2);
    MulAssoc(c, Pow(w, e1), Pow(w, e2));
    MulAssoc(c, Pow(w, e1 + e2), Pow(w, e3));
    MulComm(Pow(w, e2), Mul(c, Pow(w, e1)));
    MulComm(Pow(w, e3), Mul(c, Pow(w, e1 + e2)));
  }

  lemma StepTermIs(a: seq<Complex>, w: Complex, ip: nat, l1: nat, ido: nat, j: nat, k: nat, i: nat, r: nat, m: nat)
    requires Pow(w, ip * l1 * ido) == ONE
    ensures Mul(Tw(w, l1 * ip * i * r), Mul(Tw(w, i * j * l1), PassTerm(a, w, ip, l1, ido, j, k, i)(m)))
         == StepTerm(a, w, ip, l1, ido, k, ip * r + j)(m, i)
  {
    hide Mul, Add, Pow, Tw;
    ExponentIdentity(ip, l1, ido, j, m, i, r);
    TwiddleCollapse(At(a, (k * ip + m) * ido + i), w, ip * l1 * ido, l1 * ido * (j * m), i * j * l1, l1 * ip * i * r,
                    m * r, l1 * (m * ido + i) * (ip * r + j));
  }

  /** The stored value times its row factor is an inner sum of common terms. */
  lemma StepInner(a: seq<Complex>, w: Complex, ip: nat, l1: nat, ido: nat, j: nat, k: nat, i: nat, r: nat)
    requires Pow(w, ip * l1 * ido) == ONE
    ensures Mul(PassValue(a, w, ip, l1, ido, j, k, i), Tw(w, l1 * ip * i * r))
         == Sum(m => StepTerm(a, w, ip, l1, ido, k, ip * r + j)(m, i), ip)
  {
    hide Mul, Add, Pow, Tw;
    var f := PassTerm(a, w, ip, l1, ido, j, k, i);
    var t2, t3 := Tw(w, i * j * l1), Tw(w, l1 * ip * i * r);
    var s := Sum(f, ip);
    SumMul(t2, f, ip);
    SumMul(t3, Scaled(t2, f), ip);
    MulComm(s, t2);
    MulComm(Mul(s, t2), t3);
    var g := Scaled(t3, Scaled(t2, f));
    var h := m => StepTerm(a, w, ip, l1, ido, k, ip * r + j)(m, i);
    forall m | 0 <= m < ip
      ensures g(m) == h(m)
    {
      StepTermIs(a, w, ip, l1, ido, j, k, i, r, m);
    }
    SumEq(g, h, ip);
  }

  /** Splitting the index of a row before the pass into (block, column). */
  lemma StepOuter(a: seq<Complex>, w: Complex, ip: nat, l1: nat, ido: nat, k: nat, f: nat)
    ensures RowDft(a, w, l1, ip * ido, k, f)
         == Sum(m => Sum(i => StepTerm(a, w, ip, l1, ido, k, f)(m, i), ido), ip)
  {
    hide Mul, Add, Pow, Tw;
    var t := RowTerm(a, w, l1, ip * ido, k, f);
    var g := m => Sum(i => StepTerm(a, w, ip, l1, ido, k, f)(m, i), ido);
    forall m | 0 <= m < ip
      ensures g(m) == Sum(Shift(t, m * ido), ido)
    {
      forall i | 0 <= i < ido
        ensures StepTerm(a, w, ip, l1, ido, k, f)(m, i) == Shift(t, m * ido)(i)
      {
        RowIndex(k, ip, m, ido, i);
      }
      SumEq(i => StepTerm(a, w, ip, l1, ido, k, f)(m, i), Shift(t, m * ido), ido);
    }
    SumSplit(t, g, ip, ido);
  }

  lemma RowIndex(k: int, ip: int, m: int, ido: int, i: int)
    ensures (k * ip + m) * ido + i == k * (ip * ido) + (m * ido + i)
  {}

  /** One pass turns row k at frequency ip*r + j into row j*l1 + k at frequency r. */
  lemma StepRow(a: seq<Complex>, b: seq<Complex>, w: Complex, ip: nat, l1: nat, ido: nat, j: nat, k: nat, r: nat)
    requires IsPass(a, b, w, ip, l1, ido) && Pow(w, ip * l1 * ido) == ONE
    requires j < ip && k < l1 && r < ido
    ensures RowDft(b, w, l1 * ip, ido, j * l1 + k, r) == RowDft(a, w, l1, ip * ido, k, ip * r + j)
  {
    hide Mul, Add, Pow, Tw, PassValue;
    var s := StepTerm(a, w, ip, l1, ido, k, ip * r + j);
    var h := RowTerm(b, w, l1 * ip, ido, j * l1 + k, r);
    var g := m => Sum(i => s(m, i), ido);
    forall i | 0 <= i < ido
      ensures h(i) == Sum(m => s(m, i), ip)
    {
      assert At(b, Cell(l1, ido, j, k, i)) == PassValue(a, w, ip, l1, ido, j, k, i);
      StepInner(a, w, ip, l1, ido, j, k, i, r);
      SumEq(m => StepTerm(a, w, ip, l1, ido, k, ip * r + j)(m, i), m => s(m, i), ip);
    }
    StepOuter(a, w, ip, l1, ido, k, ip * r + j);
    SumSwap(s, g, h, ip, ido);
    SumEq(m => Sum(i => StepTerm(a, w, ip, l1, ido, k, ip * r + j)(m, i), ido), g, ip);
  }

  lemma BlockIndex(q: nat, l1: nat, ip: nat, r: nat, ido: nat)
    requires l1 > 0 && q < ip * l1 && r < ido
    ensures 0 <= q / l1 < ip && 0 <= q % l1 < l1 && q == (q / l1) * l1 + q % l1
    ensures 0 <= ip * r + q / l1 < ip * ido
    ensures l1 * (ip * r + q / l1) + q % l1 == (ip * l1) * r + q
  {
    var j := q / l1;
    assert q == j * l1 + q % l1;
    assert j < ip by { if j >= ip { MulLe(ip, j, l1); assert false; } }
    assert ip * r + ip <= ip * ido by { assert ip * (r + 1) <= ip * ido; }
    assert l1 * (ip * r + j) == (ip * l1) * r + j * l1;
  }

  lemma PassKeepsRow(a: seq<Complex>, b: seq<Complex>, x: seq<Complex>, w: Complex, ip: nat, l1: nat, ido: nat,
                     q: nat, r: nat)
    requires l1 > 0 && q < ip * l1 && r < ido
    requires Rows(a, x, w, l1, ip * ido) && IsPass(a, b, w, ip, l1, ido) && Pow(w, ip * l1 * ido) == ONE
    ensures RowDft(b, w, l1 * ip, ido, q, r) == Coefficient(x, w, (ip * l1) * r + q)
  {
    hide Mul, Add, Pow, Tw, PassValue, RowDft, Coefficient, IsPass;
    BlockIndex(q, l1, ip, r, ido);
    StepRow(a, b, w, ip, l1, ido, q / l1, q % l1, r);
  }

  /** A pass keeps the row form, with `ip` times as many rows. */
  lemma PassKeepsRows(a: seq<Complex>, b: seq<Complex>, x: seq<Complex>, w: Complex, ip: nat, l1: nat, ido: nat)
    requires l1 > 0
    requires Rows(a, x, w, l1, ip * ido) && IsPass(a, b, w, ip, l1, ido) && Pow(w, |x|) == ONE
    ensures Rows(b, x, w, l1 * ip, ido)
  {
    hide Mul, Add, Pow, Tw, PassValue, RowDft, Coefficient;
    LengthIs(ip, l1, ido);
    forall q, r | 0 <= q < l1 * ip && 0 <= r < ido
      ensures RowDft(b, w, l1 * ip, ido, q, r) == Coefficient(x, w, (l1 * ip) * r + q)
    {
      PassKeepsRow(a, b, x, w, ip, l1, ido, q, r);
    }
  }

  lemma LengthIs(ip: nat, l1: nat, ido: nat)
    ensures l1 * (ip * ido) == ip * l1 * ido == (l1 * ip) * ido && ip * l1 == l1 * ip
  {}

  /* ---------- A pass as a function on arrays ---------- */

  /** Block, row and column of position `o` after a pass. */
  function BlockOf(l1: nat, ido: nat, o: nat): nat requires l1 > 0 && ido > 0 { (o / ido) / l1 }

  function RowOf(l1: nat, ido: nat, o: nat): nat requires l1 > 0 && ido > 0 { (o / ido) % l1 }

  function ColumnOf(ido: nat, o: nat): nat requires ido > 0 { o % ido }

  function Pass(a: seq<Complex>, w: Complex, ip: nat, l1: nat, ido: nat): (b: seq<Complex>)
    requires l1 > 0 && ido > 0
    ensures |b| == |a|
  {
    seq(|a|, (o: int) requires o >= 0 =>
      PassValue(a, w, ip, l1, ido, BlockOf(l1, ido, o), RowOf(l1, ido, o), ColumnOf(ido, o)))
  }

  lemma CellCoordinates(l1: nat, ido: nat, j: nat, k: nat, i: nat)
    requires k < l1 && i < ido
    ensures Cell(l1, ido, j, k, i) >= 0
    ensures var o := Cell(l1, ido, j, k, i);
            BlockOf(l1, ido, o) == j && RowOf(l1, ido, o) == k && ColumnOf(ido, o) == i
  {
    DivMod(i, ido, j * l1 + k);
    DivMod(k, l1, j);
  }

  lemma CoordinatesCell(ip: nat, l1: nat, ido: nat, o: nat)
    requires l1 > 0 && ido > 0 && o < ip * l1 * ido
    ensures BlockOf(l1, ido, o) < ip && RowOf(l1, ido, o) < l1 && ColumnOf(ido, o) < ido
    ensures Cell(l1, ido, BlockOf(l1, ido, o), RowOf(l1, ido, o), ColumnOf(ido, o)) == o
  {
    var q := o / ido;
    assert o == q * ido + o % ido;
    QuotientBound(o, ip * l1, ido);
    assert q == (q / l1) * l1 + q % l1;
    QuotientBound(q, ip, l1);
  }

  lemma CellBound(ip: nat, l1: nat, ido: nat, j: nat, k: nat, i: nat)
    requires j < ip && k < l1 && i < ido
    ensures 0 <= Cell(l1, ido, j, k, i) < ip * l1 * ido
  {
    MulLe(j + 1, ip, l1);
    assert j * l1 + k + 1 <= ip * l1;
    MulLe(j * l1 + k + 1, ip * l1, ido);
    assert (j * l1 + k + 1) * ido == (j * l1 + k) * ido + ido;
  }

  lemma PassIsPass(a: seq<Complex>, w: Complex, ip: nat, l1: nat, ido: nat)
    requires l1 > 0 && ido > 0 && |a| == ip * l1 * ido
    ensures IsPass(a, Pass(a, w, ip, l1, ido), w, ip, l1, ido)
  {
    hide Mul, Add, Pow, Tw, PassValue;
    forall j, k, i | 0 <= j < ip && 0 <= k < l1 && 0 <= i < ido
      ensures At(Pass(a, w, ip, l1, ido), Cell(l1, ido, j, k, i)) == PassValue(a, w, ip, l1, ido, j, k, i)
    {
      CellBound(ip, l1, ido, j, k, i);
      CellCoordinates(l1, ido, j, k, i);
    }
  }
}
