/** The passes and drivers of libfaad/cfft.c on arrays. */
module Cfft {
  import opened Arithmetic
  import opened Complexes
  import opened Dft
  import opened CfftButterflies
  import opened CfftPasses

  /** `b` agrees with `spec` on the columns stored before column `i` of row `row`. */
  ghost predicate Stored(b: seq<Complex>, spec: seq<Complex>, l1: nat, ido: nat, row: nat, i: nat)
    requires l1 > 0 && ido > 0 && |spec| <= |b|
  {
    forall o: nat | o < |spec| && (RowOf(l1, ido, o) < row || (RowOf(l1, ido, o) == row && ColumnOf(ido, o) < i)) ::
      b[o] == spec[o]
  }

  /** `c` is `b` with the cells of column (row, i) overwritten by those of `spec`. */
  ghost predicate ColumnWritten(b: seq<Complex>, c: seq<Complex>, spec: seq<Complex>,
                                ip: nat, l1: nat, ido: nat, row: nat, i: nat)
    requires l1 > 0 && ido > 0 && |spec| <= |b|
  {
    && |c| == |b|
    && (forall o: nat | o < |spec| && !(RowOf(l1, ido, o) == row && ColumnOf(ido, o) == i) :: c[o] == b[o])
    && (forall j: nat | j < ip :: At(c, Cell(l1, ido, j, row, i)) == At(spec, Cell(l1, ido, j, row, i)))
  }

  lemma StoreColumn(b: seq<Complex>, c: seq<Complex>, spec: seq<Complex>, ip: nat, l1: nat, ido: nat, row: nat, i: nat)
    requires l1 > 0 && ido > 0 && |spec| == ip * l1 * ido <= |b| && row < l1 && i < ido
    requires Stored(b, spec, l1, ido, row, i) && ColumnWritten(b, c, spec, ip, l1, ido, row, i)
    ensures Stored(c, spec, l1, ido, row, i + 1)
    ensures i + 1 == ido ==> Stored(c, spec, l1, ido, row + 1, 0)
  {
    forall o: nat | o < |spec| && RowOf(l1, ido, o) == row && ColumnOf(ido, o) == i
      ensures c[o] == spec[o]
    {
      CoordinatesCell(ip, l1, ido, o);
      assert At(c, Cell(l1, ido, BlockOf(l1, ido, o), row, i)) == At(spec, Cell(l1, ido, BlockOf(l1, ido, o), row, i));
    }
    assert Stored(c, spec, l1, ido, row, i + 1);
    if i + 1 == ido {
      forall o: nat | o < |spec|
        ensures ColumnOf(ido, o) < ido
      {
        CoordinatesCell(ip, l1, ido, o);
      }
    }
  }

  lemma AllStored(b: seq<Complex>, spec: seq<Complex>, ip: nat, l1: nat, ido: nat)
    requires l1 > 0 && ido > 0 && |spec| == ip * l1 * ido <= |b| && Stored(b, spec, l1, ido, l1, 0)
    ensures b[..|spec|] == spec
  {
    forall o: nat | o < |spec|
      ensures b[o] == spec[o]
    {
      CoordinatesCell(ip, l1, ido, o);
    }
  }

  /** The cells a column is stored to, and that no other column uses them. */
  lemma Cells(ip: nat, l1: nat, ido: nat, row: nat, i: nat)
    requires row < l1 && i < ido
    ensures forall j: nat | j < ip ::
              && 0 <= Cell(l1, ido, j, row, i) < ip * l1 * ido
              && RowOf(l1, ido, Cell(l1, ido, j, row, i)) == row
              && ColumnOf(ido, Cell(l1, ido, j, row, i)) == i
              && BlockOf(l1, ido, Cell(l1, ido, j, row, i)) == j
  {
    forall j: nat | j < ip
      ensures 0 <= Cell(l1, ido, j, row, i) < ip * l1 * ido
      ensures BlockOf(l1, ido, Cell(l1, ido, j, row, i)) == j && RowOf(l1, ido, Cell(l1, ido, j, row, i)) == row
      ensures ColumnOf(ido, Cell(l1, ido, j, row, i)) == i
    {
      CellBound(ip, l1, ido, j, row, i);
      CellCoordinates(l1, ido, j, row, i);
    }
  }

  /** The twiddle tables of a pass: `wa[iw + (j-1)*ido + i]` is w^(i*j*l1). */
  ghost predicate Twiddles(wa: seq<Complex>, iw: nat, w: Complex, ip: nat, l1: nat, ido: nat) {
    forall j: nat, i: nat | 1 <= j < ip && i < ido :: At(wa, Tix(iw, ido, i, j)) == Tw(w, i * j * l1)
  }

  lemma TwiddleOne(isign: int, d: Complex, w: Complex)
    ensures Twiddle(isign, d, Tw(w, 0)) == d
  {
    hide Twiddle, Mul, Pow, Signed;
    PowZero(w);
    SignedOne(isign);
    TwiddleIsMul(isign, d, ONE);
    MulOne(d);
  }

  lemma SignedOne(isign: int)
    ensures Signed(isign, ONE) == ONE
  {}

  ghost predicate PassReady(isign: int, w: Complex, k: Consts, ip: nat, l1: nat, ido: nat, cc: array<Complex>,
                            ch: array<Complex>, wa: seq<Complex>, iw: nat) {
    && Radix(ip) && (isign == 1 || isign == -1)
    && l1 > 0 && ido > 0 && cc != ch
    && ip * l1 * ido <= cc.Length && ip * l1 * ido <= ch.Length
    && UnitRoot(w, ip * l1 * ido, k)
    && (ido != 1 ==> iw + (ip - 1) * ido <= |wa| && Twiddles(wa, iw, w, ip, l1, ido))
  }

  /** Position of the m-th element that column (row, i) combines. */
  function Src(ip: nat, ido: nat, row: nat, i: nat, m: nat): int { (row * ip + m) * ido + i }

  /** The index expressions of the passes, resolved. */
  lemma Indices(ip: nat, l1: nat, ido: nat, row: nat, i: nat)
    requires row < l1 && i < ido
    ensures forall m: nat | m < ip :: 0 <= Src(ip, ido, row, i, m) < ip * l1 * ido
    ensures var ac := ip * row * ido + i;
            && ac == Src(ip, ido, row, i, 0) && ac + ido == Src(ip, ido, row, i, 1)
            && ac + 2 * ido == Src(ip, ido, row, i, 2) && ac + 3 * ido == Src(ip, ido, row, i, 3)
            && ac + 4 * ido == Src(ip, ido, row, i, 4)
    ensures var ah := row * ido + i;
            && ah == Cell(l1, ido, 0, row, i) && ah + l1 * ido == Cell(l1, ido, 1, row, i)
            && ah + 2 * (l1 * ido) == Cell(l1, ido, 2, row, i) && ah + 3 * (l1 * ido) == Cell(l1, ido, 3, row, i)
            && ah + 4 * (l1 * ido) == Cell(l1, ido, 4, row, i)
  {
    forall m: nat | m < ip
      ensures 0 <= Src(ip, ido, row, i, m) < ip * l1 * ido
    {
      InputBound(ip, l1, ido, row, i, m);
    }
  }

  /** The butterflies of the code, applied to the elements it reads, are the outputs of the column. */
  lemma Outputs2(isign: int, k: Consts, a: seq<Complex>, ido: nat, row: nat, i: nat)
    requires forall m: nat | m < 2 :: 0 <= Src(2, ido, row, i, m) < |a|
    ensures var f := Fly2(a[Src(2, ido, row, i, 0)], a[Src(2, ido, row, i, 1)]);
            Output(isign, k, a, 2, ido, row, i, 0) == f.0 && Output(isign, k, a, 2, ido, row, i, 1) == f.1
  {
    hide Fly2;
  }

  lemma Outputs3(isign: int, k: Consts, a: seq<Complex>, ido: nat, row: nat, i: nat)
    requires forall m: nat | m < 3 :: 0 <= Src(3, ido, row, i, m) < |a|
    ensures var f := Fly3(isign, k, a[Src(3, ido, row, i, 0)], a[Src(3, ido, row, i, 1)], a[Src(3, ido, row, i, 2)]);
            && Output(isign, k, a, 3, ido, row, i, 0) == f.0 && Output(isign, k, a, 3, ido, row, i, 1) == f.1
            && Output(isign, k, a, 3, ido, row, i, 2) == f.2
  {
    hide Fly3;
  }

  lemma Outputs4(isign: int, k: Consts, a: seq<Complex>, ido: nat, row: nat, i: nat)
    requires forall m: nat | m < 4 :: 0 <= Src(4, ido, row, i, m) < |a|
    ensures var f := Fly4(isign, a[Src(4, ido, row, i, 0)], a[Src(4, ido, row, i, 1)],
                          a[Src(4, ido, row, i, 2)], a[Src(4, ido, row, i, 3)]);
            && Output(isign, k, a, 4, ido, row, i, 0) == f.0 && Output(isign, k, a, 4, ido, row, i, 1) == f.1
            && Output(isign, k, a, 4, ido, row, i, 2) == f.2 && Output(isign, k, a, 4, ido, row, i, 3) == f.3
  {
    hide Fly4;
  }

  lemma Outputs5(isign: int, k: Consts, a: seq<Complex>, ido: nat, row: nat, i: nat)
    requires forall m: nat | m < 5 :: 0 <= Src(5, ido, row, i, m) < |a|
    ensures var f := Fly5(isign, k, a[Src(5, ido, row, i, 0)], a[Src(5, ido, row, i, 1)],
                          a[Src(5, ido, row, i, 2)], a[Src(5, ido, row, i, 3)], a[Src(5, ido, row, i, 4)]);
            && Output(isign, k, a, 5, ido, row, i, 0) == f.0 && Output(isign, k, a, 5, ido, row, i, 1) == f.1
            && Output(isign, k, a, 5, ido, row, i, 2) == f.2 && Output(isign, k, a, 5, ido, row, i, 3) == f.3
            && Output(isign, k, a, 5, ido, row, i, 4) == f.4
  {
    hide Fly5;
  }

  /** Where the twiddle of output `j` is. */
  function Tix(iw: nat, ido: nat, i: nat, j: nat): int { iw + (j - 1) * ido + i }

  lemma TableIndices(iw: nat, ip: nat, ido: nat, i: nat)
    requires i < ido
    ensures Tix(iw, ido, i, 1) == iw + i && Tix(iw, ido, i, 2) == iw + ido + i
    ensures Tix(iw, ido, i, 3) == iw + 2 * ido + i && Tix(iw, ido, i, 4) == iw + 3 * ido + i
    ensures forall j: nat | 1 <= j < ip :: iw <= Tix(iw, ido, i, j) < iw + (ip - 1) * ido
  {
    forall j: nat | 1 <= j < ip
      ensures iw <= Tix(iw, ido, i, j) < iw + (ip - 1) * ido
    {
      MulStep(j - 1, ip - 1, ido);
    }
  }

  lemma NothingStored(b: seq<Complex>, spec: seq<Complex>, l1: nat, ido: nat)
    requires l1 > 0 && ido > 0 && |spec| <= |b|
    ensures Stored(b, spec, l1, ido, 0, 0)
  {}

  /** Output `j` of column (row, i), with the factor the code multiplies it by: none for ido == 1. */
  function Turned(isign: int, k: Consts, a: seq<Complex>, ip: nat, ido: nat, row: int, i: int, j: nat,
                  t: Complex): Complex {
    var v := Output(isign, k, a, ip, ido, row, i, j);
    if ido == 1 || j == 0 then v else Twiddle(isign, v, t)
  }

  /** Storing the turned outputs writes one column of the pass. */
  lemma ColumnDone(isign: int, w: Complex, k: Consts, a: seq<Complex>, b: seq<Complex>, c: seq<Complex>,
                   wa: seq<Complex>, iw: nat, ip: nat, l1: nat, ido: nat, row: nat, i: nat)
    requires Radix(ip) && (isign == 1 || isign == -1) && UnitRoot(w, ip * l1 * ido, k)
    requires i < ido && row < l1 && |a| == ip * l1 * ido <= |b| == |c|
    requires ido != 1 ==> Twiddles(wa, iw, w, ip, l1, ido)
    requires forall o: nat | o < |b| && !(exists j: nat :: j < ip && o == Cell(l1, ido, j, row, i)) :: c[o] == b[o]
    requires forall j: nat | j < ip ::
               At(c, Cell(l1, ido, j, row, i)) == Turned(isign, k, a, ip, ido, row, i, j, At(wa, Tix(iw, ido, i, j)))
    ensures ColumnWritten(b, c, PassOf(isign, w, a, ip, l1, ido), ip, l1, ido, row, i)
  {
    hide PassOf, UnitRoot, Twiddle, Cell, RowOf, ColumnOf, BlockOf, Tw, Tix, Output, Twiddles;
    var spec := PassOf(isign, w, a, ip, l1, ido);
    Cells(ip, l1, ido, row, i);
    forall j: nat | j < ip
      ensures At(c, Cell(l1, ido, j, row, i)) == At(spec, Cell(l1, ido, j, row, i))
    {
      StoredColumn(isign, w, k, a, ip, l1, ido, row, i, j);
      TwiddleAt(isign, Output(isign, k, a, ip, ido, row, i, j), wa, iw, w, ip, l1, ido, i, j);
    }
  }

  /** The factor of output `j` is the one the table holds, and ONE where the code leaves it out. */
  lemma TwiddleAt(isign: int, d: Complex, wa: seq<Complex>, iw: nat, w: Complex, ip: nat, l1: nat, ido: nat, i: nat,
                  j: nat)
    requires j < ip && i < ido && (ido != 1 ==> Twiddles(wa, iw, w, ip, l1, ido))
    ensures Twiddle(isign, d, Tw(w, i * j * l1))
         == if ido == 1 || j == 0 then d else Twiddle(isign, d, At(wa, Tix(iw, ido, i, j)))
  {
    hide Tw, Twiddle;
    if ido == 1 || j == 0 {
      assert i * j * l1 == 0;
      TwiddleOne(isign, d, w);
    }
  }

  method Column2(isign: int, ido: nat, l1: nat, row: nat, i: nat, cc: array<Complex>, ch: array<Complex>,
                 wa: seq<Complex>, iw: nat, k: Consts, ghost w: Complex)
    requires PassReady(isign, w, k, 2, l1, ido, cc, ch, wa, iw) && row < l1 && i < ido
    requires ido == 1 ==> l1 == 1
    modifies ch
    ensures ColumnWritten(old(ch[..]), ch[..], PassOf(isign, w, cc[..2 * l1 * ido], 2, l1, ido), 2, l1, ido, row, i)
  {
    hide PassOf, UnitRoot, Twiddle, Cell, Src, Fly2, RowOf, ColumnOf, BlockOf, Tw, Tix, Output, Twiddles;
    ghost var a := cc[..2 * l1 * ido];
    Indices(2, l1, ido, row, i);
    Cells(2, l1, ido, row, i);
    Outputs2(isign, k, a, ido, row, i);
    TableIndices(iw, 2, ido, i);
    if ido == 1 {
      var ah, ac := 2 * row, 4 * row;
      var f := Fly2(cc[ac], cc[ac + 1]);
      ch[ah] := f.0;
      ch[ah + l1] := f.1;
    } else {
      var ah, ac := row * ido, 2 * row * ido;
      var f := Fly2(cc[ac + i], cc[ac + i + ido]);
      ch[ah + i] := f.0;
      ch[ah + i + l1 * ido] := Twiddle(isign, f.1, wa[iw + i]);
    }
    ColumnDone(isign, w, k, a, old(ch[..]), ch[..], wa, iw, 2, l1, ido, row, i);
  }

  method Column3(isign: int, ido: nat, l1: nat, row: nat, i: nat, cc: array<Complex>, ch: array<Complex>,
                 wa: seq<Complex>, iw: nat, k: Consts, ghost w: Complex)
    requires PassReady(isign, w, k, 3, l1, ido, cc, ch, wa, iw) && row < l1 && i < ido
    modifies ch
    ensures ColumnWritten(old(ch[..]), ch[..], PassOf(isign, w, cc[..3 * l1 * ido], 3, l1, ido), 3, l1, ido, row, i)
  {
    hide PassOf, UnitRoot, Twiddle, Cell, Src, Fly3, RowOf, ColumnOf, BlockOf, Tw, Tix, Output, Twiddles;
    ghost var a := cc[..3 * l1 * ido];
    Indices(3, l1, ido, row, i);
    Cells(3, l1, ido, row, i);
    Outputs3(isign, k, a, ido, row, i);
    TableIndices(iw, 3, ido, i);
    var ac, ah := i + (3 * row + 1) * ido, i + row * ido;
    var f := Fly3(isign, k, cc[ac - ido], cc[ac], cc[ac + ido]);
    ch[ah] := f.0;
    if ido == 1 {
      ch[ah + l1] := f.1;
      ch[ah + 2 * l1] := f.2;
    } else {
      ch[ah + l1 * ido] := Twiddle(isign, f.1, wa[iw + i]);
      ch[ah + 2 * (l1 * ido)] := Twiddle(isign, f.2, wa[iw + ido + i]);
    }
    ColumnDone(isign, w, k, a, old(ch[..]), ch[..], wa, iw, 3, l1, ido, row, i);
  }

  method Store4(ch: array<Complex>, ghost n: nat, ghost l1: nat, ghost ido: nat, ghost row: nat, ghost i: nat,
                o0: nat, o1: nat, o2: nat, o3: nat, v0: Complex, v1: Complex, v2: Complex, v3: Complex)
    requires row < l1 && i < ido && n == 4 * l1 * ido <= ch.Length
    requires o0 == Cell(l1, ido, 0, row, i) && o1 == Cell(l1, ido, 1, row, i)
    requires o2 == Cell(l1, ido, 2, row, i) && o3 == Cell(l1, ido, 3, row, i)
    modifies ch
    ensures forall o: nat | o < ch.Length && !(exists j: nat :: j < 4 && o == Cell(l1, ido, j, row, i)) ::
              ch[..][o] == old(ch[..])[o]
    ensures At(ch[..], o0) == v0 && At(ch[..], o1) == v1 && At(ch[..], o2) == v2 && At(ch[..], o3) == v3
  {
    hide Cell, RowOf, ColumnOf, BlockOf;
    Cells(4, l1, ido, row, i);
    ch[o0] := v0;
    ch[o1] := v1;
    ch[o2] := v2;
    ch[o3] := v3;
  }

  method Column4(isign: int, ido: nat, l1: nat, row: nat, i: nat, cc: array<Complex>, ch: array<Complex>,
                 wa: seq<Complex>, iw: nat, k: Consts, ghost w: Complex)
    requires PassReady(isign, w, k, 4, l1, ido, cc, ch, wa, iw) && row < l1 && i < ido
    modifies ch
    ensures ColumnWritten(old(ch[..]), ch[..], PassOf(isign, w, cc[..4 * l1 * ido], 4, l1, ido), 4, l1, ido, row, i)
  {
    hide PassOf, UnitRoot, Twiddle, Cell, Src, Fly4, RowOf, ColumnOf, BlockOf, Tw, Tix, Output, Twiddles;
    ghost var a := cc[..4 * l1 * ido];
    Indices(4, l1, ido, row, i);
    Cells(4, l1, ido, row, i);
    Outputs4(isign, k, a, ido, row, i);
    TableIndices(iw, 4, ido, i);
    var ac, ah := 4 * row * ido, row * ido;
    var f := Fly4(isign, cc[ac + i], cc[ac + i + ido], cc[ac + i + 2 * ido], cc[ac + i + 3 * ido]);
    var v1, v2, v3 := f.1, f.2, f.3;
    if ido != 1 {
      v1 := Twiddle(isign, v1, wa[iw + i]);
      v2 := Twiddle(isign, v2, wa[iw + ido + i]);
      v3 := Twiddle(isign, v3, wa[iw + 2 * ido + i]);
    }
    Store4(ch, 4 * l1 * ido, l1, ido, row, i, ah + i, ah + i + l1 * ido, ah + i + 2 * (l1 * ido),
           ah + i + 3 * (l1 * ido), f.0, v1, v2, v3);
    ColumnDone(isign, w, k, a, old(ch[..]), ch[..], wa, iw, 4, l1, ido, row, i);
  }

  /**
    What the loop body of passf5 stores for column (row, i), from the elements at
    s0..s4 and the twiddles at t1..t4.
   */
  method Values5(isign: int, ido: nat, ghost n: nat, ghost row: nat, ghost i: nat, s0: nat, s1: nat, s2: nat, s3: nat,
                 s4: nat, t1: nat, t2: nat, t3: nat, t4: nat, cc: array<Complex>, wa: seq<Complex>, k: Consts)
    returns (v0: Complex, v1: Complex, v2: Complex, v3: Complex, v4: Complex)
    requires s0 == Src(5, ido, row, i, 0) && s1 == Src(5, ido, row, i, 1) && s2 == Src(5, ido, row, i, 2)
    requires s3 == Src(5, ido, row, i, 3) && s4 == Src(5, ido, row, i, 4)
    requires s0 < n && s1 < n && s2 < n && s3 < n && s4 < n <= cc.Length
    requires ido != 1 ==> t1 < |wa| && t2 < |wa| && t3 < |wa| && t4 < |wa|
    ensures var a := cc[..n];
            && v0 == Turned(isign, k, a, 5, ido, row, i, 0, ZERO)
            && v1 == Turned(isign, k, a, 5, ido, row, i, 1, At(wa, t1))
            && v2 == Turned(isign, k, a, 5, ido, row, i, 2, At(wa, t2))
            && v3 == Turned(isign, k, a, 5, ido, row, i, 3, At(wa, t3))
            && v4 == Turned(isign, k, a, 5, ido, row, i, 4, At(wa, t4))
  {
    hide Twiddle, Src, Fly5, Output;
    ghost var a := cc[..n];
    Outputs5(isign, k, a, ido, row, i);
    var f := Fly5(isign, k, cc[s0], cc[s1], cc[s2], cc[s3], cc[s4]);
    v0, v1, v2, v3, v4 := f.0, f.1, f.2, f.3, f.4;
    if ido != 1 {
      v1 := Twiddle(isign, v1, wa[t1]);
      v2 := Twiddle(isign, v2, wa[t2]);
      v3 := Twiddle(isign, v3, wa[t3]);
      v4 := Twiddle(isign, v4, wa[t4]);
    }
  }

  method Store5(ch: array<Complex>, ghost n: nat, ghost l1: nat, ghost ido: nat, ghost row: nat, ghost i: nat,
                o0: nat, o1: nat, o2: nat, o3: nat, o4: nat,
                v0: Complex, v1: Complex, v2: Complex, v3: Complex, v4: Complex)
    requires row < l1 && i < ido && n == 5 * l1 * ido <= ch.Length
    requires o0 == Cell(l1, ido, 0, row, i) && o1 == Cell(l1, ido, 1, row, i) && o2 == Cell(l1, ido, 2, row, i)
    requires o3 == Cell(l1, ido, 3, row, i) && o4 == Cell(l1, ido, 4, row, i)
    modifies ch
    ensures forall o: nat | o < ch.Length && !(exists j: nat :: j < 5 && o == Cell(l1, ido, j, row, i)) ::
              ch[..][o] == old(ch[..])[o]
    ensures At(ch[..], o0) == v0 && At(ch[..], o1) == v1 && At(ch[..], o2) == v2
    ensures At(ch[..], o3) == v3 && At(ch[..], o4) == v4
  {
    hide Cell, RowOf, ColumnOf, BlockOf;
    Cells(5, l1, ido, row, i);
    ch[o0] := v0;
    ch[o1] := v1;
    ch[o2] := v2;
    ch[o3] := v3;
    ch[o4] := v4;
  }

  method Column5(isign: int, ido: nat, l1: nat, row: nat, i: nat, cc: array<Complex>, ch: array<Complex>,
                 wa: seq<Complex>, iw: nat, k: Consts, ghost w: Complex)
    requires PassReady(isign, w, k, 5, l1, ido, cc, ch, wa, iw) && row < l1 && i < ido
    modifies ch
    ensures ColumnWritten(old(ch[..]), ch[..], PassOf(isign, w, cc[..5 * l1 * ido], 5, l1, ido), 5, l1, ido, row, i)
  {
    hide PassOf, UnitRoot, Twiddle, Cell, Src, Fly5, RowOf, ColumnOf, BlockOf, Tw, Tix, Output, Twiddles;
    ghost var a := cc[..5 * l1 * ido];
    Indices(5, l1, ido, row, i);
    Cells(5, l1, ido, row, i);
    TableIndices(iw, 5, ido, i);
    var ac, ah := i + (row * 5 + 1) * ido, i + row * ido;
    var v0, v1, v2, v3, v4 := Values5(isign, ido, 5 * l1 * ido, row, i, ac - ido, ac, ac + ido, ac + 2 * ido,
                                      ac + 3 * ido,
                                      iw + i, iw + ido + i, iw + 2 * ido + i, iw + 3 * ido + i, cc, wa, k);
    Store5(ch, 5 * l1 * ido, l1, ido, row, i, ah, ah + l1 * ido, ah + 2 * (l1 * ido), ah + 3 * (l1 * ido),
           ah + 4 * (l1 * ido),
           v0, v1, v2, v3, v4);
    ColumnDone(isign, w, k, a, old(ch[..]), ch[..], wa, iw, 5, l1, ido, row, i);
  }

  /** The loops the passes share, with the body for the radix at hand. */
  method Passf(isign: int, ip: nat, ido: nat, l1: nat, cc: array<Complex>, ch: array<Complex>,
               wa: seq<Complex>, iw: nat, k: Consts, ghost w: Complex)
    requires PassReady(isign, w, k, ip, l1, ido, cc, ch, wa, iw)
    requires ip == 2 && ido == 1 ==> l1 == 1
    modifies ch
    ensures ch[..ip * l1 * ido] == PassOf(isign, w, cc[..ip * l1 * ido], ip, l1, ido)
  {
    hide PassOf, UnitRoot, RowOf, ColumnOf, BlockOf, Stored, ColumnWritten, Twiddles;
    ghost var a := cc[..ip * l1 * ido];
    ghost var spec := PassOf(isign, w, a, ip, l1, ido);
    var row := 0;
    NothingStored(ch[..], spec, l1, ido);
    while row < l1
      invariant row <= l1 && cc[..ip * l1 * ido] == a
      invariant Stored(ch[..], spec, l1, ido, row, 0)
    {
      var i := 0;
      while i < ido
        invariant i <= ido && cc[..ip * l1 * ido] == a
        invariant Stored(ch[..], spec, l1, ido, row, i)
        invariant i == ido ==> Stored(ch[..], spec, l1, ido, row + 1, 0)
      {
        ghost var b := ch[..];
        if ip == 2 {
          Column2(isign, ido, l1, row, i, cc, ch, wa, iw, k, w);
        } else if ip == 3 {
          Column3(isign, ido, l1, row, i, cc, ch, wa, iw, k, w);
        } else if ip == 4 {
          Column4(isign, ido, l1, row, i, cc, ch, wa, iw, k, w);
        } else {
          Column5(isign, ido, l1, row, i, cc, ch, wa, iw, k, w);
        }
        StoreColumn(b, ch[..], spec, ip, l1, ido, row, i);
        i := i + 1;
      }
      row := row + 1;
    }
    AllStored(ch[..], spec, ip, l1, ido);
    assert ch[..][..|spec|] == ch[..|spec|];
  }
}
