/** `ifilter_bank` and `filter_bank_ltp` of libfaad/filtbank.c on arrays. */
module FilterBank {
  import opened Arithmetic
  import opened Complexes
  import opened Dft
  import opened CfftDriver
  import opened Mdct
  import opened MdctInfo
  import opened FilterBankSpec

  /* ---------- The loops of the long sequences ---------- */

  /** time_out of ONLY_LONG and LONG_START. */
  method AddLong(h: nat, y: array<real>, overlap: array<real>, slope: seq<real>, out: array<real>)
    requires y.Length >= 32 * h && overlap.Length == out.Length == 16 * h == |slope|
    requires out != y && out != overlap
    modifies out
    ensures forall t | 0 <= t < 16 * h :: out[t] == overlap[t] + Times(y[t], slope[t])
  {
    hide Times;
    var i := 0;
    while i < 16 * h
      invariant 0 <= i <= 16 * h && i % 4 == 0
      invariant forall t | 0 <= t < i :: out[t] == overlap[t] + Times(y[t], slope[t])
    {
      out[i] := overlap[i] + Times(y[i], slope[i]);
      out[i + 1] := overlap[i + 1] + Times(y[i + 1], slope[i + 1]);
      out[i + 2] := overlap[i + 2] + Times(y[i + 2], slope[i + 2]);
      out[i + 3] := overlap[i + 3] + Times(y[i + 3], slope[i + 3]);
      i := i + 4;
    }
  }

  /** overlap of ONLY_LONG. */
  method SaveLong(h: nat, y: array<real>, slope: seq<real>, overlap: array<real>)
    requires y.Length >= 32 * h && overlap.Length == 16 * h == |slope| && overlap != y
    modifies overlap
    ensures forall t | 0 <= t < 16 * h :: overlap[t] == Times(y[16 * h + t], slope[16 * h - 1 - t])
  {
    hide Times;
    var n, i := 16 * h, 0;
    while i < n
      invariant 0 <= i <= n && i % 4 == 0
      invariant forall t | 0 <= t < i :: overlap[t] == Times(y[n + t], slope[n - 1 - t])
    {
      overlap[i] := Times(y[n + i], slope[n - 1 - i]);
      overlap[i + 1] := Times(y[n + i + 1], slope[n - 2 - i]);
      overlap[i + 2] := Times(y[n + i + 2], slope[n - 3 - i]);
      overlap[i + 3] := Times(y[n + i + 3], slope[n - 4 - i]);
      i := i + 4;
    }
  }

  /** overlap of LONG_START: flat, short slope, zero. */
  method SaveStart(h: nat, y: array<real>, short: seq<real>, overlap: array<real>)
    requires y.Length >= 32 * h && overlap.Length == 16 * h && |short| == 2 * h && overlap != y
    modifies overlap
    ensures forall t | 0 <= t < 16 * h :: overlap[t] ==
              if t < 7 * h then y[16 * h + t]
              else if t < 9 * h then Times(y[16 * h + t], short[2 * h - 1 - (t - 7 * h)]) else 0.0
  {
    hide Times;
    var nlong, nshort, nflat, i := 16 * h, 2 * h, 7 * h, 0;
    while i < nflat
      invariant 0 <= i <= nflat
      invariant forall t | 0 <= t < i :: overlap[t] == y[nlong + t]
    {
      overlap[i] := y[nlong + i];
      i := i + 1;
    }
    i := 0;
    while i < nshort
      invariant 0 <= i <= nshort
      invariant forall t | 0 <= t < nflat :: overlap[t] == y[nlong + t]
      invariant forall t | nflat <= t < nflat + i :: overlap[t] == Times(y[nlong + t], short[nshort - 1 - (t - nflat)])
    {
      overlap[nflat + i] := Times(y[nlong + nflat + i], short[nshort - i - 1]);
      i := i + 1;
    }
    i := 0;
    while i < nflat
      invariant 0 <= i <= nflat
      invariant forall t | 0 <= t < nflat :: overlap[t] == y[nlong + t]
      invariant forall t | nflat <= t < 9 * h :: overlap[t] == Times(y[nlong + t], short[nshort - 1 - (t - nflat)])
      invariant forall t | 9 * h <= t < 9 * h + i :: overlap[t] == 0.0
    {
      overlap[nflat + nshort + i] := 0.0;
      i := i + 1;
    }
  }

  /** time_out of LONG_STOP: zero, short slope, flat. */
  method AddStop(h: nat, y: array<real>, overlap: array<real>, short: seq<real>, out: array<real>)
    requires y.Length >= 32 * h && overlap.Length == out.Length == 16 * h && |short| == 2 * h
    requires out != y && out != overlap
    modifies out
    ensures forall t | 0 <= t < 16 * h :: out[t] ==
              if t < 7 * h then overlap[t]
              else if t < 9 * h then overlap[t] + Times(y[t], short[t - 7 * h]) else overlap[t] + y[t]
  {
    hide Times;
    var nshort, nflat, i := 2 * h, 7 * h, 0;
    while i < nflat
      invariant 0 <= i <= nflat
      invariant forall t | 0 <= t < i :: out[t] == overlap[t]
    {
      out[i] := overlap[i];
      i := i + 1;
    }
    i := 0;
    while i < nshort
      invariant 0 <= i <= nshort
      invariant forall t | 0 <= t < nflat :: out[t] == overlap[t]
      invariant forall t | nflat <= t < nflat + i :: out[t] == overlap[t] + Times(y[t], short[t - nflat])
    {
      out[nflat + i] := overlap[nflat + i] + Times(y[nflat + i], short[i]);
      i := i + 1;
    }
    i := 0;
    while i < nflat
      invariant 0 <= i <= nflat
      invariant forall t | 0 <= t < nflat :: out[t] == overlap[t]
      invariant forall t | nflat <= t < 9 * h :: out[t] == overlap[t] + Times(y[t], short[t - nflat])
      invariant forall t | 9 * h <= t < 9 * h + i :: out[t] == overlap[t] + y[t]
    {
      out[nflat + nshort + i] := overlap[nflat + nshort + i] + y[nflat + nshort + i];
      i := i + 1;
    }
  }

  /* ---------- The loops of EIGHT_SHORT ---------- */

  /** The eight windowed short blocks at position `t` of the frame. */
  function ShortAt(prev: Slopes, cur: Slopes, h: nat, y: seq<real>, t: int): real { ShortSum(prev, cur, h, y, t, 8) }

  /** Offset of output position `t` within its overlap zone. */
  function ZoneOut(h: nat, t: int): int {
    if t < 9 * h then t - 7 * h else if t < 11 * h then t - 9 * h else if t < 13 * h then t - 11 * h
    else if t < 15 * h then t - 13 * h else t - 15 * h
  }

  /** The same for position `t` of the new overlap. */
  function ZoneNext(h: nat, t: int): int {
    if t < h then t + h else if t < 3 * h then t - h else if t < 5 * h then t - 3 * h
    else if t < 7 * h then t - 5 * h else t - 7 * h
  }

  lemma ZoneOutIs(h: nat, i: nat)
    requires i < 2 * h
    ensures forall t | 7 * h <= t < 16 * h :: ZoneOut(h, t) == i <==>
              t == 7 * h + i || t == 9 * h + i || t == 11 * h + i || t == 13 * h + i || (i < h && t == 15 * h + i)
    ensures forall t | 7 * h <= t < 16 * h :: 0 <= ZoneOut(h, t) < 2 * h
  {}

  lemma ZoneNextIs(h: nat, i: nat)
    requires i < 2 * h
    ensures forall t | 0 <= t < 9 * h :: ZoneNext(h, t) == i <==>
              (i >= h && t == i - h) || t == h + i || t == 3 * h + i || t == 5 * h + i || t == 7 * h + i
    ensures forall t | 0 <= t < 9 * h :: 0 <= ZoneNext(h, t) < 2 * h
  {}

  /** The values of the two EIGHT_SHORT loops for index `i`. */
  lemma ShortRow(prev: Slopes, cur: Slopes, h: nat, y: seq<real>, i: nat)
    requires i < 2 * h && |y| == 32 * h && Sized(prev, h) && Sized(cur, h)
    ensures var f := t => ShortAt(prev, cur, h, y, t);
            var u, v := cur.short[2 * h - 1 - i], cur.short[i];
            && f(7 * h + i) == Times(y[i], prev.short[i])
            && f(9 * h + i) == Times(y[2 * h + i], u) + Times(y[4 * h + i], v)
            && f(11 * h + i) == Times(y[6 * h + i], u) + Times(y[8 * h + i], v)
            && f(13 * h + i) == Times(y[10 * h + i], u) + Times(y[12 * h + i], v)
            && f(15 * h + i) == Times(y[14 * h + i], u) + Times(y[16 * h + i], v)
            && f(17 * h + i) == Times(y[18 * h + i], u) + Times(y[20 * h + i], v)
            && f(19 * h + i) == Times(y[22 * h + i], u) + Times(y[24 * h + i], v)
            && f(21 * h + i) == Times(y[26 * h + i], u) + Times(y[28 * h + i], v)
            && f(23 * h + i) == Times(y[30 * h + i], u)
  {
    hide Times, ShortSum;
    ShortFirst(prev, cur, h, y, i);
    ShortPair(prev, cur, h, y, 1, i);
    ShortPair(prev, cur, h, y, 2, i);
    ShortPair(prev, cur, h, y, 3, i);
    ShortPair(prev, cur, h, y, 4, i);
    ShortPair(prev, cur, h, y, 5, i);
    ShortPair(prev, cur, h, y, 6, i);
    ShortPair(prev, cur, h, y, 7, i);
    ShortLast(prev, cur, h, y, i);
  }

  /** The five of them that go into the output. */
  lemma OutputRow(prev: Slopes, cur: Slopes, h: nat, y: seq<real>, i: nat)
    requires i < 2 * h && |y| == 32 * h && Sized(prev, h) && Sized(cur, h)
    ensures var u, v := cur.short[2 * h - 1 - i], cur.short[i];
            && ShortAt(prev, cur, h, y, 7 * h + i) == Times(y[i], prev.short[i])
            && ShortAt(prev, cur, h, y, 9 * h + i) == Times(y[2 * h + i], u) + Times(y[4 * h + i], v)
            && ShortAt(prev, cur, h, y, 11 * h + i) == Times(y[6 * h + i], u) + Times(y[8 * h + i], v)
            && ShortAt(prev, cur, h, y, 13 * h + i) == Times(y[10 * h + i], u) + Times(y[12 * h + i], v)
            && ShortAt(prev, cur, h, y, 15 * h + i) == Times(y[14 * h + i], u) + Times(y[16 * h + i], v)
  {
    hide Times, ShortAt;
    ShortRow(prev, cur, h, y, i);
  }

  method AddShortRow(h: nat, y: seq<real>, overlap: array<real>, prev: Slopes, cur: Slopes, out: array<real>, i: nat)
    requires |y| == 32 * h && overlap.Length == out.Length == 16 * h && Sized(prev, h) && Sized(cur, h) && i < 2 * h
    requires out != overlap
    modifies out
    ensures forall t | 0 <= t < 7 * h :: out[t] == old(out[t])
    ensures forall t | 7 * h <= t < 16 * h :: out[t] ==
              if ZoneOut(h, t) == i then overlap[t] + ShortAt(prev, cur, h, y, t) else old(out[t])
  {
    hide Times, ShortAt, ZoneOut;
    var nflat, ns, trans, short := 7 * h, 2 * h, h, cur.short;
    OutputRow(prev, cur, h, y, i);
    ZoneOutIs(h, i);
    hide Sized;
    out[nflat + i] := overlap[nflat + i] + Times(y[i], prev.short[i]);
    out[nflat + 1 * ns + i] := overlap[nflat + ns * 1 + i] + Times(y[ns * 1 + i], short[ns - 1 - i])
        + Times(y[ns * 2 + i], short[i]);
    out[nflat + 2 * ns + i] := overlap[nflat + ns * 2 + i] + Times(y[ns * 3 + i], short[ns - 1 - i])
        + Times(y[ns * 4 + i], short[i]);
    out[nflat + 3 * ns + i] := overlap[nflat + ns * 3 + i] + Times(y[ns * 5 + i], short[ns - 1 - i])
        + Times(y[ns * 6 + i], short[i]);
    if i < trans {
      out[nflat + 4 * ns + i] := overlap[nflat + ns * 4 + i] + Times(y[ns * 7 + i], short[ns - 1 - i])
          + Times(y[ns * 8 + i], short[i]);
    }
  }

  /** time_out of EIGHT_SHORT. */
  method AddShort(h: nat, y: seq<real>, overlap: array<real>, prev: Slopes, cur: Slopes, out: array<real>)
    requires |y| == 32 * h && overlap.Length == out.Length == 16 * h
    requires Sized(prev, h) && Sized(cur, h) && out != overlap
    modifies out
    ensures forall t | 0 <= t < 16 * h :: out[t] == overlap[t] + ShortAt(prev, cur, h, y, t)
  {
    hide ShortAt, ZoneOut;
    var nflat, ns, i := 7 * h, 2 * h, 0;
    while i < nflat
      invariant 0 <= i <= nflat
      invariant forall t | 0 <= t < i :: out[t] == overlap[t]
    {
      out[i] := overlap[i];
      i := i + 1;
    }
    i := 0;
    if h > 0 { ZoneOutIs(h, 0); }
    while i < ns
      invariant 0 <= i <= ns
      invariant forall t | 0 <= t < 7 * h :: out[t] == overlap[t]
      invariant forall t | 7 * h <= t < 16 * h && ZoneOut(h, t) < i ::
                out[t] == overlap[t] + ShortAt(prev, cur, h, y, t)
    {
      AddShortRow(h, y, overlap, prev, cur, out, i);
      i := i + 1;
    }
    forall t | 0 <= t < 7 * h
      ensures ShortAt(prev, cur, h, y, t) == 0.0
    {
      Silent(prev, cur, h, y, t);
    }
  }

  lemma Silent(prev: Slopes, cur: Slopes, h: nat, y: seq<real>, t: int)
    requires t < 7 * h || t >= 25 * h
    ensures ShortAt(prev, cur, h, y, t) == 0.0
  {
    ShortOutside(prev, cur, h, y, t);
  }

  method SaveShortRow(h: nat, y: seq<real>, ghost prev: Slopes, cur: Slopes, overlap: array<real>, i: nat)
    requires |y| == 32 * h && overlap.Length == 16 * h && Sized(prev, h) && Sized(cur, h) && i < 2 * h
    modifies overlap
    ensures forall t | 0 <= t < 9 * h :: overlap[t] ==
              if ZoneNext(h, t) == i then ShortAt(prev, cur, h, y, 16 * h + t) else old(overlap[t])
  {
    hide Times, ShortAt, ZoneNext;
    var nlong, nflat, ns, trans, short := 16 * h, 7 * h, 2 * h, h, cur.short;
    ShortRow(prev, cur, h, y, i);
    ZoneNextIs(h, i);
    if i >= trans {
      overlap[nflat + 4 * ns + i - nlong] := Times(y[ns * 7 + i], short[ns - 1 - i]) + Times(y[ns * 8 + i], short[i]);
    }
    overlap[nflat + 5 * ns + i - nlong] := Times(y[ns * 9 + i], short[ns - 1 - i]) + Times(y[ns * 10 + i], short[i]);
    overlap[nflat + 6 * ns + i - nlong] := Times(y[ns * 11 + i], short[ns - 1 - i]) + Times(y[ns * 12 + i], short[i]);
    overlap[nflat + 7 * ns + i - nlong] := Times(y[ns * 13 + i], short[ns - 1 - i]) + Times(y[ns * 14 + i], short[i]);
    overlap[nflat + 8 * ns + i - nlong] := Times(y[ns * 15 + i], short[ns - 1 - i]);
  }

  /** overlap of EIGHT_SHORT. */
  method SaveShort(h: nat, y: seq<real>, ghost prev: Slopes, cur: Slopes, overlap: array<real>)
    requires |y| == 32 * h && overlap.Length == 16 * h && Sized(prev, h) && Sized(cur, h)
    modifies overlap
    ensures forall t | 0 <= t < 16 * h :: overlap[t] == ShortAt(prev, cur, h, y, 16 * h + t)
  {
    hide ShortAt, ZoneNext;
    var nflat, ns, i := 7 * h, 2 * h, 0;
    if h > 0 { ZoneNextIs(h, 0); }
    while i < ns
      invariant 0 <= i <= ns
      invariant forall t | 0 <= t < 9 * h && ZoneNext(h, t) < i :: overlap[t] == ShortAt(prev, cur, h, y, 16 * h + t)
    {
      SaveShortRow(h, y, prev, cur, overlap, i);
      i := i + 1;
    }
    i := 0;
    while i < nflat
      invariant 0 <= i <= nflat
      invariant forall t | 0 <= t < 9 * h :: overlap[t] == ShortAt(prev, cur, h, y, 16 * h + t)
      invariant forall t | 9 * h <= t < 9 * h + i :: overlap[t] == 0.0
    {
      overlap[nflat + ns + i] := 0.0;
      i := i + 1;
    }
    forall u | 25 * h <= u < 32 * h
      ensures ShortAt(prev, cur, h, y, u) == 0.0
    {
      Silent(prev, cur, h, y, u);
    }
  }

  /* ---------- The filter bank ---------- */

  /** A window shape: 0 for sine, 1 for KBD or low delay. */
  type Shape = s: nat | s < 2

  /** The two window tables, indexed by the shape. */
  type Shapes = t: seq<seq<real>> | |t| == 2 witness [[], []]

  /** `fb_info`, for frames of 16h samples. */
  class Bank {
    const h: nat
    const longWindow: Shapes
    const shortWindow: Shapes
    const ldWindow: Shapes
    const mdct256: Info
    const mdct2048: Info
    const mdct1024: Info

    ghost predicate Valid()
      reads mdct256.cfft.tab, mdct256.cfft.ifac, mdct2048.cfft.tab, mdct2048.cfft.ifac, mdct1024.cfft.tab,
          mdct1024.cfft.ifac
    {
      && h > 0 && h % 4 == 0
      && mdct256.Valid() && mdct2048.Valid() && mdct1024.Valid()
      && 2 * mdct256.n8 == h && mdct2048.n8 == 4 * h && mdct1024.n8 == 2 * h
      && mdct256.N == 4 * h && mdct2048.N == 32 * h && mdct1024.N == 16 * h
      && |longWindow[0]| == |longWindow[1]| == 16 * h
      && |shortWindow[0]| == |shortWindow[1]| == 2 * h
      && |ldWindow[0]| == |ldWindow[1]| == 8 * h
      && Apart({mdct256.cfft.tab, mdct2048.cfft.tab, mdct1024.cfft.tab},
               {mdct256.cfft.work, mdct2048.cfft.work, mdct1024.cfft.work})
    }

    /** `filter_bank_init`, given the window tables and the three transforms it creates. */
    constructor (h: nat, longWindow: Shapes, shortWindow: Shapes, ldWindow: Shapes, mdct256: Info, mdct2048: Info,
                 mdct1024: Info)
      requires h > 0 && h % 4 == 0 && mdct256.Valid() && mdct2048.Valid() && mdct1024.Valid()
      requires 2 * mdct256.n8 == h && mdct2048.n8 == 4 * h && mdct1024.n8 == 2 * h
      requires |longWindow[0]| == |longWindow[1]| == 16 * h && |shortWindow[0]| == |shortWindow[1]| == 2 * h
      requires |ldWindow[0]| == |ldWindow[1]| == 8 * h
      requires Apart({mdct256.cfft.tab, mdct2048.cfft.tab, mdct1024.cfft.tab},
                     {mdct256.cfft.work, mdct2048.cfft.work, mdct1024.cfft.work})
      ensures Valid() && this.h == h
    {
      this.h, this.longWindow, this.shortWindow, this.ldWindow := h, longWindow, shortWindow, ldWindow;
      this.mdct256, this.mdct2048, this.mdct1024 := mdct256, mdct2048, mdct1024;
    }

    /** The frame length divided by 16: low-delay frames are half as long. */
    function FrameH(ld: bool): nat { if ld then h / 2 else h }

    function SlopesOf(shape: Shape, ld: bool): Slopes {
      if ld then Slopes(ldWindow[shape], []) else Slopes(longWindow[shape], shortWindow[shape])
    }

    /** The long transform for the object type. */
    function LongMdct(ld: bool): Info { if ld then mdct1024 else mdct2048 }

    /** The inverse-transformed data of a frame. */
    ghost function Inverse(sq: WindowSequence, freq: seq<real>, ld: bool): (y: seq<real>)
      requires |freq| == 16 * FrameH(ld)
    {
      if sq == EightShort && !ld then ShortInverse(freq, 8)
      else ImdctOf(freq, LongMdct(ld).sincos, LongMdct(ld).cfft.w, LongMdct(ld).n8)
    }

    /** The first `n` inverse-transformed short blocks, one after the other. */
    ghost function ShortInverse(freq: seq<real>, n: nat): (y: seq<real>)
      requires |freq| == 16 * h && n <= 8
    {
      if n == 0 then [] else
        ShortBefore(n - 1, 2 * h);
        ShortInverse(freq, n - 1)
          + ImdctOf(freq[(n - 1) * (2 * h)..n * (2 * h)], mdct256.sincos, mdct256.cfft.w, mdct256.n8)
    }

    /** Each short block lies in its own eighth of the buffer and comes from its own eighth of the coefficients. */
    lemma {:induction false} ShortInverseAt(freq: seq<real>, n: nat, b: nat)
      requires |freq| == 16 * h && b < n <= 8 && 2 * mdct256.n8 == h
      ensures 0 <= b * (2 * h) <= (b + 1) * (2 * h) <= 16 * h && 0 <= b * (4 * h) <= (b + 1) * (4 * h) <= n * (4 * h)
      ensures |ShortInverse(freq, n)| == n * (4 * h)
      ensures ShortInverse(freq, n)[b * (4 * h)..(b + 1) * (4 * h)]
           == ImdctOf(freq[b * (2 * h)..(b + 1) * (2 * h)], mdct256.sincos, mdct256.cfft.w, mdct256.n8)
    {
      hide ImdctOf;
      ShortBefore(b, 2 * h);
      ShortBefore(b, 4 * h);
      ShortBefore(n - 1, 4 * h);
      ShortLength(freq, n - 1);
      if b < n - 1 {
        ShortInverseAt(freq, n - 1, b);
      } else {
        assert n * (4 * h) == (n - 1) * (4 * h) + 4 * h;
      }
    }

    lemma {:induction false} ShortLength(freq: seq<real>, n: nat)
      requires |freq| == 16 * h && n <= 8 && 2 * mdct256.n8 == h
      ensures |ShortInverse(freq, n)| == n * (4 * h)
    {
      hide ImdctOf;
      if n > 0 {
        ShortLength(freq, n - 1);
        ShortBefore(n - 1, 4 * h);
      }
    }

    /** The eight calls of the short inverse transform. */
    method ShortTransforms(freqIn: seq<real>, buf: array<real>)
      requires Valid() && |freqIn| == 16 * h && buf.Length == 32 * h
      modifies buf, mdct256.cfft.work
      ensures Valid() && buf[..] == ShortInverse(freqIn, 8)
    {
      hide ImdctOf, Info.Valid;
      var b, f, o := 0, 0, 0;
      while b < 8
        invariant 0 <= b <= 8 && Valid() && f == b * (2 * h) && o == 2 * f <= buf.Length
        invariant buf[..o] == ShortInverse(freqIn, b)
      {
        ghost var before := buf[..];
        ShortBefore(b, 2 * h);
        mdct256.FaadImdct(freqIn[f..f + 2 * h], buf, o);
        Extend(before, buf[..], o, ImdctOf(freqIn[f..f + 2 * h], mdct256.sincos, mdct256.cfft.w, mdct256.n8));
        b, f, o := b + 1, f + 2 * h, o + 4 * h;
      }
    }

    /**
      The inverse transform into the local buffer: one long block, or eight
      short ones, block `b` from the `b`-th eighth of the coefficients.
     */
    method Transforms(sq: WindowSequence, freqIn: seq<real>, ld: bool) returns (buf: array<real>)
      requires Valid() && |freqIn| == 16 * FrameH(ld) && (ld ==> sq != EightShort)
      modifies mdct256.cfft.work, mdct2048.cfft.work, mdct1024.cfft.work
      ensures Valid() && fresh(buf) && buf.Length == 32 * FrameH(ld) && buf[..] == Inverse(sq, freqIn, ld)
      ensures sq == EightShort ==> forall b: nat | b < 8 :: ShortFrom(freqIn, buf[..], b)
    {
      hide ImdctOf, Info.Valid;
      buf := new real[32 * FrameH(ld)](_ => 0.0);
      if sq == EightShort {
        ShortTransforms(freqIn, buf);
        forall b: nat | b < 8
          ensures ShortFrom(freqIn, buf[..], b)
        {
          ShortInverseAt(freqIn, 8, b);
        }
      } else if ld {
        mdct1024.FaadImdct(freqIn, buf, 0);
      } else {
        mdct2048.FaadImdct(freqIn, buf, 0);
      }
    }

    /** The `b`-th eighth of `y` is what the short transform makes of the `b`-th eighth of the coefficients. */
    ghost predicate ShortFrom(freq: seq<real>, y: seq<real>, b: nat)
      requires b < 8 && |freq| == 16 * h
    {
      ShortBefore(b, 2 * h);
      ShortBefore(b, 4 * h);
      && |y| == 32 * h
      && y[b * (4 * h)..(b + 1) * (4 * h)]
           == ImdctOf(freq[b * (2 * h)..(b + 1) * (2 * h)], mdct256.sincos, mdct256.cfft.w, mdct256.n8)
    }

    /** `ifilter_bank`: windowed overlap-add for each of the four window sequences. */
    method IfilterBank(sq: WindowSequence, shape: Shape, shapePrev: Shape, freqIn: seq<real>,
                       timeOut: array<real>, overlap: array<real>, ld: bool)
      requires Valid() && |freqIn| == 16 * FrameH(ld) == timeOut.Length == overlap.Length && timeOut != overlap
      requires ld ==> sq == OnlyLong
      modifies timeOut, overlap, mdct256.cfft.work, mdct2048.cfft.work, mdct1024.cfft.work
      ensures Valid()
      ensures var block := Windowed(sq, SlopesOf(shapePrev, ld), SlopesOf(shape, ld), FrameH(ld),
                                    Inverse(sq, freqIn, ld));
              && timeOut[..] == TimeOut(old(overlap[..]), block, 16 * FrameH(ld))
              && overlap[..] == NewOverlap(block, 16 * FrameH(ld))
    {
      hide Info.Valid, Inverse, Windowed, TimeOut, NewOverlap, Apart;
      var hh, prev, cur := FrameH(ld), SlopesOf(shapePrev, ld), SlopesOf(shape, ld);
      var buf := Transforms(sq, freqIn, ld);
      OverlapAdd(sq, prev, cur, hh, buf, timeOut, overlap);
    }

    /** What `filter_bank_ltp` makes of two frames of samples. */
    ghost function Forward(sq: WindowSequence, prev: Slopes, cur: Slopes, x: seq<real>, ld: bool): (r: seq<real>)
      requires LongMdct(ld).cfft.ifac.Length == 15 && LongMdct(ld).cfft.ifac[1] <= 10
      requires AtLeast2(LongMdct(ld).cfft.Fs())
      reads LongMdct(ld).cfft.ifac
    {
      MdctOf(Windowed(sq, prev, cur, FrameH(ld), x), LongMdct(ld).sincos, LongMdct(ld).cfft.w, LongMdct(ld).cfft.Fs(),
          LongMdct(ld).n8)
    }

    /** `filter_bank_ltp`: window and forward transform, for every sequence but eight short. */
    method FilterBankLtp(sq: WindowSequence, shape: Shape, shapePrev: Shape, inData: array<real>, outMdct: array<real>,
                         ld: bool)
      requires Valid() && sq != EightShort && (ld ==> sq == OnlyLong)
      requires inData.Length == outMdct.Length == 32 * FrameH(ld) && inData != outMdct
      modifies outMdct, mdct2048.cfft.work, mdct1024.cfft.work
      ensures Valid()
      ensures LongMdct(ld).cfft.ifac.Length == 15 && LongMdct(ld).cfft.ifac[1] <= 10 && AtLeast2(LongMdct(ld).cfft.Fs())
      ensures outMdct[..] == Forward(sq, SlopesOf(shapePrev, ld), SlopesOf(shape, ld), inData[..], ld)
    {
      hide Info.Valid, Windowed, MdctOf;
      var hh := FrameH(ld);
      var buf := new real[32 * hh](_ => 0.0);
      WindowBlock(sq, SlopesOf(shapePrev, ld), SlopesOf(shape, ld), hh, inData, buf);
      if ld {
        mdct1024.FaadMdct(buf, outMdct);
      } else {
        mdct2048.FaadMdct(buf, outMdct);
      }
    }
  }

  /** The windowing loops of `filter_bank_ltp`, for the long sequences. */
  method WindowBlock(sq: WindowSequence, prev: Slopes, cur: Slopes, h: nat, inData: array<real>, buf: array<real>)
    requires sq != EightShort && inData.Length == buf.Length == 32 * h && inData != buf
    requires |prev.long| == |cur.long| == 16 * h && (sq != OnlyLong ==> |prev.short| == |cur.short| == 2 * h)
    modifies buf
    ensures buf[..] == Windowed(sq, prev, cur, h, inData[..])
  {
    hide Times;
    var nlong, nshort, nflat := 16 * h, 2 * h, 7 * h;
    var i := nlong;
    if sq != LongStop {
      while i > 0
        invariant 0 <= i <= nlong
        invariant forall t | i <= t < nlong :: buf[t] == Times(inData[t], Rise(sq, prev, h, t))
      {
        i := i - 1;
        buf[i] := Times(inData[i], prev.long[i]);
      }
    } else {
      RiseStop(h, prev, inData, buf);
    }
    i := nlong;
    if sq != LongStart {
      while i > 0
        invariant 0 <= i <= nlong
        invariant forall t | 0 <= t < nlong :: buf[t] == Times(inData[t], Rise(sq, prev, h, t))
        invariant forall t | nlong + i <= t < 2 * nlong :: buf[t] == Times(inData[t], Fall(sq, cur, h, t - nlong))
      {
        i := i - 1;
        buf[i + nlong] := Times(inData[i + nlong], cur.long[nlong - 1 - i]);
      }
    } else {
      FallStart(h, cur, inData, buf);
    }
  }

  method RiseStop(h: nat, prev: Slopes, inData: array<real>, buf: array<real>)
    requires inData.Length == buf.Length == 32 * h && inData != buf && |prev.short| == 2 * h
    modifies buf
    ensures forall t | 0 <= t < 16 * h :: buf[t] == Times(inData[t], Rise(LongStop, prev, h, t))
  {
    hide Times;
    var nshort, nflat, i := 2 * h, 7 * h, 0;
    while i < nflat
      invariant 0 <= i <= nflat
      invariant forall t | 0 <= t < i :: buf[t] == 0.0
    {
      buf[i] := 0.0;
      i := i + 1;
    }
    i := 0;
    while i < nshort
      invariant 0 <= i <= nshort
      invariant forall t | 0 <= t < nflat :: buf[t] == 0.0
      invariant forall t | nflat <= t < nflat + i :: buf[t] == Times(inData[t], Rise(LongStop, prev, h, t))
    {
      buf[i + nflat] := Times(inData[i + nflat], prev.short[i]);
      i := i + 1;
    }
    i := 0;
    while i < nflat
      invariant 0 <= i <= nflat
      invariant forall t | 0 <= t < nflat :: buf[t] == 0.0
      invariant forall t | nflat <= t < 9 * h :: buf[t] == Times(inData[t], Rise(LongStop, prev, h, t))
      invariant forall t | 9 * h <= t < 9 * h + i :: buf[t] == inData[t]
    {
      buf[i + nflat + nshort] := inData[i + nflat + nshort];
      i := i + 1;
    }
    forall t | 0 <= t < 16 * h
      ensures buf[t] == Times(inData[t], Rise(LongStop, prev, h, t))
    {
      TimesUnit(inData[t]);
    }
  }

  method FallStart(h: nat, cur: Slopes, inData: array<real>, buf: array<real>)
    requires inData.Length == buf.Length == 32 * h && inData != buf && |cur.short| == 2 * h
    modifies buf
    ensures forall t | 0 <= t < 16 * h :: buf[t] == old(buf[t])
    ensures forall t | 16 * h <= t < 32 * h :: buf[t] == Times(inData[t], Fall(LongStart, cur, h, t - 16 * h))
  {
    hide Times;
    var nlong, nshort, nflat, i := 16 * h, 2 * h, 7 * h, 0;
    while i < nflat
      invariant 0 <= i <= nflat
      invariant forall t | 0 <= t < nlong :: buf[t] == old(buf[t])
      invariant forall t | nlong <= t < nlong + i :: buf[t] == inData[t]
    {
      buf[i + nlong] := inData[i + nlong];
      i := i + 1;
    }
    i := 0;
    while i < nshort
      invariant 0 <= i <= nshort
      invariant forall t | 0 <= t < nlong :: buf[t] == old(buf[t])
      invariant forall t | nlong <= t < nlong + nflat :: buf[t] == inData[t]
      invariant forall t | 23 * h <= t < 23 * h + i :: buf[t] == Times(inData[t], Fall(LongStart, cur, h, t - 16 * h))
    {
      buf[i + nlong + nflat] := Times(inData[i + nlong + nflat], cur.short[nshort - 1 - i]);
      i := i + 1;
    }
    i := 0;
    while i < nflat
      invariant 0 <= i <= nflat
      invariant forall t | 0 <= t < nlong :: buf[t] == old(buf[t])
      invariant forall t | nlong <= t < nlong + nflat :: buf[t] == inData[t]
      invariant forall t | 23 * h <= t < 25 * h :: buf[t] == Times(inData[t], Fall(LongStart, cur, h, t - 16 * h))
      invariant forall t | 25 * h <= t < 25 * h + i :: buf[t] == 0.0
    {
      buf[i + nlong + nflat + nshort] := 0.0;
      i := i + 1;
    }
    forall t | 16 * h <= t < 32 * h
      ensures buf[t] == Times(inData[t], Fall(LongStart, cur, h, t - 16 * h))
    {
      TimesUnit(inData[t]);
    }
  }

  /** The four branches of `ifilter_bank`, on the inverse-transformed data. */
  method OverlapAdd(sq: WindowSequence, prev: Slopes, cur: Slopes, h: nat, buf: array<real>, timeOut: array<real>,
                    overlap: array<real>)
    requires buf.Length == 32 * h && timeOut.Length == overlap.Length == 16 * h
    requires buf != timeOut && buf != overlap && timeOut != overlap
    requires |prev.long| == |cur.long| == 16 * h && (sq != OnlyLong ==> |prev.short| == |cur.short| == 2 * h)
    modifies timeOut, overlap
    ensures timeOut[..] == TimeOut(old(overlap[..]), Windowed(sq, prev, cur, h, buf[..]), 16 * h)
    ensures overlap[..] == NewOverlap(Windowed(sq, prev, cur, h, buf[..]), 16 * h)
  {
    hide Times, ShortSum, ShortAt, Windowed, TimeOut, NewOverlap;
    ghost var y, was := buf[..], overlap[..];
    match sq {
      case OnlyLong =>
        AddLong(h, buf, overlap, prev.long, timeOut);
        SaveLong(h, buf, cur.long, overlap);
      case LongStart =>
        AddLong(h, buf, overlap, prev.long, timeOut);
        SaveStart(h, buf, cur.short, overlap);
        StartFalls(h, cur, y, overlap[..]);
      case EightShort =>
        AddShort(h, buf[..], overlap, prev, cur, timeOut);
        SaveShort(h, buf[..], prev, cur, overlap);
      case LongStop =>
        AddStop(h, buf, overlap, prev.short, timeOut);
        StopRises(h, prev, y, was, timeOut[..]);
        SaveLong(h, buf, cur.long, overlap);
    }
    FrameDone(sq, prev, cur, h, y, was, timeOut[..], overlap[..]);
  }

  /** The products of LONG_START's overlap, flat part and zero part included. */
  lemma StartFalls(h: nat, cur: Slopes, y: seq<real>, next: seq<real>)
    requires |y| == 32 * h && |next| == 16 * h && |cur.short| == 2 * h
    requires forall t | 0 <= t < 16 * h :: next[t] ==
              if t < 7 * h then y[16 * h + t]
              else if t < 9 * h then Times(y[16 * h + t], cur.short[2 * h - 1 - (t - 7 * h)]) else 0.0
    ensures forall t | 0 <= t < 16 * h :: next[t] == Times(y[16 * h + t], Fall(LongStart, cur, h, t))
  {
    hide Times;
    forall t | 0 <= t < 16 * h
      ensures next[t] == Times(y[16 * h + t], Fall(LongStart, cur, h, t))
    {
      TimesUnit(y[16 * h + t]);
    }
  }

  lemma StopRises(h: nat, prev: Slopes, y: seq<real>, was: seq<real>, out: seq<real>)
    requires |y| == 32 * h && |out| == |was| == 16 * h && |prev.short| == 2 * h
    requires forall t | 0 <= t < 16 * h :: out[t] ==
              if t < 7 * h then was[t]
              else if t < 9 * h then was[t] + Times(y[t], prev.short[t - 7 * h]) else was[t] + y[t]
    ensures forall t | 0 <= t < 16 * h :: out[t] == was[t] + Times(y[t], Rise(LongStop, prev, h, t))
  {
    hide Times;
    forall t | 0 <= t < 16 * h
      ensures out[t] == was[t] + Times(y[t], Rise(LongStop, prev, h, t))
    {
      TimesUnit(y[t]);
    }
  }

  /** Cell by cell, the loops have done the windowed overlap-add of the whole frame. */
  lemma FrameDone(sq: WindowSequence, prev: Slopes, cur: Slopes, h: nat, y: seq<real>, was: seq<real>, out: seq<real>,
                  next: seq<real>)
    requires |y| == 32 * h && |was| == |out| == |next| == 16 * h
    requires forall t | 0 <= t < 16 * h :: out[t] == was[t] +
              if sq == EightShort then ShortAt(prev, cur, h, y, t) else Times(y[t], Rise(sq, prev, h, t))
    requires forall t | 0 <= t < 16 * h :: next[t] ==
              if sq == EightShort then ShortAt(prev, cur, h, y, 16 * h + t)
              else Times(y[16 * h + t], Fall(sq, cur, h, t))
    ensures out == TimeOut(was, Windowed(sq, prev, cur, h, y), 16 * h)
    ensures next == NewOverlap(Windowed(sq, prev, cur, h, y), 16 * h)
  {
    hide Times, Rise, Fall, ShortSum;
  }

  ghost predicate Apart(a: set<array<Complex>>, b: set<array<Complex>>) { a !! b }

  /** Block `b` of eight blocks of length `d`. */
  lemma ShortBefore(b: nat, d: nat)
    requires b < 8
    ensures 0 <= b * d <= (b + 1) * d == b * d + d <= 8 * d
  {
    MulLe(b + 1, 8, d);
  }

  lemma Extend(a: seq<real>, b: seq<real>, o: nat, v: seq<real>)
    requires Written(a, b, o, v) && |a| == |b| && o + |v| <= |b|
    ensures b[..o + |v|] == a[..o] + v
  {
    assert b[..o + |v|] == b[..o] + b[o..o + |v|];
    assert b[..o] == a[..o];
  }

  lemma TimesUnit(a: real)
    ensures Times(a, 1.0) == a && Times(a, 0.0) == 0.0
  {}
}
