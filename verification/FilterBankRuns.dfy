/**
  Runs of the filter bank (libfaad/filtbank.c) over many frames: overlap-add,
  and perfect reconstruction for every legal run of long sequences.
 */
module FilterBankRuns {
  import opened Complexes
  import opened DftInverse
  import opened CfftFactors
  import opened CfftDriver
  import opened Mdct
  import opened MdctInfo
  import opened MdctExact
  import opened FilterBankSpec

  /* ---------- Overlap-add ---------- */

  /** Samples out of a run over the windowed blocks `bs`, and the overlap it ends with. */
  function Synthesis(bs: seq<seq<real>>, n: nat, overlap: seq<real>): (r: (seq<real>, seq<real>))
  {
    if bs == [] then ([], overlap)
    else
      var before := Synthesis(bs[..|bs| - 1], n, overlap);
      var b := bs[|bs| - 1];
      (before.0 + TimeOut(before.1, b, n), NewOverlap(b, n))
  }

  /** All blocks laid down at multiples of `n` and added, at sample `t`. */
  function Layered(bs: seq<seq<real>>, n: nat, t: int): real {
    if bs == [] then 0.0
    else Layered(bs[..|bs| - 1], n, t) + RAt(bs[|bs| - 1], t - (|bs| - 1) * n)
  }

  lemma {:induction false} LayeredBeyond(bs: seq<seq<real>>, n: nat, t: int)
    requires (forall b | b in bs :: |b| == 2 * n) && t >= (|bs| + 1) * n
    ensures Layered(bs, n, t) == 0.0
  {
    if bs != [] {
      OneLess(|bs|, n);
      LayeredBeyond(bs[..|bs| - 1], n, t);
    }
  }

  lemma OneLess(k: nat, n: nat)
    requires k > 0
    ensures (k - 1) * n + n == k * n && (k + 1) * n == k * n + n && (k - 1) * n >= 0
  {}

  /**
    After any number of frames the samples out are the overlap-add of all blocks, and
    the overlap is the rest of it.
   */
  lemma {:induction false} SynthesisIsLayered(bs: seq<seq<real>>, n: nat)
    requires forall b | b in bs :: |b| == 2 * n
    ensures var r := Synthesis(bs, n, seq(n, _ => 0.0));
            && |r.0| == |bs| * n && |r.1| == n
            && (forall t | 0 <= t < |bs| * n :: r.0[t] == Layered(bs, n, t))
            && (forall t | 0 <= t < n :: r.1[t] == Layered(bs, n, |bs| * n + t))
  {
    if bs != [] {
      var m := |bs| - 1;
      var early := bs[..m];
      var zero := seq(n, _ => 0.0);
      SynthesisIsLayered(early, n);
      OneLess(|bs|, n);
      var before := Synthesis(early, n, zero);
      var r := Synthesis(bs, n, zero);
      forall t | 0 <= t < |bs| * n
        ensures r.0[t] == Layered(bs, n, t)
      {
        if t < m * n {
          assert r.0[t] == before.0[t];
        } else {
          assert r.0[t] == TimeOut(before.1, bs[m], n)[t - m * n];
        }
      }
      forall t | 0 <= t < n
        ensures r.1[t] == Layered(bs, n, |bs| * n + t)
      {
        LayeredBeyond(early, n, |bs| * n + t);
      }
    }
  }

  /* ---------- Perfect reconstruction ---------- */

  datatype Frame = Frame(sq: WindowSequence, prev: Slopes, cur: Slopes)

  function Square(a: real): real { Times(a, a) }

  /** The power-complementary slopes of the standard's windows. */
  ghost predicate Complementary(w: seq<real>) {
    forall i | 0 <= i < |w| :: Square(w[i]) + Square(w[|w| - 1 - i]) == 1.0
  }

  ghost predicate GoodSlopes(w: Slopes, h: nat) { Sized(w, h) && Complementary(w.long) && Complementary(w.short) }

  /**
    A legal run of long frames: each frame starts from the slopes its
    predecessor ended with, and LONG_STOP follows LONG_START and nothing else.
   */
  ghost predicate Legal(fs: seq<Frame>, h: nat) {
    && (forall k | 0 <= k < |fs| :: fs[k].sq != EightShort && GoodSlopes(fs[k].prev, h) && GoodSlopes(fs[k].cur, h))
    && (forall k | 0 < k < |fs| :: Follows(fs[k - 1], fs[k]))
  }

  predicate Follows(a: Frame, b: Frame) { a.cur == b.prev && (a.sq == LongStart <==> b.sq == LongStop) }

  /** The block the decoder lays down for a frame whose two-frame segment of samples is `x`. */
  function Laid(f: Frame, h: nat, x: seq<real>): (b: seq<real>)
    ensures |b| == 32 * h
  {
    Windowed(f.sq, f.prev, f.cur, h, Aliased(Windowed(f.sq, f.prev, f.cur, h, x), 4 * h))
  }

  /** The falling half of a frame mirrors the rising half of the next. */
  lemma Mirrored(a: Frame, b: Frame, h: nat, t: nat)
    requires Follows(a, b) && a.sq != EightShort && b.sq != EightShort && Sized(a.cur, h) && t < 16 * h
    ensures Fall(a.sq, a.cur, h, t) == Rise(b.sq, b.prev, h, 16 * h - 1 - t)
  {}

  lemma RiseComplementary(b: Frame, h: nat, t: nat)
    requires GoodSlopes(b.prev, h) && t < 16 * h
    ensures Square(Rise(b.sq, b.prev, h, t)) + Square(Rise(b.sq, b.prev, h, 16 * h - 1 - t)) == 1.0
  {
    Units();
    hide Square;
    if b.sq == LongStop {
      if 7 * h <= t < 9 * h {
        var i := t - 7 * h;
        assert Square(b.prev.short[i]) + Square(b.prev.short[|b.prev.short| - 1 - i]) == 1.0;
      }
    } else {
      assert Square(b.prev.long[t]) + Square(b.prev.long[|b.prev.long| - 1 - t]) == 1.0;
    }
  }

  lemma Units()
    ensures Square(0.0) == 0.0 && Square(1.0) == 1.0
  {}

  /** The aliased parts of two neighbouring blocks cancel. */
  lemma Cancel(a: real, b: real, x: real, z: real)
    requires Square(a) + Square(b) == 1.0
    ensures Times(Times(x, b) + Times(z, a), b) + Times(Times(x, a) - Times(z, b), a) == x
  {
    calc {
      Times(Times(x, b) + Times(z, a), b) + Times(Times(x, a) - Times(z, b), a);
      (x * b + z * a) * b + (x * a - z * b) * a;
      x * (a * a + b * b);
      x;
    }
  }

  /** Where two legal blocks overlap, the samples come back. */
  lemma Overlapping(a: Frame, b: Frame, h: nat, x: seq<real>, y: seq<real>, t: nat)
    requires Follows(a, b) && a.sq != EightShort && b.sq != EightShort && GoodSlopes(a.cur, h) && GoodSlopes(b.prev, h)
    requires |x| == |y| == 32 * h && t < 16 * h && x[16 * h..] == y[..16 * h]
    ensures Laid(a, h, x)[16 * h + t] + Laid(b, h, y)[t] == y[t]
  {
    hide Times, Rise, Fall, Square;
    var m := 16 * h - 1 - t;
    Mirrored(a, b, h, t);
    Mirrored(a, b, h, m);
    RiseComplementary(b, h, t);
    var p, q := Rise(b.sq, b.prev, h, t), Rise(b.sq, b.prev, h, m);
    var u, v := Windowed(a.sq, a.prev, a.cur, h, x), Windowed(b.sq, b.prev, b.cur, h, y);
    assert y[t] == y[..16 * h][t] == x[16 * h..][t] == x[16 * h + t];
    assert y[m] == y[..16 * h][m] == x[16 * h..][m] == x[16 * h + m];
    assert u[16 * h + t] == Times(x[16 * h + t], q) && u[16 * h + m] == Times(x[16 * h + m], p);
    assert v[t] == Times(y[t], p) && v[m] == Times(y[m], q);
    assert AliasAt(u, 4 * h, 16 * h + t) == u[16 * h + t] + u[16 * h + m];
    assert AliasAt(v, 4 * h, t) == v[t] - v[m];
    Cancel(p, q, y[t], y[m]);
  }

  /** The two-frame segment of `x` that frame `k` covers. */
  function Segment(x: seq<real>, h: nat, k: nat): (s: seq<real>)
    requires |x| >= (k + 2) * (16 * h)
    ensures |s| == 32 * h
  {
    SegmentBounds(k, 16 * h);
    x[k * (16 * h)..(k + 2) * (16 * h)]
  }

  lemma SegmentBounds(k: nat, n: nat)
    ensures 0 <= k * n <= (k + 1) * n == k * n + n <= (k + 2) * n == k * n + 2 * n
  {}

  /** The blocks of a run on the samples `x`. */
  function Blocks(fs: seq<Frame>, h: nat, x: seq<real>): (bs: seq<seq<real>>)
    requires |x| == (|fs| + 1) * (16 * h)
    ensures |bs| == |fs|
    ensures forall b | b in bs :: |b| == 32 * h
  {
    seq(|fs|, k requires 0 <= k < |fs| =>
      SegmentFits(k, |fs|, 16 * h);
      Laid(fs[k], h, Segment(x, h, k)))
  }

  lemma SegmentFits(k: nat, m: nat, n: nat)
    requires k < m
    ensures (k + 2) * n <= (m + 1) * n
  {}

  /** Where block k - 1 ends and block k begins, they add up to frame k of `x`. */
  ghost predicate JoinAt(bs: seq<seq<real>>, n: nat, x: seq<real>, k: nat)
    requires 0 < k < |bs| && |bs[k - 1]| == |bs[k]| == 2 * n
  {
    forall t | 0 <= t < n :: bs[k - 1][n + t] + bs[k][t] == RAt(x, k * n + t)
  }

  /** Blocks that join up come out as the samples, from the second frame on. */
  lemma {:induction false} JoinedRun(bs: seq<seq<real>>, n: nat, x: seq<real>)
    requires (forall b | b in bs :: |b| == 2 * n) && forall k | 0 < k < |bs| :: JoinAt(bs, n, x, k)
    ensures var r := Synthesis(bs, n, seq(n, _ => 0.0));
            && |r.0| == |bs| * n
            && (bs != [] ==> r.1 == NewOverlap(bs[|bs| - 1], n))
            && forall t | n <= t < |bs| * n :: r.0[t] == RAt(x, t)
  {
    if bs != [] {
      var m := |bs| - 1;
      var early, zero := bs[..m], seq(n, _ => 0.0);
      forall k | 0 < k < m
        ensures JoinAt(early, n, x, k)
      {
        assert JoinAt(bs, n, x, k);
      }
      JoinedRun(early, n, x);
      OneLess(|bs|, n);
      var before, r := Synthesis(early, n, zero), Synthesis(bs, n, zero);
      forall t | n <= t < |bs| * n
        ensures r.0[t] == RAt(x, t)
      {
        if t < m * n {
          assert r.0[t] == before.0[t];
        } else {
          JoinUse(bs, n, x, m, t - m * n);
          assert r.0[t] == TimeOut(before.1, bs[m], n)[t - m * n];
        }
      }
    }
  }

  lemma JoinUse(bs: seq<seq<real>>, n: nat, x: seq<real>, k: nat, t: nat)
    requires k < |bs| && (forall b | b in bs :: |b| == 2 * n)
    requires (k > 0 ==> JoinAt(bs, n, x, k)) && t < n && k * n + t >= n
    ensures k > 0 && bs[k - 1][n + t] + bs[k][t] == RAt(x, k * n + t)
  {
    assert k == 0 ==> k * n == 0;
  }

  lemma BlocksJoin(fs: seq<Frame>, h: nat, x: seq<real>, k: nat)
    requires Legal(fs, h) && |x| == (|fs| + 1) * (16 * h) && 0 < k < |fs|
    ensures JoinAt(Blocks(fs, h, x), 16 * h, x, k)
  {
    hide Laid;
    var n := 16 * h;
    SegmentFits(k, |fs|, n);
    SegmentFits(k - 1, |fs|, n);
    SegmentBounds(k, n);
    SegmentBounds(k - 1, n);
    var x0, x1 := Segment(x, h, k - 1), Segment(x, h, k);
    Neighbours(x, (k - 1) * n, n, x0, x1);
    forall t | 0 <= t < n
      ensures Blocks(fs, h, x)[k - 1][n + t] + Blocks(fs, h, x)[k][t] == RAt(x, k * n + t)
    {
      Overlapping(fs[k - 1], fs[k], h, x0, x1, t);
      assert x1[t] == x[k * n + t];
    }
  }

  lemma Neighbours(x: seq<real>, p: nat, n: nat, x0: seq<real>, x1: seq<real>)
    requires p + 3 * n <= |x| && x0 == x[p..p + 2 * n] && x1 == x[p + n..p + 3 * n]
    ensures x0[n..] == x1[..n]
  {}

  /* ---------- With the transforms of mdct.c ---------- */

  /** One frame through `filter_bank_ltp` and the inverse side of `ifilter_bank`. */
  ghost function Coded(f: Frame, h: nat, x: seq<real>, sincos: seq<Complex>, w: Complex,
                       factors: seq<nat>): (b: seq<real>)
    requires AtLeast2(factors)
    ensures |b| == 32 * h
  {
    var coef := MdctOf(Windowed(f.sq, f.prev, f.cur, h, x), sincos, w, factors, 4 * h);
    Windowed(f.sq, f.prev, f.cur, h, ImdctOf(coef, sincos, w, 4 * h))
  }

  ghost function CodedBlocks(fs: seq<Frame>, h: nat, x: seq<real>, sincos: seq<Complex>, w: Complex,
                             factors: seq<nat>): (bs: seq<seq<real>>)
    requires |x| == (|fs| + 1) * (16 * h) && AtLeast2(factors)
    ensures |bs| == |fs|
  {
    seq(|fs|, k requires 0 <= k < |fs| =>
      SegmentFits(k, |fs|, 16 * h);
      Coded(fs[k], h, Segment(x, h, k), sincos, w, factors))
  }

  /**
    Coding every frame of a legal run of long sequences with
    `filter_bank_ltp` and decoding it with `ifilter_bank` returns the samples
    from the second frame on, with scale one.
   */
  lemma PerfectReconstruction(fs: seq<Frame>, h: nat, x: seq<real>, sincos: seq<Complex>, w: Complex, factors: seq<nat>)
    requires h > 0 && Legal(fs, h) && |x| == (|fs| + 1) * (16 * h)
    requires Scaled2(sincos, 4 * h) && PrimitiveRoot(w, 8 * h) && Factors(factors, 8 * h) && AllRadix(factors)
    requires (8 * h) % 5 != 0
    ensures AtLeast2(factors)
    ensures var r := Synthesis(CodedBlocks(fs, h, x, sincos, w, factors), 16 * h, seq(16 * h, _ => 0.0)).0;
            |r| == |fs| * (16 * h) && forall t | 16 * h <= t < |fs| * (16 * h) :: r[t] == RAt(x, t)
  {
    FactorsAtLeast2(factors, 8 * h);
    CodedIsLaid(fs, h, x, sincos, w, factors);
    Reconstruction(fs, h, x);
  }

  lemma CodedIsLaid(fs: seq<Frame>, h: nat, x: seq<real>, sincos: seq<Complex>, w: Complex, factors: seq<nat>)
    requires h > 0 && |x| == (|fs| + 1) * (16 * h) && AtLeast2(factors)
    requires Scaled2(sincos, 4 * h) && PrimitiveRoot(w, 8 * h) && Factors(factors, 8 * h) && AllRadix(factors)
    requires (8 * h) % 5 != 0
    ensures CodedBlocks(fs, h, x, sincos, w, factors) == Blocks(fs, h, x)
  {
    hide Scaled2, PrimitiveRoot, Windowed, MdctOf, ImdctOf, Aliased, Segment;
    forall k | 0 <= k < |fs|
      ensures CodedBlocks(fs, h, x, sincos, w, factors)[k] == Blocks(fs, h, x)[k]
    {
      SegmentFits(k, |fs|, 16 * h);
      AliasingHolds(Windowed(fs[k].sq, fs[k].prev, fs[k].cur, h, Segment(x, h, k)), sincos, w, factors, 4 * h);
    }
  }

  lemma Reconstruction(fs: seq<Frame>, h: nat, x: seq<real>)
    requires h > 0 && Legal(fs, h) && |x| == (|fs| + 1) * (16 * h)
    ensures var r := Synthesis(Blocks(fs, h, x), 16 * h, seq(16 * h, _ => 0.0)).0;
            |r| == |fs| * (16 * h) && forall t | 16 * h <= t < |fs| * (16 * h) :: r[t] == RAt(x, t)
  {
    hide Legal;
    forall k | 0 < k < |fs|
      ensures JoinAt(Blocks(fs, h, x), 16 * h, x, k)
    {
      BlocksJoin(fs, h, x, k);
    }
    JoinedRun(Blocks(fs, h, x), 16 * h, x);
  }
}
