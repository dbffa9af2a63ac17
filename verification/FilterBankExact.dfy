/** For which frame lengths coding and decoding long frames returns the samples, whatever the windows. */
module FilterBankExact {
  import opened Complexes
  import opened Dft
  import opened DftInverse
  import opened CfftFactors
  import opened CfftDriver
  import opened Mdct
  import opened MdctInfo
  import opened MdctExact
  import opened FilterBankSpec
  import opened FilterBankRuns

  /** The samples of the run come back from the second frame on. */
  ghost predicate Returned(fs: seq<Frame>, h: nat, x: seq<real>, sincos: seq<Complex>, w: Complex, factors: seq<nat>)
    requires |x| == (|fs| + 1) * (16 * h) && AtLeast2(factors)
  {
    var r := Synthesis(CodedBlocks(fs, h, x, sincos, w, factors), 16 * h, seq(16 * h, _ => 0.0)).0;
    |r| == |fs| * (16 * h) && forall t | 16 * h <= t < |fs| * (16 * h) :: r[t] == RAt(x, t)
  }

  /** What the transforms make of a block. */
  ghost function Recoded(u: seq<real>, sincos: seq<Complex>, w: Complex, factors: seq<nat>, n8: nat): (y: seq<real>)
    requires AtLeast2(factors)
    ensures |y| == 8 * n8
  {
    ImdctOf(MdctOf(u, sincos, w, factors, n8), sincos, w, n8)
  }

  /** How far that is from the aliased block, at position `t`. */
  ghost function Error(u: seq<real>, sincos: seq<Complex>, w: Complex, factors: seq<nat>, n8: nat, t: int): real
    requires AtLeast2(factors)
  {
    RAt(Recoded(u, sincos, w, factors, n8), t) - RAt(Aliased(u, n8), t)
  }

  /* ---------- The error mirrors like the aliased block ---------- */

  function Mirror(n8: nat, t: int): int { if t < 4 * n8 then 4 * n8 - 1 - t else 12 * n8 - 1 - t }

  function Sign(n8: nat, t: int): real { if t < 4 * n8 then -1.0 else 1.0 }

  lemma Mirrors(z: seq<Complex>, x: seq<real>, n8: nat, t: nat)
    requires n8 > 0 && n8 % 2 == 0 && t < 8 * n8
    ensures ReorderAt(z, n8, Mirror(n8, t)) == Sign(n8, t) * ReorderAt(z, n8, t)
    ensures AliasAt(x, n8, Mirror(n8, t)) == Sign(n8, t) * AliasAt(x, n8, t)
  {
    hide At, RAt;
  }

  lemma ErrorMirrors(u: seq<real>, sincos: seq<Complex>, w: Complex, factors: seq<nat>, n8: nat, t: nat)
    requires n8 > 0 && n8 % 2 == 0 && t < 8 * n8 && AtLeast2(factors)
    ensures Error(u, sincos, w, factors, n8, Mirror(n8, t)) == Sign(n8, t) * Error(u, sincos, w, factors, n8, t)
  {
    hide ReorderAt, AliasAt, TurnedBack, MdctOf, Transform, ImdctIn;
    var back := Transform(ImdctIn(MdctOf(u, sincos, w, factors, n8), sincos, n8), w);
    Mirrors(TurnedBack(back, sincos), u, n8, t);
  }

  /* ---------- At a joint of two blocks ---------- */

  /** Two combinations of two errors vanish, with a determinant of one: so do the errors. */
  lemma Determinant(p: real, q: real, a: real, b: real)
    requires Square(p) + Square(q) == 1.0
    requires Times(a, q) + Times(b, p) == 0.0 && Times(a, p) - Times(b, q) == 0.0
    ensures a == 0.0 && b == 0.0
  {
    calc {
      a;
      (p * p + q * q) * a;
      (a * p - b * q) * p + (a * q + b * p) * q;
      0.0;
    }
    calc {
      b;
      (p * p + q * q) * b;
      (a * q + b * p) * p - (a * p - b * q) * q;
      0.0;
    }
  }

  /** The error of a frame whose segment of samples is `x`. */
  ghost function FrameError(f: Frame, h: nat, x: seq<real>, sincos: seq<Complex>, w: Complex, factors: seq<nat>,
                            t: int): real
    requires AtLeast2(factors)
  {
    Error(Windowed(f.sq, f.prev, f.cur, h, x), sincos, w, factors, 4 * h, t)
  }

  /** The two blocks of neighbouring frames add up to the samples at position `t` of the second frame. */
  ghost predicate Joins(a: Frame, b: Frame, h: nat, x: seq<real>, y: seq<real>,
                        sincos: seq<Complex>, w: Complex, factors: seq<nat>, t: nat)
    requires AtLeast2(factors) && |x| == |y| == 32 * h && t < 16 * h
  {
    Coded(a, h, x, sincos, w, factors)[16 * h + t] + Coded(b, h, y, sincos, w, factors)[t] == y[t]
  }

  lemma CodedIs(f: Frame, h: nat, x: seq<real>, sincos: seq<Complex>, w: Complex, factors: seq<nat>, t: nat)
    requires AtLeast2(factors) && f.sq != EightShort && t < 32 * h
    ensures Coded(f, h, x, sincos, w, factors)[t]
         == Laid(f, h, x)[t] + Times(FrameError(f, h, x, sincos, w, factors, t), LongWindow(f.sq, f.prev, f.cur, h, t))
  {
    hide LongWindow, MdctOf, ImdctOf, Aliased;
  }

  /** If the samples come back at `t`, the windowed errors of the two blocks cancel there. */
  lemma ErrorsCancel(a: Frame, b: Frame, h: nat, x: seq<real>, y: seq<real>,
                     sincos: seq<Complex>, w: Complex, factors: seq<nat>, t: nat)
    requires Follows(a, b) && a.sq != EightShort && b.sq != EightShort && GoodSlopes(a.cur, h) && GoodSlopes(b.prev, h)
    requires |x| == |y| == 32 * h && t < 16 * h && x[16 * h..] == y[..16 * h] && AtLeast2(factors)
    requires Joins(a, b, h, x, y, sincos, w, factors, t)
    ensures Times(FrameError(a, h, x, sincos, w, factors, 16 * h + t), Fall(a.sq, a.cur, h, t))
          + Times(FrameError(b, h, y, sincos, w, factors, t), Rise(b.sq, b.prev, h, t)) == 0.0
  {
    hide Coded, Laid, FrameError, Times, Fall, Rise, GoodSlopes;
    Overlapping(a, b, h, x, y, t);
    CodedIs(a, h, x, sincos, w, factors, 16 * h + t);
    CodedIs(b, h, y, sincos, w, factors, t);
  }

  /** If they come back at `t` and at its mirror image, there are no errors there. */
  lemma NoErrors(a: Frame, b: Frame, h: nat, x: seq<real>, y: seq<real>,
                 sincos: seq<Complex>, w: Complex, factors: seq<nat>, t: nat)
    requires h > 0 && Follows(a, b) && a.sq != EightShort && b.sq != EightShort
    requires GoodSlopes(a.cur, h) && GoodSlopes(b.prev, h)
    requires |x| == |y| == 32 * h && t < 16 * h && x[16 * h..] == y[..16 * h] && AtLeast2(factors)
    requires Joins(a, b, h, x, y, sincos, w, factors, t) && Joins(a, b, h, x, y, sincos, w, factors, 16 * h - 1 - t)
    ensures FrameError(a, h, x, sincos, w, factors, 16 * h + t) == 0.0 == FrameError(b, h, y, sincos, w, factors, t)
  {
    hide Joins, Windowed, Error, Square, Times, Fall, Rise;
    var m: nat := 16 * h - 1 - t;
    ErrorsCancel(a, b, h, x, y, sincos, w, factors, t);
    ErrorsCancel(a, b, h, x, y, sincos, w, factors, m);
    ErrorMirrors(Windowed(a.sq, a.prev, a.cur, h, x), sincos, w, factors, 4 * h, 16 * h + t);
    ErrorMirrors(Windowed(b.sq, b.prev, b.cur, h, y), sincos, w, factors, 4 * h, t);
    Mirrored(a, b, h, t);
    Mirrored(a, b, h, m);
    RiseComplementary(b, h, t);
    var p, q := Rise(b.sq, b.prev, h, t), Rise(b.sq, b.prev, h, m);
    var ea, eb := FrameError(a, h, x, sincos, w, factors, 16 * h + t), FrameError(b, h, y, sincos, w, factors, t);
    NegativeTimes(eb, q);
    Determinant(p, q, ea, eb);
  }

  lemma NegativeTimes(a: real, b: real)
    ensures Times(-1.0 * a, b) == -Times(a, b)
  {}

  /* ---------- Samples that window to a given block ---------- */

  /** Both halves of a window are power-complementary. */
  lemma WindowComplementary(f: Frame, h: nat, t: nat)
    requires f.sq != EightShort && GoodSlopes(f.prev, h) && GoodSlopes(f.cur, h) && t < 32 * h
    ensures Square(LongWindow(f.sq, f.prev, f.cur, h, t)) + Square(LongWindow(f.sq, f.prev, f.cur, h, Mirror(4 * h, t)))
         == 1.0
  {
    hide Square;
    if t < 16 * h {
      RiseComplementary(f, h, t);
    } else {
      FallComplementary(f, h, t - 16 * h);
    }
  }

  lemma FallComplementary(f: Frame, h: nat, t: nat)
    requires f.sq != EightShort && GoodSlopes(f.cur, h) && t < 16 * h
    ensures Square(Fall(f.sq, f.cur, h, t)) + Square(Fall(f.sq, f.cur, h, 16 * h - 1 - t)) == 1.0
  {
    var next := Frame(if f.sq == LongStart then LongStop else OnlyLong, f.cur, f.cur);
    hide Square;
    Mirrored(f, next, h, t);
    Mirrored(f, next, h, 16 * h - 1 - t);
    RiseComplementary(next, h, t);
  }

  /** The aliased block, windowed: samples that a frame windows to a block with the same aliases as `u`. */
  function Source(f: Frame, h: nat, u: seq<real>): (s: seq<real>)
    ensures |s| == 32 * h
  {
    Windowed(f.sq, f.prev, f.cur, h, Aliased(u, 4 * h))
  }

  lemma TwiceWeighted(a: real, p: real, q: real)
    requires Square(p) + Square(q) == 1.0
    ensures Times(Times(a, p), p) + Times(Times(a, q), q) == a
  {
    calc {
      Times(Times(a, p), p) + Times(Times(a, q), q);
      a * (p * p + q * q);
      a;
    }
  }

  lemma SourceAt(f: Frame, h: nat, u: seq<real>, t: nat)
    requires h > 0 && f.sq != EightShort && GoodSlopes(f.prev, h) && GoodSlopes(f.cur, h) && |u| == 32 * h && t < 32 * h
    ensures AliasAt(Windowed(f.sq, f.prev, f.cur, h, Source(f, h, u)), 4 * h, t) == AliasAt(u, 4 * h, t)
  {
    hide Times, Square, LongWindow, GoodSlopes;
    var m: nat := Mirror(4 * h, t);
    var s := Source(f, h, u);
    var v := Windowed(f.sq, f.prev, f.cur, h, s);
    var a, p, q := AliasAt(u, 4 * h, t), LongWindow(f.sq, f.prev, f.cur, h, t), LongWindow(f.sq, f.prev, f.cur, h, m);
    WindowComplementary(f, h, t);
    AliasMirrors(u, h, t);
    assert v[t] == Times(Times(a, p), p);
    assert v[m] == Times(Times(Sign(4 * h, t) * a, q), q);
    NegativeTimes(a, q);
    NegativeTimes(Times(a, q), q);
    TwiceWeighted(a, p, q);
    assert AliasAt(v, 4 * h, t) == v[t] + Sign(4 * h, t) * v[m];
  }

  lemma AliasMirrors(u: seq<real>, h: nat, t: nat)
    requires h > 0 && t < 32 * h
    ensures AliasAt(u, 4 * h, Mirror(4 * h, t)) == Sign(4 * h, t) * AliasAt(u, 4 * h, t)
  {
    hide RAt;
  }

  lemma SourceAliases(f: Frame, h: nat, u: seq<real>)
    requires h > 0 && f.sq != EightShort && GoodSlopes(f.prev, h) && GoodSlopes(f.cur, h) && |u| == 32 * h
    ensures Aliased(Windowed(f.sq, f.prev, f.cur, h, Source(f, h, u)), 4 * h) == Aliased(u, 4 * h)
  {
    hide Windowed, Source, AliasAt, GoodSlopes;
    forall t: nat | t < 32 * h
      ensures AliasAt(Windowed(f.sq, f.prev, f.cur, h, Source(f, h, u)), 4 * h, t) == AliasAt(u, 4 * h, t)
    {
      SourceAt(f, h, u, t);
    }
  }

  /** The forward transform sees only the aliases. */
  lemma FoldOfAliases(x: seq<real>, y: seq<real>, n8: nat, k: nat)
    requires n8 > 0 && k < 2 * n8 && |x| == |y| == 8 * n8 && Aliased(x, n8) == Aliased(y, n8)
    ensures FoldAt(x, n8, k) == FoldAt(y, n8, k)
  {
    hide RAt, AliasAt;
    if k < n8 {
      SameAlias(x, y, n8, 6 * n8 + 2 * k);
      SameAlias(x, y, n8, 2 * n8 + 2 * k);
    } else {
      SameAlias(x, y, n8, 4 * n8 - 1 - 2 * (k - n8));
      SameAlias(x, y, n8, 4 * n8 + 2 * (k - n8));
    }
  }

  lemma SameAlias(x: seq<real>, y: seq<real>, n8: nat, t: nat)
    requires t < 8 * n8 && Aliased(x, n8) == Aliased(y, n8)
    ensures if t < 4 * n8 then RAt(x, t) - RAt(x, 4 * n8 - 1 - t) == RAt(y, t) - RAt(y, 4 * n8 - 1 - t)
            else RAt(x, t) + RAt(x, 12 * n8 - 1 - t) == RAt(y, t) + RAt(y, 12 * n8 - 1 - t)
  {
    hide RAt;
    assert Aliased(x, n8)[t] == AliasAt(x, n8, t) && Aliased(y, n8)[t] == AliasAt(y, n8, t);
  }

  lemma ErrorOfAliases(x: seq<real>, y: seq<real>, sincos: seq<Complex>, w: Complex, factors: seq<nat>, n8: nat, t: int)
    requires n8 > 0 && |x| == |y| == 8 * n8 && Aliased(x, n8) == Aliased(y, n8) && AtLeast2(factors)
    ensures Error(x, sincos, w, factors, n8, t) == Error(y, sincos, w, factors, n8, t)
  {
    hide FoldAt, MdctOut, ImdctOf, Aliased;
    forall k: nat | k < 2 * n8
      ensures MdctIn(x, sincos, n8)[k] == MdctIn(y, sincos, n8)[k]
    {
      FoldOfAliases(x, y, n8, k);
    }
    assert MdctIn(x, sincos, n8) == MdctIn(y, sincos, n8);
  }

  /* ---------- A run that does not come back ---------- */

  /** Only the first two blocks reach into the second frame. */
  lemma {:induction false} SecondFrame(bs: seq<seq<real>>, n: nat, t: nat)
    requires |bs| >= 2 && t < n && forall b | b in bs :: |b| == 2 * n
    ensures Layered(bs, n, n + t) == bs[0][n + t] + bs[1][t]
    decreases |bs|
  {
    var m := |bs| - 1;
    if m >= 2 {
      SecondFrame(bs[..m], n, t);
      LaterBlock(m, n);
    } else {
      assert bs[..1][..0] == [];
      assert Layered(bs[..1], n, n + t) == 0.0 + RAt(bs[0], n + t - 0 * n);
      assert Layered(bs, n, n + t) == Layered(bs[..1], n, n + t) + RAt(bs[1], n + t - 1 * n);
    }
  }

  lemma LaterBlock(m: nat, n: nat)
    requires m >= 2
    ensures m * n >= 2 * n
  {}

  /** Samples with the two-frame segment `s` at frame `k` and silence elsewhere. */
  function Around(s: seq<real>, k: nat, frames: nat, n: nat): (x: seq<real>)
    requires |s| == 2 * n && k < 2 <= frames
    ensures |x| == (frames + 1) * n
  {
    var size := (frames + 1) * n;
    LaterBlock(frames + 1, n);
    EnoughFrames(frames, n);
    seq(size, t requires 0 <= t < size => if k * n <= t < k * n + 2 * n then s[t - k * n] else 0.0)
  }

  lemma EnoughFrames(frames: nat, n: nat)
    requires frames >= 2
    ensures (frames + 1) * n >= 3 * n
  {}

  lemma AroundSegment(s: seq<real>, k: nat, frames: nat, h: nat)
    requires |s| == 32 * h && k < 2 <= frames
    ensures |Around(s, k, frames, 16 * h)| >= (k + 2) * (16 * h) && Segment(Around(s, k, frames, 16 * h), h, k) == s
  {
    EnoughFrames(frames, 16 * h);
  }

  /** The segments of the first two frames. */
  ghost predicate FirstTwo(x: seq<real>, h: nat, x0: seq<real>, x1: seq<real>) {
    |x| >= 48 * h && x0 == x[..32 * h] && x1 == x[16 * h..48 * h]
  }

  lemma SegmentsAre(x: seq<real>, h: nat, frames: nat)
    requires frames >= 2 && |x| == (frames + 1) * (16 * h)
    ensures |x| >= 48 * h && |x| >= (0 + 2) * (16 * h) && |x| >= (1 + 2) * (16 * h)
    ensures Segment(x, h, 0) == x[..32 * h] && Segment(x, h, 1) == x[16 * h..48 * h]
  {
    EnoughFrames(frames, 16 * h);
  }

  /** A run that returns `x` joins its first two blocks up. */
  lemma ReturnedJoins(fs: seq<Frame>, h: nat, x: seq<real>, x0: seq<real>, x1: seq<real>,
                      sincos: seq<Complex>, w: Complex, factors: seq<nat>, t: nat)
    requires |fs| >= 2 && |x| == (|fs| + 1) * (16 * h) && AtLeast2(factors) && t < 16 * h
    requires Returned(fs, h, x, sincos, w, factors) && FirstTwo(x, h, x0, x1)
    ensures Joins(fs[0], fs[1], h, x0, x1, sincos, w, factors, t) && x0[16 * h..] == x1[..16 * h]
  {
    hide Coded, Layered, Synthesis;
    var n := 16 * h;
    SegmentsAre(x, h, |fs|);
    assert x0[n..] == x[n..2 * n] == x1[..n];
    LaterBlock(|fs|, n);
    var bs := CodedBlocks(fs, h, x, sincos, w, factors);
    SynthesisIsLayered(bs, n);
    SecondFrame(bs, n, t);
    assert RAt(x, n + t) == x1[t];
  }

  /** Whatever legal run of at least two frames, there are samples it does not return when five divides N/4. */
  lemma RunFails(fs: seq<Frame>, h: nat, sincos: seq<Complex>, w: Complex, factors: seq<nat>) returns (x: seq<real>)
    requires h > 0 && Legal(fs, h) && |fs| >= 2 && Scaled2(sincos, 4 * h) && PrimitiveRoot(w, 8 * h)
    requires Factors(factors, 8 * h) && AllRadix(factors) && (8 * h) % 5 == 0 && AtLeast2(factors)
    ensures |x| == (|fs| + 1) * (16 * h) && !Returned(fs, h, x, sincos, w, factors)
  {
    hide Scaled2, PrimitiveRoot, Factors, AllRadix, MdctOf, ImdctOf;
    hide Aliased, Returned, Windowed, Segment, GoodSlopes, Joins;
    var u := AliasingFails(sincos, w, factors, 4 * h);
    var t: nat := Differ(Recoded(u, sincos, w, factors, 4 * h), Aliased(u, 4 * h));
    var k := if t < 16 * h then 1 else 0;
    var s := Source(fs[k], h, u);
    x := Around(s, k, |fs|, 16 * h);
    AroundSegment(s, k, |fs|, h);
    SegmentsAre(x, h, |fs|);
    var x0, x1 := x[..32 * h], x[16 * h..48 * h];
    SourceAliases(fs[k], h, u);
    ErrorOfAliases(Windowed(fs[k].sq, fs[k].prev, fs[k].cur, h, s), u, sincos, w, factors, 4 * h, t);
    assert FrameError(fs[k], h, s, sincos, w, factors, t) != 0.0;
    if Returned(fs, h, x, sincos, w, factors) {
      var j: nat := if t < 16 * h then t else t - 16 * h;
      ReturnedJoins(fs, h, x, x0, x1, sincos, w, factors, j);
      ReturnedJoins(fs, h, x, x0, x1, sincos, w, factors, 16 * h - 1 - j);
      NoErrors(fs[0], fs[1], h, x0, x1, sincos, w, factors, j);
    }
  }

  /** Where two blocks differ. */
  lemma Differ(x: seq<real>, y: seq<real>) returns (t: nat)
    requires |x| == |y| && x != y
    ensures t < |x| && x[t] != y[t]
  {
    t :| t < |x| && x[t] != y[t];
  }

  /* ---------- Main result ---------- */

  /**
    Coding every frame of a legal run of long sequences with
    `filter_bank_ltp` and decoding it with `ifilter_bank` returns all samples
    exactly when five does not divide N/4. This holds for every legal run of
    two frames or more, whatever its sequences and power-complementary
    slopes; a shorter run returns no sample at all.
   */
  lemma ReconstructionIff(fs: seq<Frame>, h: nat, sincos: seq<Complex>, w: Complex, factors: seq<nat>)
    requires h > 0 && Legal(fs, h) && |fs| >= 2 && Scaled2(sincos, 4 * h) && PrimitiveRoot(w, 8 * h)
    requires Factors(factors, 8 * h) && AllRadix(factors)
    ensures AtLeast2(factors)
    ensures (forall x: seq<real> | |x| == (|fs| + 1) * (16 * h) :: Returned(fs, h, x, sincos, w, factors))
       <==> (8 * h) % 5 != 0
  {
    hide Scaled2, PrimitiveRoot, Factors, Legal, Returned;
    FactorsAtLeast2(factors, 8 * h);
    if (8 * h) % 5 != 0 {
      forall x: seq<real> | |x| == (|fs| + 1) * (16 * h)
        ensures Returned(fs, h, x, sincos, w, factors)
      {
        PerfectReconstruction(fs, h, x, sincos, w, factors);
        ReturnedIs(fs, h, x, sincos, w, factors);
      }
    } else {
      var x := RunFails(fs, h, sincos, w, factors);
    }
  }

  lemma ReturnedIs(fs: seq<Frame>, h: nat, x: seq<real>, sincos: seq<Complex>, w: Complex, factors: seq<nat>)
    requires |x| == (|fs| + 1) * (16 * h) && AtLeast2(factors)
    requires var r := Synthesis(CodedBlocks(fs, h, x, sincos, w, factors), 16 * h, seq(16 * h, _ => 0.0)).0;
             |r| == |fs| * (16 * h) && forall t | 16 * h <= t < |fs| * (16 * h) :: r[t] == RAt(x, t)
    ensures Returned(fs, h, x, sincos, w, factors)
  {}
}
