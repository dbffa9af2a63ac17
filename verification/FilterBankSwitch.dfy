/** Decoding runs that switch between long and short blocks with `ifilter_bank`. */
module FilterBankSwitch {
  import opened Complexes
  import opened DftInverse
  import opened CfftFactors
  import opened CfftDriver
  import opened Mdct
  import opened MdctInfo
  import opened MdctExact
  import opened FilterBankSpec
  import opened FilterBank
  import opened FilterBankRuns
  import opened FilterBankShort
  import opened FilterBankCodec

  /** A short transform's factor list. */
  ghost predicate ShortFactors(factors: seq<nat>, h: nat) {
    AtLeast2(factors) && Factors(factors, h) && AllRadix(factors)
  }

  ghost predicate LongFactors(factors: seq<nat>, h: nat) {
    AtLeast2(factors) && Factors(factors, 8 * h) && AllRadix(factors)
  }

  /**
    Coefficients that stand for the samples `x` of a frame: the forward
    transform of the windowed block, or of the eight windowed short blocks in
    their order.
   */
  ghost predicate CodedAs(b: Bank, f: Frame, x: seq<real>, freq: seq<real>, long: seq<nat>, short: seq<nat>)
    requires AtLeast2(long) && AtLeast2(short)
  {
    && |freq| == 16 * b.h && |x| == 32 * b.h
    && (f.sq != EightShort ==>
          freq == MdctOf(Windowed(f.sq, f.prev, f.cur, b.h, x), b.mdct2048.sincos, b.mdct2048.cfft.w, long,
              4 * b.h)[..16 * b.h])
    && (f.sq == EightShort ==> forall k: nat | k < 8 :: ShortCoded(b, f, x, freq, short, k))
  }

  /** Coefficients 2hk to 2hk + 2h are those of short block `k`. */
  ghost predicate ShortCoded(b: Bank, f: Frame, x: seq<real>, freq: seq<real>, short: seq<nat>, k: nat)
    requires AtLeast2(short) && |freq| == 16 * b.h && k < 8
  {
    ShortBefore(k, 2 * b.h);
    var n8 := b.mdct256.n8;
    && 4 * n8 == 2 * b.h
    && freq[k * (2 * b.h)..(k + 1) * (2 * b.h)]
         == MdctOf(ShortWindowed(f, b.h, x, k), b.mdct256.sincos, b.mdct256.cfft.w, short, n8)[..4 * n8]
  }

  /** What the transforms of a valid bank are good for. */
  lemma BankTransforms(b: Bank)
    requires b.Valid()
    ensures b.h > 0 && b.h % 4 == 0 && 2 * b.mdct256.n8 == b.h && b.mdct2048.n8 == 4 * b.h
    ensures Scaled2(b.mdct256.sincos, b.mdct256.n8) && PrimitiveRoot(b.mdct256.cfft.w, 2 * b.mdct256.n8)
    ensures Scaled2(b.mdct2048.sincos, 4 * b.h) && PrimitiveRoot(b.mdct2048.cfft.w, 8 * b.h)
  {
    hide PrimitiveRoot, Scaled2, Factors, Table, FiveSmooth;
  }

  /** The first half of the coefficients is enough to get a block back, aliased. */
  lemma HalfBack(u: seq<real>, sincos: seq<Complex>, w: Complex, factors: seq<nat>, n8: nat, freq: seq<real>)
    requires n8 > 0 && |u| == 8 * n8 && Scaled2(sincos, n8) && PrimitiveRoot(w, 2 * n8)
    requires AtLeast2(factors) && Factors(factors, 2 * n8) && AllRadix(factors) && (2 * n8) % 5 != 0
    requires freq == MdctOf(u, sincos, w, factors, n8)[..4 * n8]
    ensures ImdctOf(freq, sincos, w, n8) == Aliased(u, n8)
  {
    hide MdctOf, ImdctOf, Scaled2, PrimitiveRoot, Factors, AllRadix, Aliased;
    HalfEnough(MdctOf(u, sincos, w, factors, n8), sincos, w, n8);
    AliasingHolds(u, sincos, w, factors, n8);
  }

  lemma ShortPieceBack(b: Bank, f: Frame, x: seq<real>, freq: seq<real>, short: seq<nat>, k: nat)
    requires b.Valid() && ShortFactors(short, b.h) && b.h % 5 != 0 && k < 8
    requires |freq| == 16 * b.h && ShortCoded(b, f, x, freq, short, k)
    ensures 0 <= k * (2 * b.h) <= (k + 1) * (2 * b.h) <= 16 * b.h && 8 * b.mdct256.n8 == 4 * b.h
    ensures ImdctOf(freq[k * (2 * b.h)..(k + 1) * (2 * b.h)], b.mdct256.sincos, b.mdct256.cfft.w, b.mdct256.n8)
         == Aliased(ShortWindowed(f, b.h, x, k), b.mdct256.n8)
  {
    hide Bank.Valid, ShortWindowed, MdctOf, ImdctOf, Scaled2, PrimitiveRoot, Aliased, Factors, AllRadix;
    BankTransforms(b);
    ShortBefore(k, 2 * b.h);
    HalfBack(ShortWindowed(f, b.h, x, k), b.mdct256.sincos, b.mdct256.cfft.w, short, b.mdct256.n8,
             freq[k * (2 * b.h)..(k + 1) * (2 * b.h)]);
  }

  lemma AliasedElement(u: seq<real>, n8: nat, y: seq<real>, o: nat, e: nat, i: nat)
    requires o <= e <= |y| && y[o..e] == Aliased(u, n8) && i < 8 * n8
    ensures RAt(y, o + i) == AliasAt(u, n8, i)
  {
    hide AliasAt;
    assert y[o..e][i] == y[o + i];
  }

  /** The short blocks of a coded frame come back aliased. */
  lemma ShortBack(b: Bank, f: Frame, x: seq<real>, freq: seq<real>, short: seq<nat>, k: nat, i: nat)
    requires b.Valid() && ShortFactors(short, b.h) && b.h % 5 != 0 && k < 8 && i < 4 * b.h
    requires |freq| == 16 * b.h && ShortCoded(b, f, x, freq, short, k)
    ensures RAt(b.ShortInverse(freq, 8), 4 * b.h * k + i) == AliasAt(ShortWindowed(f, b.h, x, k), b.h / 2, i)
  {
    hide Bank.Valid, ShortWindowed, ImdctOf, Aliased, ShortFactors, ShortCoded, RAt, AliasAt, Bank.ShortInverse;
    ShortSizes(b);
    ShortPieceBack(b, f, x, freq, short, k);
    b.ShortInverseAt(freq, 8, k);
    BlockStart(k, b.h);
    AliasedElement(ShortWindowed(f, b.h, x, k), b.mdct256.n8, b.ShortInverse(freq, 8), k * (4 * b.h),
        (k + 1) * (4 * b.h), i);
  }

  lemma ShortSizes(b: Bank)
    requires b.Valid()
    ensures 2 * b.mdct256.n8 == b.h && b.h / 2 == b.mdct256.n8 && b.h > 0 && b.h % 2 == 0
  {}

  lemma BlockStart(k: nat, h: nat)
    requires k < 8
    ensures k * (4 * h) == 4 * h * k && (k + 1) * (4 * h) == 4 * h * k + 4 * h <= 32 * h
  {}

  /** A coded frame of any sequence lays down what its samples call for. */
  lemma CodedLaysDown(b: Bank, f: Frame, x: seq<real>, freq: seq<real>, long: seq<nat>, short: seq<nat>)
    requires b.Valid() && LongFactors(long, b.h) && ShortFactors(short, b.h) && b.h % 5 != 0
    requires GoodSlopes(f.prev, b.h) && GoodSlopes(f.cur, b.h) && CodedAs(b, f, x, freq, long, short)
    ensures Windowed(f.sq, f.prev, f.cur, b.h, b.Inverse(f.sq, freq, false)) == LaidDown(f, b.h, x)
  {
    if f.sq == EightShort {
      ShortFrameLaysDown(b, f, x, freq, long, short);
    } else {
      LongFrameLaysDown(b, f, x, freq, long, short);
    }
  }

  lemma ShortFrameLaysDown(b: Bank, f: Frame, x: seq<real>, freq: seq<real>, long: seq<nat>, short: seq<nat>)
    requires b.Valid() && AtLeast2(long) && ShortFactors(short, b.h) && b.h % 5 != 0 && f.sq == EightShort
    requires GoodSlopes(f.prev, b.h) && GoodSlopes(f.cur, b.h) && CodedAs(b, f, x, freq, long, short)
    ensures Windowed(f.sq, f.prev, f.cur, b.h, b.Inverse(f.sq, freq, false)) == LaidDown(f, b.h, x)
  {
    hide Bank.Valid, Bank.ShortInverse, ShortWindowed, RAt, AliasAt, GoodSlopes, ShortCoded, Windowed, LaidDown;
    ShortSizes(b);
    forall k: nat, i: nat | k < 8 && i < 4 * b.h
      ensures RAt(b.ShortInverse(freq, 8), 4 * b.h * k + i) == AliasAt(ShortWindowed(f, b.h, x, k), b.h / 2, i)
    {
      ShortBack(b, f, x, freq, short, k, i);
    }
    ShortLaysDown(f, b.h, x, b.ShortInverse(freq, 8));
  }

  lemma LongFrameLaysDown(b: Bank, f: Frame, x: seq<real>, freq: seq<real>, long: seq<nat>, short: seq<nat>)
    requires b.Valid() && LongFactors(long, b.h) && AtLeast2(short) && b.h % 5 != 0 && f.sq != EightShort
    requires CodedAs(b, f, x, freq, long, short)
    ensures Windowed(f.sq, f.prev, f.cur, b.h, b.Inverse(f.sq, freq, false)) == LaidDown(f, b.h, x)
  {
    hide Bank.Valid, Windowed, MdctOf, ImdctOf, Scaled2, PrimitiveRoot, Aliased, Factors, AllRadix;
    BankTransforms(b);
    EightTimes(b.h);
    HalfBack(Windowed(f.sq, f.prev, f.cur, b.h, x), b.mdct2048.sincos, b.mdct2048.cfft.w, long, 4 * b.h, freq);
    var block := Laid(f, b.h, x);
    assert block[..16 * b.h] + block[16 * b.h..] == block;
  }

  lemma EightTimes(h: nat)
    requires h % 5 != 0
    ensures (8 * h) % 5 != 0 && (2 * (4 * h)) % 5 != 0
  {}

  /** The coefficients of every frame of a run stand for its samples. */
  ghost predicate RunCoded(b: Bank, fs: seq<Frame>, x: seq<real>, freqs: seq<seq<real>>, long: seq<nat>,
      short: seq<nat>)
    requires |x| == (|fs| + 1) * (16 * b.h) && |freqs| == |fs| && AtLeast2(long) && AtLeast2(short)
  {
    forall k: nat | k < |fs| :: FrameCoded(b, fs, x, freqs, long, short, k)
  }

  ghost predicate FrameCoded(b: Bank, fs: seq<Frame>, x: seq<real>, freqs: seq<seq<real>>, long: seq<nat>,
                             short: seq<nat>, k: nat)
    requires |x| == (|fs| + 1) * (16 * b.h) && |freqs| == |fs| && AtLeast2(long) && AtLeast2(short) && k < |fs|
  {
    SegmentFits(k, |fs|, 16 * b.h);
    CodedAs(b, fs[k], Segment(x, b.h, k), freqs[k], long, short)
  }

  /**
    `ifilter_bank` over a run that switches between long and short blocks as
    the standard allows: it gives back the samples that the coefficients
    stand for, from the second frame on.
   */
  method DecodeRun(b: Bank, modes: seq<Mode>, first: Shape, freqs: seq<seq<real>>, ghost x: seq<real>,
                   ghost long: seq<nat>, ghost short: seq<nat>) returns (out: seq<real>)
    requires b.Valid() && LongFactors(long, b.h) && ShortFactors(short, b.h) && b.h % 5 != 0
    requires |freqs| == |modes| && |x| == (|modes| + 1) * (16 * b.h) && Switching(Frames(b, modes, first), b.h)
    requires RunCoded(b, Frames(b, modes, first), x, freqs, long, short)
    modifies b.mdct256.cfft.work, b.mdct2048.cfft.work, b.mdct1024.cfft.work
    ensures b.Valid() && |out| == |modes| * (16 * b.h)
    ensures forall t | 16 * b.h <= t < |out| :: out[t] == RAt(x, t)
  {
    hide Bank.Valid, Bank.Inverse, Switching, RunCoded, LaidDown, DownBlocks, Frames;
    hide TimeOut, NewOverlap, Synthesis, Windowed, LongFactors, ShortFactors;
    var n := 16 * b.h;
    ghost var fs := Frames(b, modes, first);
    ghost var bs, zero := DownBlocks(fs, b.h, x), seq(n, _ => 0.0);
    var timeOut, overlap := new real[n](_ => 0.0), new real[n](_ => 0.0);
    var prev, k := first, 0;
    out := [];
    assert overlap[..] == zero;
    Silence(bs, n, zero);
    FactorsKnown(b, long, short);
    while k < |modes|
      invariant 0 <= k <= |modes| && b.Valid()
      invariant prev == if k == 0 then first else modes[k - 1].shape
      invariant (out, overlap[..]) == Synthesis(bs[..k], n, zero)
    {
      SynthesisTurn(bs, k, n, zero);
      FrameLaysDown(b, fs, x, freqs, long, short, k);
      FrameAt(b, modes, first, k);
      b.IfilterBank(modes[k].sq, modes[k].shape, prev, freqs[k], timeOut, overlap, false);
      out := out + timeOut[..];
      prev := modes[k].shape;
      k := k + 1;
    }
    assert bs[..k] == bs;
    HPositive(b);
    SwitchingReturns(fs, b.h, x);
  }

  lemma FrameAt(b: Bank, modes: seq<Mode>, first: Shape, k: nat)
    requires k < |modes|
    ensures Frames(b, modes, first)[k] == Frame(modes[k].sq,
              b.SlopesOf(if k == 0 then first else modes[k - 1].shape, false), b.SlopesOf(modes[k].shape, false))
  {}

  lemma HPositive(b: Bank)
    requires b.Valid()
    ensures b.h > 0
  {}

  lemma FactorsKnown(b: Bank, long: seq<nat>, short: seq<nat>)
    requires LongFactors(long, b.h) && ShortFactors(short, b.h)
    ensures AtLeast2(long) && AtLeast2(short)
  {}

  lemma FrameLaysDown(b: Bank, fs: seq<Frame>, x: seq<real>, freqs: seq<seq<real>>, long: seq<nat>, short: seq<nat>,
      k: nat)
    requires b.Valid() && LongFactors(long, b.h) && ShortFactors(short, b.h) && b.h % 5 != 0
    requires |x| == (|fs| + 1) * (16 * b.h) && |freqs| == |fs| && k < |fs| && Switching(fs, b.h)
    requires AtLeast2(long) && AtLeast2(short) && RunCoded(b, fs, x, freqs, long, short)
    ensures |freqs[k]| == 16 * b.h
    ensures Windowed(fs[k].sq, fs[k].prev, fs[k].cur, b.h, b.Inverse(fs[k].sq, freqs[k], false))
        == DownBlocks(fs, b.h, x)[k]
  {
    hide Bank.Valid, LaidDown, Windowed, Bank.Inverse, LongFactors, ShortFactors, GoodSlopes, Segment;
    SegmentFits(k, |fs|, 16 * b.h);
    assert FrameCoded(b, fs, x, freqs, long, short, k);
    CodedLaysDown(b, fs[k], Segment(x, b.h, k), freqs[k], long, short);
  }
}
