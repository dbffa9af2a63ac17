/** `filter_bank_ltp` and `ifilter_bank` one after the other, frame by frame. */
module FilterBankCodec {
  import opened Complexes
  import opened DftInverse
  import opened CfftFactors
  import opened CfftDriver
  import opened Mdct
  import opened MdctInfo
  import opened FilterBankSpec
  import opened FilterBank
  import opened FilterBankRuns
  import opened FilterBankExact

  /** Window sequence and shape of a frame. */
  datatype Mode = Mode(sq: WindowSequence, shape: Shape)

  /** The frames of a run that begins with shape `first`. */
  function Frames(b: Bank, modes: seq<Mode>, first: Shape): (fs: seq<Frame>)
    ensures |fs| == |modes|
  {
    seq(|modes|, k requires 0 <= k < |modes| =>
      Frame(modes[k].sq, b.SlopesOf(if k == 0 then first else modes[k - 1].shape, false),
          b.SlopesOf(modes[k].shape, false)))
  }

  /** The inverse transform reads the first half of the coefficients only. */
  lemma HalfEnough(coef: seq<real>, sincos: seq<Complex>, w: Complex, n8: nat)
    requires |coef| == 8 * n8
    ensures ImdctOf(coef[..4 * n8], sincos, w, n8) == ImdctOf(coef, sincos, w, n8)
  {
    hide Mul;
    assert ImdctIn(coef[..4 * n8], sincos, n8) == ImdctIn(coef, sincos, n8);
  }

  /** The blocks of a run so far. */
  ghost function BlocksOf(b: Bank, modes: seq<Mode>, first: Shape, x: seq<real>,
      factors: seq<nat>): (bs: seq<seq<real>>)
    requires |x| == (|modes| + 1) * (16 * b.h) && AtLeast2(factors)
    ensures |bs| == |modes|
  {
    CodedBlocks(Frames(b, modes, first), b.h, x, b.mdct2048.sincos, b.mdct2048.cfft.w, factors)
  }

  /** The factor list of the long transform. */
  ghost function BankFactors(b: Bank): seq<nat>
    requires b.mdct2048.cfft.ifac.Length == 15 && b.mdct2048.cfft.ifac[1] <= 10
    reads b.mdct2048.cfft.ifac
  {
    b.mdct2048.cfft.Fs()
  }

  lemma FactorsFit(b: Bank)
    requires b.Valid()
    ensures b.mdct2048.cfft.ifac.Length == 15 && b.mdct2048.cfft.ifac[1] <= 10 && b.mdct2048.n8 == 4 * b.h
    ensures var fs := BankFactors(b); AtLeast2(fs) && Factors(fs, 8 * b.h) && AllRadix(fs)
  {
    hide Factors, Table, PrimitiveRoot, FiveSmooth;
    FactorsAtLeast2(b.mdct2048.cfft.Fs(), b.mdct2048.cfft.n);
  }

  /** One frame: window and transform, transform back and overlap-add. */
  method CodeFrame(b: Bank, m: Mode, prev: Shape, inData: array<real>, coef: array<real>, timeOut: array<real>,
                   overlap: array<real>, ghost factors: seq<nat>)
    requires b.Valid() && m.sq != EightShort
    requires b.mdct2048.cfft.ifac.Length == 15 && b.mdct2048.cfft.ifac[1] <= 10
    requires BankFactors(b) == factors && AtLeast2(factors)
    requires inData.Length == coef.Length == 32 * b.h && timeOut.Length == overlap.Length == 16 * b.h
    requires inData != coef && timeOut != overlap && coef != timeOut
    requires coef != overlap && inData != timeOut && inData != overlap
    modifies coef, timeOut, overlap, b.mdct256.cfft.work, b.mdct2048.cfft.work, b.mdct1024.cfft.work
    ensures b.Valid()
    ensures var block := Coded(Frame(m.sq, b.SlopesOf(prev, false), b.SlopesOf(m.shape, false)), b.h, inData[..],
                               b.mdct2048.sincos, b.mdct2048.cfft.w, factors);
            timeOut[..] == TimeOut(old(overlap[..]), block, 16 * b.h) && overlap[..] == NewOverlap(block, 16 * b.h)
  {
    hide Bank.Valid, Windowed, MdctOf, ImdctOf, TimeOut, NewOverlap, Apart;
    assert b.mdct2048.n8 == 4 * b.h by { FactorsFit(b); }
    b.FilterBankLtp(m.sq, m.shape, prev, inData, coef, false);
    HalfEnough(coef[..], b.mdct2048.sincos, b.mdct2048.cfft.w, 4 * b.h);
    b.IfilterBank(m.sq, m.shape, prev, coef[..16 * b.h], timeOut, overlap, false);
    assert coef[..16 * b.h] == coef[..][..4 * (4 * b.h)];
  }

  /**
    Coding and decoding a run gives the overlap-add of its coded blocks; for a
    legal run and a frame length that five does not divide, that is the samples.
   */
  method CodeRun(b: Bank, modes: seq<Mode>, first: Shape, x: seq<real>) returns (out: seq<real>,
      ghost factors: seq<nat>)
    requires b.Valid() && |x| == (|modes| + 1) * (16 * b.h) && forall m | m in modes :: m.sq != EightShort
    modifies b.mdct256.cfft.work, b.mdct2048.cfft.work, b.mdct1024.cfft.work
    ensures b.Valid() && AtLeast2(factors) && Factors(factors, 8 * b.h) && AllRadix(factors)
    ensures out == Synthesis(BlocksOf(b, modes, first, x, factors), 16 * b.h, seq(16 * b.h, _ => 0.0)).0
    ensures |out| == |modes| * (16 * b.h)
    ensures (forall t | 16 * b.h <= t < |out| :: out[t] == RAt(x, t)) <==> RunReturned(b, modes, first, x, factors)
    ensures Legal(Frames(b, modes, first), b.h) && (8 * b.h) % 5 != 0 ==> forall t | 16 * b.h <= t < |out| ::
              out[t] == RAt(x, t)
  {
    hide Bank.Valid, Legal, RunReturned, BlocksOf, Coded, Factors, TimeOut, NewOverlap, AllRadix, Synthesis, Segment;
    FactorsFit(b);
    factors := BankFactors(b);
    var n := 16 * b.h;
    ghost var bs, zero := BlocksOf(b, modes, first, x, factors), seq(n, _ => 0.0);
    var timeOut, overlap := new real[n](_ => 0.0), new real[n](_ => 0.0);
    var prev, k := first, 0;
    out := [];
    assert overlap[..] == zero;
    Silence(bs, n, zero);
    while k < |modes|
      invariant 0 <= k <= |modes| && b.Valid() && BankFactors(b) == factors
      invariant prev == if k == 0 then first else modes[k - 1].shape
      invariant (out, overlap[..]) == Synthesis(bs[..k], n, zero)
    {
      SegmentFits(k, |modes|, n);
      var inData := TwoFrames(x, b.h, k);
      var coef := new real[2 * n](_ => 0.0);
      SynthesisTurn(bs, k, n, zero);
      CodeFrame(b, modes[k], prev, inData, coef, timeOut, overlap, factors);
      BlockIs(b, modes, first, x, factors, k);
      out := out + timeOut[..];
      prev := modes[k].shape;
      k := k + 1;
    }
    assert bs[..k] == bs;
    OutputIs(b, modes, first, x, factors, out);
    if Legal(Frames(b, modes, first), b.h) && (8 * b.h) % 5 != 0 && |modes| >= 2 {
      BankReturnsIff(b, modes, first, factors);
    }
  }

  /** The bank gives the samples `x` of a run back. */
  ghost predicate RunReturned(b: Bank, modes: seq<Mode>, first: Shape, x: seq<real>, factors: seq<nat>)
    requires |x| == (|modes| + 1) * (16 * b.h) && AtLeast2(factors)
  {
    Returned(Frames(b, modes, first), b.h, x, b.mdct2048.sincos, b.mdct2048.cfft.w, factors)
  }

  lemma OutputIs(b: Bank, modes: seq<Mode>, first: Shape, x: seq<real>, factors: seq<nat>, out: seq<real>)
    requires |x| == (|modes| + 1) * (16 * b.h) && AtLeast2(factors)
    requires out == Synthesis(BlocksOf(b, modes, first, x, factors), 16 * b.h, seq(16 * b.h, _ => 0.0)).0
    ensures |out| == |modes| * (16 * b.h)
    ensures RunReturned(b, modes, first, x, factors) <==> forall t | 16 * b.h <= t < |out| :: out[t] == RAt(x, t)
  {
    hide Coded, Frames, Synthesis;
    SynthesisIsLayered(BlocksOf(b, modes, first, x, factors), 16 * b.h);
  }

  /**
    Whatever power-complementary windows the bank has: a legal run of two
    frames or more gives all samples back exactly when five does not divide
    N/4. It does for frames of 1024 samples (h = 64), not for 960 (h = 60).
   */
  lemma BankReturnsIff(b: Bank, modes: seq<Mode>, first: Shape, factors: seq<nat>)
    requires b.Valid() && |modes| >= 2 && Legal(Frames(b, modes, first), b.h)
    requires AtLeast2(factors) && Factors(factors, 8 * b.h) && AllRadix(factors)
    ensures (forall x: seq<real> | |x| == (|modes| + 1) * (16 * b.h) :: RunReturned(b, modes, first, x, factors))
       <==> (8 * b.h) % 5 != 0
    ensures b.h == 64 ==> forall x: seq<real> | |x| == (|modes| + 1) * 1024 :: RunReturned(b, modes, first, x, factors)
    ensures b.h == 60 ==> exists x: seq<real> :: |x| == (|modes| + 1) * 960 && !RunReturned(b, modes, first, x, factors)
  {
    hide Factors, Legal, Frames, PrimitiveRoot, Scaled2, Returned, FiveSmooth, Table;
    var fs := Frames(b, modes, first);
    ReconstructionIff(fs, b.h, b.mdct2048.sincos, b.mdct2048.cfft.w, factors);
    assert forall x: seq<real> | |x| == (|modes| + 1) * (16 * b.h) ::
        RunReturned(b, modes, first, x, factors) == Returned(fs, b.h, x, b.mdct2048.sincos, b.mdct2048.cfft.w, factors);
  }

  /** The two frames of samples from frame `k` on. */
  method TwoFrames(x: seq<real>, h: nat, k: nat) returns (a: array<real>)
    requires |x| >= (k + 2) * (16 * h)
    ensures fresh(a) && a.Length == 32 * h && a[..] == Segment(x, h, k)
  {
    SegmentBounds(k, 16 * h);
    var o := k * (16 * h);
    a := new real[32 * h](t requires 0 <= t < 32 * h => x[o + t]);
  }

  lemma Silence(bs: seq<seq<real>>, n: nat, zero: seq<real>)
    ensures Synthesis(bs[..0], n, zero) == ([], zero)
  {}

  lemma SynthesisTurn(bs: seq<seq<real>>, k: nat, n: nat, zero: seq<real>)
    requires k < |bs|
    ensures var s := Synthesis(bs[..k], n, zero);
            Synthesis(bs[..k + 1], n, zero) == (s.0 + TimeOut(s.1, bs[k], n), NewOverlap(bs[k], n))
  {
    hide TimeOut, NewOverlap;
    assert bs[..k + 1][..k] == bs[..k] && bs[..k + 1][k] == bs[k];
  }

  lemma BlockIs(b: Bank, modes: seq<Mode>, first: Shape, x: seq<real>, factors: seq<nat>, k: nat)
    requires |x| == (|modes| + 1) * (16 * b.h) && AtLeast2(factors) && k < |modes|
    ensures |x| >= (k + 2) * (16 * b.h)
    ensures BlocksOf(b, modes, first, x, factors)[k]
              == Coded(Frame(modes[k].sq, b.SlopesOf(if k == 0 then first else modes[k - 1].shape, false),
                  b.SlopesOf(modes[k].shape, false)),
                       b.h, Segment(x, b.h, k), b.mdct2048.sincos, b.mdct2048.cfft.w, factors)
  {
    hide Coded, Segment;
    SegmentFits(k, |modes|, 16 * b.h);
  }
}
