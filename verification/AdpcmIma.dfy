/** The two IMA ADPCM decoders of libadpcm/adpcm_decode.c, and how far apart they are. */
module AdpcmIma {
  const STEPS: seq<int> := [
    7, 8, 9, 10, 11, 12, 13, 14, 16, 17,
    19, 21, 23, 25, 28, 31, 34, 37, 41, 45,
    50, 55, 60, 66, 73, 80, 88, 97, 107, 118,
    130, 143, 157, 173, 190, 209, 230, 253, 279, 307,
    337, 371, 408, 449, 494, 544, 598, 658, 724, 796,
    876, 963, 1060, 1166, 1282, 1411, 1552, 1707, 1878, 2066,
    2272, 2499, 2749, 3024, 3327, 3660, 4026, 4428, 4871, 5358,
    5894, 6484, 7132, 7845, 8630, 9493, 10442, 11487, 12635, 13899,
    15289, 16818, 18500, 20350, 22385, 24623, 27086, 29794, 32767]

  const INDEX_MOVES: seq<int> := [-1, -1, -1, -1, 2, 4, 6, 8, -1, -1, -1, -1, 2, 4, 6, 8]

  type Code = c: int | 0 <= c < 16
  type Byte = b: int | 0 <= b < 256

  function Clamp(x: int, min: int, max: int): int { if x > max then max else if x < min then min else x }

  function ClampS16(x: int): int { Clamp(x, -32768, 32767) }

  function NextIndex(i: int, c: Code): (r: int)
    ensures 0 <= r <= 88
  {
    Clamp(i + INDEX_MOVES[c], 0, 88)
  }

  function StepOf(i: int): int { if 0 <= i <= 88 then STEPS[i] else 0 }

  /** `decode_nibbles`: the step's parts selected by the three magnitude bits, each rounded down. */
  function PartsDiff(step: int, c: Code): int {
    var d := c % 8;
    step / 8 + (if d / 4 == 1 then step else 0) + (if d / 2 % 2 == 1 then step / 2 else 0)
        + (if d % 2 == 1 then step / 4 else 0)
  }

  /** `adpcmdec_decode_ima_block`: the whole product, rounded down once. */
  function ProductDiff(step: int, c: Code): int { (2 * (c % 8) * step + step) / 8 }

  /** The second formula never gives less, and at most two more. */
  lemma DiffsClose(step: int, c: Code)
    ensures 0 <= ProductDiff(step, c) - PartsDiff(step, c) <= 2
  {
    var d := c % 8;
    if d == 0 {} else if d == 1 {} else if d == 2 {} else if d == 3 {}
    else if d == 4 {} else if d == 5 {} else if d == 6 {} else {}
  }

  function Signed(diff: int, c: Code): int { if c >= 8 then -diff else diff }

  /** Predictor and step index of one channel after its first `k` codes; `exact` picks the difference formula. */
  function State(exact: bool, codes: seq<Code>, p: int, i: int, k: nat): (r: (int, int))
    requires k <= |codes|
  {
    if k == 0 then (p, i)
    else
      var s, c := State(exact, codes, p, i, k - 1), codes[k - 1];
      var diff := if exact then ProductDiff(StepOf(s.1), c) else PartsDiff(StepOf(s.1), c);
      (ClampS16(s.0 + Signed(diff, c)), NextIndex(s.1, c))
  }

  /** Both decoders walk the same step indices, within 0..88. */
  lemma {:induction false} SameIndices(codes: seq<Code>, p: int, i: int, k: nat)
    requires k <= |codes| && 0 <= i <= 88
    ensures State(true, codes, p, i, k).1 == State(false, codes, p, i, k).1
    ensures 0 <= State(true, codes, p, i, k).1 <= 88
  {
    hide ProductDiff, PartsDiff, ClampS16, StepOf;
    if k > 0 { SameIndices(codes, p, i, k - 1); }
  }

  lemma ClampClose(x: int, y: int, d: int)
    requires d >= 0 && -d <= x - y <= d
    ensures -d <= ClampS16(x) - ClampS16(y) <= d
  {}

  /** Their k-th samples differ by at most 2k. */
  lemma {:induction false} SamplesClose(codes: seq<Code>, p: int, i: int, k: nat)
    requires k <= |codes| && 0 <= i <= 88
    ensures -2 * k <= State(true, codes, p, i, k).0 - State(false, codes, p, i, k).0 <= 2 * k
  {
    hide State;
    StateStep(true, codes, p, i, k);
    StateStep(false, codes, p, i, k);
    if k > 0 {
      hide ProductDiff, PartsDiff, ClampS16, StepOf, NextIndex, Signed;
      SamplesClose(codes, p, i, k - 1);
      SameIndices(codes, p, i, k - 1);
      var a, b, c := State(true, codes, p, i, k - 1), State(false, codes, p, i, k - 1), codes[k - 1];
      DiffsClose(StepOf(a.1), c);
      SignedClose(ProductDiff(StepOf(a.1), c), PartsDiff(StepOf(a.1), c), c);
      ClampClose(a.0 + Signed(ProductDiff(StepOf(a.1), c), c), b.0 + Signed(PartsDiff(StepOf(a.1), c), c), 2 * k);
    }
  }

  lemma SignedClose(x: int, y: int, c: Code)
    requires 0 <= x - y <= 2
    ensures -2 <= Signed(x, c) - Signed(y, c) <= 2
  {}

  lemma StateStep(exact: bool, codes: seq<Code>, p: int, i: int, k: nat)
    requires k <= |codes|
    ensures k == 0 ==> State(exact, codes, p, i, k) == (p, i)
    ensures k > 0 ==> var s, c := State(exact, codes, p, i, k - 1), codes[k - 1];
                      State(exact, codes, p, i, k).0
                        == ClampS16(s.0 + Signed(
                             if exact then ProductDiff(StepOf(s.1), c) else PartsDiff(StepOf(s.1), c), c))
  {
    hide ProductDiff, PartsDiff, ClampS16, StepOf, NextIndex, Signed;
  }

  /** The byte of the k-th code of channel `c`: blocks of four bytes per channel. */
  function ByteFor(ch: nat, c: nat, k: nat): nat {
    (if ch == 1 then 4 * (k / 8) else 8 * (k / 8) + 4 * c) + (k % 8) / 2
  }

  /** The k-th code of channel `c`, low nibble first. */
  function CodeAt(data: seq<Byte>, ch: nat, c: nat, k: nat): Code {
    var j := ByteFor(ch, c, k);
    if j >= |data| then 0 else if k % 2 == 0 then data[j] % 16 else data[j] / 16
  }

  /** How many codes each channel has in `data`, the bytes after the preambles. */
  function Count(data: seq<Byte>, ch: nat): nat { if ch == 1 then 2 * |data| else |data| }

  function Codes(data: seq<Byte>, ch: nat, c: nat): (s: seq<Code>)
    ensures |s| == Count(data, ch)
  {
    seq(Count(data, ch), k requires k >= 0 => CodeAt(data, ch, c, k))
  }

  /* ---------- ima_adpcm_decode_block ---------- */

  /** The unsigned short that stands for a sample. */
  function U16(x: int): int { if x < 0 then x + 65536 else x }

  /** Channel and position of interleaved sample `o`. */
  function ChannelOf(o: nat, ch: nat): nat { if ch == 1 then 0 else o % 2 }

  function PositionOf(o: nat, ch: nat): nat { if ch == 1 then o else o / 2 }

  /** Sample `o` of the output, from the codes of its channel. */
  function SampleA(codes: seq<seq<Code>>, p: seq<int>, i: seq<int>, ch: nat, o: nat): int
    requires ChannelOf(o, ch) < |codes| && |p| == |i| == 2 && PositionOf(o, ch) < |codes[ChannelOf(o, ch)]|
  {
    var c := ChannelOf(o, ch);
    U16(State(false, codes[c], p[c], i[c], PositionOf(o, ch) + 1).0)
  }

  /** One turn of the loop of `decode_nibbles`, on the registers of one channel. */
  method NibbleStep(delta: Code, step: int, pred: int, index: int) returns (step': int, pred': int, index': int)
    requires step == StepOf(index)
    ensures index' == NextIndex(index, delta)
    ensures pred' == ClampS16(pred + Signed(PartsDiff(StepOf(index), delta), delta))
    ensures step' == StepOf(index')
  {
    index' := NextIndex(index, delta);
    pred' := ClampS16(pred + Signed(PartsDiff(step, delta), delta));
    step' := StepOf(index');
  }

  /** The codes of both channels are as long as the output needs. */
  ghost predicate Fits(codes: seq<seq<Code>>, ch: nat, n: nat) {
    && (ch == 1 || ch == 2) && |codes| == ch && n % ch == 0
    && forall c | 0 <= c < ch :: |codes[c]| == if ch == 1 then n else n / 2
  }

  /** `decode_nibbles`, in place: codes in, samples out, channels alternating. */
  method DecodeNibbles(output: array<int>, ch: nat, p: seq<int>, i: seq<int>, ghost codes: seq<seq<Code>>)
    requires |p| == |i| == 2 && 0 <= i[0] <= 88 && 0 <= i[1] <= 88 && Fits(codes, ch, output.Length)
    requires forall o: nat | o < output.Length :: output[o] == codes[ChannelOf(o, ch)][PositionOf(o, ch)]
    modifies output
    ensures forall o: nat | o < output.Length :: output[o] == SampleA(codes, p, i, ch, o)
  {
    hide PartsDiff, ProductDiff, ClampS16, U16, StepOf, NextIndex, Signed, SampleA;
    var step0, step1, pred0, pred1, index0, index1 := StepOf(i[0]), StepOf(i[1]), p[0], p[1], i[0], i[1];
    var channel, n := 0, 0;
    ghost var k0, k1 := 0, 0;
    while n < output.Length
      invariant 0 <= n <= output.Length && channel == ChannelOf(n, ch)
      invariant k0 == (if ch == 1 then n else (n + 1) / 2) && k1 == (if ch == 1 then 0 else n / 2)
      invariant forall o: nat | n <= o < output.Length :: output[o] == codes[ChannelOf(o, ch)][PositionOf(o, ch)]
      invariant forall o: nat | o < n :: output[o] == SampleA(codes, p, i, ch, o)
      invariant k0 <= |codes[0]| && (pred0, index0) == State(false, codes[0], p[0], i[0], k0)
      invariant ch == 2 ==> k1 <= |codes[1]| && (pred1, index1) == State(false, codes[1], p[1], i[1], k1)
      invariant step0 == StepOf(index0) && step1 == StepOf(index1)
    {
      var delta: Code := output[n];
      if channel == 0 {
        step0, pred0, index0 := NibbleStep(delta, step0, pred0, index0);
        output[n] := U16(pred0);
        k0 := k0 + 1;
      } else {
        step1, pred1, index1 := NibbleStep(delta, step1, pred1, index1);
        output[n] := U16(pred1);
        k1 := k1 + 1;
      }
      SampleIs(codes, p, i, ch, n);
      channel := if ch == 2 then 1 - channel else 0;
      n := n + 1;
    }
  }

  lemma SampleIs(codes: seq<seq<Code>>, p: seq<int>, i: seq<int>, ch: nat, o: nat)
    requires ChannelOf(o, ch) < |codes| && |p| == |i| == 2 && PositionOf(o, ch) < |codes[ChannelOf(o, ch)]|
    ensures var c, k := ChannelOf(o, ch), PositionOf(o, ch);
            var s := State(false, codes[c], p[c], i[c], k);
            SampleA(codes, p, i, ch, o) == U16(ClampS16(s.0 + Signed(PartsDiff(StepOf(s.1), codes[c][k]), codes[c][k])))
  {
    hide PartsDiff, ProductDiff, ClampS16, U16, StepOf, NextIndex, Signed;
  }

  /** Unpacking for one channel. */
  method UnpackMono(output: array<int>, data: seq<Byte>)
    requires output.Length == 2 * |data|
    modifies output
    ensures forall o: nat | o < output.Length :: output[o] == CodeAt(data, 1, 0, o)
  {
    var i := 0;
    while i < |data|
      invariant 0 <= i <= |data|
      invariant forall o: nat | o < 2 * i :: output[o] == CodeAt(data, 1, 0, o)
    {
      output[i * 2 + 0] := data[i] % 16;
      output[i * 2 + 1] := data[i] / 16;
      i := i + 1;
    }
  }

  /** Within a block of eight bytes: where byte `s` puts its low nibble; its high nibble goes two further. */
  function LowWithin(s: nat): nat { if s < 4 then 4 * s else 4 * (s - 4) + 1 }

  function LowAt(i: nat): nat { 16 * (i / 8) + LowWithin(i % 8) }

  /** The byte of sample `r` of a block of sixteen. */
  function ByteWithin(r: nat): nat { 4 * (r % 2) + r / 4 }

  lemma Within(r: nat, s: nat)
    requires r < 16 && s < 8
    ensures ByteWithin(r) < 8 && LowWithin(s) + 2 < 16
    ensures ByteWithin(r) == s <==> r == LowWithin(s) || r == LowWithin(s) + 2
  {
    var u := r / 4;
    var v := r - 4 * u;
    assert r % 2 == if v == 0 || v == 2 then 0 else 1;
  }

  lemma HalfOf(o: nat, q: nat, r: nat)
    requires o == 16 * q + r && r < 16
    ensures o / 2 == 8 * q + r / 2 && o % 2 == r % 2
  {}

  lemma QuarterOf(r: nat)
    ensures r / 2 / 2 == r / 4
  {}

  lemma ByteIn(c: nat, q: nat, h: nat)
    requires h < 8
    ensures ByteFor(2, c, 8 * q + h) == 8 * q + 4 * c + h / 2
  {
    DivEight(8 * q + h, q, h);
  }

  lemma DivEight(x: nat, q: nat, h: nat)
    requires x == 8 * q + h && h < 8
    ensures x / 8 == q && x % 8 == h
  {}

  lemma SameParity(x: nat, q: nat, h: nat)
    requires x == 8 * q + h
    ensures x % 2 == h % 2
  {}

  lemma ByteForAt(o: nat, q: nat, r: nat)
    requires o == 16 * q + r && r < 16
    ensures ByteFor(2, o % 2, o / 2) == 8 * q + ByteWithin(r) && o / 2 % 2 == r / 2 % 2
  {
    hide ByteFor;
    HalfOf(o, q, r);
    ByteIn(r % 2, q, r / 2);
    SameParity(o / 2, q, r / 2);
    QuarterOf(r);
  }

  lemma ByteForIs(o: nat, i: nat)
    ensures ByteFor(2, o % 2, o / 2) == i <==> o == LowAt(i) || o == LowAt(i) + 2
  {
    hide ByteFor, ByteWithin, LowWithin;
    ByteForAt(o, o / 16, o % 16);
    Within(o % 16, i % 8);
  }

  /** Unpacking for two channels: four bytes of the left one, then four of the right one. */
  method UnpackStereo(output: array<int>, data: seq<Byte>)
    requires output.Length == 2 * |data| && |data| % 8 == 0
    modifies output
    ensures forall o: nat | o < output.Length :: output[o] == CodeAt(data, 2, o % 2, o / 2)
  {
    hide ByteFor, LowAt;
    var counter, indexL, indexR := 0, 0, 1;
    var index := indexL;
    var i := 0;
    ghost var q := 0;
    while i < |data|
      invariant 0 <= i <= |data| && 0 <= counter < 8 && i == 8 * q + counter
      invariant index == (if counter < 4 then 16 * q + 4 * counter else 16 * q + 4 * (counter - 4) + 1)
      invariant if counter < 4 then indexR == 16 * q + 1 else indexL == 16 * q + 16
      invariant forall o: nat | o < output.Length && ByteFor(2, o % 2, o / 2) < i ::
                output[o] == CodeAt(data, 2, o % 2, o / 2)
    {
      LowAtIs(i, q, counter);
      forall o: nat
        ensures ByteFor(2, o % 2, o / 2) == i <==> o == LowAt(i) || o == LowAt(i) + 2
      {
        ByteForIs(o, i);
      }
      LowCode(data, i);
      output[index + 0] := data[i] % 16;
      output[index + 2] := data[i] / 16;
      index := index + 4;
      counter := counter + 1;
      if counter == 4 {
        indexL := index;
        index := indexR;
      } else if counter == 8 {
        indexR := index;
        index := indexL;
        counter := 0;
        q := q + 1;
      }
      i := i + 1;
    }
    forall o: nat | o < output.Length
      ensures ByteFor(2, o % 2, o / 2) < |data|
    {
      ByteInside(o, o / 16, o % 16, |data| / 8);
    }
  }

  lemma LowAtIs(i: nat, q: nat, counter: nat)
    requires i == 8 * q + counter && counter < 8
    ensures LowAt(i) == if counter < 4 then 16 * q + 4 * counter else 16 * q + 4 * (counter - 4) + 1
  {
    DivEight(i, q, counter);
  }

  lemma ByteInside(o: nat, q: nat, r: nat, w: nat)
    requires o == 16 * q + r && r < 16 && o < 16 * w
    ensures ByteFor(2, o % 2, o / 2) < 8 * w
  {
    hide ByteFor, ByteWithin, LowWithin;
    ByteForAt(o, q, r);
    Within(r, 0);
  }

  lemma LowCode(data: seq<Byte>, i: nat)
    requires i < |data|
    ensures CodeAt(data, 2, LowAt(i) % 2, LowAt(i) / 2) == data[i] % 16
    ensures CodeAt(data, 2, (LowAt(i) + 2) % 2, (LowAt(i) + 2) / 2) == data[i] / 16
  {
    hide ByteFor, LowAt;
    ByteForIs(LowAt(i), i);
    ByteForIs(LowAt(i) + 2, i);
    LowParity(i);
  }

  lemma LowParity(i: nat)
    ensures LowAt(i) / 2 % 2 == 0 && (LowAt(i) + 2) / 2 % 2 == 1
  {
    var p, s := i / 8, i % 8;
    assert LowAt(i) == 16 * p + LowWithin(s);
    LowHalf(p, s);
  }

  lemma LowHalf(p: nat, s: nat)
    requires s < 8
    ensures (16 * p + LowWithin(s)) / 2 % 2 == 0 && (16 * p + LowWithin(s) + 2) / 2 % 2 == 1
  {
    var x, e := 4 * p + (if s < 4 then s else s - 4), if s < 4 then 0 else 1;
    assert 16 * p + LowWithin(s) == 4 * x + e;
    Halves(x, e);
  }

  lemma Halves(x: nat, e: nat)
    requires e < 2
    ensures (4 * x + e) / 2 % 2 == 0 && (4 * x + e + 2) / 2 % 2 == 1
  {}

  /** A signed 16-bit number, low byte first. */
  function Le16(lo: Byte, hi: Byte): int { var v := lo + 256 * hi; if v >= 32768 then v - 65536 else v }

  /** The first sample and the step index of a channel's preamble. */
  function Predictor(input: seq<Byte>, c: nat): int requires |input| >= 4 * c + 4 {
    Le16(input[4 * c], input[4 * c + 1])
  }

  function IndexByte(input: seq<Byte>, c: nat): int requires |input| >= 4 * c + 4 { input[4 * c + 2] }

  ghost predicate BlockOk(input: seq<Byte>, ch: nat) {
    && (ch == 1 || ch == 2) && |input| >= 4 * ch
    && (ch == 2 ==> |input| % 8 == 0)
    && forall c | 0 <= c < ch :: IndexByte(input, c) <= 88
  }

  /** The codes of all channels of a block. */
  ghost function BlockCodes(input: seq<Byte>, ch: nat): (s: seq<seq<Code>>)
    requires |input| >= 4 * ch
  {
    seq(ch, c requires 0 <= c < ch => Codes(input[4 * ch..], ch, c))
  }

  /** Where sample `k` of channel `c` is among the interleaved samples. */
  function Interleaved(c: nat, k: nat, ch: nat): nat { if ch == 1 then k else 2 * k + c }

  /** `ima_adpcm_decode_block`. */
  method ImaDecodeBlock(output: array<int>, input: seq<Byte>, ch: nat) returns (n: nat)
    requires BlockOk(input, ch) && output.Length == 2 * (|input| - 4 * ch)
    modifies output
    ensures n == output.Length
    ensures forall c: nat, k: nat | c < ch && k < Count(input[4 * ch..], ch) :: ByParts(output[..], input, ch, c, k)
  {
    hide CodeAt, State, U16;
    var data := input[4 * ch..];
    var p := [Predictor(input, 0), if ch == 2 then Predictor(input, 1) else 0];
    var i := [IndexByte(input, 0), if ch == 2 then IndexByte(input, 1) else 0];
    if ch == 1 { UnpackMono(output, data); } else { UnpackStereo(output, data); }
    ghost var codes := BlockCodes(input, ch);
    DecodeNibbles(output, ch, p, i, codes);
    forall c: nat, k: nat | c < ch && k < Count(data, ch)
      ensures ByParts(output[..], input, ch, c, k)
    {
      var o := Interleaved(c, k, ch);
      assert ChannelOf(o, ch) == c && PositionOf(o, ch) == k;
      assert output[o] == SampleA(codes, p, i, ch, o);
    }
    n := output.Length;
  }

  /* ---------- adpcmdec_decode_ima_block ---------- */

  /** Samples `lo` to `hi` of channel `c`, the preamble's own sample counted as number 0. */
  ghost predicate Decoded(samples: seq<int>, codes: seq<Code>, c: nat, ch: nat, p: int, i: int, lo: nat, hi: nat) {
    && hi <= |codes|
    && forall k: nat | lo <= k <= hi ::
         Interleaved(c, k, ch) < |samples| && samples[Interleaved(c, k, ch)] == State(true, codes, p, i, k).0
  }

  /** Not one of the samples `a + 1` to `b` of channel `c`. */
  predicate Elsewhere(o: nat, c: nat, ch: nat, a: nat, b: nat) {
    o <= Interleaved(c, a, ch) || o > Interleaved(c, b, ch) || (ch == 2 && o % 2 != c)
  }

  /** One sample. */
  method DecodeOne(samples: array<int>, bytecode: Code, ch: nat, c: nat, ghost k: nat, sample: nat, index: int,
                   ghost codes: seq<Code>, ghost p: int, ghost i: int, ghost lo: nat) returns (index': int)
    requires (ch == 1 || ch == 2) && c < ch && sample == Interleaved(c, k + 1, ch) < samples.Length
    requires lo <= k < |codes| && bytecode == codes[k] && index == State(true, codes, p, i, k).1
    requires Decoded(samples[..], codes, c, ch, p, i, lo, k)
    modifies samples
    ensures index' == State(true, codes, p, i, k + 1).1
    ensures Decoded(samples[..], codes, c, ch, p, i, lo, k + 1)
    ensures samples[..] == old(samples[..])[sample := samples[sample]]
  {
    hide StepOf, ProductDiff, PartsDiff, ClampS16, NextIndex, Signed, State;
    assert Interleaved(c, k, ch) == sample - ch && samples[..][Interleaved(c, k, ch)] == State(true, codes, p, i, k).0;
    StateNext(codes, p, i, k);
    ghost var was := samples[..];
    samples[sample] := ClampS16(samples[sample - ch] + Signed(ProductDiff(StepOf(index), bytecode), bytecode));
    index' := NextIndex(index, bytecode);
    forall n: nat | lo <= n <= k + 1
      ensures Interleaved(c, n, ch) < samples.Length
      ensures samples[..][Interleaved(c, n, ch)] == State(true, codes, p, i, n).0
    {
      if n <= k { assert was[Interleaved(c, n, ch)] == State(true, codes, p, i, n).0; }
    }
  }

  /** The loop over j: eight samples of one channel from four bytes. */
  method DecodeEight(samples: array<int>, data: seq<Byte>, ch: nat, c: nat, first: nat, ghost m: nat, idx0: nat,
                     index0: int, ghost codes: seq<Code>, ghost p: int, ghost i: int)
    returns (idx: nat, index: int)
    requires (ch == 1 || ch == 2) && c < ch && idx0 + 4 <= |data|
    requires 8 * m + 8 <= |codes| && Interleaved(c, 8 * m + 8, ch) < samples.Length
    requires first == Interleaved(c, 8 * m + 1, ch)
    requires forall j: nat | j < 8 ::
               codes[8 * m + j] == if j % 2 == 0 then data[idx0 + j / 2] % 16 else data[idx0 + j / 2] / 16
    requires index0 == State(true, codes, p, i, 8 * m).1
    requires Decoded(samples[..], codes, c, ch, p, i, 0, 8 * m)
    modifies samples
    ensures idx == idx0 + 4 && index == State(true, codes, p, i, 8 * m + 8).1
    ensures Decoded(samples[..], codes, c, ch, p, i, 0, 8 * m + 8)
    ensures forall o: nat | o < samples.Length && Elsewhere(o, c, ch, 8 * m, 8 * m + 8) :: samples[o] == old(samples[o])
  {
    hide State, Decoded, Elsewhere;
    idx, index := idx0, index0;
    var sample, j := first, 0;
    while j < 8
      invariant 0 <= j <= 8 && sample == Interleaved(c, 8 * m + j + 1, ch) && idx == idx0 + j / 2
      invariant index == State(true, codes, p, i, 8 * m + j).1
      invariant Decoded(samples[..], codes, c, ch, p, i, 0, 8 * m + j)
      invariant forall o: nat | o < samples.Length && Elsewhere(o, c, ch, 8 * m, 8 * m + 8) ::
                samples[o] == old(samples[o])
    {
      var bytecode: Code;
      if j % 2 == 0 {
        bytecode := data[idx] % 16;
      } else {
        bytecode := data[idx] / 16;
        idx := idx + 1;
      }
      ghost var was := samples[..];
      index := DecodeOne(samples, bytecode, ch, c, 8 * m + j, sample, index, codes, p, i, 0);
      NotElsewhere(sample, c, ch, m, j);
      OthersStay(was, samples[..], c, ch, 8 * m, 8 * m + 8, sample);
      sample := sample + ch;
      j := j + 1;
    }
  }

  lemma NotElsewhere(o: nat, c: nat, ch: nat, m: nat, j: nat)
    requires (ch == 1 || ch == 2) && c < ch && j < 8 && o == Interleaved(c, 8 * m + j + 1, ch)
    ensures !Elsewhere(o, c, ch, 8 * m, 8 * m + 8)
  {}

  lemma OthersStay(was: seq<int>, now: seq<int>, c: nat, ch: nat, a: nat, b: nat, sample: nat)
    requires |was| == |now| && sample < |was| && now == was[sample := now[sample]] && !Elsewhere(sample, c, ch, a, b)
    ensures forall o: nat | o < |now| && Elsewhere(o, c, ch, a, b) :: now[o] == was[o]
  {
    hide Elsewhere;
  }

  lemma NextByte(ch: nat, c: nat, m: nat, j: nat)
    requires j < 8
    ensures ByteFor(ch, c, 8 * m + j) == ByteFor(ch, c, 8 * m) + j / 2 && (8 * m + j) % 2 == j % 2
  {
    DivEight(8 * m + j, m, j);
    DivEight(8 * m, m, 0);
    SameParity(8 * m + j, m, j);
  }

  lemma StateNext(codes: seq<Code>, p: int, i: int, k: nat)
    requires k < |codes|
    ensures var s, c := State(true, codes, p, i, k), codes[k];
            State(true, codes, p, i, k + 1) == (ClampS16(s.0 + Signed(ProductDiff(StepOf(s.1), c), c)),
                NextIndex(s.1, c))
  {
    hide StepOf, ProductDiff, PartsDiff, ClampS16, NextIndex, Signed;
  }

  /** Everything decoded so far: blocks below `m` of both channels, and block `m` of the channels below `c`. */
  ghost predicate Progress(samples: seq<int>, data: seq<Byte>, ch: nat, m: nat, c: nat, index: seq<int>)
    requires |data| >= 4 * ch
  {
    && |index| == ch
    && forall b: nat | b < ch ::
         var codes, k := Codes(data[4 * ch..], ch, b), 8 * m + if b < c then 8 else 0;
         && Decoded(samples, codes, b, ch, Predictor(data, b), StartIndex(data, b), 0, k)
         && index[b] == State(true, codes, Predictor(data, b), StartIndex(data, b), k).1
  }

  /** The step index a channel starts from: the preamble's, at most 88. */
  function StartIndex(data: seq<Byte>, c: nat): int
    requires |data| >= 4 * c + 4
  {
    if IndexByte(data, c) < 88 then IndexByte(data, c) else 88
  }

  /** The eight codes of a channel in block `m`, from its four bytes. */
  lemma BlockBytes(data: seq<Byte>, ch: nat, c: nat, m: nat, idx: nat)
    requires (ch == 1 || ch == 2) && c < ch && |data| >= 4 * ch
    requires idx == 4 * ch + ByteFor(ch, c, 8 * m) && idx + 4 <= |data|
    requires 8 * m + 8 <= Count(data[4 * ch..], ch)
    ensures forall j: nat | j < 8 :: Codes(data[4 * ch..], ch, c)[8 * m + j]
              == if j % 2 == 0 then data[idx + j / 2] % 16 else data[idx + j / 2] / 16
  {
    var rest := data[4 * ch..];
    forall j: nat | j < 8
      ensures Codes(rest, ch, c)[8 * m + j] == if j % 2 == 0 then data[idx + j / 2] % 16 else data[idx + j / 2] / 16
    {
      NextByte(ch, c, m, j);
      hide ByteFor;
      assert rest[ByteFor(ch, c, 8 * m + j)] == data[idx + j / 2];
    }
  }

  lemma StaysDecoded(was: seq<int>, now: seq<int>, codes: seq<Code>, b: nat, ch: nat, p: int, i: int, k: nat, c: nat,
                     m: nat)
    requires ch == 2 && b < 2 && c < 2 && b != c && |was| == |now| && Decoded(was, codes, b, ch, p, i, 0, k)
    requires forall o: nat | o < |now| && Elsewhere(o, c, ch, 8 * m, 8 * m + 8) :: now[o] == was[o]
    ensures Decoded(now, codes, b, ch, p, i, 0, k)
  {
    hide State;
    forall n: nat | 0 <= n <= k
      ensures now[Interleaved(b, n, ch)] == State(true, codes, p, i, n).0
    {
      assert Elsewhere(Interleaved(b, n, ch), c, ch, 8 * m, 8 * m + 8);
    }
  }

  /** One channel of one block. */
  method DecodeChannel(samples: array<int>, data: seq<Byte>, ch: nat, c: nat, first: nat, ghost m: nat, idx0: nat,
                       index0: seq<int>)
    returns (idx: nat, index: seq<int>)
    requires (ch == 1 || ch == 2) && c < ch && |data| >= 4 * ch
    requires idx0 == 4 * ch + ByteFor(ch, c, 8 * m) && idx0 + 4 <= |data|
    requires 8 * m + 8 <= Count(data[4 * ch..], ch) && Interleaved(c, 8 * m + 8, ch) < samples.Length
    requires first == Interleaved(c, 8 * m + 1, ch) && Progress(samples[..], data, ch, m, c, index0)
    modifies samples
    ensures idx == idx0 + 4 && Progress(samples[..], data, ch, m, c + 1, index)
  {
    hide State, Codes, ByteFor, Decoded, Predictor, StartIndex, Elsewhere;
    BlockBytes(data, ch, c, m, idx0);
    ghost var was := samples[..];
    var k;
    idx, k := DecodeEight(samples, data, ch, c, first, m, idx0, index0[c], Codes(data[4 * ch..], ch, c),
                          Predictor(data, c), StartIndex(data, c));
    index := index0[c := k];
    if ch == 2 {
      var b := 1 - c;
      StaysDecoded(was, samples[..], Codes(data[4 * ch..], ch, b), b, ch, Predictor(data, b), StartIndex(data, b),
                   8 * m + (if b < c then 8 else 0), c, m);
    }
  }

  /** Turns of the outer loop: with two channels a last turn that is not needed in full is made in full. */
  function Rounds(ch: nat, n: nat): nat
    requires ch <= n
  {
    if ch == 1 then (n - 1) / 8 else (n - ch + 15) / 16
  }

  /** The bytes read and the samples written are there. */
  ghost predicate SizesFit(data: seq<Byte>, ch: nat, rounds: nat, samples: array<int>) {
    if ch == 1 then |data| >= 4 + 4 * rounds && samples.Length >= 1 + 8 * rounds
    else |data| >= 8 + 8 * rounds && samples.Length >= 2 + 16 * rounds
  }

  /**
    `adpcmdec_decode_ima_block`: 0 for a wrong sample count or a damaged
    preamble, otherwise 1 and every sample by the exact difference formula.
   */
  method DecodeImaBlock(ch: nat, n: nat, data: seq<Byte>, samples: array<int>) returns (ret: int)
    requires (ch == 1 || ch == 2) && |data| >= 4 * ch && ch <= n <= samples.Length
    requires (n - ch) % 8 == 0 ==> SizesFit(data, ch, Rounds(ch, n), samples)
    modifies samples
    ensures ret == if (n - ch) % 8 != 0 || exists c :: 0 <= c < ch && data[4 * c + 3] != 0 then 0 else 1
    ensures ret == 1 ==> forall c: nat | c < ch ::
              Decoded(samples[..], Codes(data[4 * ch..], ch, c), c, ch, Predictor(data, c), StartIndex(data, c), 0,
                  8 * Rounds(ch, n))
  {
    if (n - ch) % 8 != 0 { return 0; }
    hide State, Codes, Predictor, StartIndex;
    var index;
    ret, index := ReadPreambles(ch, data, samples);
    if ret == 1 {
      Beginning(samples[..], data, ch, index);
      DecodeBlocks(ch, n, data, samples, index);
    }
  }

  /** The preambles: sample 0 and the step index of each channel. */
  method ReadPreambles(ch: nat, data: seq<Byte>, samples: array<int>) returns (ret: int, index: seq<int>)
    requires (ch == 1 || ch == 2) && |data| >= 4 * ch && samples.Length >= ch
    modifies samples
    ensures ret == if exists c :: 0 <= c < ch && data[4 * c + 3] != 0 then 0 else 1
    ensures ret == 1 ==> |index| == ch
    ensures ret == 1 ==> forall b | 0 <= b < ch :: samples[b] == Predictor(data, b) && index[b] == StartIndex(data, b)
  {
    hide Predictor, StartIndex;
    index := [];
    var c := 0;
    while c < ch
      invariant 0 <= c <= ch && |index| == c
      invariant forall b | 0 <= b < c :: data[4 * b + 3] == 0
      invariant forall b | 0 <= b < c :: samples[b] == Predictor(data, b) && index[b] == StartIndex(data, b)
    {
      samples[c] := Predictor(data, c);
      index := index + [StartIndex(data, c)];
      if data[4 * c + 3] != 0 { return 0, index; }
      c := c + 1;
    }
    ret := 1;
  }

  /** The loop over the data blocks. */
  method DecodeBlocks(ch: nat, n: nat, data: seq<Byte>, samples: array<int>, index0: seq<int>)
    requires (ch == 1 || ch == 2) && |data| >= 4 * ch && ch <= n && (n - ch) % 8 == 0
    requires SizesFit(data, ch, Rounds(ch, n), samples) && Progress(samples[..], data, ch, 0, 0, index0)
    modifies samples
    ensures exists index :: Progress(samples[..], data, ch, Rounds(ch, n), 0, index)
  {
    hide Progress, ByteFor, Rounds;
    var index, i, idx := index0, ch, 4 * ch;
    ghost var m := 0;
    RoundIs(ch, n, 0);
    while i < n
      invariant 0 <= m <= Rounds(ch, n) && i == (if ch == 1 then 1 + 8 * m else 2 + 16 * m)
      invariant i < n <==> m < Rounds(ch, n)
      invariant idx == (if ch == 1 then 4 + 4 * m else 8 + 8 * m)
      invariant Progress(samples[..], data, ch, m, 0, index)
    {
      var c := 0;
      while c < ch
        invariant 0 <= c <= ch && idx == (if ch == 1 then 4 + 4 * m + 4 * c else 8 + 8 * m + 4 * c)
        invariant Progress(samples[..], data, ch, m, c, index)
      {
        BlockStart(ch, c, m);
        idx, index := DecodeChannel(samples, data, ch, c, i + c, m, idx, index);
        c := c + 1;
      }
      NextBlock(samples[..], data, ch, m, index);
      m := m + 1;
      i := i + 8 * ch;
      RoundIs(ch, n, m);
    }
  }

  lemma RoundIs(ch: nat, n: nat, m: nat)
    requires (ch == 1 || ch == 2) && ch <= n && (n - ch) % 8 == 0
    ensures (if ch == 1 then 1 + 8 * m else 2 + 16 * m) < n <==> m < Rounds(ch, n)
  {}

  lemma Beginning(samples: seq<int>, data: seq<Byte>, ch: nat, index: seq<int>)
    requires (ch == 1 || ch == 2) && |data| >= 4 * ch && |samples| >= ch && |index| == ch
    requires forall b | 0 <= b < ch :: samples[b] == Predictor(data, b) && index[b] == StartIndex(data, b)
    ensures Progress(samples, data, ch, 0, 0, index)
  {
    hide Predictor, StartIndex, Codes;
  }

  lemma NextBlock(samples: seq<int>, data: seq<Byte>, ch: nat, m: nat, index: seq<int>)
    requires (ch == 1 || ch == 2) && |data| >= 4 * ch && Progress(samples, data, ch, m, ch, index)
    ensures Progress(samples, data, ch, m + 1, 0, index)
  {
    hide Predictor, StartIndex, Codes, State;
    forall b: nat | b < ch
      ensures var codes := Codes(data[4 * ch..], ch, b);
              && Decoded(samples, codes, b, ch, Predictor(data, b), StartIndex(data, b), 0, 8 * (m + 1))
              && index[b] == State(true, codes, Predictor(data, b), StartIndex(data, b), 8 * (m + 1)).1
    {
      assert 8 * (m + 1) == 8 * m + 8;
    }
  }

  lemma BlockStart(ch: nat, c: nat, m: nat)
    requires ch == 1 || ch == 2
    ensures 4 * ch + ByteFor(ch, c, 8 * m) == if ch == 1 then 4 + 4 * m else 8 + 8 * m + 4 * c
  {
    DivEight(8 * m, m, 0);
  }

  /* ---------- The two decoders on one block ---------- */

  function S16(u: int): int { if u >= 32768 then u - 65536 else u }

  lemma S16OfU16(x: int)
    ensures S16(U16(ClampS16(x))) == ClampS16(x)
  {}

  /** What `ImaDecodeBlock` leaves in its output for one sample. */
  ghost predicate ByParts(output: seq<int>, data: seq<Byte>, ch: nat, c: nat, k: nat)
    requires |data| >= 4 * ch && c < ch && k < Count(data[4 * ch..], ch)
  {
    && Interleaved(c, k, ch) < |output|
    && output[Interleaved(c, k, ch)]
         == U16(State(false, Codes(data[4 * ch..], ch, c), Predictor(data, c), IndexByte(data, c), k + 1).0)
  }

  /**
    On the same block the first decoder's sample `k` and the second
    decoder's sample `k + 1` of a channel come from the same code, and differ
    by at most twice the number of codes read.
   */
  lemma DecodersClose(data: seq<Byte>, ch: nat, output: seq<int>, samples: seq<int>, c: nat, k: nat, decoded: nat)
    requires BlockOk(data, ch) && c < ch && k < Count(data[4 * ch..], ch) && ByParts(output, data, ch, c, k)
    requires Decoded(samples, Codes(data[4 * ch..], ch, c), c, ch, Predictor(data, c), StartIndex(data, c), 0, decoded)
    requires k < decoded
    ensures Interleaved(c, k + 1, ch) < |samples|
    ensures -2 * (k + 1) <= samples[Interleaved(c, k + 1, ch)] - S16(output[Interleaved(c, k, ch)]) <= 2 * (k + 1)
  {
    hide State, Codes, U16, S16, ClampS16, Predictor;
    var codes, p, i := Codes(data[4 * ch..], ch, c), Predictor(data, c), IndexByte(data, c);
    assert i == StartIndex(data, c);
    SamplesClose(codes, p, i, k + 1);
    StateStep(false, codes, p, i, k + 1);
    var s := State(false, codes, p, i, k);
    S16OfU16(s.0 + Signed(PartsDiff(StepOf(s.1), codes[k]), codes[k]));
  }

  /* ---------- What one code does, and how codes are packed ---------- */

  /**
    From sample to sample: the magnitude bits m of a code move by (2m + 1)/8
    of the step, rounded down once or part by part, upwards for codes below 8
    and downwards from 8 on, and the result stays within 16 bits.
   */
  lemma CodeMoves(exact: bool, codes: seq<Code>, p: int, i: int, k: nat) returns (d: int)
    requires k < |codes| && 0 <= i <= 88
    ensures 0 <= State(exact, codes, p, i, k).1 <= 88
    ensures var s, m, step := State(exact, codes, p, i, k), codes[k] % 8, STEPS[State(exact, codes, p, i, k).1];
            var x, now := if codes[k] < 8 then s.0 + d else s.0 - d, State(exact, codes, p, i, k + 1).0;
            && 8 * d <= (2 * m + 1) * step && 8 * d > (2 * m + 1) * step - (if exact then 8 else 18)
            && (-32768 <= x <= 32767 ==> now == x) && (x > 32767 ==> now == 32767) && (x < -32768 ==> now == -32768)
  {
    hide State, StepOf, PartsDiff, ProductDiff;
    SameIndices(codes, p, i, k);
    StateStep(exact, codes, p, i, k + 1);
    var s := State(exact, codes, p, i, k);
    d := if exact then ProductDiff(StepOf(s.1), codes[k]) else PartsDiff(StepOf(s.1), codes[k]);
    StepIs(s.1);
    DiffIs(StepOf(s.1), codes[k]);
  }

  lemma StepIs(i: int)
    requires 0 <= i <= 88
    ensures StepOf(i) == STEPS[i]
  {}

  lemma DiffIs(step: int, c: Code)
    ensures var m, d := c % 8, ProductDiff(step, c); (2 * m + 1) * step - 8 < 8 * d <= (2 * m + 1) * step
    ensures var m, d := c % 8, PartsDiff(step, c); (2 * m + 1) * step - 18 < 8 * d <= (2 * m + 1) * step
  {
    var d := c % 8;
    if d == 0 {} else if d == 1 {} else if d == 2 {} else if d == 3 {}
    else if d == 4 {} else if d == 5 {} else if d == 6 {} else {}
  }

  /** The index falls by one for small magnitudes and rises by 2, 4, 6 or 8 for large ones, within 0..88. */
  lemma IndexMoves(exact: bool, codes: seq<Code>, p: int, i: int, k: nat)
    requires k < |codes| && 0 <= i <= 88
    ensures var was, m, now := State(exact, codes, p, i, k).1, codes[k] % 8, State(exact, codes, p, i, k + 1).1;
            && (m < 4 ==> now == if was == 0 then 0 else was - 1)
            && (m >= 4 ==> now == if was + 2 * (m - 3) > 88 then 88 else was + 2 * (m - 3))
  {
    hide PartsDiff, ProductDiff, ClampS16, Signed, NextIndex;
    SameIndices(codes, p, i, k);
    IndexIs(State(exact, codes, p, i, k).1, codes[k]);
  }

  lemma IndexIs(i: int, c: Code)
    requires 0 <= i <= 88
    ensures var m := c % 8;
            NextIndex(i, c) == if m < 4 then (if i == 0 then 0 else i - 1)
                               else if i + 2 * (m - 3) > 88 then 88 else i + 2 * (m - 3)
  {
    if c < 4 {} else if c < 8 {} else if c < 12 {} else {}
  }

  /** Two codes in a byte, the first one low. */
  function PairOf(first: Code, second: Code): Byte { first + 16 * second }

  function PackMono(codes: seq<Code>): (data: seq<Byte>)
    requires |codes| % 2 == 0
    ensures |data| == |codes| / 2
  {
    seq(|codes| / 2, j requires 0 <= j < |codes| / 2 => PairOf(codes[2 * j], codes[2 * j + 1]))
  }

  /** Eight codes of the left channel in four bytes, then eight of the right one. */
  function PackStereo(left: seq<Code>, right: seq<Code>): seq<Byte>
    requires |left| == |right| && |left| % 8 == 0
    decreases |left|
  {
    if left == [] then [] else PackMono(left[..8]) + PackMono(right[..8]) + PackStereo(left[8..], right[8..])
  }

  lemma MonoUnpacked(codes: seq<Code>, k: nat)
    requires |codes| % 2 == 0 && k < |codes|
    ensures CodeAt(PackMono(codes), 1, 0, k) == codes[k]
  {
    MonoByte(k, k / 8, k % 8);
    PackedPair(codes, k);
  }

  lemma MonoByte(k: nat, q: nat, h: nat)
    requires k == 8 * q + h && h < 8
    ensures ByteFor(1, 0, k) == k / 2
  {
    DivEight(k, q, h);
  }

  lemma {:induction false} StereoUnpacked(left: seq<Code>, right: seq<Code>, k: nat)
    requires |left| == |right| && |left| % 8 == 0 && k < |left|
    ensures CodeAt(PackStereo(left, right), 2, 0, k) == left[k]
    ensures CodeAt(PackStereo(left, right), 2, 1, k) == right[k]
    decreases |left|
  {
    hide CodeAt, PackMono;
    var a, b, rest := PackMono(left[..8]), PackMono(right[..8]), PackStereo(left[8..], right[8..]);
    if k < 8 {
      FirstEight(left[..8], right[..8], rest, k);
    } else {
      StereoUnpacked(left[8..], right[8..], k - 8);
      Skipped(a + b, rest, 0, k - 8);
      Skipped(a + b, rest, 1, k - 8);
    }
  }

  lemma FirstEight(left: seq<Code>, right: seq<Code>, rest: seq<Byte>, k: nat)
    requires |left| == |right| == 8 && k < 8
    ensures CodeAt(PackMono(left) + PackMono(right) + rest, 2, 0, k) == left[k]
    ensures CodeAt(PackMono(left) + PackMono(right) + rest, 2, 1, k) == right[k]
  {
    hide PackMono, ByteFor;
    var a, b := PackMono(left), PackMono(right);
    ByteIn(0, 0, k);
    ByteIn(1, 0, k);
    PackedPair(left, k);
    PackedPair(right, k);
    assert (a + b + rest)[k / 2] == a[k / 2] && (a + b + rest)[4 + k / 2] == b[k / 2];
  }

  lemma PackedPair(codes: seq<Code>, k: nat)
    requires |codes| % 2 == 0 && k < |codes|
    ensures k / 2 < |PackMono(codes)|
    ensures codes[k] == if k % 2 == 0 then PackMono(codes)[k / 2] % 16 else PackMono(codes)[k / 2] / 16
  {
    assert k == 2 * (k / 2) + k % 2;
  }

  lemma Skipped(a: seq<Byte>, rest: seq<Byte>, c: nat, k: nat)
    requires |a| == 8
    ensures CodeAt(a + rest, 2, c, k + 8) == CodeAt(rest, 2, c, k)
  {
    ByteIn(c, k / 8, k % 8);
    ByteIn(c, k / 8 + 1, k % 8);
    SameParity(k + 8, 1, k);
  }

  /** The preamble of a channel: its first sample, low byte first, its step index, and a zero. */
  function PreambleOf(p: int, i: nat): seq<Byte>
    requires i <= 88
  {
    [p % 65536 % 256, p % 65536 / 256, i, 0]
  }

  /** A block of one channel, or of two with their codes in turns of eight. */
  function BlockOf(p: seq<int>, i: seq<nat>, codes: seq<seq<Code>>): seq<Byte>
    requires |p| == |i| == |codes| && (|p| == 1 || |p| == 2) && forall c | 0 <= c < |i| :: i[c] <= 88
    requires if |p| == 1 then |codes[0]| % 2 == 0 else |codes[0]| == |codes[1]| && |codes[0]| % 8 == 0
  {
    if |p| == 1 then PreambleOf(p[0], i[0]) + PackMono(codes[0])
    else PreambleOf(p[0], i[0]) + PreambleOf(p[1], i[1]) + PackStereo(codes[0], codes[1])
  }

  lemma {:induction false} StereoLength(left: seq<Code>, right: seq<Code>)
    requires |left| == |right| && |left| % 8 == 0
    ensures |PackStereo(left, right)| == |left|
    decreases |left|
  {
    hide PackMono;
    if left != [] { StereoLength(left[8..], right[8..]); }
  }

  /** Both decoders find in a block what was put there: first samples, step indices and codes. */
  lemma BlockBack(p: seq<int>, i: seq<nat>, codes: seq<seq<Code>>, c: nat)
    requires |p| == |i| == |codes| && (|p| == 1 || |p| == 2) && forall c | 0 <= c < |i| :: i[c] <= 88
    requires if |p| == 1 then |codes[0]| % 2 == 0 else |codes[0]| == |codes[1]| && |codes[0]| % 8 == 0
    requires c < |p| && -32768 <= p[c] <= 32767
    ensures var data, ch := BlockOf(p, i, codes), |p|;
            && BlockOk(data, ch) && data[4 * c + 3] == 0
            && Predictor(data, c) == p[c] && IndexByte(data, c) == StartIndex(data, c) == i[c]
            && Codes(data[4 * ch..], ch, c) == codes[c]
  {
    hide Le16, Codes, PackMono, PackStereo;
    LowHigh(p[c]);
    if |p| == 1 {
      assert BlockOf(p, i, codes)[4..] == PackMono(codes[0]);
      MonoCodes(codes[0]);
    } else {
      StereoLength(codes[0], codes[1]);
      assert BlockOf(p, i, codes)[8..] == PackStereo(codes[0], codes[1]);
      StereoCodes(codes[0], codes[1]);
    }
  }

  lemma MonoCodes(codes: seq<Code>)
    requires |codes| % 2 == 0
    ensures Codes(PackMono(codes), 1, 0) == codes
  {
    hide CodeAt;
    forall k: nat | k < |codes|
      ensures CodeAt(PackMono(codes), 1, 0, k) == codes[k]
    {
      MonoUnpacked(codes, k);
    }
  }

  lemma StereoCodes(left: seq<Code>, right: seq<Code>)
    requires |left| == |right| && |left| % 8 == 0
    ensures Codes(PackStereo(left, right), 2, 0) == left && Codes(PackStereo(left, right), 2, 1) == right
  {
    hide CodeAt, PackStereo;
    StereoLength(left, right);
    forall k: nat | k < |left|
      ensures CodeAt(PackStereo(left, right), 2, 0, k) == left[k]
      ensures CodeAt(PackStereo(left, right), 2, 1, k) == right[k]
    {
      StereoUnpacked(left, right, k);
    }
  }

  lemma LowHigh(v: int)
    requires -32768 <= v <= 32767
    ensures Le16(v % 65536 % 256, v % 65536 / 256) == v
  {}
}
