/** `ms_adpcm_decode_block` of libadpcm/adpcm_decode.c: shifting registers refine one recurrence per channel. */
module AdpcmMs {
  const ADAPTATION: seq<int> := [230, 230, 230, 230, 307, 409, 512, 614, 768, 614, 512, 409, 307, 230, 230, 230]
  const COEFF1: seq<int> := [256, 512, 0, 192, 240, 460, 392]
  const COEFF2: seq<int> := [0, -256, 0, 64, 0, -208, -232]

  type Code = c: int | 0 <= c < 16
  type Byte = b: int | 0 <= b < 256
  type Predictor = b: int | 0 <= b < 7

  /** Storing an `int` in a `short`. */
  function Short(x: int): int { var m := x % 65536; if m >= 32768 then m - 65536 else m }

  function Le16(lo: Byte, hi: Byte): int { Short(lo + 256 * hi) }

  function ClampS16(x: int): int { if x > 32767 then 32767 else if x < -32768 then -32768 else x }

  /** The adaptation step after a code: it wraps to 16 bits before it is raised to 16. */
  function Adapted(delta: int, c: Code): (r: int)
    ensures 16 <= r <= 32767
  {
    var d := Short(ADAPTATION[c] * delta / 256);
    if d < 16 then 16 else d
  }

  function SignedCode(c: Code): int { if c >= 8 then c - 16 else c }

  function Predicted(b: Predictor, newer: int, older: int): int { (newer * COEFF1[b] + older * COEFF2[b]) / 256 }

  /** One channel: its last two samples and its adaptation step. */
  datatype Channel = Channel(older: int, newer: int, delta: int)

  function Next(s: Channel, b: Predictor, c: Code): Channel {
    Channel(s.newer, ClampS16(SignedCode(c) * s.delta + Predicted(b, s.newer, s.older)), Adapted(s.delta, c))
  }

  function After(codes: seq<Code>, b: Predictor, start: Channel, k: nat): Channel
    requires k <= |codes|
  {
    if k == 0 then start else Next(After(codes, b, start, k - 1), b, codes[k - 1])
  }

  /** Sample `t` of a channel; the preamble gives the first two. */
  function Sample(codes: seq<Code>, b: Predictor, start: Channel, t: nat): int
    requires t <= |codes| + 1
  {
    if t == 0 then start.older else After(codes, b, start, t - 1).newer
  }

  lemma OlderIs(codes: seq<Code>, b: Predictor, start: Channel, k: nat)
    requires k <= |codes|
    ensures After(codes, b, start, k).older == Sample(codes, b, start, k)
    ensures After(codes, b, start, k).newer == Sample(codes, b, start, k + 1)
  {}

  /** Each sample comes from the two before it in the same channel, and the step stays in 16..32767. */
  lemma Recurrence(codes: seq<Code>, b: Predictor, start: Channel, t: nat)
    requires 2 <= t <= |codes| + 1
    ensures var d := After(codes, b, start, t - 2).delta;
            && Sample(codes, b, start, t) == ClampS16(SignedCode(codes[t - 2]) * d
                 + Predicted(b, Sample(codes, b, start, t - 1), Sample(codes, b, start, t - 2)))
            && (t > 2 ==> 16 <= d <= 32767)
    ensures -32768 <= Sample(codes, b, start, t) <= 32767
  {
    hide Predicted, SignedCode, Adapted;
    OlderIs(codes, b, start, t - 2);
    if t > 2 { AdaptedRange(After(codes, b, start, t - 3).delta, codes[t - 3]); }
  }

  lemma AdaptedRange(delta: int, c: Code)
    ensures 16 <= Adapted(delta, c) <= 32767
  {}

  /** Code `k` of the data bytes, high nibble first. */
  function CodeAt(data: seq<Byte>, k: nat): Code {
    if k / 2 >= |data| then 0 else if k % 2 == 0 then data[k / 2] / 16 else data[k / 2] % 16
  }

  /** How many codes the loop decodes: the last byte's low nibble is never reached. */
  function Decodes(n: nat): nat { if n == 0 then 0 else 2 * n - 1 }

  /** How many of the first `k` codes belong to channel `c`. */
  function Share(k: nat, ch: nat, c: nat): nat { if ch == 1 then k else if c == 0 then (k + 1) / 2 else k / 2 }

  /** The codes of channel `c`. */
  function Codes(data: seq<Byte>, ch: nat, c: nat): (s: seq<Code>)
    ensures |s| == Share(Decodes(|data|), ch, c)
  {
    seq(Share(Decodes(|data|), ch, c), p requires p >= 0 => CodeAt(data, if ch == 1 then p else 2 * p + c))
  }

  ghost predicate BlockOk(buf: seq<Byte>, ch: nat) {
    (ch == 1 || ch == 2) && |buf| >= 7 * ch && buf[0] < 7 && (ch == 2 ==> buf[1] < 7)
  }

  /** The preamble of channel `c`. */
  function Start(buf: seq<Byte>, ch: nat, c: nat): Channel
    requires (ch == 1 || ch == 2) && c < ch && |buf| >= 7 * ch
  {
    if ch == 1 then Channel(Le16(buf[5], buf[6]), Le16(buf[3], buf[4]), Le16(buf[1], buf[2]))
    else Channel(Le16(buf[10 + 2 * c], buf[11 + 2 * c]), Le16(buf[6 + 2 * c], buf[7 + 2 * c]),
        Le16(buf[2 + 2 * c], buf[3 + 2 * c]))
  }

  /** Sample `o` of the interleaved output. */
  function Output(buf: seq<Byte>, ch: nat, o: nat): int
    requires BlockOk(buf, ch) && o < Decodes(|buf| - 7 * ch) + 2 * ch
  {
    var c := if ch == 1 then 0 else o % 2;
    Sample(Codes(buf[7 * ch..], ch, c), buf[c], Start(buf, ch, c), if ch == 1 then o else o / 2)
  }

  /** The state of channel `c` after `k` codes of the block. */
  ghost function History(buf: seq<Byte>, ch: nat, c: nat, k: nat): Channel
    requires BlockOk(buf, ch) && c < ch && k <= Decodes(|buf| - 7 * ch)
  {
    After(Codes(buf[7 * ch..], ch, c), buf[c], Start(buf, ch, c), Share(k, ch, c))
  }

  /** The channel that code `k` belongs to. */
  function Turn(k: nat, ch: nat): nat { if ch == 1 then 0 else k % 2 }

  lemma HistoryStarts(buf: seq<Byte>, ch: nat, c: nat)
    requires BlockOk(buf, ch) && c < ch
    ensures History(buf, ch, c, 0) == Start(buf, ch, c)
  {}

  lemma HistoryMoves(buf: seq<Byte>, ch: nat, k: nat)
    requires BlockOk(buf, ch) && k < Decodes(|buf| - 7 * ch)
    ensures History(buf, ch, Turn(k, ch), k + 1)
              == Next(History(buf, ch, Turn(k, ch), k), buf[Turn(k, ch)], CodeAt(buf[7 * ch..], k))
    ensures ch == 2 ==> History(buf, ch, 1 - Turn(k, ch), k + 1) == History(buf, ch, 1 - Turn(k, ch), k)
  {
    hide CodeAt, Start, Next;
  }

  lemma OutputIs(buf: seq<Byte>, ch: nat, k: nat)
    requires BlockOk(buf, ch) && k <= Decodes(|buf| - 7 * ch)
    ensures Output(buf, ch, k) == History(buf, ch, Turn(k, ch), k).older
    ensures Output(buf, ch, k + ch) == History(buf, ch, Turn(k, ch), k).newer
    ensures ch == 2 ==> Output(buf, ch, k + 1) == History(buf, ch, 1 - Turn(k, ch), k).older
    ensures ch == 2 ==> Output(buf, ch, k + 3) == History(buf, ch, 1 - Turn(k, ch), k).newer
  {
    hide CodeAt, Start, Next, After, Codes, Decodes;
    var c := Turn(k, ch);
    OlderIs(Codes(buf[7 * ch..], ch, c), buf[c], Start(buf, ch, c), Share(k, ch, c));
    if ch == 2 {
      OlderIs(Codes(buf[7 * ch..], ch, 1 - c), buf[1 - c], Start(buf, ch, 1 - c), Share(k, ch, 1 - c));
    }
  }

  /** The arithmetic of one turn of the loop. */
  method Decode(bytecode: Code, delta: int, b: Predictor, newer: int, older: int) returns (current: int, delta': int)
    ensures Channel(newer, current, delta') == Next(Channel(older, newer, delta), b, bytecode)
  {
    delta' := Short(ADAPTATION[bytecode] * delta / 256);
    if delta' < 16 { delta' := 16; }
    var code: int := bytecode;
    if bytecode >= 8 { code := code - 16; }
    var predict := newer * COEFF1[b];
    predict := predict + older * COEFF2[b];
    predict := predict / 256;
    current := code * delta + predict;
    if current > 32767 {
      current := 32767;
    } else if current < -32768 {
      current := -32768;
    }
  }

  /** What the registers hold after `k` codes: the next samples of the output, and the adaptation steps. */
  ghost predicate Registers(buf: seq<Byte>, ch: nat, k: nat, s0: int, s1: int, s2: int, s3: int, idelta: seq<int>)
    requires BlockOk(buf, ch) && k <= Decodes(|buf| - 7 * ch) && |idelta| == 2
  {
    var h := History(buf, ch, Turn(k, ch), k);
    && h == Channel(s0, if ch == 1 then s1 else s2, idelta[Turn(k, ch)])
    && (ch == 2 ==> History(buf, ch, 1 - Turn(k, ch), k) == Channel(s1, s3, idelta[1 - Turn(k, ch)]))
  }

  lemma Preamble(buf: seq<Byte>, ch: nat, s0: int, s1: int, s2: int, s3: int, idelta: seq<int>)
    requires BlockOk(buf, ch) && |idelta| == 2
    requires Start(buf, ch, 0) == Channel(s0, if ch == 1 then s1 else s2, idelta[0])
    requires ch == 2 ==> Start(buf, ch, 1) == Channel(s1, s3, idelta[1])
    ensures Registers(buf, ch, 0, s0, s1, s2, s3, idelta)
  {
    hide Start, History;
    HistoryStarts(buf, ch, 0);
    if ch == 2 { HistoryStarts(buf, ch, 1); }
  }

  /** One turn: the oldest register comes out and the new sample goes in at the other end. */
  lemma Shift(buf: seq<Byte>, ch: nat, k: nat, s0: int, s1: int, s2: int, s3: int, idelta: seq<int>, current: int,
              delta: int)
    requires BlockOk(buf, ch) && k < Decodes(|buf| - 7 * ch) && |idelta| == 2
    requires Registers(buf, ch, k, s0, s1, s2, s3, idelta)
    requires var newer, t := if ch == 1 then s1 else s2, Turn(k, ch);
             Channel(newer, current, delta) == Next(Channel(s0, newer, idelta[t]), buf[t], CodeAt(buf[7 * ch..], k))
    ensures s0 == Output(buf, ch, k)
    ensures Registers(buf, ch, k + 1, s1, if ch == 1 then current else s2, s3, current, idelta[Turn(k, ch) := delta])
  {
    hide Next, CodeAt, Output, History, Decodes;
    OutputIs(buf, ch, k);
    HistoryMoves(buf, ch, k);
  }

  /**
    `ms_adpcm_decode_block`: the registers hold the next samples to come out,
    and the code that waits for its turn.
   */
  method DecodeBlock(pcm: array<int>, buf: seq<Byte>, ch: nat) returns (j: nat)
    requires BlockOk(buf, ch) && pcm.Length >= Decodes(|buf| - 7 * ch) + 2 * ch
    modifies pcm
    ensures j == Decodes(|buf| - 7 * ch) + 2 * ch
    ensures forall o: nat | o < j :: pcm[o] == Output(buf, ch, o)
    ensures forall o | j <= o < pcm.Length :: pcm[o] == old(pcm[o])
  {
    hide Short, Next, After, Sample, Codes, Output, History;
    ghost var data := buf[7 * ch..];
    var s0, s1, s2, s3, s4, s5 := 0, 0, 0, 0, 0, 0;
    var idelta: seq<int>;
    var blockindx, sampleindx;
    if ch == 1 {
      idelta := [Le16(buf[1], buf[2]), 0];
      s1, s0 := Le16(buf[3], buf[4]), Le16(buf[5], buf[6]);
      blockindx, sampleindx := 7, 2;
    } else {
      idelta := [Le16(buf[2], buf[3]), Le16(buf[4], buf[5])];
      s2, s3 := Le16(buf[6], buf[7]), Le16(buf[8], buf[9]);
      s0, s1 := Le16(buf[10], buf[11]), Le16(buf[12], buf[13]);
      blockindx, sampleindx := 14, 4;
    }
    Preamble(buf, ch, s0, s1, s2, s3, idelta);
    j := 0;
    var i := 2 * ch;
    while blockindx < |buf|
      decreases Decodes(|buf| - 7 * ch) - j
      invariant i == 2 * ch + j && j <= Decodes(|buf| - 7 * ch)
      invariant blockindx == 7 * ch + (j + 1) / 2 <= |buf| && sampleindx == 2 * ch + 2 * ((j + 1) / 2)
      invariant |idelta| == 2 && Registers(buf, ch, j, s0, s1, s2, s3, idelta)
      invariant j % 2 == 1 ==> (if ch == 1 then s2 else s4) == CodeAt(data, j)
      invariant forall o: nat | o < j :: pcm[o] == Output(buf, ch, o)
      invariant forall o | j <= o < pcm.Length :: pcm[o] == old(pcm[o])
    {
      if sampleindx <= i {
        var byte := buf[blockindx];
        blockindx := blockindx + 1;
        if ch == 1 { s2, s3 := byte / 16, byte % 16; } else { s4, s5 := byte / 16, byte % 16; }
        sampleindx := sampleindx + 2;
      }
      var bytecode := if ch == 1 then s2 else s4;
      var chan := if ch > 1 then i % 2 else 0;
      var current, delta := Decode(bytecode, idelta[chan], buf[chan], if ch == 1 then s1 else s2, s0);
      Shift(buf, ch, j, s0, s1, s2, s3, idelta, current, delta);
      idelta := idelta[chan := delta];
      pcm[j] := s0;
      if ch == 1 {
        s0, s1, s2 := s1, current, s3;
      } else {
        s0, s1, s2, s3, s4 := s1, s2, s3, current, s5;
      }
      j := j + 1;
      i := i + 1;
    }
    OutputIs(buf, ch, j);
    if ch == 1 {
      pcm[j], pcm[j + 1] := s0, s1;
      j := j + 2;
    } else {
      pcm[j], pcm[j + 1], pcm[j + 2], pcm[j + 3] := s0, s1, s2, s3;
      j := j + 4;
    }
  }

  /* ---------- The predictors, and an encoder ---------- */

  /** What each of the seven predictors makes of the last two samples. */
  lemma PredictedIs(b: Predictor, newer: int, older: int)
    ensures Predicted(b, newer, older)
         == if b == 0 then newer
            else if b == 1 then 2 * newer - older
            else if b == 2 then 0
            else if b == 3 then (3 * newer + older) / 4
            else if b == 4 then 15 * newer / 16
            else if b == 5 then (115 * newer - 52 * older) / 64
            else (98 * newer - 58 * older) / 64
  {}

  function PairOf(first: Code, second: Code): Byte { 16 * first + second }

  /** Codes in bytes, the first one of each pair high. */
  function Pack(codes: seq<Code>): (data: seq<Byte>)
    requires |codes| % 2 == 0
    ensures |data| == |codes| / 2
  {
    seq(|codes| / 2, j requires 0 <= j < |codes| / 2 => PairOf(codes[2 * j], codes[2 * j + 1]))
  }

  lemma Unpacked(codes: seq<Code>, k: nat)
    requires |codes| % 2 == 0 && k < |codes|
    ensures CodeAt(Pack(codes), k) == codes[k]
  {
    assert k == 2 * (k / 2) + k % 2;
  }

  /** The code whose multiple of the step is nearest to `e`, as far as codes go. */
  function Quantised(e: int, delta: int): (c: Code)
    requires delta > 0
  {
    var n := (2 * e + delta) / (2 * delta);
    if n > 7 then 7 else if n >= 0 then n else if n >= -8 then n + 16 else 8
  }

  /** An error of at most 7.5 steps up or 8.5 steps down is met within half a step. */
  lemma QuantisedIs(e: int, delta: int)
    requires delta > 0 && -17 * delta <= 2 * e < 15 * delta
    ensures -delta <= 2 * (e - SignedCode(Quantised(e, delta)) * delta) <= delta
  {
    var n := (2 * e + delta) / (2 * delta);
    Nearest(e, delta, n);
    NearestRange(e, delta, n);
  }

  lemma Nearest(e: int, delta: int, n: int)
    requires delta > 0 && n == (2 * e + delta) / (2 * delta)
    ensures 2 * delta * n <= 2 * e + delta < 2 * delta * n + 2 * delta
    ensures 2 * delta * n == 2 * (n * delta)
  {
    assert 2 * e + delta == 2 * delta * n + (2 * e + delta) % (2 * delta);
  }

  lemma NearestRange(e: int, delta: int, n: int)
    requires delta > 0 && -17 * delta <= 2 * e < 15 * delta
    requires 2 * delta * n <= 2 * e + delta < 2 * delta * n + 2 * delta
    ensures -8 <= n <= 7
  {
    var h := 2 * delta;
    assert n > 7 ==> h * n >= h * 8;
    assert n < -8 ==> h * (n + 1) <= h * (-8);
    assert h * (n + 1) == h * n + h;
  }

  /** Codes for the samples `x`: each the nearest to what the prediction leaves over. */
  function Encoded(x: seq<int>, b: Predictor, start: Channel): (codes: seq<Code>)
    requires start.delta > 0
    ensures |codes| == |x|
  {
    if x == [] then []
    else
      var n := |x| - 1;
      var codes := Encoded(x[..n], b, start);
      var s := After(codes, b, start, n);
      DeltaPositive(codes, b, start, n);
      codes + [Quantised(x[n] - Predicted(b, s.newer, s.older), s.delta)]
  }

  lemma DeltaPositive(codes: seq<Code>, b: Predictor, start: Channel, k: nat)
    requires k <= |codes| && start.delta > 0
    ensures After(codes, b, start, k).delta > 0
  {
    if k > 0 { AdaptedRange(After(codes, b, start, k - 1).delta, codes[k - 1]); }
  }

  lemma {:induction false} AfterPrefix(codes: seq<Code>, more: seq<Code>, b: Predictor, start: Channel, k: nat)
    requires k <= |codes|
    ensures After(codes + more, b, start, k) == After(codes, b, start, k)
  {
    hide Next;
    if k > 0 { AfterPrefix(codes, more, b, start, k - 1); }
  }

  lemma {:induction false} EncodedPrefix(x: seq<int>, b: Predictor, start: Channel, k: nat)
    requires k <= |x| && start.delta > 0
    ensures Encoded(x[..k], b, start) == Encoded(x, b, start)[..k]
  {
    if k < |x| {
      EncodedPrefix(x[..|x| - 1], b, start, k);
      assert x[..|x| - 1][..k] == x[..k];
    } else {
      assert x[..k] == x;
    }
  }

  /**
    Decoding gives back sample `t` within half a step, wherever the prediction
    is off by no more than the codes reach.
   */
  lemma EncodedBack(x: seq<int>, b: Predictor, start: Channel, t: nat)
    requires t < |x| && start.delta > 0 && -32768 <= x[t] <= 32767
    ensures var codes := Encoded(x, b, start);
            var s := After(codes, b, start, t);
            var e := x[t] - Predicted(b, Sample(codes, b, start, t + 1), Sample(codes, b, start, t));
            -17 * s.delta <= 2 * e < 15 * s.delta ==>
              -s.delta <= 2 * (x[t] - Sample(codes, b, start, t + 2)) <= s.delta
  {
    hide Predicted, Quantised, SignedCode, Adapted, Encoded;
    var codes := Encoded(x, b, start);
    var s := After(codes, b, start, t);
    OlderIs(codes, b, start, t);
    DeltaPositive(codes, b, start, t);
    CodeIs(x, b, start, t);
    var e := x[t] - Predicted(b, s.newer, s.older);
    if -17 * s.delta <= 2 * e < 15 * s.delta {
      QuantisedIs(e, s.delta);
      ClampNear(SignedCode(codes[t]) * s.delta + Predicted(b, s.newer, s.older), x[t], s.delta);
    }
  }

  /** Saturation only moves a sample closer. */
  lemma ClampNear(y: int, x: int, delta: int)
    requires -32768 <= x <= 32767 && -delta <= 2 * (x - y) <= delta
    ensures -delta <= 2 * (x - ClampS16(y)) <= delta
  {}

  lemma CodeIs(x: seq<int>, b: Predictor, start: Channel, t: nat)
    requires t < |x| && start.delta > 0
    ensures var codes := Encoded(x, b, start);
            var s := After(codes, b, start, t);
            s.delta > 0 && codes[t] == Quantised(x[t] - Predicted(b, s.newer, s.older), s.delta)
  {
    hide Predicted, Quantised, After, Encoded;
    var codes := Encoded(x, b, start);
    EncodedPrefix(x, b, start, t + 1);
    EncodedPrefix(x, b, start, t);
    LastCode(x[..t + 1], b, start);
    assert x[..t + 1][..t] == x[..t];
    AfterPrefix(codes[..t], codes[t..], b, start, t);
    assert codes[..t] + codes[t..] == codes;
    DeltaPositive(codes, b, start, t);
    assert codes[t] == codes[..t + 1][t];
  }

  lemma LastCode(x: seq<int>, b: Predictor, start: Channel)
    requires x != [] && start.delta > 0
    ensures var n := |x| - 1;
            var s := After(Encoded(x[..n], b, start), b, start, n);
            s.delta > 0 && Encoded(x, b, start)[n] == Quantised(x[n] - Predicted(b, s.newer, s.older), s.delta)
  {
    hide Predicted, Quantised, After;
    DeltaPositive(Encoded(x[..|x| - 1], b, start), b, start, |x| - 1);
  }

  /* ---------- A whole block ---------- */

  predicate Is16(v: int) { -32768 <= v <= 32767 }

  /** A sample in two bytes, low one first. */
  function Two(v: int): seq<Byte> { [v % 65536 % 256, v % 65536 / 256] }

  lemma TwoBack(v: int)
    requires Is16(v)
    ensures Le16(Two(v)[0], Two(v)[1]) == v
  {}

  /** Predictors, adaptation steps, the second samples, the first samples, and the codes. */
  function Block(b: seq<Predictor>, starts: seq<Channel>, codes: seq<Code>): seq<Byte>
    requires |b| == |starts| && |codes| % 2 == 0 && (|b| == 1 || |b| == 2)
  {
    if |b| == 1 then [b[0]] + Two(starts[0].delta) + Two(starts[0].newer) + Two(starts[0].older) + Pack(codes)
    else [b[0], b[1]] + Two(starts[0].delta) + Two(starts[1].delta) + Two(starts[0].newer) + Two(starts[1].newer)
         + Two(starts[0].older) + Two(starts[1].older) + Pack(codes)
  }

  predicate ValidStart(s: Channel) { Is16(s.delta) && Is16(s.newer) && Is16(s.older) }

  /** The preamble of a block gives back what was put there. */
  lemma PreambleBack(b: seq<Predictor>, starts: seq<Channel>, codes: seq<Code>, c: nat)
    requires |b| == |starts| && |codes| % 2 == 0 && (|b| == 1 || |b| == 2) && c < |b| && ValidStart(starts[c])
    ensures var buf := Block(b, starts, codes);
            BlockOk(buf, |b|) && buf[c] == b[c] && Start(buf, |b|, c) == starts[c] && buf[7 * |b|..] == Pack(codes)
  {
    hide Two, Le16, Pack, ValidStart;
    TwoParts(starts[c]);
    TwoLong();
  }

  lemma TwoParts(s: Channel)
    requires ValidStart(s)
    ensures Le16(Two(s.delta)[0], Two(s.delta)[1]) == s.delta && Le16(Two(s.newer)[0], Two(s.newer)[1]) == s.newer
    ensures Le16(Two(s.older)[0], Two(s.older)[1]) == s.older
  {
    TwoBack(s.delta);
    TwoBack(s.newer);
    TwoBack(s.older);
  }

  lemma TwoLong()
    ensures forall v: int :: |Two(v)| == 2
  {}

  /** The codes of channel `c`, taking turns. */
  function Own(codes: seq<Code>, ch: nat, c: nat): (s: seq<Code>)
    requires |codes| % 2 == 0 && (ch == 1 || ch == 2) && c < ch
    ensures |s| == |codes| / ch
  {
    seq(|codes| / ch, p requires 0 <= p < |codes| / ch => codes[ch * p + c])
  }

  /** Every sample that comes out of a block is that of its channel's own codes. */
  lemma BlockBack(b: seq<Predictor>, starts: seq<Channel>, codes: seq<Code>, o: nat)
    requires |b| == |starts| && |codes| % 2 == 0 && (|b| == 1 || |b| == 2)
    requires forall c | 0 <= c < |starts| :: ValidStart(starts[c])
    requires o < Decodes(|codes| / 2) + 2 * |b|
    ensures var ch, buf := |b|, Block(b, starts, codes);
            && BlockOk(buf, ch) && |buf| - 7 * ch == |codes| / 2
            && var c := o % ch;
               o / ch <= |Own(codes, ch, c)| + 1 && Output(buf, ch, o)
                   == Sample(Own(codes, ch, c), b[c], starts[c], o / ch)
  {
    hide Block, Start, CodeAt, After, Pack, ValidStart, Decodes;
    var ch := |b|;
    var c := o % ch;
    PreambleBack(b, starts, codes, c);
    hide BlockOk;
    var part, own := Codes(Pack(codes), ch, c), Own(codes, ch, c);
    OwnPrefix(codes, ch, c);
    assert own == part + own[|part|..];
    OutputFits(|codes| / 2, ch, o);
    if o / ch > 0 { AfterPrefix(part, own[|part|..], b[c], starts[c], o / ch - 1); }
  }

  lemma OutputFits(n: nat, ch: nat, o: nat)
    requires (ch == 1 || ch == 2) && o < Decodes(n) + 2 * ch
    ensures o / ch <= Share(Decodes(n), ch, o % ch) + 1
  {}

  lemma OwnPrefix(codes: seq<Code>, ch: nat, c: nat)
    requires |codes| % 2 == 0 && (ch == 1 || ch == 2) && c < ch
    ensures var part, own := Codes(Pack(codes), ch, c), Own(codes, ch, c);
            |part| <= |own| && part == own[..|part|]
  {
    hide CodeAt, Pack;
    var part, own := Codes(Pack(codes), ch, c), Own(codes, ch, c);
    forall p | 0 <= p < |part|
      ensures part[p] == own[p]
    {
      Unpacked(codes, ch * p + c);
    }
  }
}
