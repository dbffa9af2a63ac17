/**
  The 64-bit bit strings of huffman codeword reordering (`bits_t`):
  libfaad/bits.h:330-388 and libfaad/hcr.c:76-175, word operation by word
  operation, and what they mean for the bits held.
 */
module HcrBits {
  import opened Arithmetic
  import opened BitWords

  /** `bits_t`: the low `len` bits of the 64-bit number bufb:bufa. Bits above them are leftovers. */
  datatype Bits64 = Bits64(bufa: Word, bufb: Word, len: nat)

  /** The bits held, next one first. */
  function Content(b: Bits64): (s: seq<bool>)
    requires b.len <= 64
    ensures |s| == b.len
  {
    (b.bufb + b.bufa)[64 - b.len..]
  }

  function Reverse(s: seq<bool>): (r: seq<bool>)
    ensures |r| == |s|
  {
    seq(|s|, i requires 0 <= i < |s| => s[|s| - 1 - i])
  }

  lemma ReverseTwice(s: seq<bool>)
    ensures Reverse(Reverse(s)) == s
  {}

  lemma ReverseConcat(s: seq<bool>, t: seq<bool>)
    ensures Reverse(s + t) == Reverse(t) + Reverse(s)
  {}

  /* ---------- rewrev ---------- */

  function And(a: Word, m: Word): (r: Word) { seq(32, i requires 0 <= i < 32 => a[i] && m[i]) }

  function Not(a: Word): (r: Word) { seq(32, i requires 0 <= i < 32 => !a[i]) }

  const SHIFTS: seq<nat> := [1, 2, 4, 8, 16]

  const MASKS: seq<nat> := [0x55555555, 0x33333333, 0x0F0F0F0F, 0x00FF00FF, 0x0000FFFF]

  /** The word whose number is MASKS[k]: alternating runs of SHIFTS[k] zeros and ones, zeros first. */
  function Mask(k: nat): Word requires k < 5 { seq(32, i requires 0 <= i < 32 => (i / SHIFTS[k]) % 2 == 1) }

  /** v = ((v >> S[k]) & B[k]) | ((v << S[k]) & ~B[k]) */
  function SwapStage(v: Word, k: nat): Word
    requires k < 5
  {
    Or(And(Shr(v, SHIFTS[k]), Mask(k)), And(Shl(v, SHIFTS[k]), Not(Mask(k))))
  }

  function ReverseWord(v: Word): Word { SwapStage(SwapStage(SwapStage(SwapStage(SwapStage(v, 0), 1), 2), 3), 4) }

  /** `rewrev_word`. */
  function RewrevWord(v: Word, len: nat): Word requires 1 <= len <= 32 { Shr(ReverseWord(v), 32 - len) }

  function Bit(b: bool): nat { if b then 1 else 0 }

  lemma ByteValue(s: seq<bool>)
    requires |s| == 8
    ensures Value(s) == 128 * Bit(s[0]) + 64 * Bit(s[1]) + 32 * Bit(s[2]) + 16 * Bit(s[3])
                      + 8 * Bit(s[4]) + 4 * Bit(s[5]) + 2 * Bit(s[6]) + Bit(s[7])
  {
    assert Value(s[..1]) == 2 * Value(s[..1][..0]) + Bit(s[0]);
    assert s[..2][..1] == s[..1] && s[..3][..2] == s[..2] && s[..4][..3] == s[..3] && s[..5][..4] == s[..4];
    assert s[..6][..5] == s[..5] && s[..7][..6] == s[..6];
    assert Value(s[..2]) == 2 * Value(s[..1]) + Bit(s[1]);
    assert Value(s[..3]) == 2 * Value(s[..2]) + Bit(s[2]);
    assert Value(s[..4]) == 2 * Value(s[..3]) + Bit(s[3]);
    assert Value(s[..5]) == 2 * Value(s[..4]) + Bit(s[4]);
    assert Value(s[..6]) == 2 * Value(s[..5]) + Bit(s[5]);
    assert Value(s[..7]) == 2 * Value(s[..6]) + Bit(s[6]);
  }

  lemma {:induction false} ValueConcat(s: seq<bool>, t: seq<bool>)
    ensures Value(s + t) == Value(s) * Power2(|t|) + Value(t)
  {
    if t == [] {
      assert s + t == s;
    } else {
      var n := |t| - 1;
      ValueConcat(s, t[..n]);
      assert (s + t)[..|s| + n] == s + t[..n];
      Doubled(Value(s), Power2(n));
    }
  }

  lemma Power256()
    ensures Power2(8) == 256
  {
    assert Power2(4) == 16;
  }

  lemma WordValue(w: Word)
    ensures Value(w) == ((Value(w[..8]) * 256 + Value(w[8..16])) * 256 + Value(w[16..24])) * 256 + Value(w[24..])
  {
    Power256();
    assert w == w[..24] + w[24..] && w[..24] == w[..16] + w[16..24] && w[..16] == w[..8] + w[8..16];
    ValueConcat(w[..24], w[24..]);
    ValueConcat(w[..16], w[16..24]);
    ValueConcat(w[..8], w[8..16]);
  }

  /** Byte `j` of mask `k`, as a number. */
  function MaskByte(k: nat, j: nat): nat {
    if k == 0 then 0x55 else if k == 1 then 0x33 else if k == 2 then 0x0F
    else if k == 3 then (if j % 2 == 0 then 0 else 0xFF) else if j < 2 then 0 else 0xFF
  }

  function Pattern(k: nat, j: nat, i: nat): bool {
    if k == 0 then i % 2 == 1 else if k == 1 then i % 4 >= 2
    else if k == 2 then i >= 4 else if k == 3 then j % 2 == 1 else j >= 2
  }

  lemma PatternIs(k: nat, j: nat, i: nat)
    requires k < 5 && j < 4 && i < 8
    ensures Mask(k)[8 * j + i] == Pattern(k, j, i)
  {
    if k == 0 {} else if k == 1 {} else if k == 2 {} else if k == 3 {} else {}
  }

  lemma MaskByteIs(k: nat, j: nat)
    requires k < 5 && j < 4
    ensures Value(Mask(k)[8 * j..8 * j + 8]) == MaskByte(k, j)
  {
    hide Value, Mask;
    var s := Mask(k)[8 * j..8 * j + 8];
    ByteValue(s);
    forall i: nat | i < 8
      ensures s[i] == Pattern(k, j, i)
    {
      PatternIs(k, j, i);
    }
  }

  /** The masks are the constants of the code. */
  lemma MaskValue(k: nat)
    requires k < 5
    ensures Value(Mask(k)) == MASKS[k]
  {
    hide Value, Mask;
    var m := Mask(k);
    WordValue(m);
    MaskByteIs(k, 0);
    MaskByteIs(k, 1);
    MaskByteIs(k, 2);
    MaskByteIs(k, 3);
    assert m[0..8] == m[..8] && m[24..32] == m[24..];
  }

  /** Position `i` with its bit of weight `d` flipped. */
  function Flip(i: nat, d: nat): int requires d > 0 { if (i / d) % 2 == 1 then i - d else i + d }

  lemma FlipRange(i: nat, k: nat)
    requires i < 32 && k < 5
    ensures 0 <= Flip(i, SHIFTS[k]) < 32
  {
    if k == 0 {} else if k == 1 {} else if k == 2 {} else if k == 3 {} else {}
  }

  /** A stage moves every bit to the position with one index bit flipped. */
  lemma StageMoves(v: Word, k: nat, i: nat)
    requires i < 32 && k < 5
    ensures 0 <= Flip(i, SHIFTS[k]) < 32 && SwapStage(v, k)[i] == v[Flip(i, SHIFTS[k])]
  {
    FlipRange(i, k);
  }

  lemma FlipBit(d: nat, hi: nat, x: nat, lo: nat, i: nat)
    requires x < 2 && lo < d && i == (2 * hi + x) * d + lo
    ensures Flip(i, d) == if x == 1 then i - d else i + d
  {
    DivMod(lo, d, 2 * hi + x);
  }

  lemma FiveFlips(i: nat)
    requires i < 32
    ensures var a := Flip(i, 16); 0 <= a < 32
    ensures var b := Flip(Flip(i, 16), 8); 0 <= b < 32
    ensures var c := Flip(Flip(Flip(i, 16), 8), 4); 0 <= c < 32
    ensures var d := Flip(Flip(Flip(Flip(i, 16), 8), 4), 2); 0 <= d < 32 && Flip(d, 1) == 31 - i
  {
    hide Flip;
    var x4 := if i >= 16 then 1 else 0;
    var r4 := i - 16 * x4;
    var x3 := if r4 >= 8 then 1 else 0;
    var r3 := r4 - 8 * x3;
    var x2 := if r3 >= 4 then 1 else 0;
    var r2 := r3 - 4 * x2;
    var x1 := if r2 >= 2 then 1 else 0;
    var x0 := r2 - 2 * x1;
    var y4, y3, y2, y1 := 1 - x4, 1 - x3, 1 - x2, 1 - x1;
    FlipBit(16, 0, x4, r4, i);
    FlipBit(8, y4, x3, r3, 16 * y4 + r4);
    FlipBit(4, 2 * y4 + y3, x2, r2, 16 * y4 + 8 * y3 + r3);
    FlipBit(2, 4 * y4 + 2 * y3 + y2, x1, x0, 16 * y4 + 8 * y3 + 4 * y2 + r2);
    FlipBit(1, 8 * y4 + 4 * y3 + 2 * y2 + y1, x0, 0, 16 * y4 + 8 * y3 + 4 * y2 + 2 * y1 + x0);
  }

  /** The five stages reverse the word. */
  lemma ReverseWordIs(v: Word)
    ensures ReverseWord(v) == Reverse(v)
  {
    hide SwapStage, Flip;
    forall i: nat | i < 32
      ensures ReverseWord(v)[i] == Reverse(v)[i]
    {
      FiveFlips(i);
      var v0 := SwapStage(v, 0);
      var v1 := SwapStage(v0, 1);
      var v2 := SwapStage(v1, 2);
      var v3 := SwapStage(v2, 3);
      var a := Flip(i, 16);
      var b := Flip(a, 8);
      var c := Flip(b, 4);
      var d := Flip(c, 2);
      StageMoves(v3, 4, i);
      StageMoves(v2, 3, a);
      StageMoves(v1, 2, b);
      StageMoves(v0, 1, c);
      StageMoves(v, 0, d);
    }
  }

  /** `rewrev_bits` with `rewrev_lword` in it. */
  function RewrevBits(b: Bits64): (r: Bits64)
    requires b.len <= 63
  {
    if b.len == 0 then b
    else if b.len <= 32 then Bits64(RewrevWord(b.bufa, b.len), Zeros(32), b.len)
    else
      var t, v := ReverseWord(b.bufb), ReverseWord(b.bufa);
      // each word is reversed by itself; exchanging the two is part of the shifts
      Bits64(Or(Shr(t, 64 - b.len), Shl(v, b.len - 32)), Shr(v, 64 - b.len), b.len)
  }

  /** Rewinding and reversing is exactly reversal of the bits held. */
  lemma RewrevReverses(b: Bits64)
    requires b.len <= 63
    ensures Content(RewrevBits(b)) == Reverse(Content(b))
  {
    hide ReverseWord;
    ReverseWordIs(b.bufa);
    ReverseWordIs(b.bufb);
    var r := RewrevBits(b);
    if b.len > 32 {
      var t, v := ReverseWord(b.bufb), ReverseWord(b.bufa);
      forall i | 0 <= i < b.len
        ensures Content(r)[i] == Reverse(Content(b))[i]
      {
        LongReverse(b, t, v, r, i);
      }
    }
  }

  lemma LongReverse(b: Bits64, t: Word, v: Word, r: Bits64, i: nat)
    requires 32 < b.len <= 63 && t == Reverse(b.bufb) && v == Reverse(b.bufa) && i < b.len
    requires r == Bits64(Or(Shr(t, 64 - b.len), Shl(v, b.len - 32)), Shr(v, 64 - b.len), b.len)
    ensures Content(r)[i] == Reverse(Content(b))[i]
  {
    var k := 64 - b.len;
    var w := r.bufb + r.bufa;
    assert Content(r)[i] == w[k + i];
    if k + i < 32 {
      assert w[k + i] == r.bufb[k + i] == v[i];
    } else {
      var j := k + i - 32;
      assert w[k + i] == r.bufa[j];
      assert r.bufa[j] == (Shr(t, k)[j] || Shl(v, b.len - 32)[j]);
    }
  }

  /* ---------- concat ---------- */

  /**
    `concat_bits(b, a)`: the bits of `a` in front of those of `b`. Shifting by
    32 is undefined in C, so `b` must hold neither 0 nor exactly 32 bits.
   */
  function ConcatBits(b: Bits64, a: Bits64): (r: Bits64)
    requires 0 < b.len <= 64 && b.len != 32 && a.len + b.len <= 64
    ensures r.len == a.len + b.len
  {
    if a.len == 0 then b
    else if b.len > 32 then
      Bits64(b.bufa, Or(Low(b.bufb, b.len - 32), Shl(a.bufa, b.len - 32)), b.len + a.len)
    else
      Bits64(Or(Low(b.bufa, b.len), Shl(a.bufa, b.len)), Or(Shl(a.bufb, b.len), Shr(a.bufa, 32 - b.len)), b.len + a.len)
  }

  /** Merging is concatenation of the bits held. */
  lemma ConcatIsConcat(b: Bits64, a: Bits64)
    requires 0 < b.len <= 64 && b.len != 32 && a.len + b.len <= 64
    ensures Content(ConcatBits(b, a)) == Content(a) + Content(b)
  {
    if a.len > 0 {
      forall i | 0 <= i < a.len + b.len
        ensures Content(ConcatBits(b, a))[i] == (Content(a) + Content(b))[i]
      {
        if b.len > 32 { ConcatHigh(b, a, i); } else { ConcatLow(b, a, i); }
      }
    } else {
      assert Content(a) + Content(b) == Content(b);
    }
  }

  lemma ConcatHigh(b: Bits64, a: Bits64, i: nat)
    requires 32 < b.len && 0 < a.len && a.len + b.len <= 64 && i < a.len + b.len
    ensures Content(ConcatBits(b, a))[i] == (Content(a) + Content(b))[i]
  {
    var r := ConcatBits(b, a);
    var p := 64 - r.len + i;
    var w := r.bufb + r.bufa;
    assert Content(r)[i] == w[p];
    var m := b.len - 32;
    if p < 32 {
      assert r.bufb[p] == (Low(b.bufb, m)[p] || Shl(a.bufa, m)[p]);
    }
  }

  lemma ConcatLow(b: Bits64, a: Bits64, i: nat)
    requires 0 < b.len < 32 && 0 < a.len && a.len + b.len <= 64 && i < a.len + b.len
    ensures Content(ConcatBits(b, a))[i] == (Content(a) + Content(b))[i]
  {
    var r := ConcatBits(b, a);
    var p := 64 - r.len + i;
    var w := r.bufb + r.bufa;
    assert Content(r)[i] == w[p];
    if p < 32 {
      assert r.bufb[p] == (Shl(a.bufb, b.len)[p] || Shr(a.bufa, 32 - b.len)[p]);
    } else {
      var j := p - 32;
      assert r.bufa[j] == (Low(b.bufa, b.len)[j] || Shl(a.bufa, b.len)[j]);
    }
  }

  /* ---------- Reading ---------- */

  /** `showbits_hcr`; missing bits read as zeros. */
  function ShowBits(b: Bits64, bits: nat): Word
    requires b.len <= 64 && bits <= 32 && (b.len <= 32 && bits > b.len ==> bits - b.len < 32)
  {
    if bits == 0 then Zeros(32)
    else if b.len <= 32 then
      if b.len >= bits then Low(Shr(b.bufa, b.len - bits), bits) else Low(Shl(b.bufa, bits - b.len), bits)
    else if b.len - bits < 32 then Or(Shl(Low(b.bufb, b.len - 32), bits - (b.len - 32)), Shr(b.bufa, b.len - bits))
    else Low(Shr(b.bufb, b.len - bits - 32), bits)
  }

  /** The next `n` bits, followed by zeros when fewer are held. */
  function Peek(s: seq<bool>, n: nat): (r: seq<bool>)
    ensures |r| == n
  {
    if n <= |s| then s[..n] else s + Zeros(n - |s|)
  }

  lemma ShowBitsIs(b: Bits64, bits: nat)
    requires b.len <= 64 && 1 <= bits <= 32 && (b.len <= 32 && bits > b.len ==> bits - b.len < 32)
    ensures ShowBits(b, bits) == Zeros(32 - bits) + Peek(Content(b), bits)
  {
    forall i | 0 <= i < 32
      ensures ShowBits(b, bits)[i] == (Zeros(32 - bits) + Peek(Content(b), bits))[i]
    {
      ShowBit(b, bits, i);
    }
  }

  lemma ShowBit(b: Bits64, bits: nat, i: nat)
    requires b.len <= 64 && 1 <= bits <= 32 && (b.len <= 32 && bits > b.len ==> bits - b.len < 32) && i < 32
    ensures ShowBits(b, bits)[i] == (Zeros(32 - bits) + Peek(Content(b), bits))[i]
  {
    hide Content;
    PeekAt(b, bits, i);
    if b.len <= 32 { ShowBitShort(b, bits, i); } else { ShowBitLong(b, bits, i); }
  }

  lemma PeekAt(b: Bits64, bits: nat, i: nat)
    requires b.len <= 64 && 1 <= bits <= 32 && i < 32
    ensures (Zeros(32 - bits) + Peek(Content(b), bits))[i]
         == (0 <= i - (32 - bits) < b.len && (b.bufb + b.bufa)[64 - b.len + i - (32 - bits)])
  {}

  lemma ShowBitShort(b: Bits64, bits: nat, i: nat)
    requires b.len <= 32 && 1 <= bits <= 32 && (bits > b.len ==> bits - b.len < 32) && i < 32
    ensures ShowBits(b, bits)[i] == (0 <= i - (32 - bits) < b.len && (b.bufb + b.bufa)[64 - b.len + i - (32 - bits)])
  {}

  lemma ShowBitLong(b: Bits64, bits: nat, i: nat)
    requires 32 < b.len <= 64 && 1 <= bits <= 32 && i < 32
    ensures ShowBits(b, bits)[i] == (0 <= i - (32 - bits) < b.len && (b.bufb + b.bufa)[64 - b.len + i - (32 - bits)])
  {
    if b.len - bits < 32 {
      var h := b.len - 32;
      assert ShowBits(b, bits)[i] == (Shl(Low(b.bufb, h), bits - h)[i] || Shr(b.bufa, b.len - bits)[i]);
    }
  }

  /** `flushbits_hcr`: true, and nothing left, when more is flushed than is held. */
  function FlushBits(b: Bits64, bits: nat): (r: (bool, Bits64)) {
    if bits > b.len then (true, b.(len := 0)) else (false, b.(len := b.len - bits))
  }

  lemma FlushBitsIs(b: Bits64, bits: nat)
    requires b.len <= 64
    ensures FlushBits(b, bits).0 <==> bits > b.len
    ensures Content(FlushBits(b, bits).1) == if bits > b.len then [] else Content(b)[bits..]
  {}
}
