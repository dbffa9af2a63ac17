/**
  Segments as `read_segment` fills them, and the merge of the trailing bits
  into the last segment (libfaad/hcr.c:192-204 and 307-331).
 */
module HcrMerge {
  import opened BitWords
  import opened BitReader
  import opened HcrBits

  lemma {:induction false} ToBitsPadded(s: seq<bool>, n: nat)
    requires |s| <= n
    ensures ToBits(Value(s), n) == Zeros(n - |s|) + s
  {
    ValueZeros(n - |s|, s);
    ToBitsValue(Zeros(n - |s|) + s);
  }

  /** `len` bits in a segment, the words above them cleared. */
  ghost predicate Clean(b: Bits64) { b.len <= 64 && (b.bufb + b.bufa)[..64 - b.len] == Zeros(64 - b.len) }

  /** `read_segment`. */
  method ReadSegment(r: Reader, ghost data: seq<Byte>, width: nat) returns (b: Bits64)
    requires r.Reads(data) && 1 <= width <= 63
    modifies r
    ensures r.Reads(data) && r.error == old(r.error) && old(r.Pos()) >= 0
    ensures r.Pos() == old(r.Pos()) + if r.error then 0 else width
    ensures b.len == width && Clean(b) && (!r.error ==> Content(b) == Bits(data, old(r.Pos()), width))
  {
    hide Reader.Reads, Bits, ToBits, Value, Clean, Content;
    r.PosNatural(data);
    ghost var p := r.Pos();
    if width > 32 {
      var hi := r.GetBits(data, width - 32);
      ghost var q := r.Pos();
      var lo := r.GetBits(data, 32);
      b := Bits64(ToBits(lo, 32), ToBits(hi, 32), width);
      TwoWords(Bits(data, p, width - 32), Bits(data, q, 32));
      BitsConcat(data, p, width - 32, 32);
    } else {
      var lo := r.GetBits(data, width);
      b := Bits64(ToBits(lo, 32), Zeros(32), width);
      OneWord(Bits(data, p, width));
    }
  }

  lemma OneWord(s: seq<bool>)
    requires |s| <= 32
    ensures var b := Bits64(ToBits(Value(s), 32), Zeros(32), |s|); Clean(b) && Content(b) == s
  {
    hide ToBits, Value;
    ToBitsPadded(s, 32);
    Padded([], s, ToBits(Value(s), 32), Zeros(32));
  }

  lemma TwoWords(s: seq<bool>, t: seq<bool>)
    requires |s| <= 32 && |t| == 32
    ensures var b := Bits64(ToBits(Value(t), 32), ToBits(Value(s), 32), |s| + 32); Clean(b) && Content(b) == s + t
  {
    hide ToBits, Value;
    ToBitsPadded(s, 32);
    ToBitsPadded(t, 32);
    Padded(s, t, ToBits(Value(t), 32), ToBits(Value(s), 32));
  }

  lemma Padded(s: seq<bool>, t: seq<bool>, lo: Word, hi: Word)
    requires |s| <= 32 && |t| <= 32 && (s != [] ==> |t| == 32) && lo == Zeros(32 - |t|) + t && hi == Zeros(32 - |s|) + s
    ensures Clean(Bits64(lo, hi, |s| + |t|)) && Content(Bits64(lo, hi, |s| + |t|)) == s + t
  {
    var k := 64 - |s| - |t|;
    assert hi + lo == Zeros(k) + (s + t);
  }

  /** The sum of two words with no bit in common. */
  lemma {:induction false} OrIsSum(a: seq<bool>, b: seq<bool>)
    requires |a| == |b| && forall i | 0 <= i < |a| :: !(a[i] && b[i])
    ensures Value(seq(|a|, i requires 0 <= i < |a| => a[i] || b[i])) == Value(a) + Value(b)
  {
    if a != [] {
      var n := |a| - 1;
      OrIsSum(a[..n], b[..n]);
      var c := seq(|a|, i requires 0 <= i < |a| => a[i] || b[i]);
      var d := seq(n, i requires 0 <= i < n => a[..n][i] || b[..n][i]);
      assert c[..n] == d;
    }
  }

  /** Addition of 32-bit words. */
  function Sum(a: Word, b: Word): (r: Word) { ToBits(Value(a) + Value(b), 32) }

  lemma SumIsOr(a: Word, b: Word)
    requires forall i | 0 <= i < 32 :: !(a[i] && b[i])
    ensures Sum(a, b) == Or(a, b)
  {
    hide Value, ToBits;
    OrIsSum(a, b);
    ToBitsValue(Or(a, b));
    assert Or(a, b) == seq(|a|, i requires 0 <= i < |a| => a[i] || b[i]);
  }

  /** The trailing bits `x`, moved above the `len` bits of the last segment and reversed. */
  function Lifted(x: Bits64, len: nat): Bits64
    requires x.len + len <= 63
  {
    RewrevBits(x.(len := x.len + len))
  }

  /** The last segment after the trailing bits are added to it. */
  function Merge(prev: Bits64, x: Bits64): (m: Bits64)
    requires x.len + prev.len <= 63
    ensures m.len == prev.len + x.len
  {
    var e := Lifted(x, prev.len);
    if prev.len > 32 then
      Bits64(Sum(e.bufa, ShowBits(prev, 32)), Sum(e.bufb, ShowBits(prev, prev.len - 32)), prev.len + x.len)
    else
      Bits64(Sum(e.bufa, ShowBits(prev, prev.len)), e.bufb, prev.len + x.len)
  }

  /** Every bit of the lifted number: the reversed trailing bits above `len` zeros, and zeros above. */
  lemma LiftedBits(x: Bits64, len: nat)
    requires Clean(x) && x.len + len <= 63
    ensures var e := Lifted(x, len);
            e.bufb + e.bufa == Zeros(64 - x.len - len) + Reverse(Content(x)) + Zeros(len)
  {
    hide RewrevBits, ReverseWord, Content;
    var y := x.(len := x.len + len);
    var e := Lifted(x, len);
    RewrevReverses(y);
    RewrevClean(y);
    ContentLifted(x, len);
    ReverseConcat(Zeros(len), Content(x));
    ReverseZeros(len);
    ContentWhole(e);
  }

  lemma ContentLifted(x: Bits64, len: nat)
    requires Clean(x) && x.len + len <= 63
    ensures Content(x.(len := x.len + len)) == Zeros(len) + Content(x)
  {
    var w := x.bufb + x.bufa;
    forall i | 0 <= i < 64 - x.len
      ensures !w[i]
    {
      assert w[i] == w[..64 - x.len][i];
    }
  }

  lemma ReverseZeros(n: nat)
    ensures Reverse(Zeros(n)) == Zeros(n)
  {}

  lemma ContentWhole(e: Bits64)
    requires Clean(e)
    ensures e.bufb + e.bufa == Zeros(64 - e.len) + Content(e)
  {
    var w := e.bufb + e.bufa;
    assert w == w[..64 - e.len] + w[64 - e.len..];
  }

  /** Reversing clears the bits above the ones held. */
  lemma RewrevClean(b: Bits64)
    requires 0 < b.len <= 63 || (b.len == 0 && Clean(b))
    ensures Clean(RewrevBits(b))
  {
    hide ReverseWord;
    var r := RewrevBits(b);
    var w := r.bufb + r.bufa;
    if b.len > 0 {
      forall i | 0 <= i < 64 - b.len
        ensures !w[i]
      {}
    }
  }

  /** With at most 32 bits left in the last segment the trailing bits go in front, reversed. */
  lemma MergeShort(prev: Bits64, x: Bits64)
    requires Clean(x) && x.len + prev.len <= 63 && prev.len <= 32
    ensures Content(Merge(prev, x)) == Reverse(Content(x)) + Content(prev)
  {
    hide Lifted, Reverse, Merge;
    LiftedBits(x, prev.len);
    NoCommonBits(prev, x);
    var m := Merge(prev, x);
    var v := m.bufb + m.bufa;
    var t := Zeros(64 - m.len) + Reverse(Content(x)) + Content(prev);
    forall i | 0 <= i < 64
      ensures v[i] == t[i]
    {
      MergedBit(prev, x, i);
    }
    assert Content(m) == v[64 - m.len..] == t[64 - m.len..];
  }

  /** The summands of the merge have no bit in common. */
  lemma NoCommonBits(prev: Bits64, x: Bits64)
    requires x.len + prev.len <= 63 && prev.len <= 32
    requires var e := Lifted(x, prev.len);
             e.bufb + e.bufa == Zeros(64 - x.len - prev.len) + Reverse(Content(x)) + Zeros(prev.len)
    ensures Merge(prev, x).bufa == Or(Lifted(x, prev.len).bufa, ShowBits(prev, prev.len))
  {
    hide Lifted, Reverse, ShowBits, Content, Sum;
    var e, shown := Lifted(x, prev.len), ShowBits(prev, prev.len);
    forall i | 0 <= i < 32
      ensures !(e.bufa[i] && shown[i])
    {
      ShownAt(prev, i);
      assert e.bufa[i] == (e.bufb + e.bufa)[32 + i];
    }
    SumIsOr(e.bufa, shown);
  }

  lemma MergedBit(prev: Bits64, x: Bits64, i: nat)
    requires x.len + prev.len <= 63 && prev.len <= 32 && i < 64
    requires var e := Lifted(x, prev.len);
             e.bufb + e.bufa == Zeros(64 - x.len - prev.len) + Reverse(Content(x)) + Zeros(prev.len)
    requires Merge(prev, x).bufa == Or(Lifted(x, prev.len).bufa, ShowBits(prev, prev.len))
    ensures var m := Merge(prev, x);
            (m.bufb + m.bufa)[i] == (Zeros(64 - m.len) + Reverse(Content(x)) + Content(prev))[i]
  {
    hide Lifted, Reverse, ShowBits, Content, Sum;
    var e, m := Lifted(x, prev.len), Merge(prev, x);
    var w := e.bufb + e.bufa;
    assert w[i] == (Zeros(64 - m.len) + Reverse(Content(x)) + Zeros(prev.len))[i];
    if i >= 32 {
      assert m.bufa[i - 32] == (e.bufa[i - 32] || ShowBits(prev, prev.len)[i - 32]);
      ShownAt(prev, i - 32);
    } else {
      assert m.bufb[i] == w[i];
    }
  }

  lemma ShownAt(prev: Bits64, i: nat)
    requires prev.len <= 32 && i < 32
    ensures ShowBits(prev, prev.len)[i] == (i >= 32 - prev.len && Content(prev)[i - (32 - prev.len)])
  {
    if prev.len > 0 { ShowBitsIs(prev, prev.len); }
  }

  /** A segment of `len` bits of which only the last is set. */
  function LastSet(len: nat): Bits64 { Bits64(Zeros(31) + [true], Zeros(32), len) }

  /** With more than 32 bits left the top 32 are taken where the low 32 belong. */
  lemma MergeLong(len: nat, x: Bits64)
    requires 32 < len && Clean(x) && x.len + len <= 63
    ensures Content(Merge(LastSet(len), x)) != Reverse(Content(x)) + Content(LastSet(len))
  {
    hide Lifted, Reverse, Sum;
    var prev := LastSet(len);
    var e, m := Lifted(x, len), Merge(prev, x);
    LiftedBits(x, len);
    ShowBitsIs(prev, 32);
    assert Content(m)[m.len - 1] == m.bufa[31];
    forall i | 0 <= i < 32
      ensures !e.bufa[i]
    {
      assert e.bufa[i] == (e.bufb + e.bufa)[32 + i];
    }
    SumIsOr(e.bufa, ShowBits(prev, 32));
    assert ShowBits(prev, 32)[31] == Content(prev)[31] == (prev.bufb + prev.bufa)[64 - len + 31];
    assert Content(prev)[len - 1];
  }

  /** The merge is right for all contents exactly when at most 32 bits were left. */
  lemma MergeIff(len: nat, x: Bits64)
    requires Clean(x) && x.len + len <= 63
    ensures (forall prev: Bits64 | prev.len == len :: Content(Merge(prev, x)) == Reverse(Content(x)) + Content(prev))
       <==> len <= 32
  {
    hide Merge, Content, Reverse;
    if len <= 32 {
      forall prev: Bits64 | prev.len == len
        ensures Content(Merge(prev, x)) == Reverse(Content(x)) + Content(prev)
      {
        MergeShort(prev, x);
      }
    } else {
      MergeLong(len, x);
      assert LastSet(len).len == len;
    }
  }
}
