/**
  Bits, bytes and 32-bit words, most significant bit first, with the shifts
  and masks that libfaad/bits.h applies to them.
 */
module BitWords {
  type Byte = b: seq<bool> | |b| == 8 witness [false, false, false, false, false, false, false, false]

  function Zeros(n: nat): (z: seq<bool>)
    ensures |z| == n
  {
    seq(n, _ => false)
  }

  type Word = w: seq<bool> | |w| == 32 witness seq(32, _ => false)

  function Shl(w: Word, k: nat): (r: Word) requires k <= 32 { w[k..] + Zeros(k) }

  function Shr(w: Word, k: nat): (r: Word) requires k <= 32 { Zeros(k) + w[..32 - k] }

  function Or(a: Word, b: Word): (r: Word) { seq(32, i requires 0 <= i < 32 => a[i] || b[i]) }

  /** The low `m` bits of a word, the others cleared: a mask of (1 << m) - 1. */
  function Low(w: Word, m: nat): (r: Word) requires m <= 32 { Zeros(32 - m) + w[32 - m..] }

  /** The number a bit string stands for. */
  function Value(s: seq<bool>): nat {
    if s == [] then 0 else 2 * Value(s[..|s| - 1]) + (if s[|s| - 1] then 1 else 0)
  }

  function Power2(n: nat): nat { if n == 0 then 1 else 2 * Power2(n - 1) }

  lemma {:induction false} ValueBound(s: seq<bool>)
    ensures Value(s) < Power2(|s|)
  {
    if s != [] { ValueBound(s[..|s| - 1]); }
  }

  lemma {:induction false} ValueZeros(n: nat, s: seq<bool>)
    ensures Value(Zeros(n) + s) == Value(s)
  {
    if s == [] {
      if n > 0 {
        ValueZeros(n - 1, []);
        assert (Zeros(n) + [])[..n - 1] == Zeros(n - 1) + [];
      }
    } else {
      ValueZeros(n, s[..|s| - 1]);
      assert (Zeros(n) + s)[..n + |s| - 1] == Zeros(n) + s[..|s| - 1];
    }
  }

  /* ---------- The stream of a buffer ---------- */

  /** Bit `p` of the buffer followed by infinitely many zeros. */
  function StreamAt(data: seq<Byte>, p: nat): bool { p < 8 * |data| && data[p / 8][p % 8] }

  /** `n` bits of the stream from position `p` on. */
  function Bits(data: seq<Byte>, p: nat, n: nat): (s: seq<bool>)
    ensures |s| == n
  {
    seq(n, i requires 0 <= i < n => StreamAt(data, p + i))
  }

  /** Word `k` of the stream. */
  function WordAt(data: seq<Byte>, k: nat): Word { Bits(data, 32 * k, 32) }

  lemma BitsConcat(data: seq<Byte>, p: nat, m: nat, n: nat)
    ensures Bits(data, p, m + n) == Bits(data, p, m) + Bits(data, p + m, n)
  {}

  lemma BitsPart(data: seq<Byte>, p: nat, n: nat, i: nat, j: nat)
    requires i <= j <= n
    ensures Bits(data, p, n)[i..j] == Bits(data, p + i, j - i)
  {}

  /** Past the end of the buffer the stream reads as zeros. */
  lemma BitsPast(data: seq<Byte>, p: nat, n: nat)
    requires p >= 8 * |data|
    ensures Bits(data, p, n) == Zeros(n)
  {
    forall i | 0 <= i < n
      ensures Bits(data, p, n)[i] == Zeros(n)[i]
    {
      assert !StreamAt(data, p + i);
    }
  }

  /* ---------- Numbers as bit strings ---------- */

  /** The low `n` bits of `v`. */
  function ToBits(v: nat, n: nat): (s: seq<bool>)
    ensures |s| == n
  {
    if n == 0 then [] else ToBits(v / 2, n - 1) + [v % 2 == 1]
  }

  lemma {:induction false} ToBitsValue(s: seq<bool>)
    ensures ToBits(Value(s), |s|) == s
  {
    if s != [] {
      ToBitsValue(s[..|s| - 1]);
      assert s == s[..|s| - 1] + [s[|s| - 1]];
    }
  }

  lemma {:induction false} ValueOfBits(v: nat, n: nat)
    requires v < Power2(n)
    ensures Value(ToBits(v, n)) == v
  {
    if n > 0 {
      ValueOfBits(v / 2, n - 1);
      assert ToBits(v, n)[..n - 1] == ToBits(v / 2, n - 1);
    }
  }

  /** Shifting a number left by `k` appends `k` zeros to its bits. */
  lemma {:induction false} ValueShift(s: seq<bool>, k: nat)
    ensures Value(s + Zeros(k)) == Value(s) * Power2(k)
  {
    if k == 0 {
      assert s + Zeros(0) == s;
    } else {
      ValueShift(s, k - 1);
      assert (s + Zeros(k))[..|s| + k - 1] == s + Zeros(k - 1);
      Doubled(Value(s), Power2(k - 1));
    }
  }

  lemma Doubled(a: nat, b: nat)
    ensures 2 * (a * b) == a * (2 * b)
  {}
}
