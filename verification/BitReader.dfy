/** The two-word prefetching bit reader of libfaad/bits.h and libfaad/bits.c. */
module BitReader {
  import opened BitWords

  /** `getdword`: byte k of memory becomes byte k of the word, counted from its most significant end. */
  function GetDword(mem: seq<Byte>): Word
    requires |mem| >= 4
  {
    seq(32, i requires 0 <= i < 32 => mem[i / 8][i % 8])
  }

  /** `getdword_n`: only the first `n` bytes are read, the rest are zero. */
  function GetDwordN(mem: seq<Byte>, n: nat): Word
    requires n <= |mem|
  {
    seq(32, i requires 0 <= i < 32 => i / 8 < n && mem[i / 8][i % 8])
  }

  /** The word the reader loads at byte `o` when `left` bytes remain; it touches no byte outside the buffer. */
  function Load(buffer: seq<Byte>, o: nat, left: nat): Word
    requires left > 0 ==> o + left <= |buffer|
  {
    if left >= 4 then GetDword(buffer[o..o + 4])
    else if left > 0 then GetDwordN(buffer[o..o + left], left)
    else Zeros(32)
  }

  lemma LoadIsWord(buffer: seq<Byte>, k: nat, left: nat)
    requires left == if 4 * k <= |buffer| then |buffer| - 4 * k else 0
    ensures Load(buffer, 4 * k, left) == WordAt(buffer, k)
  {
    var w := Load(buffer, 4 * k, left);
    forall i | 0 <= i < 32
      ensures w[i] == StreamAt(buffer, 32 * k + i)
    {
      LoadBit(buffer, k, left, i);
    }
  }

  lemma LoadBit(buffer: seq<Byte>, k: nat, left: nat, i: nat)
    requires left == (if 4 * k <= |buffer| then |buffer| - 4 * k else 0) && i < 32
    ensures Load(buffer, 4 * k, left)[i] == StreamAt(buffer, 32 * k + i)
  {
    var b, c := i / 8, i % 8;
    assert (32 * k + i) / 8 == 4 * k + b && (32 * k + i) % 8 == c;
    if left >= 4 {
      assert buffer[4 * k..4 * k + 4][b] == buffer[4 * k + b];
    } else if left > 0 && b < left {
      assert buffer[4 * k..4 * k + left][b] == buffer[4 * k + b];
    } else {
      assert 32 * k + i >= 8 * |buffer|;
    }
  }

  /** `faad_showbits` as the code computes it from the two words. */
  function ShowWord(bufa: Word, bufb: Word, bitsLeft: nat, bits: nat): Word
    requires bitsLeft <= 32 && 1 <= bits <= 32
  {
    if bits <= bitsLeft then Shr(Shl(bufa, 32 - bitsLeft), 32 - bits)
    else
      var m := bits - bitsLeft;
      Or(Shl(Low(bufa, bitsLeft), m), Shr(bufb, 32 - m))
  }

  /** The shown word is the next bits of the two words, right adjusted. */
  lemma ShowWordIs(bufa: Word, bufb: Word, bitsLeft: nat, bits: nat)
    requires bitsLeft <= 32 && 1 <= bits <= 32
    ensures ShowWord(bufa, bufb, bitsLeft, bits)
         == Zeros(32 - bits) + (bufa + bufb)[32 - bitsLeft..32 - bitsLeft + bits]
  {
    var r := ShowWord(bufa, bufb, bitsLeft, bits);
    var t := Zeros(32 - bits) + (bufa + bufb)[32 - bitsLeft..32 - bitsLeft + bits];
    forall i | 0 <= i < 32
      ensures r[i] == t[i]
    {
      if bits > bitsLeft {
        var m := bits - bitsLeft;
        var a, b := Shl(Low(bufa, bitsLeft), m), Shr(bufb, 32 - m);
        assert r[i] == (a[i] || b[i]);
        assert a[i] == (32 - bits <= i < 32 - m && bufa[i + m]);
        assert b[i] == (i >= 32 - m && bufb[i - (32 - m)]);
      }
    }
  }

  class Reader {
    var bufa: Word
    var bufb: Word
    var bitsLeft: nat
    var bytesLeft: nat
    var tail: nat
    var error: bool
    const buffer: array<Byte>

    /**
      The reader reads the stream of `data`: its two words are words of that
      stream, and the bytes it has yet to load are still those of `data`.
     */
    ghost predicate Reads(data: seq<Byte>)
      reads this, buffer
    {
      && |data| == buffer.Length
      && (error <==> data == [])
      && (error ==> bufa == bufb == Zeros(32) && bitsLeft == 0)
      && (!error ==>
            && tail >= 2 && bitsLeft <= 32
            && bufa == WordAt(data, tail - 2) && bufb == WordAt(data, tail - 1)
            && bytesLeft == (if 4 * tail <= |data| then |data| - 4 * tail else 0)
            && forall i | 4 * tail <= i < |data| :: buffer[i] == data[i])
    }

    /** `faad_get_processed_bits`; a reader without a buffer stays at zero. */
    function Pos(): int
      reads this
    {
      if error then 0 else 8 * (4 * tail - 4) - bitsLeft
    }

    /** `faad_initbits` on a cleared structure. */
    constructor (buffer: array<Byte>)
      ensures Reads(buffer[..]) && Pos() == 0 && this.buffer == buffer
    {
      this.buffer := buffer;
      bufa, bufb, bitsLeft, bytesLeft, tail, error := Zeros(32), Zeros(32), 0, 0, 0, true;
      new;
      if buffer.Length > 0 {
        error := false;
        Restart(0, 0);
      }
    }

    /** A copy of the structure, as plain assignment makes it: it shares the buffer. */
    constructor Copy(r: Reader)
      ensures bufa == r.bufa && bufb == r.bufb && bitsLeft == r.bitsLeft && bytesLeft == r.bytesLeft
      ensures tail == r.tail && error == r.error && buffer == r.buffer
    {
      bufa, bufb, bitsLeft, bytesLeft := r.bufa, r.bufb, r.bitsLeft, r.bytesLeft;
      tail, error, buffer := r.tail, r.error, r.buffer;
    }

    /** The loading that `faad_initbits`, `faad_rewindbits` and `faad_resetbits` share. */
    method Restart(words: nat, remainder: nat)
      requires !error && buffer.Length > 0 && 4 * words <= buffer.Length && remainder < 32
      modifies this
      ensures !error && Reads(buffer[..]) && Pos() == 32 * words + remainder
    {
      hide Load, WordAt;
      var size := buffer.Length;
      bytesLeft := size - words * 4;
      LoadIsWord(buffer[..], words, bytesLeft);
      bufa := Load(buffer[..], 4 * words, bytesLeft);
      bytesLeft := if bytesLeft >= 4 then bytesLeft - 4 else 0;
      LoadIsWord(buffer[..], words + 1, bytesLeft);
      bufb := Load(buffer[..], 4 * (words + 1), bytesLeft);
      bytesLeft := if bytesLeft >= 4 then bytesLeft - 4 else 0;
      bitsLeft := 32 - remainder;
      tail := words + 2;
    }

    /** `faad_showbits`: the next `bits` bits of the stream as a number. */
    function ShowBits(bits: nat): nat
      requires 1 <= bits <= 32 && bitsLeft <= 32
      reads this
    {
      Value(ShowWord(bufa, bufb, bitsLeft, bits))
    }

    lemma ShowBitsReads(data: seq<Byte>, bits: nat)
      requires Reads(data) && 1 <= bits <= 32
      ensures Pos() >= 0 && bitsLeft <= 32
      ensures ShowBits(bits) == Value(Bits(data, Pos(), bits))
    {
      ShowWordIs(bufa, bufb, bitsLeft, bits);
      ValueZeros(32 - bits, (bufa + bufb)[32 - bitsLeft..32 - bitsLeft + bits]);
      if error {
        BitsPast(data, 0, bits);
        assert (bufa + bufb)[32..32 + bits] == Zeros(bits);
      } else {
        BitsConcat(data, 32 * (tail - 2), 32, 32);
        BitsPart(data, 32 * (tail - 2), 64, 32 - bitsLeft, 32 - bitsLeft + bits);
      }
    }

    /** `faad_flushbits_ex`: move up one word. */
    method FlushBitsEx(ghost data: seq<Byte>, bits: nat)
      requires Reads(data) && !error && bitsLeft <= bits <= bitsLeft + 32
      modifies this
      ensures Reads(data) && !error && Pos() == old(Pos()) + bits
    {
      hide Load, WordAt;
      LoadIsWord(data, tail, bytesLeft);
      SameLoad(buffer[..], data, 4 * tail, bytesLeft);
      ghost var later := if 4 * (tail + 1) <= |data| then |data| - 4 * (tail + 1) else 0;
      assert later == if bytesLeft >= 4 then bytesLeft - 4 else 0;
      bufa := bufb;
      bufb := Load(buffer[..], 4 * tail, bytesLeft);
      bytesLeft := if bytesLeft >= 4 then bytesLeft - 4 else 0;
      tail := tail + 1;
      bitsLeft := bitsLeft + 32 - bits;
    }

    /** `faad_flushbits`. */
    method FlushBits(ghost data: seq<Byte>, bits: nat)
      requires Reads(data) && bits <= bitsLeft + 32
      modifies this
      ensures Reads(data) && error == old(error)
      ensures Pos() == old(Pos()) + if error then 0 else bits
    {
      if error { return; }
      if bits < bitsLeft {
        bitsLeft := bitsLeft - bits;
      } else {
        FlushBitsEx(data, bits);
      }
    }

    /** `faad_getbits`. */
    method GetBits(ghost data: seq<Byte>, n: nat) returns (v: nat)
      requires Reads(data) && n <= 32
      modifies this
      ensures Reads(data) && error == old(error) && old(Pos()) >= 0
      ensures v == Value(Bits(data, old(Pos()), n))
      ensures Pos() == old(Pos()) + if error then 0 else n
    {
      PosNatural(data);
      if n == 0 { return 0; }
      ShowBitsReads(data, n);
      v := ShowBits(n);
      FlushBits(data, n);
    }

    lemma LeftAtMost32(data: seq<Byte>)
      requires Reads(data)
      ensures bitsLeft <= 32 && Pos() == (if error then 0 else 32 * tail - 32 - bitsLeft) && (error ==> bitsLeft == 0)
    {}

    lemma PosNatural(data: seq<Byte>)
      requires Reads(data)
      ensures Pos() >= 0
    {}

    /** `faad_get1bit`, which reads a bit without reloading while one is left. */
    method Get1Bit(ghost data: seq<Byte>) returns (v: nat)
      requires Reads(data)
      modifies this
      ensures Reads(data) && error == old(error) && old(Pos()) >= 0
      ensures v == Value(Bits(data, old(Pos()), 1))
      ensures Pos() == old(Pos()) + if error then 0 else 1
    {
      if bitsLeft > 0 {
        bitsLeft := bitsLeft - 1;
        v := if bufa[31 - bitsLeft] then 1 else 0;
        assert bufa[31 - bitsLeft] == StreamAt(data, 32 * (tail - 2) + 31 - bitsLeft);
        assert Bits(data, old(Pos()), 1) == [bufa[31 - bitsLeft]];
        return;
      }
      v := GetBits(data, 1);
    }

    /** `faad_byte_align`. */
    method ByteAlign(ghost data: seq<Byte>) returns (skipped: nat)
      requires Reads(data)
      modifies this
      ensures Reads(data) && error == old(error) && old(Pos()) >= 0
      ensures Pos() % 8 == 0 && Pos() == old(Pos()) + skipped && skipped < 8
    {
      PosNatural(data);
      LeftAtMost32(data);
      var remainder := (32 - bitsLeft) % 8;
      AlignArithmetic(Pos(), bitsLeft, if error then 1 else tail, remainder);
      hide Reads;
      if remainder != 0 {
        FlushBits(data, 8 - remainder);
        return 8 - remainder;
      }
      return 0;
    }

    /** `faad_rewindbits`, on a buffer that still holds its data. */
    method RewindBits()
      requires Reads(buffer[..]) && !error
      modifies this
      ensures Reads(buffer[..]) && !error && Pos() == 0
    {
      Restart(0, 0);
    }

    /** `faad_resetbits` to a position inside the buffer. */
    method ResetBits(bits: nat)
      requires Reads(buffer[..]) && !error && bits <= 8 * buffer.Length
      modifies this
      ensures Reads(buffer[..]) && !error && Pos() == bits
    {
      Restart(bits / 32, bits % 32);
    }
  }

  lemma AlignArithmetic(p: int, left: nat, tail: int, remainder: nat)
    requires left <= 32 && p == 32 * tail - 32 - left && remainder == (32 - left) % 8
    ensures remainder == 0 ==> p % 8 == 0
    ensures remainder != 0 ==> (p + (8 - remainder)) % 8 == 0
  {}

  lemma SameLoad(a: seq<Byte>, b: seq<Byte>, o: nat, left: nat)
    requires |a| == |b| && (left > 0 ==> o + left <= |a|) && forall i | o <= i < |a| :: a[i] == b[i]
    ensures Load(a, o, left) == Load(b, o, left)
  {
    if left > 0 {
      assert a[o..o + left] == b[o..o + left];
      if left >= 4 { assert a[o..o + 4] == b[o..o + 4]; }
    }
  }

  /* ---------- Any interleaving of the operations ---------- */

  datatype Op = Show(n: nat) | Get(n: nat) | Get1 | Flush(n: nat) | Align | Rewind | Reset(n: nat)

  /** Widths of at most 32 bits; reset targets inside the buffer. */
  predicate Allowed(op: Op, size: nat) {
    match op
    case Show(n) => 1 <= n <= 32
    case Get(n) => n <= 32
    case Flush(n) => n <= 32
    case Reset(n) => n <= 8 * size
    case _ => true
  }

  /** The plain stream: position after an operation, and the number it returns. */
  function Next(op: Op, p: nat): nat {
    match op
    case Show(_) => p
    case Get(n) => p + n
    case Get1 => p + 1
    case Flush(n) => p + n
    case Align => (p + 7) / 8 * 8
    case Rewind => 0
    case Reset(n) => n
  }

  function Answer(op: Op, data: seq<Byte>, p: nat): nat {
    match op
    case Show(n) => Value(Bits(data, p, n))
    case Get(n) => Value(Bits(data, p, n))
    case Get1 => Value(Bits(data, p, 1))
    case Align => (p + 7) / 8 * 8 - p
    case _ => 0
  }

  /** The answers a program of operations gets from the plain stream, from position `p` on. */
  function Answers(ops: seq<Op>, data: seq<Byte>, p: nat): seq<nat> {
    if ops == [] then [] else [Answer(ops[0], data, p)] + Answers(ops[1..], data, Next(ops[0], p))
  }

  method Perform(r: Reader, op: Op) returns (v: nat)
    requires r.Reads(r.buffer[..]) && !r.error && Allowed(op, r.buffer.Length)
    modifies r
    ensures r.Reads(r.buffer[..]) && !r.error && old(r.Pos()) >= 0
    ensures r.Pos() == Next(op, old(r.Pos())) && v == Answer(op, r.buffer[..], old(r.Pos()))
  {
    hide WordAt, Bits;
    ghost var data := r.buffer[..];
    r.PosNatural(data);
    v := 0;
    match op {
      case Show(n) => r.ShowBitsReads(data, n); v := r.ShowBits(n);
      case Get(n) => v := r.GetBits(data, n);
      case Get1 => v := r.Get1Bit(data);
      case Flush(n) => r.FlushBits(data, n);
      case Align => v := r.ByteAlign(data);
      case Rewind => r.RewindBits();
      case Reset(n) => r.ResetBits(n);
    }
  }

  /** Any program of operations on any buffer gets the answers of the plain stream. */
  method PerformAll(buffer: array<Byte>, ops: seq<Op>) returns (answers: seq<nat>)
    requires buffer.Length > 0 && forall op | op in ops :: Allowed(op, buffer.Length)
    ensures answers == Answers(ops, buffer[..], 0)
  {
    hide Answer, Next;
    var r := new Reader(buffer);
    answers := [];
    var k := 0;
    while k < |ops|
      invariant 0 <= k <= |ops| && r.buffer == buffer && fresh(r) && r.Reads(buffer[..]) && !r.error && r.Pos() >= 0
      invariant answers + Answers(ops[k..], buffer[..], r.Pos()) == Answers(ops, buffer[..], 0)
    {
      assert ops[k..][1..] == ops[k + 1..];
      var v := Perform(r, ops[k]);
      r.PosNatural(buffer[..]);
      answers := answers + [v];
      k := k + 1;
    }
  }
}
