/**
  The compute kernel of gst-plugin-vfmcap/vdin1_amly_to_p010_spv.h that turns
  AMLY pixel pairs (40 bits each) into P010, one work group per tile of 128
  pairs of a row.
 */
module Kernel {
  import opened Arithmetic

  /** The words of the input buffer; past its end they are arbitrary. */
  type Input = nat -> bv32

  const TILE := 163
  const GROUP := 128

  /* ---------- Bytes ---------- */

  /** Byte `k` of a little-endian word. */
  function ByteOf(w: bv32, k: nat): bv32 {
    if k == 0 then w & 0xff else if k == 1 then (w >> 8) & 0xff
    else if k == 2 then (w >> 16) & 0xff else (w >> 24) & 0xff
  }

  function ByteAt(input: Input, b: nat): bv32 { ByteOf(input(b / 4), b % 4) }

  /** A pixel pair: two luma samples and one chroma pair, ten bits each. */
  datatype Pair = Pair(y0: bv32, u: bv32, y1: bv32, v: bv32)

  /** The layout of the five bytes of a pair, sample by sample. */
  function FromBytes(b0: bv32, b1: bv32, b2: bv32, b3: bv32, b4: bv32): Pair {
    Pair((b1 >> 2) | ((b2 & 0x0f) << 6), b0 | ((b1 & 0x03) << 8), (b3 >> 6) | (b4 << 2), (b2 >> 4) | ((b3 & 0x3f) << 4))
  }

  /** Pair `i` of the input. */
  function PairAt(input: Input, i: nat): Pair {
    FromBytes(ByteAt(input, 5 * i), ByteAt(input, 5 * i + 1), ByteAt(input, 5 * i + 2), ByteAt(input, 5 * i + 3),
        ByteAt(input, 5 * i + 4))
  }

  /* ---------- extract_pair, read_pair_global, decode_pair, p010_pack ---------- */

  /** The 40 bits at byte `m` of three words, as the low 32 and the high 8. */
  function Extract(w0: bv32, w1: bv32, w2: bv32, m: nat): (bv32, bv32) {
    if m == 0 then (w0, w1 & 255)
    else if m == 1 then ((w0 >> 8) | (w1 << 24), ((w1 >> 8) | (w2 << 24)) & 255)
    else if m == 2 then ((w0 >> 16) | (w1 << 16), ((w1 >> 16) | (w2 << 16)) & 255)
    else ((w0 >> 24) | (w1 << 8), ((w1 >> 24) | (w2 << 8)) & 255)
  }

  function DecodePair(lo: bv32, hi: bv32): Pair {
    Pair((lo >> 10) & 0x3ff, lo & 0x3ff, (lo >> 30) | (hi << 2), (lo >> 20) & 0x3ff)
  }

  function Pack(v: bv32): bv32 { v << 6 }

  lemma Extract0(w0: bv32, w1: bv32, w2: bv32)
    ensures var f := Extract(w0, w1, w2, 0);
            DecodePair(f.0, f.1) == FromBytes(ByteOf(w0, 0), ByteOf(w0, 1), ByteOf(w0, 2), ByteOf(w0, 3), ByteOf(w1, 0))
  {}

  lemma Extract1(w0: bv32, w1: bv32, w2: bv32)
    ensures var f := Extract(w0, w1, w2, 1);
            DecodePair(f.0, f.1) == FromBytes(ByteOf(w0, 1), ByteOf(w0, 2), ByteOf(w0, 3), ByteOf(w1, 0), ByteOf(w1, 1))
  {}

  lemma Extract2(w0: bv32, w1: bv32, w2: bv32)
    ensures var f := Extract(w0, w1, w2, 2);
            DecodePair(f.0, f.1) == FromBytes(ByteOf(w0, 2), ByteOf(w0, 3), ByteOf(w1, 0), ByteOf(w1, 1), ByteOf(w1, 2))
  {}

  lemma Extract3(w0: bv32, w1: bv32, w2: bv32)
    ensures var f := Extract(w0, w1, w2, 3);
            DecodePair(f.0, f.1) == FromBytes(ByteOf(w0, 3), ByteOf(w1, 0), ByteOf(w1, 1), ByteOf(w1, 2), ByteOf(w1, 3))
  {}

  /** The third word never matters, and the shifts pick the five bytes from `b` on. */
  lemma ExtractIs(input: Input, b: nat, w2: bv32)
    ensures var f := Extract(input(b / 4), input(b / 4 + 1), w2, b % 4);
            DecodePair(f.0, f.1) == FromBytes(ByteAt(input, b), ByteAt(input, b + 1), ByteAt(input, b + 2),
                ByteAt(input, b + 3), ByteAt(input, b + 4))
  {
    hide Extract, DecodePair, FromBytes, ByteOf;
    var q, m := b / 4, b % 4;
    assert (b + 4) / 4 == q + 1 && (b + 4) % 4 == m;
    if m == 0 {
      Extract0(input(q), input(q + 1), w2);
      assert (b + 1) / 4 == q && (b + 2) / 4 == q && (b + 3) / 4 == q;
    } else if m == 1 {
      Extract1(input(q), input(q + 1), w2);
      assert (b + 1) / 4 == q && (b + 2) / 4 == q && (b + 3) / 4 == q + 1;
    } else if m == 2 {
      Extract2(input(q), input(q + 1), w2);
      assert (b + 1) / 4 == q && (b + 2) / 4 == q + 1 && (b + 3) / 4 == q + 1;
    } else {
      Extract3(input(q), input(q + 1), w2);
      assert (b + 1) / 4 == q + 1 && (b + 2) / 4 == q + 1 && (b + 3) / 4 == q + 1;
    }
  }

  /** `read_pair_global`. */
  method ReadPairGlobal(input: Input, pair: nat) returns (lo: bv32, hi: bv32)
    ensures DecodePair(lo, hi) == PairAt(input, pair)
  {
    hide Extract, DecodePair, FromBytes, ByteAt;
    var byteOffset := pair * 5;
    var wordIdx, m := byteOffset / 4, byteOffset % 4;
    ExtractIs(input, byteOffset, input(wordIdx + 2));
    var f := Extract(input(wordIdx), input(wordIdx + 1), input(wordIdx + 2), m);
    lo, hi := f.0, f.1;
  }

  /* ---------- The picture ---------- */

  /** The luma word of pair `i`. */
  function YWord(input: Input, i: nat): bv32 {
    LumaWord(PairAt(input, i))
  }

  /** The rounded mean of two ten-bit samples. */
  function Mean(a: bv32, b: bv32): bv32 { (a + b + 1) >> 1 }

  /** The chroma word for column `c` of the row pair `r`: the mean of rows 2r and 2r + 1. */
  function UVWord(input: Input, ppr: nat, r: nat, c: nat): bv32 {
    ChromaWord(PairAt(input, 2 * r * ppr + c), PairAt(input, (2 * r + 1) * ppr + c))
  }

  function ChromaWord(p: Pair, q: Pair): bv32 { Pack(Mean(p.u, q.u)) | (Pack(Mean(p.v, q.v)) << 16) }

  function LumaWord(p: Pair): bv32 { Pack(p.y0) | (Pack(p.y1) << 16) }

  function UVWordAt(input: Input, ppr: nat, i: nat): bv32
    requires ppr > 0
  {
    UVWord(input, ppr, i / ppr, i % ppr)
  }

  /** Two ten-bit samples average to a ten-bit sample, rounded half up. */
  lemma MeanIs(a: bv32, b: bv32)
    requires a <= 0x3ff && b <= 0x3ff
    ensures Mean(a, b) <= 0x3ff && IsMean(Mean(a, b), a, b)
  {}

  lemma SamplesAreTenBit(input: Input, i: nat)
    ensures var p := PairAt(input, i); p.y0 <= 0x3ff && p.u <= 0x3ff && p.y1 <= 0x3ff && p.v <= 0x3ff
  {
    hide PairAt;
    TenBits(ByteAt(input, 5 * i), ByteAt(input, 5 * i + 1), ByteAt(input, 5 * i + 2), ByteAt(input, 5 * i + 3),
            ByteAt(input, 5 * i + 4));
    ByteRange(input, 5 * i);
    ByteRange(input, 5 * i + 1);
    ByteRange(input, 5 * i + 2);
    ByteRange(input, 5 * i + 3);
    ByteRange(input, 5 * i + 4);
    PairIs(input, i);
  }

  lemma PairIs(input: Input, i: nat)
    ensures PairAt(input, i) == FromBytes(ByteAt(input, 5 * i), ByteAt(input, 5 * i + 1), ByteAt(input, 5 * i + 2),
                                          ByteAt(input, 5 * i + 3), ByteAt(input, 5 * i + 4))
  {}

  lemma ByteRange(input: Input, b: nat)
    ensures ByteAt(input, b) <= 0xff
  {}

  lemma TenBits(b0: bv32, b1: bv32, b2: bv32, b3: bv32, b4: bv32)
    ensures b0 <= 0xff && b1 <= 0xff && b2 <= 0xff && b3 <= 0xff && b4 <= 0xff ==>
              var p := FromBytes(b0, b1, b2, b3, b4); p.y0 <= 0x3ff && p.u <= 0x3ff && p.y1 <= 0x3ff && p.v <= 0x3ff
  {}

  /* ---------- What the words mean, sample by sample ---------- */

  /** A word is its four bytes, the lowest one first. */
  lemma BytesAre(w: bv32)
    ensures w == ByteOf(w, 0) | (ByteOf(w, 1) << 8) | (ByteOf(w, 2) << 16) | (ByteOf(w, 3) << 24)
    ensures forall k: nat :: ByteOf(w, k) <= 0xff
  {}

  /** The five bytes are forty bits, lowest byte first: from the bottom U, the first luma, V, the second luma. */
  lemma FieldsAre(b0: bv32, b1: bv32, b2: bv32, b3: bv32, b4: bv32)
    requires b0 <= 0xff && b1 <= 0xff && b2 <= 0xff && b3 <= 0xff && b4 <= 0xff
    ensures var p := FromBytes(b0, b1, b2, b3, b4);
            var n := (b0 as bv64) | ((b1 as bv64) << 8) | ((b2 as bv64) << 16) | ((b3 as bv64) << 24)
                     | ((b4 as bv64) << 32);
            && p.u as bv64 == n & 0x3ff && p.y0 as bv64 == (n >> 10) & 0x3ff
            && p.v as bv64 == (n >> 20) & 0x3ff && p.y1 as bv64 == (n >> 30) & 0x3ff
  {}

  /** A word holds two ten-bit samples, each in the top of its half. */
  predicate Holds(w: bv32, low: bv32, high: bv32) {
    (w & 0xffff) >> 6 == low && w >> 22 == high && w & 0x003f003f == 0
  }

  lemma PackedHolds(a: bv32, b: bv32)
    requires a <= 0x3ff && b <= 0x3ff
    ensures Holds(Pack(a) | (Pack(b) << 16), a, b)
  {}

  /** Twice the mean is the sum, or the sum and one: it is rounded half up. */
  predicate IsMean(m: bv32, a: bv32, b: bv32) { m << 1 == a + b || m << 1 == a + b + 1 }

  /** Luma word `i` holds the two luma samples of pair `i`, the first one low. */
  lemma LumaHolds(input: Input, i: nat)
    ensures Holds(YWord(input, i), PairAt(input, i).y0, PairAt(input, i).y1)
  {
    hide PairAt, Pack, Holds;
    SamplesAreTenBit(input, i);
    PackedHolds(PairAt(input, i).y0, PairAt(input, i).y1);
  }

  /** The low half is the mean of the U samples of a column in two rows, the high half that of the V samples. */
  predicate HoldsMeans(w: bv32, p: Pair, q: Pair) {
    && w & 0x003f003f == 0
    && IsMean((w & 0xffff) >> 6, p.u, q.u) && IsMean(w >> 22, p.v, q.v)
  }

  /** Word `c` of chroma row `r` holds the means of column `c` in the picture rows 2r and 2r + 1. */
  ghost predicate ChromaIs(input: Input, ppr: nat, uv: seq<bv32>, r: nat, c: nat) {
    && r * ppr + c < |uv|
    && HoldsMeans(uv[r * ppr + c], PairAt(input, 2 * r * ppr + c), PairAt(input, (2 * r + 1) * ppr + c))
  }

  lemma ChromaHolds(input: Input, i: nat, j: nat)
    ensures HoldsMeans(ChromaWord(PairAt(input, i), PairAt(input, j)), PairAt(input, i), PairAt(input, j))
  {
    hide PairAt, Pack, Holds, Mean, IsMean, HoldsMeans;
    var p, q := PairAt(input, i), PairAt(input, j);
    SamplesAreTenBit(input, i);
    SamplesAreTenBit(input, j);
    MeanIs(p.u, q.u);
    MeanIs(p.v, q.v);
    MeansHold(p, q, ChromaWord(p, q));
  }

  lemma ChromaDone(input: Input, ppr: nat, uv: seq<bv32>, r: nat, c: nat)
    requires c < ppr && r * ppr + c < |uv|
    requires forall i | 0 <= i < |uv| :: uv[i] == UVWordAt(input, ppr, i)
    ensures ChromaIs(input, ppr, uv, r, c)
  {
    hide HoldsMeans, PairAt, ChromaWord;
    DivMod(c, ppr, r);
    ChromaHolds(input, 2 * r * ppr + c, (2 * r + 1) * ppr + c);
  }

  lemma MeansHold(p: Pair, q: Pair, w: bv32)
    requires w == Pack(Mean(p.u, q.u)) | (Pack(Mean(p.v, q.v)) << 16)
    requires Mean(p.u, q.u) <= 0x3ff && IsMean(Mean(p.u, q.u), p.u, q.u)
    requires Mean(p.v, q.v) <= 0x3ff && IsMean(Mean(p.v, q.v), p.v, q.v)
    ensures HoldsMeans(w, p, q)
  {
    hide Pack, Mean, IsMean;
    PackedHolds(Mean(p.u, q.u), Mean(p.v, q.v));
  }

  /* ---------- One work group ---------- */

  /** Pairs in tile `wx` of a row. */
  function TilePairs(ppr: nat, wx: nat): nat {
    if wx * GROUP >= ppr then 0 else if ppr - wx * GROUP < GROUP then ppr - wx * GROUP else GROUP
  }

  /** Words loaded for `pairs` pairs that start `off` bytes into a word, before the clamp. */
  function WordsNeeded(off: nat, pairs: nat): nat { (off + pairs * 5 + 3) / 4 + 2 }

  /** 163 words are enough for any tile, so the clamp never truncates. */
  lemma TileSuffices(off: nat, pairs: nat)
    requires off <= 3 && pairs <= GROUP
    ensures WordsNeeded(off, pairs) <= TILE
    ensures WordsNeeded(3, GROUP) == TILE
  {}

  ghost predicate Loaded(tile: seq<bv32>, input: Input, base: nat, n: nat) {
    n <= |tile| && forall i | 0 <= i < n :: tile[i] == input(base + i)
  }

  /** `load_tile` for one invocation: words lid, lid + 128, ... */
  method LoadTile(input: Input, tile: array<bv32>, base: nat, n: nat, lid: nat)
    requires tile.Length == TILE && n <= TILE && lid < GROUP
    modifies tile
    ensures forall i | 0 <= i < TILE :: tile[i] == if i < n && i % GROUP == lid then input(base + i) else old(tile[i])
  {
    var i := lid;
    while i < n
      invariant i % GROUP == lid
      invariant forall k | 0 <= k < TILE ::
                tile[k] == if k < n && k < i && k % GROUP == lid then input(base + k) else old(tile[k])
    {
      tile[i] := input(base + i);
      i := i + GROUP;
    }
  }

  /** Every invocation number exactly once, in whatever order they run. */
  ghost predicate Order(order: seq<nat>) {
    && |order| == GROUP
    && (forall lid: nat | lid < GROUP :: lid in order)
    && (forall i | 0 <= i < |order| :: order[i] < GROUP)
  }

  /** The loads of all invocations before the barrier. */
  method LoadAll(input: Input, tile: array<bv32>, base: nat, n: nat, order: seq<nat>)
    requires tile.Length == TILE && n <= TILE && Order(order)
    modifies tile
    ensures Loaded(tile[..], input, base, n)
  {
    var k := 0;
    while k < |order|
      invariant 0 <= k <= |order|
      invariant forall i | 0 <= i < n && i % GROUP in order[..k] :: tile[i] == input(base + i)
    {
      LoadTile(input, tile, base, n, order[k]);
      assert order[..k + 1] == order[..k] + [order[k]];
      k := k + 1;
    }
    assert order[..k] == order;
  }

  /** `extract_pair` from the shared tile agrees with reading the pair from the input. */
  method ExtractPair(ghost input: Input, tile: array<bv32>, ghost first: nat, off: nat, pairs: nat, lid: nat)
    returns (lo: bv32, hi: bv32)
    requires tile.Length == TILE && off == (5 * first) % 4 && pairs <= GROUP && lid < pairs
    requires Loaded(tile[..], input, (5 * first) / 4, WordsNeeded(off, pairs))
    ensures DecodePair(lo, hi) == PairAt(input, first + lid)
  {
    hide Extract, DecodePair, FromBytes, ByteAt;
    var byteOff := off + lid * 5;
    var widx, m := byteOff / 4, byteOff % 4;
    ghost var base := (5 * first) / 4;
    assert (5 * (first + lid)) / 4 == base + widx && (5 * (first + lid)) % 4 == m;
    assert widx + 1 < WordsNeeded(off, pairs);
    assert tile[..][widx] == input(base + widx) && tile[..][widx + 1] == input(base + widx + 1);
    ExtractIs(input, 5 * (first + lid), tile[widx + 2]);
    PairIs(input, first + lid);
    var f := Extract(tile[widx], tile[widx + 1], tile[widx + 2], m);
    lo, hi := f.0, f.1;
  }

  /** Where a picture's invocations write: nowhere but its own cells, and only what belongs there. */
  ghost predicate Progress(input: Input, ppr: nat, y0: seq<bv32>, uv0: seq<bv32>, y1: seq<bv32>, uv1: seq<bv32>)
    requires ppr > 0
  {
    && |y1| == |y0| && |uv1| == |uv0|
    && (forall i | 0 <= i < |y0| :: y1[i] == y0[i] || y1[i] == YWord(input, i))
    && (forall i | 0 <= i < |uv0| :: uv1[i] == uv0[i] || uv1[i] == UVWordAt(input, ppr, i))
  }

  /** Row `row` starts at luma word `rowStart` and chroma word `uvStart`, with room for its cells. */
  ghost predicate RowAt(input: Input, row: nat, rowStart: nat, uvStart: nat, ppr: nat, height: nat, y: array<bv32>,
                        uv: array<bv32>) {
    && ppr > 0 && row < height && y != uv && rowStart + ppr <= y.Length
    && (row % 2 == 0 && row + 1 < height ==>
          && uvStart + ppr <= uv.Length
          && forall c: nat | c < ppr :: ChromaCell(input, rowStart, uvStart, ppr, c))
  }

  /** The chroma word of column `c` is the mean of this row and the next. */
  predicate ChromaCell(input: Input, rowStart: nat, uvStart: nat, ppr: nat, c: nat)
    requires ppr > 0
  {
    UVWordAt(input, ppr, uvStart + c) == ChromaWord(PairAt(input, rowStart + c), PairAt(input, rowStart + c + ppr))
  }

  /** `main` after the barrier, for one invocation. */
  method Convert(input: Input, tile: array<bv32>, tileStart: nat, tilePairs: nat, row: nat, rowStart: nat,
                 uvStart: nat, lid: nat,
                 ppr: nat, height: nat, y: array<bv32>, uv: array<bv32>)
    requires tile.Length == TILE && tilePairs <= GROUP && tileStart + tilePairs <= ppr && y != tile && uv != tile
    requires RowAt(input, row, rowStart, uvStart, ppr, height, y, uv)
    requires var first := rowStart + tileStart;
             Loaded(tile[..], input, (5 * first) / 4, WordsNeeded((5 * first) % 4, tilePairs))
    modifies y, uv
    ensures Progress(input, ppr, old(y[..]), old(uv[..]), y[..], uv[..])
    ensures lid < tilePairs ==> Written(input, tileStart + lid, row, rowStart, uvStart, ppr, height, y[..], uv[..])
  {
    hide PairAt, DecodePair, WordsNeeded, Loaded, UVWordAt, LumaWord, ChromaWord;
    if lid >= tilePairs { return; }
    var globalPair := tileStart + lid;
    var first := rowStart + tileStart;
    var lo, hi := ExtractPair(input, tile, first, (5 * first) % 4, tilePairs, lid);
    var p := DecodePair(lo, hi);
    var pairIdx := rowStart + globalPair;
    y[pairIdx] := LumaWord(p);
    if row % 2 == 0 && row + 1 < height {
      var nlo, nhi := ReadPairGlobal(input, pairIdx + ppr);
      var q := DecodePair(nlo, nhi);
      assert ChromaCell(input, rowStart, uvStart, ppr, globalPair);
      uv[uvStart + globalPair] := ChromaWord(p, q);
    }
  }

  /** The cells of column `c` of a row hold what belongs there. */
  ghost predicate Written(input: Input, c: nat, row: nat, rowStart: nat, uvStart: nat, ppr: nat, height: nat,
                          y: seq<bv32>, uv: seq<bv32>)
    requires ppr > 0
  {
    && rowStart + c < |y| && y[rowStart + c] == YWord(input, rowStart + c)
    && (row % 2 == 0 && row + 1 < height ==> uvStart + c < |uv| && uv[uvStart + c] == UVWordAt(input, ppr, uvStart + c))
  }

  lemma StaysWritten(input: Input, c: nat, row: nat, rowStart: nat, uvStart: nat, ppr: nat, height: nat,
                     y0: seq<bv32>, uv0: seq<bv32>, y1: seq<bv32>, uv1: seq<bv32>)
    requires ppr > 0 && Written(input, c, row, rowStart, uvStart, ppr, height, y0, uv0)
    requires Progress(input, ppr, y0, uv0, y1, uv1)
    ensures Written(input, c, row, rowStart, uvStart, ppr, height, y1, uv1)
  {}

  lemma RowIsAt(input: Input, row: nat, ppr: nat, height: nat, y: array<bv32>, uv: array<bv32>)
    requires ppr > 0 && row < height && y != uv && y.Length == height * ppr && uv.Length == (height / 2) * ppr
    ensures RowAt(input, row, row * ppr, (row / 2) * ppr, ppr, height, y, uv)
  {
    hide ChromaCell;
    MulStep(row, height, ppr);
    if row % 2 == 0 && row + 1 < height {
      MulStep(row / 2, height / 2, ppr);
      forall c: nat | c < ppr
        ensures ChromaCell(input, row * ppr, (row / 2) * ppr, ppr, c)
      {
        ChromaCellIs(input, row, ppr, c);
      }
    }
  }

  lemma ChromaCellIs(input: Input, row: nat, ppr: nat, c: nat)
    requires row % 2 == 0 && c < ppr
    ensures ChromaCell(input, row * ppr, (row / 2) * ppr, ppr, c)
  {
    hide PairAt, ChromaWord;
    DivMod(c, ppr, row / 2);
    RowPair(row, ppr, c);
  }

  lemma RowPair(row: nat, ppr: nat, c: nat)
    requires row % 2 == 0
    ensures 2 * (row / 2) * ppr + c == row * ppr + c && (2 * (row / 2) + 1) * ppr + c == row * ppr + c + ppr
  {
    assert 2 * (row / 2) == row;
  }

  /** One work group of the dispatch: load the tile, wait, convert; the invocations run in any order. */
  method WorkGroup(input: Input, wx: nat, row: nat, ppr: nat, height: nat, y: array<bv32>, uv: array<bv32>,
                   order: seq<nat>)
    requires ppr > 0 && y != uv && y.Length == height * ppr && uv.Length == (height / 2) * ppr && Order(order)
    requires wx * GROUP < ppr
    modifies y, uv
    ensures Progress(input, ppr, old(y[..]), old(uv[..]), y[..], uv[..])
    ensures row < height ==> forall c: nat | wx * GROUP <= c < ppr && c < (wx + 1) * GROUP ::
              Written(input, c, row, row * ppr, (row / 2) * ppr, ppr, height, y[..], uv[..])
  {
    hide RowAt, Loaded, YWord, UVWordAt, WordsNeeded, Written, Progress;
    NothingWritten(input, ppr, y[..], uv[..]);
    if row >= height { return; }
    var tileStart := wx * GROUP;
    var tilePairs := TilePairs(ppr, wx);
    var rowStart, uvStart := row * ppr, (row / 2) * ppr;
    var tileByteStart := 5 * (rowStart + tileStart);
    var off := tileByteStart % 4;
    var nWords := WordsNeeded(off, tilePairs);
    TileSuffices(off, tilePairs);
    if nWords > TILE { nWords := TILE; }
    RowIsAt(input, row, ppr, height, y, uv);
    var tile := new bv32[TILE](_ => 0);
    LoadAll(input, tile, tileByteStart / 4, nWords, order);
    ConvertAll(input, tile, tileStart, tilePairs, row, rowStart, uvStart, ppr, height, y, uv, order);
  }

  method ConvertAll(input: Input, tile: array<bv32>, tileStart: nat, tilePairs: nat, row: nat, rowStart: nat,
                    uvStart: nat, ppr: nat, height: nat, y: array<bv32>, uv: array<bv32>, order: seq<nat>)
    requires tile.Length == TILE && tilePairs <= GROUP && tileStart + tilePairs <= ppr
    requires y != tile && uv != tile && Order(order)
    requires RowAt(input, row, rowStart, uvStart, ppr, height, y, uv)
    requires var first := rowStart + tileStart;
             Loaded(tile[..], input, (5 * first) / 4, WordsNeeded((5 * first) % 4, tilePairs))
    modifies y, uv
    ensures ppr > 0 && Progress(input, ppr, old(y[..]), old(uv[..]), y[..], uv[..])
    ensures forall c: nat | tileStart <= c < tileStart + tilePairs ::
              Written(input, c, row, rowStart, uvStart, ppr, height, y[..], uv[..])
  {
    hide Loaded, YWord, UVWordAt, WordsNeeded, PairAt, ChromaWord, ChromaCell, Written;
    var k := 0;
    while k < |order|
      invariant 0 <= k <= |order| && RowAt(input, row, rowStart, uvStart, ppr, height, y, uv)
      invariant Progress(input, ppr, old(y[..]), old(uv[..]), y[..], uv[..])
      invariant Loaded(tile[..], input, (5 * (rowStart + tileStart)) / 4,
          WordsNeeded((5 * (rowStart + tileStart)) % 4, tilePairs))
      invariant forall c: nat | tileStart <= c < tileStart + tilePairs && c - tileStart in order[..k] ::
                  Written(input, c, row, rowStart, uvStart, ppr, height, y[..], uv[..])
    {
      ghost var y0, uv0 := y[..], uv[..];
      Convert(input, tile, tileStart, tilePairs, row, rowStart, uvStart, order[k], ppr, height, y, uv);
      assert order[..k + 1] == order[..k] + [order[k]];
      forall c: nat | tileStart <= c < tileStart + tilePairs && c - tileStart in order[..k]
        ensures Written(input, c, row, rowStart, uvStart, ppr, height, y[..], uv[..])
      {
        StaysWritten(input, c, row, rowStart, uvStart, ppr, height, y0, uv0, y[..], uv[..]);
      }
      k := k + 1;
    }
    assert order[..k] == order;
  }

  lemma NothingWritten(input: Input, ppr: nat, y: seq<bv32>, uv: seq<bv32>)
    requires ppr > 0
    ensures Progress(input, ppr, y, uv, y, uv)
  {}

  /* ---------- The dispatch ---------- */

  /** Every group of the dispatch, in whatever order they run. */
  ghost predicate Groups(groups: seq<(nat, nat)>, ppr: nat, height: nat) {
    && (forall g | g in groups :: g.0 < (ppr + 127) / 128 && g.1 < height)
    && forall wx: nat, row: nat | wx < (ppr + 127) / 128 && row < height :: (wx, row) in groups
  }

  /** The cells of tile `wx` of row `row` hold what belongs there. */
  ghost predicate GroupDone(input: Input, wx: nat, row: nat, ppr: nat, height: nat, y: seq<bv32>, uv: seq<bv32>)
    requires ppr > 0
  {
    forall c: nat | wx * GROUP <= c < ppr && c < (wx + 1) * GROUP ::
      Written(input, c, row, row * ppr, (row / 2) * ppr, ppr, height, y, uv)
  }

  lemma StaysDone(input: Input, wx: nat, row: nat, ppr: nat, height: nat, y0: seq<bv32>, uv0: seq<bv32>,
                  y1: seq<bv32>, uv1: seq<bv32>)
    requires ppr > 0 && GroupDone(input, wx, row, ppr, height, y0, uv0) && Progress(input, ppr, y0, uv0, y1, uv1)
    ensures GroupDone(input, wx, row, ppr, height, y1, uv1)
  {
    hide Written, Progress;
    forall c: nat | wx * GROUP <= c < ppr && c < (wx + 1) * GROUP
      ensures Written(input, c, row, row * ppr, (row / 2) * ppr, ppr, height, y1, uv1)
    {
      StaysWritten(input, c, row, row * ppr, (row / 2) * ppr, ppr, height, y0, uv0, y1, uv1);
    }
  }

  /** Luma word `i` belongs to a cell of the dispatch, and so does chroma word `i`. */
  lemma CellsCovered(input: Input, ppr: nat, height: nat, y: seq<bv32>, uv: seq<bv32>, i: nat)
    requires ppr > 0 && |y| == height * ppr && |uv| == (height / 2) * ppr
    requires forall wx: nat, row: nat | wx < (ppr + 127) / 128 && row < height ::
              GroupDone(input, wx, row, ppr, height, y, uv)
    ensures i < |y| ==> y[i] == YWord(input, i)
    ensures i < |uv| ==> uv[i] == UVWordAt(input, ppr, i)
  {
    hide YWord, UVWordAt;
    var r, c := i / ppr, i % ppr;
    assert i == r * ppr + c;
    if i < |y| {
      QuotientBound(i, height, ppr);
      CellDone(input, c, r, ppr, height, y, uv);
    }
    if i < |uv| {
      QuotientBound(i, height / 2, ppr);
      CellDone(input, c, 2 * r, ppr, height, y, uv);
      assert (2 * r) / 2 == r && (2 * r) % 2 == 0;
    }
  }

  lemma CellDone(input: Input, c: nat, row: nat, ppr: nat, height: nat, y: seq<bv32>, uv: seq<bv32>)
    requires c < ppr && row < height
    requires forall wx: nat, row: nat | wx < (ppr + 127) / 128 && row < height ::
              GroupDone(input, wx, row, ppr, height, y, uv)
    ensures Written(input, c, row, row * ppr, (row / 2) * ppr, ppr, height, y, uv)
  {
    hide Written;
    assert GroupDone(input, c / GROUP, row, ppr, height, y, uv);
  }

  /**
    The whole dispatch leaves the picture that the per-pixel definition gives, for
    every even width and every height.
   */
  method Dispatch(input: Input, width: nat, height: nat, y: array<bv32>, uv: array<bv32>, groups: seq<(nat, nat)>,
                  orders: seq<seq<nat>>)
    requires width > 0 && width % 2 == 0 && y != uv && y.Length == height * (width / 2)
    requires uv.Length == (height / 2) * (width / 2)
    requires Groups(groups, width / 2, height) && |orders| == |groups|
    requires forall k | 0 <= k < |orders| :: Order(orders[k])
    modifies y, uv
    ensures forall i | 0 <= i < y.Length :: y[i] == YWord(input, i)
    ensures forall i | 0 <= i < y.Length :: Holds(y[i], PairAt(input, i).y0, PairAt(input, i).y1)
    ensures forall i | 0 <= i < uv.Length :: uv[i] == UVWordAt(input, width / 2, i)
    ensures forall r: nat, c: nat | r < height / 2 && c < width / 2 :: ChromaIs(input, width / 2, uv[..], r, c)
  {
    hide Order, YWord, UVWordAt, Progress, GroupDone, Holds, ChromaIs, PairAt;
    var ppr := width / 2;
    var k := 0;
    while k < |groups|
      invariant 0 <= k <= |groups|
      invariant forall g | g in groups[..k] :: GroupDone(input, g.0, g.1, ppr, height, y[..], uv[..])
    {
      ghost var y0, uv0 := y[..], uv[..];
      var wx, row := groups[k].0, groups[k].1;
      assert groups[k] in groups;
      WorkGroup(input, wx, row, ppr, height, y, uv, orders[k]);
      DoneIs(input, wx, row, ppr, height, y[..], uv[..]);
      assert groups[..k + 1] == groups[..k] + [groups[k]];
      forall g | g in groups[..k]
        ensures GroupDone(input, g.0, g.1, ppr, height, y[..], uv[..])
      {
        StaysDone(input, g.0, g.1, ppr, height, y0, uv0, y[..], uv[..]);
      }
      k := k + 1;
    }
    assert groups[..k] == groups;
    forall wx: nat, row: nat | wx < (ppr + 127) / 128 && row < height
      ensures GroupDone(input, wx, row, ppr, height, y[..], uv[..])
    {
      assert (wx, row) in groups;
    }
    forall i: nat | i < y.Length || i < uv.Length
      ensures i < y.Length ==> y[i] == YWord(input, i) && Holds(y[i], PairAt(input, i).y0, PairAt(input, i).y1)
      ensures i < uv.Length ==> uv[i] == UVWordAt(input, ppr, i)
    {
      CellsCovered(input, ppr, height, y[..], uv[..], i);
      LumaHolds(input, i);
    }
    forall r: nat, c: nat | r < height / 2 && c < ppr
      ensures ChromaIs(input, ppr, uv[..], r, c)
    {
      CellInside(r, height / 2, c, ppr);
      ChromaDone(input, ppr, uv[..], r, c);
    }
  }

  lemma CellInside(r: nat, rows: nat, c: nat, ppr: nat)
    requires r < rows && c < ppr
    ensures r * ppr + c < rows * ppr
  {
    MulStep(r, rows, ppr);
  }

  lemma DoneIs(input: Input, wx: nat, row: nat, ppr: nat, height: nat, y: seq<bv32>, uv: seq<bv32>)
    requires ppr > 0
    requires forall c: nat | wx * GROUP <= c < ppr && c < (wx + 1) * GROUP ::
               Written(input, c, row, row * ppr, (row / 2) * ppr, ppr, height, y, uv)
    ensures GroupDone(input, wx, row, ppr, height, y, uv)
  {}

  /** A luma word is written by one invocation of one group only, and so is a chroma word. */
  lemma OneWriter(ppr: nat, row: nat, wx: nat, lid: nat, row': nat, wx': nat, lid': nat)
    requires lid < TilePairs(ppr, wx) && lid' < TilePairs(ppr, wx')
    ensures row * ppr + wx * GROUP + lid == row' * ppr + wx' * GROUP + lid' ==> row == row' && wx == wx' && lid == lid'
    ensures row % 2 == 0 && row' % 2 == 0 ==>
              ((row / 2) * ppr + wx * GROUP + lid == (row' / 2) * ppr + wx' * GROUP + lid' ==>
                 row == row' && wx == wx' && lid == lid')
  {
    if row * ppr + wx * GROUP + lid == row' * ppr + wx' * GROUP + lid' {
      SameCell(ppr, row, wx, lid, row', wx', lid');
    }
    if (row / 2) * ppr + wx * GROUP + lid == (row' / 2) * ppr + wx' * GROUP + lid' {
      SameCell(ppr, row / 2, wx, lid, row' / 2, wx', lid');
    }
  }

  lemma SameCell(ppr: nat, row: nat, wx: nat, lid: nat, row': nat, wx': nat, lid': nat)
    requires lid < TilePairs(ppr, wx) && lid' < TilePairs(ppr, wx')
    requires row * ppr + wx * GROUP + lid == row' * ppr + wx' * GROUP + lid'
    ensures row == row' && wx == wx' && lid == lid'
  {
    DivMod(wx * GROUP + lid, ppr, row);
    DivMod(wx' * GROUP + lid', ppr, row');
  }
}
