/**
  Frames of eight short blocks: what they lay down when each block was coded
  by windowing and the short forward transform, and reconstruction for runs
  that switch between long and short blocks.
 */
module FilterBankShort {
  import opened Complexes
  import opened DftInverse
  import opened CfftFactors
  import opened CfftDriver
  import opened Mdct
  import opened MdctInfo
  import opened MdctExact
  import opened FilterBankSpec
  import opened FilterBankRuns

  /* ---------- One short block ---------- */

  /** The window of short block `b` at position `i`: the slope of the previous frame only where the first one rises. */
  function ShortSlope(f: Frame, h: nat, b: nat, i: int): real {
    if i < 2 * h then (if b == 0 then RAt(f.prev.short, i) else RAt(f.cur.short, i))
        else RAt(f.cur.short, 4 * h - 1 - i)
  }

  /** Block `b` of a frame begins 7h + 2hb samples into its two-frame segment `x`. */
  function ShortWindowed(f: Frame, h: nat, x: seq<real>, b: nat): (u: seq<real>)
    ensures |u| == 4 * h
  {
    seq(4 * h, i => Times(RAt(x, 7 * h + 2 * h * b + i), ShortSlope(f, h, b, i)))
  }

  /** The inverse-transformed blocks are the windowed ones, aliased. */
  ghost predicate ShortAliased(f: Frame, h: nat, x: seq<real>, y: seq<real>)
    requires h % 2 == 0
  {
    forall b: nat, i: nat | b < 8 && i < 4 * h ::
      RAt(y, 4 * h * b + i) == AliasAt(ShortWindowed(f, h, x, b), h / 2, i)
  }

  /** The frames whose two halves an eight-short frame lays down: it begins like LONG_STOP and ends like LONG_START. */
  function Left(f: Frame): Frame { if f.sq == EightShort then f.(sq := LongStop) else f }

  function Right(f: Frame): Frame { if f.sq == EightShort then f.(sq := LongStart) else f }

  /** What a frame of any sequence lays down for the samples `x`. */
  function LaidDown(f: Frame, h: nat, x: seq<real>): (b: seq<real>)
    ensures |b| == 32 * h
  {
    Laid(Left(f), h, x)[..16 * h] + Laid(Right(f), h, x)[16 * h..]
  }

  /* ---------- Alias cancellation within the frame ---------- */

  /** Where the first block rises. */
  lemma FirstRises(f: Frame, h: nat, x: seq<real>, y: seq<real>, i: nat)
    requires h > 0 && h % 2 == 0 && ShortAliased(f, h, x, y) && |x| == 32 * h && Sized(f.prev, h) && i < 2 * h
    ensures ShortSum(f.prev, f.cur, h, y, 7 * h + i, 8) == Laid(f.(sq := LongStop), h, x)[7 * h + i]
  {
    hide Times, ShortSum;
    ShortFirst(f.prev, f.cur, h, y, i);
    var u, m := ShortWindowed(f, h, x, 0), 2 * h - 1 - i;
    assert RAt(y, 4 * h * 0 + i) == AliasAt(u, h / 2, i) == u[i] - u[m];
    var v := Windowed(LongStop, f.prev, f.cur, h, x);
    assert v[7 * h + i] == u[i] && v[7 * h + m] == u[m];
    assert AliasAt(v, 4 * h, 7 * h + i) == v[7 * h + i] - v[7 * h + m];
  }

  /** Where the last block falls. */
  lemma LastFalls(f: Frame, h: nat, x: seq<real>, y: seq<real>, i: nat)
    requires h > 0 && h % 2 == 0 && ShortAliased(f, h, x, y) && |x| == 32 * h && Sized(f.cur, h) && i < 2 * h
    ensures ShortSum(f.prev, f.cur, h, y, 23 * h + i, 8) == Laid(f.(sq := LongStart), h, x)[23 * h + i]
  {
    hide Times, ShortSum;
    ShortLast(f.prev, f.cur, h, y, i);
    var u, m := ShortWindowed(f, h, x, 7), 2 * h - 1 - i;
    assert RAt(y, 4 * h * 7 + (2 * h + i)) == AliasAt(u, h / 2, 2 * h + i) == u[2 * h + i] + u[2 * h + m];
    var v := Windowed(LongStart, f.prev, f.cur, h, x);
    assert v[23 * h + i] == u[2 * h + i] && v[23 * h + m] == u[2 * h + m];
    assert AliasAt(v, 4 * h, 23 * h + i) == v[23 * h + i] + v[23 * h + m];
  }

  lemma WindowedAt(f: Frame, h: nat, x: seq<real>, b: nat, i: nat, t: nat)
    requires i < 4 * h && t == 7 * h + 2 * h * b + i < |x|
    ensures ShortWindowed(f, h, x, b)[i] == Times(x[t], ShortSlope(f, h, b, i))
  {
    hide Times, ShortSlope;
  }

  /** Position `i` of short block `b` in the buffer. */
  lemma AliasedAt(f: Frame, h: nat, x: seq<real>, y: seq<real>, b: nat, i: nat, o: nat)
    requires h > 0 && h % 2 == 0 && ShortAliased(f, h, x, y) && b < 8 && i < 2 * h && o == 4 * h * b
    ensures var u, j := ShortWindowed(f, h, x, b), 2 * h - 1 - i;
            RAt(y, o + i) == u[i] - u[j] && RAt(y, o + 2 * h + i) == u[2 * h + i] + u[2 * h + j]
  {
    hide ShortWindowed;
    var u, j := ShortWindowed(f, h, x, b), 2 * h - 1 - i;
    assert RAt(y, o + i) == AliasAt(u, h / 2, i);
    assert RAt(y, 4 * h * b + (2 * h + i)) == AliasAt(u, h / 2, 2 * h + i);
  }

  /** Blocks `m` - 1 and `m` overlap at position `t`: `o` and `p` are where they begin in the buffer. */
  predicate Meeting(h: nat, m: nat, i: nat, t: nat, o: nat, p: nat) {
    1 <= m <= 7 && i < 2 * h && t == 7 * h + 2 * h * m + i && o == 4 * h * (m - 1) && p == 4 * h * m
  }

  lemma MeetingIs(h: nat, m: nat, i: nat, t: nat, o: nat, p: nat)
    requires Meeting(h, m, i, t, o, p)
    ensures 2 * h * (2 * m - 1) == o + 2 * h && 2 * h * (2 * m) == p && 1 <= m <= 7 && i < 2 * h
    ensures t == 7 * h + 2 * h * (m - 1) + (2 * h + i) && 9 * h + i <= t <= 21 * h + i
  {
    assert 2 * h * m == 2 * h * (m - 1) + 2 * h;
  }

  lemma PairAt(f: Frame, h: nat, y: seq<real>, m: nat, i: nat, t: nat, o: nat, p: nat)
    requires Meeting(h, m, i, t, o, p)
    ensures ShortSum(f.prev, f.cur, h, y, t, 8)
         == Times(RAt(y, o + 2 * h + i), RAt(f.cur.short, 2 * h - 1 - i)) + Times(RAt(y, p + i), RAt(f.cur.short, i))
  {
    hide Times, RAt, ShortSum;
    MeetingIs(h, m, i, t, o, p);
    ShortPair(f.prev, f.cur, h, y, m, i);
  }

  lemma WindowedPair(f: Frame, h: nat, x: seq<real>, m: nat, i: nat, t: nat, o: nat, p: nat)
    requires Meeting(h, m, i, t, o, p) && |x| == 32 * h
    ensures ShortWindowed(f, h, x, m - 1)[2 * h + i] == Times(RAt(x, t), RAt(f.cur.short, 2 * h - 1 - i))
    ensures ShortWindowed(f, h, x, m)[i] == Times(RAt(x, t), RAt(f.cur.short, i))
  {
    hide Times, ShortWindowed;
    MeetingIs(h, m, i, t, o, p);
    WindowedAt(f, h, x, m - 1, 2 * h + i, t);
    WindowedAt(f, h, x, m, i, t);
  }

  /** Where two short blocks overlap, the samples come back. */
  lemma ShortsOverlap(f: Frame, h: nat, x: seq<real>, y: seq<real>, m: nat, i: nat, t: nat, o: nat, p: nat)
    requires h > 0 && h % 2 == 0 && ShortAliased(f, h, x, y) && |x| == 32 * h && GoodSlopes(f.cur, h)
    requires Meeting(h, m, i, t, o, p)
    ensures t < |x| && ShortSum(f.prev, f.cur, h, y, t, 8) == x[t]
  {
    hide Times, ShortSum, Square, ShortAliased, ShortWindowed, Meeting;
    MeetingIs(h, m, i, t, o, p);
    var j: nat := 2 * h - 1 - i;
    var s: nat := t - i + j;
    MeetingMirrors(h, m, i, t, o, p, j, s);
    PairAt(f, h, y, m, i, t, o, p);
    AliasedAt(f, h, x, y, m - 1, i, o);
    AliasedAt(f, h, x, y, m, i, p);
    WindowedPair(f, h, x, m, i, t, o, p);
    WindowedPair(f, h, x, m, j, s, o, p);
    assert Square(f.cur.short[i]) + Square(f.cur.short[|f.cur.short| - 1 - i]) == 1.0;
    Cancel(f.cur.short[i], f.cur.short[j], RAt(x, t), RAt(x, s));
  }

  lemma MeetingMirrors(h: nat, m: nat, i: nat, t: nat, o: nat, p: nat, j: nat, s: nat)
    requires Meeting(h, m, i, t, o, p) && j == 2 * h - 1 - i && s == t - i + j
    ensures Meeting(h, m, j, s, o, p) && o == 4 * h * (m - 1) && p == 4 * h * m
  {}

  /** A long slope passes the samples through where it is one and clears them where it is zero. */
  lemma LongFlat(f: Frame, h: nat, x: seq<real>, t: nat)
    requires h > 0 && |x| == 32 * h && t < 16 * h
    ensures t < 7 * h ==> Laid(f.(sq := LongStop), h, x)[t] == 0.0
    ensures t >= 9 * h ==> Laid(f.(sq := LongStop), h, x)[t] == x[t]
    ensures t < 7 * h ==> Laid(f.(sq := LongStart), h, x)[16 * h + t] == x[16 * h + t]
    ensures t >= 9 * h ==> Laid(f.(sq := LongStart), h, x)[16 * h + t] == 0.0
  {}

  /** The eight blocks together are the rise of LONG_STOP, the samples themselves, and the fall of LONG_START. */
  lemma ShortLaysDown(f: Frame, h: nat, x: seq<real>, y: seq<real>)
    requires h > 0 && h % 2 == 0 && f.sq == EightShort && ShortAliased(f, h, x, y) && |x| == 32 * h
    requires GoodSlopes(f.prev, h) && GoodSlopes(f.cur, h)
    ensures Windowed(EightShort, f.prev, f.cur, h, y) == LaidDown(f, h, x)
  {
    hide ShortAliased, ShortSum, Laid, GoodSlopes;
    assert Sized(f.prev, h) && Sized(f.cur, h) by { SlopesSized(f, h); }
    forall t: nat | t < 32 * h
      ensures ShortSum(f.prev, f.cur, h, y, t, 8) == LaidDown(f, h, x)[t]
    {
      LongFlat(f, h, x, if t < 16 * h then t else t - 16 * h);
      if t < 7 * h || t >= 25 * h {
        ShortOutside(f.prev, f.cur, h, y, t);
      } else if t < 9 * h {
        FirstRises(f, h, x, y, t - 7 * h);
      } else if t >= 23 * h {
        LastFalls(f, h, x, y, t - 23 * h);
      } else {
        var m := Zone(h, t);
        ShortsOverlap(f, h, x, y, m, t - 7 * h - 2 * h * m, t, 4 * h * (m - 1), 4 * h * m);
      }
    }
  }

  lemma SlopesSized(f: Frame, h: nat)
    requires GoodSlopes(f.prev, h) && GoodSlopes(f.cur, h)
    ensures Sized(f.prev, h) && Sized(f.cur, h)
  {}

  /** The pair of short blocks that overlap at position `t`. */
  function Zone(h: nat, t: nat): (m: nat)
    requires 9 * h <= t < 23 * h
    ensures 1 <= m <= 7 && 7 * h + 2 * h * m <= t < 9 * h + 2 * h * m
  {
    if t < 11 * h then 1 else if t < 13 * h then 2 else if t < 15 * h then 3 else if t < 17 * h then 4
    else if t < 19 * h then 5 else if t < 21 * h then 6 else 7
  }

  /* ---------- Runs that switch between long and short blocks ---------- */

  /** Short slopes meet short slopes and long ones long ones. */
  predicate Succeeds(a: Frame, b: Frame) { Follows(Right(a), Left(b)) }

  /** A legal run of frames of all four sequences. */
  ghost predicate Switching(fs: seq<Frame>, h: nat) {
    && (forall k | 0 <= k < |fs| :: GoodSlopes(fs[k].prev, h) && GoodSlopes(fs[k].cur, h))
    && (forall k | 0 < k < |fs| :: Succeeds(fs[k - 1], fs[k]))
  }

  function DownBlocks(fs: seq<Frame>, h: nat, x: seq<real>): (bs: seq<seq<real>>)
    requires |x| == (|fs| + 1) * (16 * h)
    ensures |bs| == |fs|
    ensures forall b | b in bs :: |b| == 32 * h
  {
    seq(|fs|, k requires 0 <= k < |fs| =>
      SegmentFits(k, |fs|, 16 * h);
      LaidDown(fs[k], h, Segment(x, h, k)))
  }

  lemma DownJoin(fs: seq<Frame>, h: nat, x: seq<real>, k: nat)
    requires Switching(fs, h) && |x| == (|fs| + 1) * (16 * h) && 0 < k < |fs|
    ensures JoinAt(DownBlocks(fs, h, x), 16 * h, x, k)
  {
    hide Laid;
    var n := 16 * h;
    SegmentFits(k, |fs|, n);
    SegmentFits(k - 1, |fs|, n);
    SegmentBounds(k, n);
    SegmentBounds(k - 1, n);
    var x0, x1 := Segment(x, h, k - 1), Segment(x, h, k);
    Neighbours(x, (k - 1) * n, n, x0, x1);
    forall t | 0 <= t < n
      ensures DownBlocks(fs, h, x)[k - 1][n + t] + DownBlocks(fs, h, x)[k][t] == RAt(x, k * n + t)
    {
      Overlapping(Right(fs[k - 1]), Left(fs[k]), h, x0, x1, t);
      assert x1[t] == x[k * n + t];
    }
  }

  /** What the frames of a switching run lay down adds up to the samples, from the second frame on. */
  lemma SwitchingReturns(fs: seq<Frame>, h: nat, x: seq<real>)
    requires h > 0 && Switching(fs, h) && |x| == (|fs| + 1) * (16 * h)
    ensures var r := Synthesis(DownBlocks(fs, h, x), 16 * h, seq(16 * h, _ => 0.0)).0;
            |r| == |fs| * (16 * h) && forall t | 16 * h <= t < |fs| * (16 * h) :: r[t] == RAt(x, t)
  {
    hide Switching;
    forall k | 0 < k < |fs|
      ensures JoinAt(DownBlocks(fs, h, x), 16 * h, x, k)
    {
      DownJoin(fs, h, x, k);
    }
    JoinedRun(DownBlocks(fs, h, x), 16 * h, x);
  }
}
