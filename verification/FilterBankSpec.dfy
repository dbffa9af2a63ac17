/**
  The windowed overlap-add that `ifilter_bank` (libfaad/filtbank.c) has to be,
  stated on whole blocks, and what follows from it over any number of frames.
 */
module FilterBankSpec {
  import opened Mdct

  datatype WindowSequence = OnlyLong | LongStart | EightShort | LongStop

  /**
    The slopes a frame uses. With `h` for `trans`: nlong == 16h, nshort == 2h
    and nflat_ls == 7h.
   */
  datatype Slopes = Slopes(long: seq<real>, short: seq<real>)

  predicate Sized(w: Slopes, h: nat) { |w.long| == 16 * h && |w.short| == 2 * h }

  function Times(a: real, b: real): real { a * b }

  /* ---------- Windows of the long sequences ---------- */

  /** The rising half of the window: position `t` of the first half of the block. */
  function Rise(sq: WindowSequence, prev: Slopes, h: nat, t: int): real {
    if sq == LongStop then
      (if t < 7 * h then 0.0 else if t < 9 * h then RAt(prev.short, t - 7 * h) else 1.0)
    else RAt(prev.long, t)
  }

  /** The falling half: position `t` of the second half. */
  function Fall(sq: WindowSequence, cur: Slopes, h: nat, t: int): real {
    if sq == LongStart then
      (if t < 7 * h then 1.0 else if t < 9 * h then RAt(cur.short, 2 * h - 1 - (t - 7 * h)) else 0.0)
    else RAt(cur.long, 16 * h - 1 - t)
  }

  function LongWindow(sq: WindowSequence, prev: Slopes, cur: Slopes, h: nat, t: int): real {
    if t < 16 * h then Rise(sq, prev, h, t) else Fall(sq, cur, h, t - 16 * h)
  }

  /* ---------- Eight short blocks ---------- */

  /** What short block `b`, of length 4h and starting 7h + 2hb into the frame, adds at position `t`. */
  function ShortTerm(prev: Slopes, cur: Slopes, h: nat, y: seq<real>, b: int, t: int): real {
    var p := t - 7 * h - 2 * h * b;
    if p < 0 || p >= 4 * h then 0.0
    else Times(RAt(y, 4 * h * b + p),
               if p >= 2 * h then RAt(cur.short, 4 * h - 1 - p)
               else if b == 0 then RAt(prev.short, p) else RAt(cur.short, p))
  }

  /** The sum of the first `n` short blocks at position `t`. */
  function ShortSum(prev: Slopes, cur: Slopes, h: nat, y: seq<real>, t: int, n: nat): real {
    if n == 0 then 0.0 else ShortSum(prev, cur, h, y, t, n - 1) + ShortTerm(prev, cur, h, y, n - 1, t)
  }

  /* ---------- One frame ---------- */

  /** The windowed block of a frame, from the inverse-transformed data `y` (eight blocks in a row for EightShort). */
  function WindowedAt(sq: WindowSequence, prev: Slopes, cur: Slopes, h: nat, y: seq<real>, t: int): real {
    if sq == EightShort then ShortSum(prev, cur, h, y, t, 8)
    else Times(RAt(y, t), LongWindow(sq, prev, cur, h, t))
  }

  function Windowed(sq: WindowSequence, prev: Slopes, cur: Slopes, h: nat, y: seq<real>): (r: seq<real>)
    ensures |r| == 32 * h
  {
    seq(32 * h, t => WindowedAt(sq, prev, cur, h, y, t))
  }

  /** Samples out: the old overlap plus the first half of the windowed block. */
  function TimeOut(overlap: seq<real>, block: seq<real>, n: nat): (r: seq<real>)
    ensures |r| == n
  {
    seq(n, t => RAt(overlap, t) + RAt(block, t))
  }

  /** The new overlap: the second half. */
  function NewOverlap(block: seq<real>, n: nat): (r: seq<real>)
    ensures |r| == n
  {
    seq(n, t => RAt(block, n + t))
  }

  /* ---------- Short blocks, resolved ---------- */

  lemma ShortOutside(prev: Slopes, cur: Slopes, h: nat, y: seq<real>, t: int)
    requires t < 7 * h || t >= 25 * h
    ensures ShortSum(prev, cur, h, y, t, 8) == 0.0
  {
    hide Times, RAt;
    ShortUnrolled(prev, cur, h, y, t);
  }

  lemma ShortUnrolled(prev: Slopes, cur: Slopes, h: nat, y: seq<real>, t: int)
    ensures ShortSum(prev, cur, h, y, t, 8)
         == ShortTerm(prev, cur, h, y, 0, t) + ShortTerm(prev, cur, h, y, 1, t) + ShortTerm(prev, cur, h, y, 2, t)
          + ShortTerm(prev, cur, h, y, 3, t) + ShortTerm(prev, cur, h, y, 4, t) + ShortTerm(prev, cur, h, y, 5, t)
          + ShortTerm(prev, cur, h, y, 6, t) + ShortTerm(prev, cur, h, y, 7, t)
  {
    hide ShortTerm;
    assert ShortSum(prev, cur, h, y, t, 1) == ShortTerm(prev, cur, h, y, 0, t);
    assert ShortSum(prev, cur, h, y, t, 3) == ShortSum(prev, cur, h, y, t, 2) + ShortTerm(prev, cur, h, y, 2, t);
    assert ShortSum(prev, cur, h, y, t, 5) == ShortSum(prev, cur, h, y, t, 4) + ShortTerm(prev, cur, h, y, 4, t);
    assert ShortSum(prev, cur, h, y, t, 7) == ShortSum(prev, cur, h, y, t, 6) + ShortTerm(prev, cur, h, y, 6, t);
  }

  /** The first short block rises alone, on the slope of the previous frame. */
  lemma ShortFirst(prev: Slopes, cur: Slopes, h: nat, y: seq<real>, i: nat)
    requires i < 2 * h
    ensures ShortSum(prev, cur, h, y, 7 * h + i, 8) == Times(RAt(y, i), RAt(prev.short, i))
  {
    hide Times, RAt;
    ShortUnrolled(prev, cur, h, y, 7 * h + i);
  }

  /** Two neighbouring short blocks overlap. */
  lemma ShortPair(prev: Slopes, cur: Slopes, h: nat, y: seq<real>, m: nat, i: nat)
    requires 1 <= m <= 7 && i < 2 * h
    ensures ShortSum(prev, cur, h, y, 7 * h + 2 * h * m + i, 8)
         == Times(RAt(y, 2 * h * (2 * m - 1) + i), RAt(cur.short, 2 * h - 1 - i))
          + Times(RAt(y, 2 * h * (2 * m) + i), RAt(cur.short, i))
  {
    hide Times, RAt;
    ShortUnrolled(prev, cur, h, y, 7 * h + 2 * h * m + i);
    if m == 1 {} else if m == 2 {} else if m == 3 {} else if m == 4 {} else if m == 5 {} else if m == 6 {} else {}
  }

  /** The last short block falls alone. */
  lemma ShortLast(prev: Slopes, cur: Slopes, h: nat, y: seq<real>, i: nat)
    requires i < 2 * h
    ensures ShortSum(prev, cur, h, y, 23 * h + i, 8) == Times(RAt(y, 30 * h + i), RAt(cur.short, 2 * h - 1 - i))
  {
    hide Times, RAt;
    ShortUnrolled(prev, cur, h, y, 23 * h + i);
  }
}
