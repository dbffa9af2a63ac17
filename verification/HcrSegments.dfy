/**
  Step 1 of huffman codeword reordering (libfaad/hcr.c:252-352): reading the
  segments with their priority codewords, and storing the other codewords.
 */
module HcrSegments {
  import opened BitWords
  import opened BitReader
  import opened HcrBits
  import opened HcrDecode
  import opened HcrMerge
  import opened HcrSchedule
  import opened Hcr

  /** One codeword in pre-sorted order: its codebook and its segment width. */
  datatype Visit = Visit(book: Book, width: nat)

  const EMPTY := Bits64(Zeros(32), Zeros(32), 0)

  /** Bits in the first `k` segments. */
  function Widths(v: seq<Visit>, k: nat): nat
    requires k <= |v|
  {
    if k == 0 then 0 else Widths(v, k - 1) + v[k - 1].width
  }

  lemma {:induction false} WidthsGrow(v: seq<Visit>, i: nat, k: nat)
    requires i <= k <= |v|
    ensures Widths(v, i) <= Widths(v, k)
  {
    if i < k { WidthsGrow(v, i, k - 1); }
  }

  /** How many segments fit into `size` bits. */
  ghost predicate Fitting(v: seq<Visit>, size: nat, s: nat) {
    && s <= |v| && Widths(v, s) <= size
    && (s < |v| ==> Widths(v, s + 1) > size)
  }

  /** What is left of a segment after its priority codeword: nothing when it did not fit. */
  function Leftover(book: Book, s: seq<bool>): seq<bool> {
    match Decode(book, s) case Need => [] case Got(n, _) => if n <= |s| then s[n..] else []
  }

  /** The values of a priority codeword, none when it did not fit. */
  function PriorityValues(book: Book, s: seq<bool>): seq<int> {
    match Decode(book, s) case Need => [] case Got(_, values) => values
  }

  /** The raw bits of segment `k`. */
  function Raw(data: seq<Byte>, p: nat, v: seq<Visit>, k: nat): (s: seq<bool>)
    requires k < |v|
    ensures |s| == v[k].width
  {
    Bits(data, p + Widths(v, k), v[k].width)
  }

  /** What segment `k` holds once its priority codeword is gone and it has been reversed. */
  function Stored(data: seq<Byte>, p: nat, v: seq<Visit>, k: nat): seq<bool>
    requires k < |v|
  {
    Reverse(Leftover(v[k].book, Raw(data, p, v, k)))
  }

  /** The last segment, with the trailing bits of the frame read in the same direction. */
  function StoredLast(data: seq<Byte>, p: nat, v: seq<Visit>, k: nat, size: nat): seq<bool>
    requires k < |v| && Widths(v, k + 1) <= size
  {
    Reverse(Leftover(v[k].book, Raw(data, p, v, k)) + Bits(data, p + Widths(v, k + 1), size - Widths(v, k + 1)))
  }

  /** Reading one segment, decoding its priority codeword and reversing what is left. */
  method PrioritySegment(r: Reader, ghost data: seq<Byte>, v: Visit) returns (b: Bits64, values: seq<int>)
    requires r.Reads(data) && !r.error && 1 <= v.width <= 63 && WellFormed(v.book)
    modifies r
    ensures r.Reads(data) && !r.error && old(r.Pos()) >= 0 && r.Pos() == old(r.Pos()) + v.width
    ensures b.len <= 63 && Content(b) == Reverse(Leftover(v.book, Bits(data, old(r.Pos()), v.width)))
    ensures values == PriorityValues(v.book, Bits(data, old(r.Pos()), v.width))
  {
    hide Reader.Reads, Bits, Content, Decode, WellFormed, Reverse, RewrevBits;
    var x := ReadSegment(r, data, v.width);
    var ret, left, vals := SpectralData2(v.book, x);
    values := if ret >= 0 then vals else [];
    NothingHeld(left);
    RewrevReverses(left);
    RewrevLength(left);
    b := RewrevBits(left);
  }

  /** The trailing bits go into the last segment; `ok` is false where the code goes wrong or shifts too far. */
  method TrailingBits(r: Reader, ghost data: seq<Byte>, last: Bits64, extra: nat) returns (ok: bool, b: Bits64)
    requires r.Reads(data) && !r.error && last.len <= 63
    modifies r
    ensures r.Reads(data) && !r.error && old(r.Pos()) >= 0 && (extra <= 63 ==> r.Pos() == old(r.Pos()) + extra)
    ensures ok <==> extra == 0 || (last.len <= 32 && last.len + extra <= 63)
    ensures ok ==> b.len == last.len + extra && Content(b) == Reverse(Bits(data, old(r.Pos()), extra)) + Content(last)
  {
    hide Reader.Reads, Bits, Content, Merge, Reverse;
    r.PosNatural(data);
    b, ok := last, true;
    if extra == 0 {
      NoExtra(data, r.Pos(), last);
    } else if extra > 63 {
      ok := false;
    } else {
      var x := ReadSegment(r, data, extra);
      ok := last.len <= 32 && last.len + extra <= 63;
      if ok {
        MergeShort(last, x);
        b := Merge(last, x);
      }
    }
  }

  lemma NoExtra(data: seq<Byte>, p: nat, last: Bits64)
    requires last.len <= 63
    ensures Reverse(Bits(data, p, 0)) + Content(last) == Content(last)
  {
    hide Content;
    assert Reverse(Bits(data, p, 0)) == [];
  }

  /** Segment `k` holds what is stored there, and `vals` are its priority codeword's values. */
  ghost predicate PreparedAt(data: seq<Byte>, p: nat, v: seq<Visit>, k: nat, b: Bits64, vals: seq<int>)
    requires k < |v|
  {
    b.len <= 63 && Content(b) == Stored(data, p, v, k) && vals == PriorityValues(v[k].book, Raw(data, p, v, k))
  }

  ghost predicate Prepared(data: seq<Byte>, p: nat, v: seq<Visit>, segs: seq<Bits64>, values: seq<seq<int>>) {
    && |values| <= |v| && |values| <= |segs|
    && forall k | 0 <= k < |values| :: PreparedAt(data, p, v, k, segs[k], values[k])
  }

  lemma PreparedNext(data: seq<Byte>, p: nat, v: seq<Visit>, segs: seq<Bits64>, values: seq<seq<int>>, b: Bits64,
                     vals: seq<int>)
    requires Prepared(data, p, v, segs, values) && |values| < |v|
    requires |values| < |segs| && PreparedAt(data, p, v, |values|, b, vals)
    ensures Prepared(data, p, v, segs[|values| := b], values + [vals])
  {
    hide PreparedAt;
  }

  lemma PreparedIs(data: seq<Byte>, p: nat, v: seq<Visit>, k: nat, b: Bits64, vals: seq<int>)
    requires k < |v| && b.len <= 63
    requires Content(b) == Reverse(Leftover(v[k].book, Bits(data, p + Widths(v, k), v[k].width)))
    requires vals == PriorityValues(v[k].book, Bits(data, p + Widths(v, k), v[k].width))
    ensures PreparedAt(data, p, v, k, b, vals)
  {
    hide Content, Leftover, PriorityValues, Reverse;
    StoredIs(data, p, v, k);
  }

  /**
    Step 1 over the visits in pre-sorted order. The segments are as many as
    fit; the codewords after them are stored densely from index 0.
   */
  method ReadSegments(v: seq<Visit>, size: nat, r: Reader, ghost data: seq<Byte>, segment: array<Bits64>,
                      codeword: array<Codeword>)
    returns (ok: bool, segments: nat, codewords: nat, values: seq<seq<int>>)
    requires r.Reads(data) && !r.error && |v| <= segment.Length && |v| <= codeword.Length
    requires forall k | 0 <= k < |v| :: 1 <= v[k].width <= 63 && WellFormed(v[k].book)
    requires v == [] || v[0].width <= size
    modifies r, segment, codeword
    ensures r.Reads(data) && !r.error && old(r.Pos()) >= 0
    ensures segments <= |v| && (v != [] ==> segments > 0) && Fitting(v, size, segments)
    ensures ok <==> segments == |v| || CanMerge(data, old(r.Pos()), v, size, segments - 1)
    ensures |values| == segments && PriorityAll(data, old(r.Pos()), v, values)
    ensures ok ==> codewords == |v| && KeptAll(data, old(r.Pos()), v, size, segments, segment[..])
    ensures ok ==> FreshAll(v, segments, codeword[..])
  {
    hide Reader.Reads, WellFormed, Prepared, KeptAll, FreshAll, PriorityAll, CanMerge, Fitting;
    r.PosNatural(data);
    ghost var p: nat := r.Pos();
    ok := true;
    var bitsread;
    segments, bitsread, values := ReadPriority(v, size, r, data, segment);
    codewords := segments;
    AllPrepared(data, p, v, segment[..], values, size);
    FittingIs(v, size, segments);
    if codewords < |v| {
      ok := MergeTrailing(v, size, r, data, p, segment, segments, bitsread, values);
      if !ok { return; }
      StoreRest(v, segments, codeword);
      codewords := |v|;
    } else {
      NoneLeft(v, codeword[..]);
    }
  }

  lemma FittingIs(v: seq<Visit>, size: nat, s: nat)
    requires Fitting(v, size, s) && (v == [] || v[0].width <= size)
    ensures s <= |v| && Widths(v, s) <= size && (v != [] ==> s > 0)
  {
    assert v != [] ==> Widths(v, 1) == v[0].width;
  }

  lemma NoneLeft(v: seq<Visit>, cws: seq<Codeword>)
    requires |v| <= |cws|
    ensures FreshAll(v, |v|, cws)
  {}

  /** The last segment and the bits behind it. */
  method MergeTrailing(v: seq<Visit>, size: nat, r: Reader, ghost data: seq<Byte>, ghost p: nat,
                       segment: array<Bits64>, segments: nat, bitsread: nat,
                       ghost values: seq<seq<int>>)
    returns (ok: bool)
    requires r.Reads(data) && !r.error && 0 < segments == |values| < |v| <= segment.Length
    requires bitsread == Widths(v, segments) <= size
    requires r.Pos() == p + bitsread && Prepared(data, p, v, segment[..], values)
    modifies r, segment
    ensures r.Reads(data) && !r.error && (ok <==> CanMerge(data, p, v, size, segments - 1))
    ensures ok ==> KeptAll(data, p, v, size, segments, segment[..])
  {
    hide Reader.Reads, Bits, Content, Widths, KeptAll, CanMerge, PreparedAt;
    var last := segments - 1;
    ghost var was := segment[..];
    assert PreparedAt(data, p, v, last, segment[last], values[last]);
    PreparedLength(data, p, v, last, segment[last], values[last]);
    CanMergeIs(data, p, v, size, last, segment[last], values[last]);
    var b;
    ok, b := TrailingBits(r, data, segment[last], size - bitsread);
    if !ok { return; }
    KeptLast(data, p, v, last, size, segment[last], values[last], b);
    segment[last] := b;
    LastKept(data, p, v, size, was, values, b);
  }

  lemma PreparedLength(data: seq<Byte>, p: nat, v: seq<Visit>, k: nat, b: Bits64, vals: seq<int>)
    requires k < |v| && PreparedAt(data, p, v, k, b, vals)
    ensures b.len <= 63
  {}

  lemma LastKept(data: seq<Byte>, p: nat, v: seq<Visit>, size: nat, was: seq<Bits64>, values: seq<seq<int>>, b: Bits64)
    requires 0 < |values| < |v| && Prepared(data, p, v, was, values) && b.len <= 63
    requires Content(b) == Keeps(data, p, v, size, |values|, |values| - 1)
    ensures KeptAll(data, p, v, size, |values|, was[|values| - 1 := b])
  {
    hide Content, Stored, StoredLast, PriorityValues;
    forall k | 0 <= k < |values| - 1
      ensures was[k].len <= 63 && Content(was[k]) == Keeps(data, p, v, size, |values|, k)
    {
      assert PreparedAt(data, p, v, k, was[k], values[k]);
    }
  }

  ghost predicate KeptAll(data: seq<Byte>, p: nat, v: seq<Visit>, size: nat, segments: nat, segs: seq<Bits64>) {
    segments <= |v| && segments <= |segs|
    && forall k | 0 <= k < segments :: segs[k].len <= 63 && Content(segs[k]) == Keeps(data, p, v, size, segments, k)
  }

  ghost predicate FreshAll(v: seq<Visit>, segments: nat, cws: seq<Codeword>) {
    segments <= |v| <= |cws| && forall j: nat | j < |v| - segments :: Fresh(cws[j], v[segments + j].book)
  }

  ghost predicate PriorityAll(data: seq<Byte>, p: nat, v: seq<Visit>, values: seq<seq<int>>) {
    |values| <= |v| && forall k | 0 <= k < |values| :: values[k] == PriorityValues(v[k].book, Raw(data, p, v, k))
  }

  /** What segment `k` holds after step 1. */
  function Keeps(data: seq<Byte>, p: nat, v: seq<Visit>, size: nat, segments: nat, k: nat): seq<bool>
    requires k < |v|
  {
    if k == segments - 1 && segments < |v| && Widths(v, k + 1) <= size then StoredLast(data, p, v, k, size)
    else Stored(data, p, v, k)
  }

  /** The trailing bits can be merged into what is left of segment `k`. */
  predicate CanMerge(data: seq<Byte>, p: nat, v: seq<Visit>, size: nat, k: int) {
    0 <= k < |v| && Widths(v, k + 1) <= size
    && var left, extra := |Stored(data, p, v, k)|, size - Widths(v, k + 1);
       extra == 0 || (left <= 32 && left + extra <= 63)
  }

  /** `fill_in_codeword`. */
  predicate Fresh(c: Codeword, book: Book) { c.book == book && !c.decoded && c.bits.len == 0 && c.values == [] }

  lemma AllPrepared(data: seq<Byte>, p: nat, v: seq<Visit>, segs: seq<Bits64>, values: seq<seq<int>>, size: nat)
    requires Prepared(data, p, v, segs, values)
    ensures PriorityAll(data, p, v, values) && (|values| == |v| ==> KeptAll(data, p, v, size, |values|, segs))
  {
    hide Stored, StoredLast, PriorityValues, Raw, Content;
    forall k | 0 <= k < |values|
      ensures segs[k].len <= 63 && Content(segs[k]) == Stored(data, p, v, k)
      ensures values[k] == PriorityValues(v[k].book, Raw(data, p, v, k))
    {
      assert PreparedAt(data, p, v, k, segs[k], values[k]);
    }
  }

  lemma CanMergeIs(data: seq<Byte>, p: nat, v: seq<Visit>, size: nat, k: nat, b: Bits64, vals: seq<int>)
    requires k < |v| && PreparedAt(data, p, v, k, b, vals) && Widths(v, k + 1) <= size
    ensures CanMerge(data, p, v, size, k)
       <==> size - Widths(v, k + 1) == 0 || (b.len <= 32 && b.len + (size - Widths(v, k + 1)) <= 63)
  {
    hide Stored, Content, PriorityValues;
    assert |Content(b)| == b.len;
  }

  lemma KeptLast(data: seq<Byte>, p: nat, v: seq<Visit>, k: nat, size: nat, was: Bits64, vals: seq<int>, b: Bits64)
    requires k + 1 < |v| && Widths(v, k + 1) <= size && PreparedAt(data, p, v, k, was, vals) && b.len <= 64
    requires Content(b) == Reverse(Bits(data, p + Widths(v, k + 1), size - Widths(v, k + 1))) + Content(was)
    ensures Content(b) == Keeps(data, p, v, size, k + 1, k)
  {
    hide Stored, StoredLast, Content, Reverse, PriorityValues;
    StoredLastIs(data, p, v, k, size);
  }

  /** The normal segments: as many as fit. */
  method ReadPriority(v: seq<Visit>, size: nat, r: Reader, ghost data: seq<Byte>, segment: array<Bits64>)
    returns (segments: nat, bitsread: nat, values: seq<seq<int>>)
    requires r.Reads(data) && !r.error && |v| <= segment.Length
    requires forall k | 0 <= k < |v| :: 1 <= v[k].width <= 63 && WellFormed(v[k].book)
    modifies r, segment
    ensures r.Reads(data) && !r.error && old(r.Pos()) >= 0 && r.Pos() == old(r.Pos()) + bitsread
    ensures Fitting(v, size, segments) && bitsread == Widths(v, segments)
    ensures |values| == segments && Prepared(data, old(r.Pos()), v, segment[..], values)
  {
    hide Reader.Reads, Bits, Content, WellFormed, Prepared, PreparedAt, Reverse, Leftover, PriorityValues;
    r.PosNatural(data);
    ghost var p: nat := r.Pos();
    segments, bitsread, values := 0, 0, [];
    NonePrepared(data, p, v, segment[..]);
    while segments < |v| && bitsread + v[segments].width <= size
      invariant 0 <= segments <= |v| && bitsread == Widths(v, segments) <= size && |values| == segments
      invariant r.Reads(data) && !r.error && r.Pos() == p + bitsread
      invariant Prepared(data, p, v, segment[..], values)
    {
      ghost var was := segment[..];
      var b, vals := PrioritySegment(r, data, v[segments]);
      segment[segments] := b;
      PreparedIs(data, p, v, segments, b, vals);
      PreparedNext(data, p, v, was, values, b, vals);
      values := values + [vals];
      bitsread := bitsread + v[segments].width;
      segments := segments + 1;
    }
  }

  lemma NonePrepared(data: seq<Byte>, p: nat, v: seq<Visit>, segs: seq<Bits64>)
    ensures Prepared(data, p, v, segs, [])
  {}

  /** The codewords that are not priority codewords, in visit order from index 0. */
  method StoreRest(v: seq<Visit>, segments: nat, codeword: array<Codeword>)
    requires segments <= |v| <= codeword.Length
    modifies codeword
    ensures FreshAll(v, segments, codeword[..])
  {
    var codewords := segments;
    while codewords < |v|
      invariant segments <= codewords <= |v|
      invariant forall j: nat | j < codewords - segments :: Fresh(codeword[j], v[segments + j].book)
    {
      codeword[codewords - segments] := Codeword(v[codewords].book, false, EMPTY, []);
      codewords := codewords + 1;
    }
  }

  lemma StoredIs(data: seq<Byte>, p: nat, v: seq<Visit>, k: nat)
    requires k < |v|
    ensures Stored(data, p, v, k) == Reverse(Leftover(v[k].book, Bits(data, p + Widths(v, k), v[k].width)))
  {
    hide Reverse, Leftover;
  }

  lemma StoredLastIs(data: seq<Byte>, p: nat, v: seq<Visit>, k: nat, size: nat)
    requires k < |v| && Widths(v, k + 1) <= size
    ensures StoredLast(data, p, v, k, size)
         == Reverse(Bits(data, p + Widths(v, k + 1), size - Widths(v, k + 1))) + Stored(data, p, v, k)
  {
    hide Bits, Widths;
    ReverseConcat(Leftover(v[k].book, Raw(data, p, v, k)), Bits(data, p + Widths(v, k + 1), size - Widths(v, k + 1)));
    hide Reverse, Leftover;
  }
}
