/** `reordered_spectral_data` (libfaad/hcr.c:214-421) from end to end: where every bit of a frame goes. */
module HcrFrame {
  import opened BitWords
  import opened BitReader
  import opened HcrBits
  import opened HcrDecode
  import opened HcrCode
  import opened HcrSchedule
  import opened Hcr
  import opened HcrSegments
  import opened HcrWrite

  /** The return value 0 or 10; Undefined where the trailing bits are merged wrongly or C leaves a shift undefined. */
  datatype Outcome = Good | Bad | Undefined

  /** Segments and codewords between the two steps. */
  function FrameState(data: seq<Byte>, p: nat, v: seq<Visit>, size: nat, segments: nat): (st: State)
    requires segments <= |v|
    ensures |st.segs| == segments && |st.cws| == |v| - segments
  {
    State(seq(segments, k requires 0 <= k < segments => Keeps(data, p, v, size, segments, k)),
          seq(|v| - segments, j requires 0 <= j < |v| - segments => Cw(v[segments + j].book, false, [], [])))
  }

  function FinalState(data: seq<Byte>, p: nat, v: seq<Visit>, size: nat, segments: nat): (st: State)
    requires 0 < segments <= |v|
    ensures |st.segs| == segments && |st.cws| == |v| - segments
  {
    Run(FrameState(data, p, v, size, segments), Whole(segments, |v| - segments))
  }

  /** No segment is wider than the longest codeword (`segmentWidth`). */
  predicate WidthsOk(v: seq<Visit>, longest: nat) {
    forall k | 0 <= k < |v| :: 1 <= v[k].width <= longest && v[k].width <= 63
  }

  /** Nothing in the frame is beyond what the code's arithmetic can follow. */
  ghost predicate Followed(data: seq<Byte>, p: nat, v: seq<Visit>, size: nat, segments: nat)
    requires 0 < segments <= |v|
  {
    && (segments == |v| || CanMerge(data, p, v, size, segments - 1))
    && AllFit(FrameState(data, p, v, size, segments), Whole(segments, |v| - segments))
  }

  /**
    The values of the codewords in visit order: of the first `segments` from their
    segments, of the others from the run.
   */
  ghost predicate ValuesAre(data: seq<Byte>, p: nat, v: seq<Visit>, size: nat, segments: nat, values: seq<seq<int>>)
    requires 0 < segments <= |v|
  {
    && |values| == |v|
    && (forall k | 0 <= k < segments :: values[k] == PriorityValues(v[k].book, Raw(data, p, v, k)))
    && (forall j: nat | j < |v| - segments ::
          values[segments + j] == FinalState(data, p, v, size, segments).cws[j].values)
  }

  lemma StateIs(data: seq<Byte>, p: nat, v: seq<Visit>, size: nat, segments: nat, segs: seq<Bits64>, cws: seq<Codeword>)
    requires segments <= |v| && |segs| == segments && |cws| == |v| - segments
    requires KeptAll(data, p, v, size, segments, segs)
    requires forall j: nat | j < |v| - segments :: Fresh(cws[j], v[segments + j].book)
    requires forall k | 0 <= k < |v| :: WellFormed(v[k].book)
    ensures StateOf(segs, cws) == FrameState(data, p, v, size, segments) && Sane(segs, cws)
  {
    hide Keeps, Content, WellFormed;
    var a, b := StateOf(segs, cws), FrameState(data, p, v, size, segments);
    forall j: nat | j < |v| - segments
      ensures a.cws[j] == b.cws[j]
    {
      NothingHeld(cws[j].bits);
    }
    assert a.segs == b.segs && a.cws == b.cws;
  }

  /** The used parts of the arrays, as arrays of their own. */
  method UsedParts(segment: array<Bits64>, codeword: array<Codeword>, n: nat, count: nat)
    returns (segs: array<Bits64>, cws: array<Codeword>)
    requires n <= segment.Length && count <= codeword.Length
    ensures fresh(segs) && fresh(cws) && segs[..] == segment[..n] && cws[..] == codeword[..count]
  {
    segs := new Bits64[n](i requires 0 <= i < n reads segment => segment[i]);
    cws := new Codeword[count](i requires 0 <= i < count reads codeword => codeword[i]);
  }

  /**
    `reordered_spectral_data`, over the codewords in pre-sorted order: its
    error returns, and the values of all codewords.
   */
  method ReorderedSpectralData(v: seq<Visit>, size: nat, longest: nat, r: Reader, ghost data: seq<Byte>)
    returns (o: Outcome, values: seq<seq<int>>, ghost segments: nat)
    requires r.Reads(data) && !r.error && WidthsOk(v, longest) && forall k | 0 <= k < |v| :: WellFormed(v[k].book)
    modifies r
    ensures r.Reads(data) && !r.error && old(r.Pos()) >= 0
    ensures size == 0 ==> o == Good && values == [] && r.Pos() == old(r.Pos())
    ensures size > 0 ==> (o == Bad <==> longest == 0 || size < longest || v == [])
    ensures size > 0 && o != Bad ==>
              && 0 < segments <= |v| && Fitting(v, size, segments)
              && (o == Good <==> Followed(data, old(r.Pos()), v, size, segments))
              && (o == Good ==> ValuesAre(data, old(r.Pos()), v, size, segments, values))
  {
    hide Reader.Reads, WellFormed, KeptAll, PriorityAll, FrameState, Run;
    hide StateOf, Sane, AllFit, Whole, CanMerge, Fitting;
    r.PosNatural(data);
    segments, values := 0, [];
    if size == 0 { return Good, values, segments; }
    if longest == 0 || size < longest { return Bad, values, segments; }
    ghost var p: nat := r.Pos();
    var segment := new Bits64[|v|](_ => EMPTY);
    var codeword := new Codeword[|v|](_ => Codeword(Book(Tree([]), false, false, 0), false, EMPTY, []));
    var ok, used, words, priority := ReadSegments(v, size, r, data, segment, codeword);
    segments := used;
    if used == 0 { return Bad, [], segments; }
    if !ok { return Undefined, [], segments; }
    var segs, cws := UsedParts(segment, codeword, used, words - used);
    KeptPart(data, p, v, size, used, segment[..], segs[..]);
    StateIs(data, p, v, size, used, segs[..], cws[..]);
    ok := DecodeNonPriority(segs, cws);
    if !ok { return Undefined, [], segments; }
    values := priority + Values(cws[..]);
    PriorityIs(data, p, v, priority);
    ValuesOf(segs[..], cws[..]);
    o := Good;
  }

  function Values(cws: seq<Codeword>): (r: seq<seq<int>>)
    ensures |r| == |cws| && forall j | 0 <= j < |r| :: r[j] == cws[j].values
  {
    seq(|cws|, j requires 0 <= j < |cws| => cws[j].values)
  }

  lemma ValuesOf(segs: seq<Bits64>, cws: seq<Codeword>)
    ensures forall j | 0 <= j < |cws| :: StateOf(segs, cws).cws[j].values == cws[j].values
  {}

  lemma PriorityIs(data: seq<Byte>, p: nat, v: seq<Visit>, values: seq<seq<int>>)
    requires PriorityAll(data, p, v, values)
    ensures forall k | 0 <= k < |values| :: values[k] == PriorityValues(v[k].book, Raw(data, p, v, k))
  {}

  lemma KeptPart(data: seq<Byte>, p: nat, v: seq<Visit>, size: nat, segments: nat, segs: seq<Bits64>, part: seq<Bits64>)
    requires KeptAll(data, p, v, size, segments, segs) && part == segs[..segments]
    ensures KeptAll(data, p, v, size, segments, part)
  {
    hide Keeps, Content;
  }

  /* ---------- Conservation ---------- */

  lemma LeftoverShorter(book: Book, s: seq<bool>)
    ensures |Leftover(book, s)| <= |s|
  {}

  /** Bits the priority codewords of the first `k` segments use up; one that does not fit uses up its segment. */
  function Spent(data: seq<Byte>, p: nat, v: seq<Visit>, k: nat): nat
    requires k <= |v|
  {
    if k == 0 then 0
    else
      var raw := Raw(data, p, v, k - 1);
      LeftoverShorter(v[k - 1].book, raw);
      Spent(data, p, v, k - 1) + (v[k - 1].width - |Leftover(v[k - 1].book, raw)|)
  }

  lemma {:induction false} PrefixHolds(data: seq<Byte>, p: nat, v: seq<Visit>, segs: seq<seq<bool>>, k: nat)
    requires k <= |segs| <= |v| && forall i | 0 <= i < k :: |segs[i]| == |Leftover(v[i].book, Raw(data, p, v, i))|
    ensures Length(segs[..k]) + Spent(data, p, v, k) == Widths(v, k)
  {
    hide Leftover, Raw;
    if k > 0 {
      PrefixHolds(data, p, v, segs, k - 1);
      assert segs[..k][..k - 1] == segs[..k - 1];
      LeftoverShorter(v[k - 1].book, Raw(data, p, v, k - 1));
    }
  }

  /** How much segment `k` keeps. */
  lemma KeptLength(data: seq<Byte>, p: nat, v: seq<Visit>, size: nat, segments: nat, k: nat)
    requires k < segments <= |v| && Widths(v, segments) <= size
    ensures |Keeps(data, p, v, size, segments, k)| == |Leftover(v[k].book, Raw(data, p, v, k))|
              + if k == segments - 1 && segments < |v| then size - Widths(v, k + 1) else 0
  {
    hide Leftover, Raw, Widths;
  }

  /** The segments hold all bits read but those of the priority codewords. */
  lemma SegmentsHold(data: seq<Byte>, p: nat, v: seq<Visit>, size: nat, segments: nat)
    requires 0 < segments <= |v| && Fitting(v, size, segments)
    ensures Length(FrameState(data, p, v, size, segments).segs) + Spent(data, p, v, segments)
         == if segments < |v| then size else Widths(v, |v|)
  {
    hide Leftover, Raw, Keeps;
    var segs := FrameState(data, p, v, size, segments).segs;
    forall k: nat | k < segments
      ensures |segs[k]| == |Leftover(v[k].book, Raw(data, p, v, k))|
                + if k == segments - 1 && segments < |v| then size - Widths(v, segments) else 0
    {
      KeptLength(data, p, v, size, segments, k);
    }
    PrefixHolds(data, p, v, segs, segments - 1);
    LeftoverShorter(v[segments - 1].book, Raw(data, p, v, segments - 1));
  }

  lemma {:induction false} NothingPending(cws: seq<Cw>)
    requires forall j | 0 <= j < |cws| :: cws[j].held == []
    ensures PendingAll(cws) == 0
  {
    if cws != [] { NothingPending(cws[..|cws| - 1]); }
  }

  /**
    Every bit of a frame: those of the priority codewords, those of the
    codewords completed in step 2, and those still held in the end.
   */
  lemma FrameConserves(data: seq<Byte>, p: nat, v: seq<Visit>, size: nat, segments: nat)
    requires 0 < segments <= |v| && Fitting(v, size, segments) && forall k | 0 <= k < |v| :: WellFormed(v[k].book)
    ensures var st, es := FrameState(data, p, v, size, segments), Whole(segments, |v| - segments);
            var final := FinalState(data, p, v, size, segments);
            Spent(data, p, v, segments) + TakenAll(st, es) + Length(final.segs) + PendingAll(final.cws)
              == if segments < |v| then size else Widths(v, |v|)
  {
    hide Whole, Run, TakenAll, Length, PendingAll, Spent, WellFormed, Keeps, Fitting;
    var st := FrameState(data, p, v, size, segments);
    SegmentsHold(data, p, v, size, segments);
    NothingPending(st.cws);
    RunConserves(st, Whole(segments, |v| - segments));
  }

  /* ---------- Round trip ---------- */

  /** The room behind the priority codewords, the trailing bits included. */
  function Free(v: seq<Visit>, first: seq<Code>, size: nat): (f: seq<nat>)
    requires |first| <= |v| && forall k | 0 <= k < |first| :: |first[k].bits| <= v[k].width
    ensures |f| == |first|
  {
    seq(|first|, k requires 0 <= k < |first| =>
      v[k].width - |first[k].bits|
      + if k == |first| - 1 && |first| < |v| && Widths(v, k + 1) <= size then size - Widths(v, k + 1) else 0)
  }

  /** Piece `k` of an encoded frame: the priority codeword, then the other bits from the far end. */
  function Piece(v: seq<Visit>, first: seq<Code>, others: seq<Code>, size: nat, k: nat): seq<bool>
    requires k < |first| <= |v| && forall k | 0 <= k < |first| :: |first[k].bits| <= v[k].width
  {
    first[k].bits + Reverse(Written(others, Free(v, first, size)).segs[k])
  }

  /** The frame in the stream is the encoding of the priority codewords `first` and the others. */
  ghost predicate Encoded(data: seq<Byte>, p: nat, v: seq<Visit>, first: seq<Code>, others: seq<Code>, size: nat) {
    && 0 < |first| && |first| + |others| == |v| && Fitting(v, size, |first|)
    && (forall k | 0 <= k < |first| :: Valid(first[k]) && first[k].book == v[k].book && |first[k].bits| <= v[k].width)
    && (forall j | 0 <= j < |others| :: Valid(others[j]) && others[j].book == v[|first| + j].book)
    && (forall k: nat | k < |first| ::
          Bits(data, p + Widths(v, k), |Piece(v, first, others, size, k)|) == Piece(v, first, others, size, k))
    && Length(BitsOf(others)) <= Room(Free(v, first, size))
  }

  /** Decoding a priority codeword with other bits behind it leaves those. */
  lemma PriorityRead(c: Code, rest: seq<bool>)
    requires Valid(c)
    ensures Leftover(c.book, c.bits + rest) == rest && PriorityValues(c.book, c.bits + rest) == c.values
  {
    hide Decode, Valid;
    ValidRead(c, rest);
    assert (c.bits + rest)[|c.bits|..] == rest;
  }

  /** Piece `k` fills its segment, and the last one the trailing bits too. */
  lemma PieceLength(data: seq<Byte>, p: nat, v: seq<Visit>, first: seq<Code>, others: seq<Code>, size: nat, k: nat)
    requires Encoded(data, p, v, first, others, size) && k < |first|
    ensures Widths(v, k + 1) == Widths(v, k) + v[k].width && Widths(v, |first|) <= size
    ensures |Written(others, Free(v, first, size)).segs[k]| == v[k].width - |first[k].bits|
              + if k == |first| - 1 && |first| < |v| then size - Widths(v, k + 1) else 0
  {
    hide Valid, Length, Room, Whole, Bits, Fill, Piece;
  }

  /** One segment: step 1 finds the priority codeword and keeps what was written behind it. */
  lemma SegmentRead(data: seq<Byte>, p: nat, v: seq<Visit>, first: seq<Code>, others: seq<Code>, size: nat, k: nat)
    requires Encoded(data, p, v, first, others, size) && k < |first|
    ensures Keeps(data, p, v, size, |first|, k) == Written(others, Free(v, first, size)).segs[k]
    ensures PriorityValues(v[k].book, Raw(data, p, v, k)) == first[k].values
  {
    hide Leftover, PriorityValues, Valid, Length, Room, Whole, Fill, Bits, Fitting, Widths, Free, Written;
    PieceLength(data, p, v, first, others, size, k);
    var w := Written(others, Free(v, first, size)).segs[k];
    var piece, width := Piece(v, first, others, size, k), v[k].width;
    var all := Reverse(w);
    var rest := all[..width - |first[k].bits|];
    assert |piece| == |first[k].bits| + |all|;
    TwoParts(data, p + Widths(v, k), first[k].bits, all, width);
    assert Raw(data, p, v, k) == first[k].bits + rest;
    PriorityRead(first[k], rest);
    if k == |first| - 1 && |first| < |v| {
      assert size - Widths(v, k + 1) == |piece| - width;
    } else {
      assert rest == all;
    }
    ReverseTwice(w);
  }

  /** A codeword and what stands behind it, cut at the width of the segment. */
  lemma TwoParts(data: seq<Byte>, q: nat, bits: seq<bool>, all: seq<bool>, width: nat)
    requires Bits(data, q, |bits| + |all|) == bits + all && |bits| <= width <= |bits| + |all|
    ensures Bits(data, q, width) == bits + all[..width - |bits|]
    ensures Bits(data, q + width, |bits| + |all| - width) == all[width - |bits|..]
    ensures all[..width - |bits|] + all[width - |bits|..] == all
  {
    BitsPart(data, q, |bits| + |all|, 0, width);
    BitsPart(data, q, |bits| + |all|, width, |bits| + |all|);
    assert (bits + all)[..width] == bits + all[..width - |bits|];
    assert (bits + all)[width..] == all[width - |bits|..];
  }

  lemma FrameRead(data: seq<Byte>, p: nat, v: seq<Visit>, first: seq<Code>, others: seq<Code>, size: nat)
    requires Encoded(data, p, v, first, others, size)
    ensures FrameState(data, p, v, size, |first|) == Written(others, Free(v, first, size))
  {
    hide Keeps, Valid, Length, Room, Whole, Fill, Piece, Fitting;
    var a, b := FrameState(data, p, v, size, |first|), Written(others, Free(v, first, size));
    forall k: nat | k < |first|
      ensures a.segs[k] == b.segs[k]
    {
      SegmentRead(data, p, v, first, others, size, k);
    }
    assert a.segs == b.segs && a.cws == b.cws;
  }

  /** The values decoded from an encoded frame are those of its codewords, in visit order. */
  lemma ValuesRead(data: seq<Byte>, p: nat, v: seq<Visit>, first: seq<Code>, others: seq<Code>, size: nat,
                   values: seq<seq<int>>)
    requires Encoded(data, p, v, first, others, size) && ValuesAre(data, p, v, size, |first|, values)
    ensures forall k | 0 <= k < |first| :: values[k] == first[k].values
    ensures forall j: nat | j < |others| :: values[|first| + j] == others[j].values
  {
    hide Keeps, Valid, Room, Whole, Fill, Run, Piece, Fitting, PriorityValues, Raw;
    FrameRead(data, p, v, first, others, size);
    RoundTrip(others, Free(v, first, size));
    forall k: nat | k < |first|
      ensures values[k] == first[k].values
    {
      SegmentRead(data, p, v, first, others, size, k);
    }
    var st := Run(Written(others, Free(v, first, size)), Whole(|first|, |others|));
    assert FinalState(data, p, v, size, |first|) == st;
    forall j: nat | j < |others|
      ensures values[|first| + j] == others[j].values
    {
      assert st.cws[j].values == others[j].values;
    }
  }

  /**
    The arithmetic can follow an encoded frame, by the lengths of segments and
    codewords alone: the bits behind the last segment can be merged, and every
    offer fits.
   */
  predicate LengthsFollow(v: seq<Visit>, first: seq<Code>, others: seq<Code>, size: nat)
    requires 0 < |first| <= |v| && forall k | 0 <= k < |first| :: |first[k].bits| <= v[k].width
  {
    var last, free := |first| - 1, Free(v, first, size);
    && (|first| == |v| || Widths(v, |first|) == size || (v[last].width - |first[last].bits| <= 32 && free[last] <= 63))
    && LengthsFit(Whole(|first|, |others|), Lengths(BitsOf(others)), Lengths(BitsOf(others)), free)
  }

  lemma MergeIs(data: seq<Byte>, p: nat, v: seq<Visit>, first: seq<Code>, others: seq<Code>, size: nat)
    requires Encoded(data, p, v, first, others, size) && |first| < |v|
    ensures var last := |first| - 1;
            CanMerge(data, p, v, size, last) <==>
              Widths(v, |first|) == size
              || (v[last].width - |first[last].bits| <= 32 && Free(v, first, size)[last] <= 63)
  {
    hide Keeps, Valid, Room, Length, Whole, Fill, Leftover, PriorityValues;
    var last, width := |first| - 1, v[|first| - 1].width;
    var piece := Piece(v, first, others, size, last);
    BitsPart(data, p + Widths(v, last), |piece|, 0, width);
    assert Raw(data, p, v, last) == piece[..width] == first[last].bits + piece[|first[last].bits|..width];
    PriorityRead(first[last], piece[|first[last].bits|..width]);
  }

  /** An encoded frame can be followed exactly when its lengths say so. */
  lemma FollowedIff(data: seq<Byte>, p: nat, v: seq<Visit>, first: seq<Code>, others: seq<Code>, size: nat)
    requires Encoded(data, p, v, first, others, size)
    ensures Followed(data, p, v, size, |first|) <==> LengthsFollow(v, first, others, size)
  {
    hide Keeps, Valid, Room, Length, Whole, Fill, Run, Piece, Fitting, AllFit, LengthsFit, CanMerge;
    FrameRead(data, p, v, first, others, size);
    if |first| < |v| { MergeIs(data, p, v, first, others, size); }
    var es := Whole(|first|, |others|);
    Begin(others, es, Free(v, first, size));
    FitIff(Written(others, Free(v, first, size)), others, es, BitsOf(others), Free(v, first, size));
  }

  /** At most 31 bits behind each priority codeword and at most 33 in each other codeword. */
  predicate Short(v: seq<Visit>, first: seq<Code>, others: seq<Code>, size: nat)
    requires |first| <= |v| && forall k | 0 <= k < |first| :: |first[k].bits| <= v[k].width
  {
    && (forall k | 0 <= k < |first| :: Free(v, first, size)[k] <= 31)
    && (forall j | 0 <= j < |others| :: |others[j].bits| <= 33)
  }

  /** Such a frame can always be followed. */
  lemma ShortFollows(v: seq<Visit>, first: seq<Code>, others: seq<Code>, size: nat)
    requires 0 < |first| <= |v| && forall k | 0 <= k < |first| :: |first[k].bits| <= v[k].width
    requires Short(v, first, others, size)
    ensures LengthsFollow(v, first, others, size)
  {
    hide Whole, Widths;
    var lens := Lengths(BitsOf(others));
    assert Free(v, first, size)[|first| - 1] <= 31;
    ShortFits(Whole(|first|, |others|), lens, lens, Free(v, first, size));
  }

  lemma {:induction false} FittingOnce(v: seq<Visit>, size: nat, s: nat, t: nat)
    requires Fitting(v, size, s) && Fitting(v, size, t)
    ensures s == t
  {
    if s < t { WidthsGrow(v, s + 1, t); }
    if t < s { WidthsGrow(v, t + 1, s); }
  }

  /**
    Round trip of a whole frame: whatever codewords are written as the
    standard reorders them, `reordered_spectral_data` returns the values of
    all of them, exactly when their lengths are such that its arithmetic can
    follow. Short frames always are.
   */
  method DecodeEncoded(v: seq<Visit>, size: nat, longest: nat, r: Reader, ghost data: seq<Byte>,
                       ghost first: seq<Code>, ghost others: seq<Code>)
    returns (o: Outcome, values: seq<seq<int>>)
    requires r.Reads(data) && !r.error && r.Pos() >= 0 && WidthsOk(v, longest) && 0 < longest <= size
    requires forall k | 0 <= k < |v| :: WellFormed(v[k].book)
    requires Encoded(data, r.Pos(), v, first, others, size)
    modifies r
    ensures 0 < |first| <= |v| && forall k | 0 <= k < |first| :: |first[k].bits| <= v[k].width
    ensures o == Good <==> LengthsFollow(v, first, others, size)
    ensures Short(v, first, others, size) ==> o == Good
    ensures o == Good ==>
              && |values| == |v|
              && (forall k | 0 <= k < |first| :: values[k] == first[k].values)
              && (forall j: nat | j < |others| :: values[|first| + j] == others[j].values)
  {
    hide Reader.Reads, Encoded, Followed, LengthsFollow, Short, ValuesAre, WellFormed, Fitting;
    ghost var p := r.Pos();
    FirstFits(data, p, v, first, others, size);
    ghost var segments;
    o, values, segments := ReorderedSpectralData(v, size, longest, r, data);
    FittingOnce(v, size, segments, |first|);
    FollowedIff(data, p, v, first, others, size);
    if Short(v, first, others, size) { ShortFollows(v, first, others, size); }
    if o == Good {
      SameCount(data, p, v, size, segments, values);
      ValuesRead(data, p, v, first, others, size, values);
    }
  }

  lemma FirstFits(data: seq<Byte>, p: nat, v: seq<Visit>, first: seq<Code>, others: seq<Code>, size: nat)
    requires Encoded(data, p, v, first, others, size)
    ensures 0 < |first| <= |v| && Fitting(v, size, |first|)
    ensures forall k | 0 <= k < |first| :: |first[k].bits| <= v[k].width
  {}

  lemma SameCount(data: seq<Byte>, p: nat, v: seq<Visit>, size: nat, segments: nat, values: seq<seq<int>>)
    requires 0 < segments <= |v| && ValuesAre(data, p, v, size, segments, values)
    ensures |values| == |v|
  {}
}
