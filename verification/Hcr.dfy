/**
  Step 2 of huffman codeword reordering (libfaad/hcr.c:354-393) on segments
  and codewords in place.
 */
module Hcr {
  import opened BitWords
  import opened HcrBits
  import opened HcrDecode
  import opened HcrMerge
  import opened HcrSchedule

  /** `codeword_t`, with the decoded values in place of the spectral cells they go to. */
  datatype Codeword = Codeword(book: Book, decoded: bool, bits: Bits64, values: seq<int>)

  /** The bits held, as a bit string. */
  function Held(b: Bits64): seq<bool> { if b.len <= 64 then Content(b) else [] }

  function CwOf(c: Codeword): Cw { Cw(c.book, c.decoded, Held(c.bits), c.values) }

  /** The arrays as plain bit strings. */
  function StateOf(segment: seq<Bits64>, codeword: seq<Codeword>): (st: State)
    ensures |st.segs| == |segment| && |st.cws| == |codeword|
  {
    State(seq(|segment|, i requires 0 <= i < |segment| => Held(segment[i])),
          seq(|codeword|, i requires 0 <= i < |codeword| => CwOf(codeword[i])))
  }

  ghost predicate Sane(segment: seq<Bits64>, codeword: seq<Codeword>) {
    && (forall i | 0 <= i < |segment| :: segment[i].len <= 63)
    && (forall i | 0 <= i < |codeword| :: codeword[i].bits.len <= 63 && WellFormed(codeword[i].book))
  }

  /* ---------- One offer ---------- */

  /** The arithmetic of the code can follow the offer. */
  predicate CanFollow(seg: Bits64, c: Codeword) {
    c.decoded || seg.len == 0 || (c.bits.len != 0 ==> seg.len != 32 && seg.len + c.bits.len <= 63)
  }

  lemma CanFollowIs(seg: Bits64, c: Codeword)
    requires seg.len <= 63 && c.bits.len <= 63
    ensures CanFollow(seg, c) <==> Fits(Held(seg), CwOf(c))
  {
    hide Content;
    assert |Held(seg)| == seg.len && |Held(c.bits)| == c.bits.len;
  }

  /** The body of the innermost loop of step 2. */
  method Offer(segment: array<Bits64>, codeword: array<Codeword>, si: nat, ci: nat)
    requires si < segment.Length && ci < codeword.Length && WellFormed(codeword[ci].book)
    requires segment[si].len <= 63 && codeword[ci].bits.len <= 63 && CanFollow(segment[si], codeword[ci])
    modifies segment, codeword
    ensures (Held(segment[si]), CwOf(codeword[ci])) == Offered(Held(old(segment[si])), CwOf(old(codeword[ci])))
    ensures segment[si].len <= 63 && codeword[ci].bits.len <= 63 && codeword[ci].book == old(codeword[ci].book)
    ensures segment[..] == old(segment[..])[si := segment[si]] && codeword[..] == old(codeword[..])[ci := codeword[ci]]
  {
    hide Decode, Content, ConcatBits, WellFormed;
    var c := codeword[ci];
    NothingHeld(segment[si]);
    if !c.decoded && segment[si].len > 0 {
      var seg := segment[si];
      var b := seg;
      if c.bits.len != 0 {
        ConcatIsConcat(seg, c.bits);
        b := ConcatBits(seg, c.bits);
      } else {
        NothingHeld(c.bits);
        assert [] + Content(seg) == Content(seg);
      }
      var tmplen := b.len;
      var ret, left, values := SpectralData2(c.book, b);
      NothingHeld(left);
      if ret >= 0 {
        codeword[ci] := c.(decoded := true, values := values);
      } else {
        codeword[ci] := c.(bits := left.(len := tmplen));
        assert left.(len := tmplen) == b;
      }
      segment[si] := left;
    }
  }

  lemma NothingHeld(b: Bits64)
    requires b.len <= 64
    ensures Held(b) == Content(b) && (b.len == 0 <==> Content(b) == [])
  {}

  lemma GiveIs(segs: seq<Bits64>, cws: seq<Codeword>, s: nat, c: nat, seg: Bits64, cw: Codeword)
    requires s < |segs| && c < |cws| && (Held(seg), CwOf(cw)) == Offered(Held(segs[s]), CwOf(cws[c]))
    ensures StateOf(segs[s := seg], cws[c := cw]) == Step(StateOf(segs, cws), Give(s, c))
  {
    hide Held, Offered;
    var a, b := StateOf(segs[s := seg], cws[c := cw]), Step(StateOf(segs, cws), Give(s, c));
    assert a.segs == b.segs && a.cws == b.cws;
  }

  lemma TurnIs(segs: seq<Bits64>, turned: seq<Bits64>, cws: seq<Codeword>)
    requires |segs| == |turned| && Sane(segs, cws)
    requires forall i | 0 <= i < |segs| ::
              turned[i].len == segs[i].len && Content(turned[i]) == Reverse(Content(segs[i]))
    ensures StateOf(turned, cws) == Step(StateOf(segs, cws), Turn) && Sane(turned, cws)
  {
    hide Content, Reverse, WellFormed;
    var a, b := StateOf(turned, cws), Step(StateOf(segs, cws), Turn);
    assert a.segs == b.segs && a.cws == b.cws;
  }

  /** Reversing every segment for the next set. */
  method ReverseAll(segment: array<Bits64>)
    requires forall i | 0 <= i < segment.Length :: segment[i].len <= 63
    modifies segment
    ensures forall i | 0 <= i < segment.Length ::
              segment[i].len == old(segment[i].len) && Content(segment[i]) == Reverse(Content(old(segment[i])))
  {
    hide Content, RewrevBits, Reverse;
    var i := 0;
    while i < segment.Length
      invariant 0 <= i <= segment.Length
      invariant forall k | i <= k < segment.Length :: segment[k] == old(segment[k])
      invariant forall k | 0 <= k < i ::
                  segment[k].len == old(segment[k].len) && Content(segment[k]) == Reverse(Content(old(segment[k])))
    {
      RewrevReverses(segment[i]);
      RewrevLength(segment[i]);
      segment[i] := RewrevBits(segment[i]);
      i := i + 1;
    }
  }

  lemma RewrevLength(b: Bits64)
    requires b.len <= 63
    ensures RewrevBits(b).len == b.len
  {}

  /* ---------- The loops ---------- */

  /**
    The arrays are what the run on plain bit strings makes of `start`, in
    which every offer so far could be followed.
   */
  ghost predicate Follows(segment: seq<Bits64>, codeword: seq<Codeword>, start: State, es: seq<Event>) {
    Sane(segment, codeword) && StateOf(segment, codeword) == Run(start, es) && AllFit(start, es)
  }

  lemma FollowStarts(segment: seq<Bits64>, codeword: seq<Codeword>)
    requires Sane(segment, codeword)
    ensures Follows(segment, codeword, StateOf(segment, codeword), [])
  {}

  /** One offer within the run. */
  method OfferNext(segment: array<Bits64>, codeword: array<Codeword>, si: nat, ci: nat, ghost start: State,
                   ghost es: seq<Event>) returns (ok: bool)
    requires si < segment.Length && ci < codeword.Length && Follows(segment[..], codeword[..], start, es)
    modifies segment, codeword
    ensures ok ==> Follows(segment[..], codeword[..], start, es + [Give(si, ci)])
    ensures !ok ==> !EventFits(Run(start, es), Give(si, ci))
  {
    hide StateOf, Held, AllFit, Run, Step, Offered, WellFormed, Content;
    ghost var was, cws := segment[..], codeword[..];
    ok := CanFollow(segment[si], codeword[ci]);
    EventIs(was, cws, si, ci);
    if !ok { return; }
    Offer(segment, codeword, si, ci);
    GiveIs(was, cws, si, ci, segment[si], codeword[ci]);
    RunNext(start, es, Give(si, ci));
    FitNext(start, es, Give(si, ci));
  }

  lemma EventIs(segs: seq<Bits64>, cws: seq<Codeword>, s: nat, c: nat)
    requires s < |segs| && c < |cws| && Sane(segs, cws)
    ensures CanFollow(segs[s], cws[c]) <==> EventFits(StateOf(segs, cws), Give(s, c))
  {
    hide Held, CanFollow;
    CanFollowIs(segs[s], cws[c]);
  }

  /** The innermost loop, which stops early at the last stored codeword. */
  method Trial(segment: array<Bits64>, codeword: array<Codeword>, set1: nat, trial: nat, ghost start: State)
    returns (ok: bool)
    requires set1 >= 1 && trial < segment.Length && set1 <= Sets(segment.Length, codeword.Length)
    requires Follows(segment[..], codeword[..], start, Until(segment.Length, codeword.Length, set1 - 1, trial, 0))
    modifies segment, codeword
    ensures ok ==> Follows(segment[..], codeword[..], start,
        Until(segment.Length, codeword.Length, set1 - 1, trial + 1, 0))
    ensures !ok ==> !AllFit(start, Whole(segment.Length, codeword.Length))
  {
    hide Follows, AllFit, Run, Until, Schedule, StartsWith;
    var n, count := segment.Length, codeword.Length;
    ghost var set0 := set1 - 1;
    ok := true;
    var base := 0;
    SetStart(set1, n);
    while base < n
      invariant 0 <= base <= n && ok && Follows(segment[..], codeword[..], start, Until(n, count, set0, trial, base))
    {
      var si := (trial + base) % n;
      var ci := base + set1 * n - n;
      assert ci == set0 * n + base;
      if ci >= count { break; }
      UntilGives(n, count, set0, trial, base);
      UntilWithin(n, count, set0, trial, base + 1, Sets(n, count));
      ghost var es := Until(n, count, set0, trial, base);
      ok := OfferNext(segment, codeword, si, ci, start, es);
      if !ok {
        FitFails(start, es, Give(si, ci), Whole(n, count));
        return;
      }
      base := base + 1;
    }
    UntilTrialEnds(n, count, set0, trial, base);
  }

  lemma SetStart(set1: nat, n: nat)
    requires set1 >= 1
    ensures set1 * n - n == (set1 - 1) * n >= 0
  {}

  /** All segments turn round. */
  method TurnAll(segment: array<Bits64>, codeword: array<Codeword>, ghost start: State, ghost es: seq<Event>)
    requires Follows(segment[..], codeword[..], start, es)
    modifies segment
    ensures Follows(segment[..], codeword[..], start, es + [Turn])
  {
    hide StateOf, AllFit, Run, Step, Content;
    ghost var was := segment[..];
    ReverseAll(segment);
    TurnIs(was, segment[..], codeword[..]);
    RunNext(start, es, Turn);
    FitNext(start, es, Turn);
  }

  /**
    Step 2: exactly when every offer can be followed it runs through, and the
    arrays are then what the whole schedule makes of them.
   */
  method DecodeNonPriority(segment: array<Bits64>, codeword: array<Codeword>) returns (ok: bool)
    requires segment.Length > 0 && Sane(segment[..], codeword[..])
    modifies segment, codeword
    ensures ok <==> AllFit(StateOf(old(segment[..]), old(codeword[..])), Whole(segment.Length, codeword.Length))
    ensures ok ==> Sane(segment[..], codeword[..]) && StateOf(segment[..], codeword[..])
                     == Run(StateOf(old(segment[..]), old(codeword[..])), Whole(segment.Length, codeword.Length))
  {
    hide StateOf, AllFit, Run, Until, Schedule;
    var n, count := segment.Length, codeword.Length;
    ghost var start := StateOf(segment[..], codeword[..]);
    FollowStarts(segment[..], codeword[..]);
    NothingUntil(n, count);
    var sets := (count + n) / n;
    var set1 := 1;
    while set1 <= sets
      invariant 1 <= set1 <= sets + 1 && Follows(segment[..], codeword[..], start, Until(n, count, set1 - 1, 0, 0))
    {
      var trial := 0;
      while trial < n
        invariant 0 <= trial <= n && Follows(segment[..], codeword[..], start, Until(n, count, set1 - 1, trial, 0))
      {
        ok := Trial(segment, codeword, set1, trial, start);
        if !ok { return; }
        trial := trial + 1;
      }
      TurnAll(segment, codeword, start, Until(n, count, set1 - 1, n, 0));
      UntilSetEnds(n, count, set1 - 1);
      set1 := set1 + 1;
    }
    UntilSetEnds(n, count, sets);
    ok := true;
  }
}
