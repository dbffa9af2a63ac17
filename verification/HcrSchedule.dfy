/**
  Step 2 of huffman codeword reordering (libfaad/hcr.c:354-393) on plain bit
  strings: who is offered what, what an offer does, and what a whole run keeps.
 */
module HcrSchedule {
  import opened Arithmetic
  import opened HcrBits
  import opened HcrDecode

  /** A codeword that is not a priority codeword: the bits collected for it, and its values once decoded. */
  datatype Cw = Cw(book: Book, decoded: bool, held: seq<bool>, values: seq<int>)

  datatype State = State(segs: seq<seq<bool>>, cws: seq<Cw>)

  /** Offering segment `s` to codeword `c`, or turning all segments round for the next set. */
  datatype Event = Give(s: nat, c: nat) | Turn

  /* ---------- What an event does ---------- */

  /**
    A decoded codeword or an empty segment is left alone; otherwise the codeword takes
    what it needs, or everything.
   */
  function Offered(seg: seq<bool>, cw: Cw): (seq<bool>, Cw) {
    if cw.decoded || seg == [] then (seg, cw)
    else
      var s := cw.held + seg;
      match Decode(cw.book, s)
      case Need => ([], cw.(held := s))
      case Got(n, values) => (if n <= |s| then s[n..] else [], cw.(decoded := true, values := values))
  }

  function Turned(segs: seq<seq<bool>>): (r: seq<seq<bool>>)
    ensures |r| == |segs|
  {
    seq(|segs|, i requires 0 <= i < |segs| => Reverse(segs[i]))
  }

  function Step(st: State, e: Event): (r: State)
    ensures |r.segs| == |st.segs| && |r.cws| == |st.cws|
  {
    match e
    case Turn => State(Turned(st.segs), st.cws)
    case Give(s, c) =>
      if s >= |st.segs| || c >= |st.cws| then st
      else
        var o := Offered(st.segs[s], st.cws[c]);
        State(st.segs[s := o.0], st.cws[c := o.1])
  }

  function Run(st: State, es: seq<Event>): (r: State)
    ensures |r.segs| == |st.segs| && |r.cws| == |st.cws|
  {
    if es == [] then st else Step(Run(st, es[..|es| - 1]), es[|es| - 1])
  }

  lemma RunNext(st: State, es: seq<Event>, e: Event)
    ensures Run(st, es + [e]) == Step(Run(st, es), e)
  {
    assert (es + [e])[..|es|] == es;
  }

  /* ---------- The order of events ---------- */

  /** The first `b` turns of the innermost loop; it stops at the last stored codeword. */
  function TrialPart(n: nat, count: nat, set0: nat, trial: nat, b: nat): seq<Event>
    requires n > 0
  {
    if b == 0 then []
    else TrialPart(n, count, set0, trial, b - 1)
           + if set0 * n + b - 1 < count then [Give((trial + b - 1) % n, set0 * n + b - 1)] else []
  }

  /** The first `trial` trials of a set. */
  function SetPart(n: nat, count: nat, set0: nat, trial: nat): seq<Event>
    requires n > 0
  {
    if trial == 0 then [] else SetPart(n, count, set0, trial - 1) + TrialPart(n, count, set0, trial - 1, n)
  }

  /** The first `sets` sets, each followed by the turning of all segments. */
  function Schedule(n: nat, count: nat, sets: nat): seq<Event>
    requires n > 0
  {
    if sets == 0 then [] else Schedule(n, count, sets - 1) + SetPart(n, count, sets - 1, n) + [Turn]
  }

  /** Everything up to turn `b` of trial `trial` of set `set0`. */
  function Until(n: nat, count: nat, set0: nat, trial: nat, b: nat): seq<Event>
    requires n > 0
  {
    Schedule(n, count, set0) + SetPart(n, count, set0, trial) + TrialPart(n, count, set0, trial, b)
  }

  /** As many sets as `reordered_spectral_data` goes through. */
  function Sets(n: nat, count: nat): nat
    requires n > 0
  {
    (count + n) / n
  }

  function Whole(n: nat, count: nat): seq<Event>
    requires n > 0
  {
    Schedule(n, count, Sets(n, count))
  }

  predicate StartsWith(a: seq<Event>, b: seq<Event>) { |a| <= |b| && b[..|a|] == a }

  lemma PrefixOf(a: seq<Event>, b: seq<Event>)
    ensures StartsWith(a, a + b)
  {}

  lemma PrefixTrans(a: seq<Event>, b: seq<Event>, c: seq<Event>)
    requires StartsWith(a, b) && StartsWith(b, c)
    ensures StartsWith(a, c)
  {
    assert c[..|a|] == c[..|b|][..|a|];
  }

  lemma PrefixAfter(a: seq<Event>, b: seq<Event>, c: seq<Event>)
    requires StartsWith(b, c)
    ensures StartsWith(a + b, a + c)
  {}

  lemma {:induction false} TrialGrows(n: nat, count: nat, set0: nat, trial: nat, b: nat, d: nat)
    requires n > 0 && b <= d
    ensures StartsWith(TrialPart(n, count, set0, trial, b), TrialPart(n, count, set0, trial, d))
  {
    if b < d {
      TrialGrows(n, count, set0, trial, b, d - 1);
      PrefixTrans(TrialPart(n, count, set0, trial, b), TrialPart(n, count, set0, trial, d - 1),
                  TrialPart(n, count, set0, trial, d));
    }
  }

  lemma {:induction false} SetGrows(n: nat, count: nat, set0: nat, t: nat, u: nat)
    requires n > 0 && t <= u
    ensures StartsWith(SetPart(n, count, set0, t), SetPart(n, count, set0, u))
  {
    if t < u {
      SetGrows(n, count, set0, t, u - 1);
      PrefixTrans(SetPart(n, count, set0, t), SetPart(n, count, set0, u - 1), SetPart(n, count, set0, u));
    }
  }

  lemma {:induction false} ScheduleGrows(n: nat, count: nat, s: nat, t: nat)
    requires n > 0 && s <= t
    ensures StartsWith(Schedule(n, count, s), Schedule(n, count, t))
  {
    if s < t {
      ScheduleGrows(n, count, s, t - 1);
      PrefixTrans(Schedule(n, count, s), Schedule(n, count, t - 1), Schedule(n, count, t));
    }
  }

  lemma UntilWithin(n: nat, count: nat, set0: nat, trial: nat, b: nat, sets: nat)
    requires n > 0 && set0 < sets && trial < n && b <= n
    ensures StartsWith(Until(n, count, set0, trial, b), Schedule(n, count, sets))
  {
    hide Schedule, StartsWith;
    var before, set1 := Schedule(n, count, set0), SetPart(n, count, set0, n);
    var trials, part := SetPart(n, count, set0, trial), TrialPart(n, count, set0, trial, b);
    TrialGrows(n, count, set0, trial, b, n);
    PrefixAfter(trials, part, TrialPart(n, count, set0, trial, n));
    SetGrows(n, count, set0, trial + 1, n);
    PrefixTrans(trials + part, SetPart(n, count, set0, trial + 1), set1);
    PrefixAfter(before, trials + part, set1);
    PrefixOf(before + set1, [Turn]);
    OneSet(n, count, set0);
    PrefixTrans(before + (trials + part), before + set1, Schedule(n, count, set0 + 1));
    ScheduleGrows(n, count, set0 + 1, sets);
    PrefixTrans(before + (trials + part), Schedule(n, count, set0 + 1), Schedule(n, count, sets));
    assert before + (trials + part) == Until(n, count, set0, trial, b);
  }

  lemma OneSet(n: nat, count: nat, set0: nat)
    requires n > 0
    ensures Schedule(n, count, set0 + 1) == Schedule(n, count, set0) + SetPart(n, count, set0, n) + [Turn]
  {}

  lemma UntilGives(n: nat, count: nat, set0: nat, trial: nat, b: nat)
    requires n > 0 && set0 * n + b < count
    ensures Until(n, count, set0, trial, b + 1)
         == Until(n, count, set0, trial, b) + [Give((trial + b) % n, set0 * n + b)]
  {}

  /** The innermost loop may stop early. */
  lemma {:induction false} TrialRest(n: nat, count: nat, set0: nat, trial: nat, b: nat, d: nat)
    requires n > 0 && b <= d && set0 * n + b >= count
    ensures TrialPart(n, count, set0, trial, b) == TrialPart(n, count, set0, trial, d)
  {
    if b < d { TrialRest(n, count, set0, trial, b, d - 1); }
  }

  lemma UntilTrialEnds(n: nat, count: nat, set0: nat, trial: nat, b: nat)
    requires n > 0 && b <= n && (b == n || set0 * n + b >= count)
    ensures Until(n, count, set0, trial, b) == Until(n, count, set0, trial + 1, 0)
  {
    if b < n { TrialRest(n, count, set0, trial, b, n); }
    assert TrialPart(n, count, set0, trial + 1, 0) == [];
  }

  lemma UntilSetEnds(n: nat, count: nat, set0: nat)
    requires n > 0
    ensures Until(n, count, set0 + 1, 0, 0) == Until(n, count, set0, n, 0) + [Turn]
    ensures Until(n, count, set0, 0, 0) == Schedule(n, count, set0)
  {
    hide Schedule;
    OneSet(n, count, set0);
  }

  /* ---------- Each codeword meets each segment once ---------- */

  /** The pairs (codeword, segment) of the offers. */
  function Offers(es: seq<Event>): seq<(nat, nat)> {
    if es == [] then []
    else Offers(es[..|es| - 1]) + match es[|es| - 1] case Turn => [] case Give(s, c) => [(c, s)]
  }

  lemma OffersNext(es: seq<Event>, e: Event)
    ensures Offers(es + [e]) == match e case Turn => Offers(es) case Give(s, c) => Offers(es) + [(c, s)]
  {
    assert (es + [e])[..|es|] == es;
  }

  /** The segment offered to the codeword at offset `b` of its set in trial `trial`. */
  function SegmentFor(trial: nat, b: nat, n: nat): nat requires n > 0 { (trial + b) % n }

  /** The trial in which codeword `j` meets segment `s`. */
  function TrialFor(j: nat, s: nat, n: nat): nat requires n > 0 && s < n { (s + n - j % n) % n }

  lemma AddModulo(a: nat, b: nat, n: nat)
    requires a < n && b < n
    ensures (a + b) % n == if a + b < n then a + b else a + b - n
  {
    if a + b < n { DivMod(a + b, n, 0); } else { DivMod(a + b - n, n, 1); }
  }

  /** In one trial different codewords meet different segments. */
  lemma PairsDistinct(trial: nat, b: nat, b': nat, n: nat)
    requires trial < n && b < n && b' < n && SegmentFor(trial, b, n) == SegmentFor(trial, b', n)
    ensures b == b'
  {
    AddModulo(trial, b, n);
    AddModulo(trial, b', n);
  }

  /** Codeword and segment meet in exactly one trial. */
  lemma MeetOnce(trial: nat, b: nat, s: nat, n: nat)
    requires trial < n && b < n && s < n
    ensures SegmentFor(trial, b, n) == s <==> trial == TrialFor(b, s, n)
    ensures TrialFor(b, s, n) < n
  {
    DivMod(b, n, 0);
    AddModulo(trial, b, n);
    if s >= b { DivMod(s - b, n, 1); } else { DivMod(s + n - b, n, 0); }
  }

  /** An offer to codeword `j` of segment `s` that comes before the given point of the loops. */
  predicate Before(j: nat, s: nat, n: nat, set0: nat, trial: nat, b: nat)
    requires n > 0 && s < n
  {
    var t := TrialFor(j, s, n);
    j / n < set0 || (j / n == set0 && (t < trial || (t == trial && j % n < b)))
  }

  /** The offers made so far: each pair once, and exactly those before the given point. */
  ghost predicate OffersAre(offers: seq<(nat, nat)>, n: nat, count: nat, set0: nat, trial: nat, b: nat)
    requires n > 0
  {
    && (forall o | o in offers :: o.0 < count && o.1 < n)
    && (forall j: nat, s: nat | j < count && s < n :: (j, s) in offers <==> Before(j, s, n, set0, trial, b))
    && (forall i, k | 0 <= i < k < |offers| :: offers[i] != offers[k])
  }

  lemma OffersStart(n: nat, count: nat)
    requires n > 0
    ensures OffersAre([], n, count, 0, 0, 0)
  {
    forall j: nat, s: nat | j < count && s < n
      ensures !Before(j, s, n, 0, 0, 0)
    {
      assert TrialFor(j, s, n) >= 0 && j / n >= 0 && j % n >= 0;
    }
  }

  lemma OfferStep(offers: seq<(nat, nat)>, n: nat, count: nat, set0: nat, trial: nat, b: nat, j: nat)
    requires n > 0 && b < n && trial < n && j == set0 * n + b < count && OffersAre(offers, n, count, set0, trial, b)
    ensures SegmentFor(trial, b, n) < n
    ensures OffersAre(offers + [(j, SegmentFor(trial, b, n))], n, count, set0, trial, b + 1)
  {
    hide TrialFor, SegmentFor;
    var s := SegmentFor(trial, b, n);
    SegmentInRange(trial, b, n);
    DivMod(b, n, set0);
    MeetAt(j, set0, b, trial, s, n);
    var more := offers + [(j, s)];
    assert !Before(j, s, n, set0, trial, b);
    assert (j, s) !in offers;
    forall j': nat, s': nat | j' < count && s' < n
      ensures (j', s') in more <==> Before(j', s', n, set0, trial, b + 1)
    {
      assert (j', s') in more <==> (j', s') in offers || (j' == j && s' == s);
      if j' / n == set0 && j' % n == b {
        assert j' == set0 * n + b;
        MeetAt(j, set0, b, trial, s', n);
      }
    }
  }

  lemma SegmentInRange(trial: nat, b: nat, n: nat)
    requires n > 0
    ensures SegmentFor(trial, b, n) < n
  {}

  lemma MeetAt(j: nat, set0: nat, b: nat, trial: nat, s: nat, n: nat)
    requires n > 0 && b < n && trial < n && s < n && j == set0 * n + b
    ensures SegmentFor(trial, b, n) == s <==> trial == TrialFor(j, s, n)
  {
    DivMod(b, n, set0);
    DivMod(b, n, 0);
    MeetOnce(trial, b, s, n);
  }

  lemma TrialBound(j: nat, s: nat, n: nat)
    requires n > 0 && s < n
    ensures TrialFor(j, s, n) < n && j % n < n
  {}

  /** A trial ends when its codewords or the stored codewords are used up. */
  lemma TrialEnds(offers: seq<(nat, nat)>, n: nat, count: nat, set0: nat, trial: nat, b: nat)
    requires n > 0 && b <= n && OffersAre(offers, n, count, set0, trial, b) && (b == n || set0 * n + b >= count)
    ensures OffersAre(offers, n, count, set0, trial + 1, 0)
  {
    hide TrialFor;
    forall j: nat, s: nat | j < count && s < n
      ensures Before(j, s, n, set0, trial, b) <==> Before(j, s, n, set0, trial + 1, 0)
    {
      TrialBound(j, s, n);
      assert j == j / n * n + j % n;
      assert j / n == set0 && j % n >= b ==> j >= set0 * n + b;
    }
  }

  lemma SetEnds(offers: seq<(nat, nat)>, n: nat, count: nat, set0: nat)
    requires n > 0 && OffersAre(offers, n, count, set0, n, 0)
    ensures OffersAre(offers, n, count, set0 + 1, 0, 0)
  {
    hide TrialFor;
    forall j: nat, s: nat | j < count && s < n
      ensures Before(j, s, n, set0, n, 0) <==> Before(j, s, n, set0 + 1, 0, 0)
    {
      TrialBound(j, s, n);
    }
  }

  /** Every stored codeword is offered every segment exactly once, and nothing else is offered. */
  ghost predicate EachOnce(offers: seq<(nat, nat)>, n: nat, count: nat) {
    && (forall o | o in offers :: o.0 < count && o.1 < n)
    && (forall j: nat, s: nat | j < count && s < n :: (j, s) in offers)
    && (forall i, k | 0 <= i < k < |offers| :: offers[i] != offers[k])
  }

  lemma OffersEnd(offers: seq<(nat, nat)>, n: nat, count: nat)
    requires n > 0 && OffersAre(offers, n, count, (count + n) / n, 0, 0)
    ensures EachOnce(offers, n, count)
  {
    hide TrialFor;
    forall j: nat, s: nat | j < count && s < n
      ensures (j, s) in offers
    {
      QuotientLess(j, count, n);
    }
  }

  lemma QuotientLess(j: nat, count: nat, n: nat)
    requires n > 0 && j < count
    ensures j / n < (count + n) / n
  {
    var q, p := (count + n) / n, j / n;
    assert count + n == q * n + (count + n) % n;
    assert j == p * n + j % n;
    if p >= q { MulLe(q, p, n); }
  }

  lemma OfferSkip(offers: seq<(nat, nat)>, n: nat, count: nat, set0: nat, trial: nat, b: nat)
    requires n > 0 && set0 * n + b >= count && OffersAre(offers, n, count, set0, trial, b)
    ensures OffersAre(offers, n, count, set0, trial, b + 1)
  {
    hide TrialFor;
    forall j: nat, s: nat | j < count && s < n
      ensures Before(j, s, n, set0, trial, b) <==> Before(j, s, n, set0, trial, b + 1)
    {
      assert j == j / n * n + j % n;
      assert j / n == set0 && j % n == b ==> j == set0 * n + b;
    }
  }

  /** At every point of the loops the offers made are exactly those that come before it. */
  lemma {:induction false} OffersUntil(n: nat, count: nat, set0: nat, trial: nat, b: nat)
    requires n > 0 && ((trial < n && b <= n) || (trial == n && b == 0))
    ensures OffersAre(Offers(Until(n, count, set0, trial, b)), n, count, set0, trial, b)
    decreases set0, trial, b
  {
    hide OffersAre, Until, Offers;
    if b > 0 {
      OffersUntil(n, count, set0, trial, b - 1);
      var es := Until(n, count, set0, trial, b - 1);
      if set0 * n + (b - 1) < count {
        UntilGives(n, count, set0, trial, b - 1);
        OffersNext(es, Give((trial + (b - 1)) % n, set0 * n + (b - 1)));
        OfferStep(Offers(es), n, count, set0, trial, b - 1, set0 * n + (b - 1));
      } else {
        SameUntil(n, count, set0, trial, b - 1);
        OfferSkip(Offers(es), n, count, set0, trial, b - 1);
      }
    } else if trial > 0 {
      OffersUntil(n, count, set0, trial - 1, n);
      UntilTrialEnds(n, count, set0, trial - 1, n);
      TrialEnds(Offers(Until(n, count, set0, trial - 1, n)), n, count, set0, trial - 1, n);
    } else if set0 > 0 {
      OffersUntil(n, count, set0 - 1, n, 0);
      UntilSetEnds(n, count, set0 - 1);
      OffersNext(Until(n, count, set0 - 1, n, 0), Turn);
      SetEnds(Offers(Until(n, count, set0 - 1, n, 0)), n, count, set0 - 1);
    } else {
      NothingUntil(n, count);
      OffersStart(n, count);
    }
  }

  lemma SameUntil(n: nat, count: nat, set0: nat, trial: nat, b: nat)
    requires n > 0 && set0 * n + b >= count
    ensures Until(n, count, set0, trial, b + 1) == Until(n, count, set0, trial, b)
  {
    TrialRest(n, count, set0, trial, b, b + 1);
  }

  lemma NothingUntil(n: nat, count: nat)
    requires n > 0
    ensures Until(n, count, 0, 0, 0) == [] && Offers([]) == []
  {}

  /** Over the whole run every stored codeword is offered every segment exactly once, and nothing else is offered. */
  lemma WholeEachOnce(n: nat, count: nat)
    requires n > 0
    ensures EachOnce(Offers(Whole(n, count)), n, count)
  {
    hide OffersAre, Until, Offers, EachOnce;
    OffersUntil(n, count, Sets(n, count), 0, 0);
    UntilSetEnds(n, count, Sets(n, count));
    OffersEnd(Offers(Whole(n, count)), n, count);
  }

  /* ---------- Conservation ---------- */

  function Length(segs: seq<seq<bool>>): nat {
    if segs == [] then 0 else Length(segs[..|segs| - 1]) + |segs[|segs| - 1]|
  }

  function Pending(cw: Cw): nat { if cw.decoded then 0 else |cw.held| }

  /** Bits collected for codewords that are not yet decoded. */
  function PendingAll(cws: seq<Cw>): nat {
    if cws == [] then 0 else PendingAll(cws[..|cws| - 1]) + Pending(cws[|cws| - 1])
  }

  /** How many bits an event takes out of circulation: those of the codeword it completes. */
  function Taken(st: State, e: Event): nat {
    match e
    case Turn => 0
    case Give(s, c) =>
      if s >= |st.segs| || c >= |st.cws| || st.cws[c].decoded || st.segs[s] == [] then 0
      else match Decode(st.cws[c].book, st.cws[c].held + st.segs[s]) case Need => 0 case Got(n, _) => n
  }

  function TakenAll(st: State, es: seq<Event>): nat {
    if es == [] then 0 else TakenAll(st, es[..|es| - 1]) + Taken(Run(st, es[..|es| - 1]), es[|es| - 1])
  }

  lemma {:induction false} LengthUpdate(segs: seq<seq<bool>>, i: nat, b: seq<bool>)
    requires i < |segs|
    ensures Length(segs[i := b]) == Length(segs) - |segs[i]| + |b|
  {
    var n := |segs| - 1;
    if i < n {
      LengthUpdate(segs[..n], i, b);
      assert segs[i := b][..n] == segs[..n][i := b];
    } else {
      assert segs[i := b][..n] == segs[..n];
    }
  }

  lemma {:induction false} PendingUpdate(cws: seq<Cw>, i: nat, c: Cw)
    requires i < |cws|
    ensures PendingAll(cws[i := c]) == PendingAll(cws) - Pending(cws[i]) + Pending(c)
  {
    var n := |cws| - 1;
    if i < n {
      PendingUpdate(cws[..n], i, c);
      assert cws[i := c][..n] == cws[..n][i := c];
    } else {
      assert cws[i := c][..n] == cws[..n];
    }
  }

  lemma {:induction false} LengthTurned(segs: seq<seq<bool>>)
    ensures Length(Turned(segs)) == Length(segs)
  {
    if segs != [] {
      LengthTurned(segs[..|segs| - 1]);
      assert Turned(segs)[..|segs| - 1] == Turned(segs[..|segs| - 1]);
    }
  }

  ghost predicate GoodBooks(cws: seq<Cw>) { forall i | 0 <= i < |cws| :: WellFormed(cws[i].book) }

  /** Bits leave only as part of a completed codeword, one bit at least. */
  lemma StepConserves(st: State, e: Event)
    requires GoodBooks(st.cws)
    ensures var r := Step(st, e);
            Length(r.segs) + PendingAll(r.cws) + Taken(st, e) == Length(st.segs) + PendingAll(st.cws)
                && GoodBooks(r.cws)
  {
    hide Decode, WellFormed;
    match e {
      case Turn => LengthTurned(st.segs);
      case Give(s, c) =>
        if s < |st.segs| && c < |st.cws| {
          DecodeTakes(st.cws[c].book, st.cws[c].held + st.segs[s]);
          var o := Offered(st.segs[s], st.cws[c]);
          LengthUpdate(st.segs, s, o.0);
          PendingUpdate(st.cws, c, o.1);
        }
    }
  }

  lemma {:induction false} RunConserves(st: State, es: seq<Event>)
    requires GoodBooks(st.cws)
    ensures var r := Run(st, es);
            Length(r.segs) + PendingAll(r.cws) + TakenAll(st, es) == Length(st.segs) + PendingAll(st.cws)
                && GoodBooks(r.cws)
  {
    hide GoodBooks, Step, Taken;
    if es != [] {
      var n := |es| - 1;
      RunConserves(st, es[..n]);
      StepConserves(Run(st, es[..n]), es[n]);
    }
  }

  /* ---------- What 64-bit arithmetic can follow ---------- */

  /** What C leaves undefined or loses: shifting by 32, or more than 63 bits together. */
  predicate Fits(seg: seq<bool>, cw: Cw) {
    cw.decoded || seg == [] || (|seg| <= 63 && (cw.held != [] ==> |seg| != 32 && |cw.held| + |seg| <= 63))
  }

  predicate EventFits(st: State, e: Event) {
    match e case Turn => true case Give(s, c) => s < |st.segs| && c < |st.cws| ==> Fits(st.segs[s], st.cws[c])
  }

  /** Every offer of the run fits. */
  ghost predicate AllFit(st: State, es: seq<Event>) { forall k | 0 <= k < |es| :: EventFits(Run(st, es[..k]), es[k]) }

  lemma FitNext(st: State, es: seq<Event>, e: Event)
    requires AllFit(st, es) && EventFits(Run(st, es), e)
    ensures AllFit(st, es + [e])
  {
    var more := es + [e];
    forall k | 0 <= k < |more|
      ensures EventFits(Run(st, more[..k]), more[k])
    {
      if k < |es| {
        assert more[..k] == es[..k];
      } else {
        assert more[..k] == es;
      }
    }
  }

  lemma FitFails(st: State, es: seq<Event>, e: Event, all: seq<Event>)
    requires StartsWith(es + [e], all) && !EventFits(Run(st, es), e)
    ensures !AllFit(st, all)
  {
    assert all[|es|] == (es + [e])[|es|] == e;
    assert all[..|es|] == all[..|es| + 1][..|es|] == es;
  }
}
