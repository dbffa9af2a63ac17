/**
  How huffman codeword reordering writes codewords into segments (clause
  8.5.3.3 of ISO/IEC 14496-3), and the proof that step 2 of
  libfaad/hcr.c:354-393 reads every one of them back.
 */
module HcrWrite {
  import opened BitWords
  import opened HcrBits
  import opened HcrDecode
  import opened HcrCode
  import opened HcrSchedule

  /** A complete codeword of a prefix-free book. */
  datatype Code = Code(book: Book, bits: seq<bool>, values: seq<int>)

  /** The bits are those the writer puts down for the values. */
  ghost predicate Valid(c: Code) {
    && WellFormed(c.book) && PrefixFree(c.book.table)
    && Encodes(c.book, c.bits, c.values) && InRange(c.book, c.values)
  }

  lemma ValidRead(c: Code, t: seq<bool>)
    requires Valid(c)
    ensures Decode(c.book, c.bits + t) == Got(|c.bits|, c.values)
  {
    hide WellFormed, Encodes, InRange, Decode;
    WrittenIs(c.book, c.bits, c.values, t);
  }

  /** A codeword has at least one bit, and one that is followed by nothing is complete. */
  lemma ValidAlone(c: Code)
    requires Valid(c)
    ensures c.bits != [] && Decode(c.book, c.bits) == Got(|c.bits|, c.values)
  {
    hide WellFormed, Encodes, InRange, Decode, PrefixFree;
    ValidRead(c, []);
    assert c.bits + [] == c.bits;
    DecodeTakes(c.book, c.bits);
  }

  function Min(a: nat, b: nat): nat { if a < b then a else b }

  /**
    The free parts of the segments in the end, read in the current direction:
    at each event the codeword puts as many of its remaining bits into the
    segment as there is room for, at the side the direction starts from.
   */
  function Fill(es: seq<Event>, rem: seq<seq<bool>>, free: seq<nat>): (r: seq<seq<bool>>)
    ensures |r| == |free| && forall i | 0 <= i < |r| :: |r[i]| == free[i]
    decreases |es|
  {
    if es == [] then seq(|free|, i requires 0 <= i < |free| => Zeros(free[i]))
    else
      match es[0]
      case Turn => Turned(Fill(es[1..], rem, free))
      case Give(s, c) =>
        if s >= |free| || c >= |rem| then Fill(es[1..], rem, free)
        else
          var k := Min(|rem[c]|, free[s]);
          var rest := Fill(es[1..], rem[c := rem[c][k..]], free[s := free[s] - k]);
          rest[s := rem[c][..k] + rest[s]]
  }

  /** What is left to write, and room for it, after an event. */
  function After(e: Event, rem: seq<seq<bool>>, free: seq<nat>): (r: (seq<seq<bool>>, seq<nat>))
    ensures |r.0| == |rem| && |r.1| == |free|
  {
    match e
    case Turn => (rem, free)
    case Give(s, c) =>
      if s >= |free| || c >= |rem| then (rem, free)
      else
        var k := Min(|rem[c]|, free[s]);
        (rem[c := rem[c][k..]], free[s := free[s] - k])
  }

  function AfterAll(es: seq<Event>, rem: seq<seq<bool>>, free: seq<nat>): (r: (seq<seq<bool>>, seq<nat>))
    ensures |r.0| == |rem| && |r.1| == |free|
    decreases |es|
  {
    if es == [] then (rem, free)
    else
      var a := After(es[0], rem, free);
      AfterAll(es[1..], a.0, a.1)
  }

  /* ---------- The reader follows the writer ---------- */

  /** A codeword with `rem` of its bits still unwritten, as the reader knows it. */
  ghost predicate Knows(cw: Cw, code: Code, rem: seq<bool>) {
    && cw.book == code.book && (cw.decoded <==> rem == [])
    && (if cw.decoded then cw.values == code.values else cw.held + rem == code.bits)
  }

  ghost predicate InStep(st: State, codes: seq<Code>, es: seq<Event>, rem: seq<seq<bool>>, free: seq<nat>) {
    && |st.cws| == |codes| == |rem| && |st.segs| == |free| && st.segs == Fill(es, rem, free)
    && forall c | 0 <= c < |codes| :: Valid(codes[c]) && Knows(st.cws[c], codes[c], rem[c])
  }

  /** A proper prefix of a codeword is not a codeword. */
  lemma TooShort(code: Code, m: nat)
    requires Valid(code) && m < |code.bits|
    ensures Decode(code.book, code.bits[..m]).Need?
  {
    hide Decode, WellFormed, PrefixFree, Encodes, InRange;
    var t := code.bits[..m];
    ValidAlone(code);
    assert t + code.bits[m..] == code.bits;
    if Decode(code.book, t).Got? {
      DecodeTakes(code.book, t);
      DecodeExtends(code.book, t, code.bits[m..]);
    }
  }

  /** One offer to a codeword with `rem` unwritten, of a segment that begins with as much of it as had room. */
  lemma OfferRead(cw: Cw, code: Code, rem: seq<bool>, k: nat, rest: seq<bool>)
    requires Valid(code) && Knows(cw, code, rem) && k <= |rem| && (k < |rem| ==> rest == [])
    ensures var o := Offered(rem[..k] + rest, cw); o.0 == rest && Knows(o.1, code, rem[k..])
  {
    hide Decode, Valid;
    var seg := rem[..k] + rest;
    if cw.decoded {
      assert seg == rest;
    } else if k < |rem| {
      assert seg == rem[..k];
      assert cw.held + rem[..k] == code.bits[..|cw.held| + k];
      assert cw.held + rem[..k] + rem[k..] == code.bits;
      TooShort(code, |cw.held| + k);
    } else {
      assert cw.held + seg == code.bits + rest;
      ValidRead(code, rest);
      assert (code.bits + rest)[|code.bits|..] == rest;
    }
  }

  lemma {:induction false} TurnedTwice(segs: seq<seq<bool>>)
    ensures Turned(Turned(segs)) == segs
  {
    forall i | 0 <= i < |segs|
      ensures Turned(Turned(segs))[i] == segs[i]
    {
      ReverseTwice(segs[i]);
    }
  }

  lemma EventRead(st: State, codes: seq<Code>, es: seq<Event>, rem: seq<seq<bool>>, free: seq<nat>)
    requires es != [] && InStep(st, codes, es, rem, free)
    ensures var a := After(es[0], rem, free); InStep(Step(st, es[0]), codes, es[1..], a.0, a.1)
  {
    hide Valid, Knows, Offered, Turned;
    match es[0] {
      case Turn => TurnedTwice(Fill(es[1..], rem, free));
      case Give(s, c) =>
        if s < |free| && c < |rem| {
          var k := Min(|rem[c]|, free[s]);
          var rest := Fill(es[1..], rem[c := rem[c][k..]], free[s := free[s] - k]);
          assert st.segs[s] == rem[c][..k] + rest[s];
          OfferRead(st.cws[c], codes[c], rem[c], k, rest[s]);
          assert Step(st, es[0]).segs == rest;
        }
    }
  }

  /** Reading events from the front. */
  lemma {:induction false} RunFront(st: State, es: seq<Event>)
    requires es != []
    ensures Run(st, es) == Run(Step(st, es[0]), es[1..])
    decreases |es|
  {
    hide Step;
    var n := |es| - 1;
    if n > 0 {
      RunFront(st, es[..n]);
      assert es[..n][1..] == es[1..][..n - 1];
      assert es[1..][n - 1] == es[n];
    } else {
      assert es[..0] == [];
    }
  }

  lemma {:induction false} RunRead(st: State, codes: seq<Code>, es: seq<Event>, rem: seq<seq<bool>>, free: seq<nat>)
    requires InStep(st, codes, es, rem, free)
    ensures var a := AfterAll(es, rem, free); InStep(Run(st, es), codes, [], a.0, a.1)
    decreases |es|
  {
    hide InStep, Step, After;
    if es != [] {
      EventRead(st, codes, es, rem, free);
      RunFront(st, es);
      var a := After(es[0], rem, free);
      RunRead(Step(st, es[0]), codes, es[1..], a.0, a.1);
    }
  }

  /* ---------- The writer finishes ---------- */

  function Room(free: seq<nat>): nat { if free == [] then 0 else Room(free[..|free| - 1]) + free[|free| - 1] }

  lemma {:induction false} RoomUpdate(free: seq<nat>, i: nat, x: nat)
    requires i < |free|
    ensures Room(free[i := x]) == Room(free) - free[i] + x
  {
    var n := |free| - 1;
    if i < n {
      RoomUpdate(free[..n], i, x);
      assert free[i := x][..n] == free[..n][i := x];
    } else {
      assert free[i := x][..n] == free[..n];
    }
  }

  /** Each bit written takes a place. */
  lemma {:induction false} Balance(es: seq<Event>, rem: seq<seq<bool>>, free: seq<nat>)
    ensures var a := AfterAll(es, rem, free); Length(a.0) - Room(a.1) == Length(rem) - Room(free)
    decreases |es|
  {
    if es != [] {
      var a := After(es[0], rem, free);
      match es[0] {
        case Turn =>
        case Give(s, c) =>
          if s < |free| && c < |rem| {
            var k := Min(|rem[c]|, free[s]);
            LengthUpdate(rem, c, rem[c][k..]);
            RoomUpdate(free, s, free[s] - k);
          }
      }
      Balance(es[1..], a.0, a.1);
    }
  }

  /** Once a codeword is written or a segment is full, it stays so. */
  lemma {:induction false} StaysDone(es: seq<Event>, rem: seq<seq<bool>>, free: seq<nat>, s: nat, c: nat)
    requires s < |free| && c < |rem|
    ensures var a := AfterAll(es, rem, free); (rem[c] == [] ==> a.0[c] == []) && (free[s] == 0 ==> a.1[s] == 0)
    decreases |es|
  {
    if es != [] {
      var a := After(es[0], rem, free);
      StaysDone(es[1..], a.0, a.1, s, c);
    }
  }

  /** After an offer of segment `s` to codeword `c` one of the two is done. */
  lemma {:induction false} OneDone(es: seq<Event>, rem: seq<seq<bool>>, free: seq<nat>, s: nat, c: nat)
    requires s < |free| && c < |rem| && Give(s, c) in es
    ensures var a := AfterAll(es, rem, free); a.0[c] == [] || a.1[s] == 0
    decreases |es|
  {
    var a := After(es[0], rem, free);
    if es[0] == Give(s, c) {
      StaysDone(es[1..], a.0, a.1, s, c);
    } else {
      OneDone(es[1..], a.0, a.1, s, c);
    }
  }

  lemma {:induction false} OfferIsEvent(es: seq<Event>, s: nat, c: nat)
    requires (c, s) in Offers(es)
    ensures Give(s, c) in es
    decreases |es|
  {
    if es != [] {
      var n := |es| - 1;
      assert es == es[..n] + [es[n]];
      if (c, s) in Offers(es[..n]) { OfferIsEvent(es[..n], s, c); }
    }
  }

  lemma {:induction false} NoRoom(free: seq<nat>)
    requires forall s | 0 <= s < |free| :: free[s] == 0
    ensures Room(free) == 0
  {
    if free != [] { NoRoom(free[..|free| - 1]); }
  }

  lemma {:induction false} SomeBits(rem: seq<seq<bool>>, c: nat)
    requires c < |rem|
    ensures Length(rem) >= |rem[c]|
  {
    if c < |rem| - 1 { SomeBits(rem[..|rem| - 1], c); }
  }

  /** If there is room for all bits, the schedule writes them all. */
  lemma AllWritten(rem: seq<seq<bool>>, free: seq<nat>, c: nat)
    requires |free| > 0 && Length(rem) <= Room(free) && c < |rem|
    ensures AfterAll(Whole(|free|, |rem|), rem, free).0[c] == []
  {
    hide Whole, Offers, AfterAll, Length, Room;
    var n, es := |free|, Whole(|free|, |rem|);
    var a := AfterAll(es, rem, free);
    WholeEachOnce(n, |rem|);
    forall s | 0 <= s < n
      ensures a.0[c] == [] || a.1[s] == 0
    {
      assert (c, s) in Offers(es);
      OfferIsEvent(es, s, c);
      OneDone(es, rem, free, s, c);
    }
    if a.0[c] != [] {
      NoRoom(a.1);
      Balance(es, rem, free);
      SomeBits(a.0, c);
    }
  }

  /* ---------- Round trip ---------- */

  function BitsOf(codes: seq<Code>): (r: seq<seq<bool>>)
    ensures |r| == |codes|
  {
    seq(|codes|, c requires 0 <= c < |codes| => codes[c].bits)
  }

  /** Segments as written, and nothing decoded. */
  function Written(codes: seq<Code>, free: seq<nat>): (st: State)
    requires |free| > 0
    ensures |st.segs| == |free| && |st.cws| == |codes|
  {
    State(Fill(Whole(|free|, |codes|), BitsOf(codes), free),
          seq(|codes|, c requires 0 <= c < |codes| => Cw(codes[c].book, false, [], [])))
  }

  /** Whatever codewords are written into segments with room for them, step 2 decodes every one to its values. */
  lemma RoundTrip(codes: seq<Code>, free: seq<nat>)
    requires |free| > 0 && Length(BitsOf(codes)) <= Room(free) && forall c | 0 <= c < |codes| :: Valid(codes[c])
    ensures var st := Run(Written(codes, free), Whole(|free|, |codes|));
            forall c | 0 <= c < |codes| :: st.cws[c].decoded && st.cws[c].values == codes[c].values
  {
    hide Fill, Whole, Run, Length, Room;
    var rem, es := BitsOf(codes), Whole(|free|, |codes|);
    Begin(codes, es, free);
    RunRead(Written(codes, free), codes, es, rem, free);
    forall c | 0 <= c < |codes|
      ensures AfterAll(es, rem, free).0[c] == []
    {
      AllWritten(rem, free, c);
    }
  }

  lemma Begin(codes: seq<Code>, es: seq<Event>, free: seq<nat>)
    requires |free| > 0 && es == Whole(|free|, |codes|) && forall c | 0 <= c < |codes| :: Valid(codes[c])
    ensures InStep(Written(codes, free), codes, es, BitsOf(codes), free)
  {
    hide Fill, Whole, Decode, Valid;
    forall c | 0 <= c < |codes|
      ensures codes[c].bits != []
    {
      ValidAlone(codes[c]);
    }
  }

  /* ---------- When the arithmetic can follow, by lengths alone ---------- */

  function Lengths(rem: seq<seq<bool>>): (r: seq<nat>)
    ensures |r| == |rem|
  {
    seq(|rem|, c requires 0 <= c < |rem| => |rem[c]|)
  }

  /** One offer: `room` in the segment, `left` of the codeword's `whole` bits still to write. */
  predicate OfferFits(room: nat, left: nat, whole: nat) {
    left == 0 || room == 0 || (room <= 63 && (left < whole ==> room != 32 && whole - left + room <= 63))
  }

  /** Every offer of the run, from the lengths of the codewords and the room in the segments. */
  predicate LengthsFit(es: seq<Event>, whole: seq<nat>, left: seq<nat>, free: seq<nat>)
    requires |whole| == |left|
    decreases |es|
  {
    es == []
    || match es[0]
       case Turn => LengthsFit(es[1..], whole, left, free)
       case Give(s, c) =>
         if s >= |free| || c >= |left| then LengthsFit(es[1..], whole, left, free)
         else
           var k := Min(left[c], free[s]);
           && OfferFits(free[s], left[c], whole[c])
           && LengthsFit(es[1..], whole, left[c := left[c] - k], free[s := free[s] - k])
  }

  lemma FitFront(st: State, es: seq<Event>)
    requires es != []
    ensures AllFit(st, es) <==> EventFits(st, es[0]) && AllFit(Step(st, es[0]), es[1..])
  {
    hide Run, Step, EventFits;
    assert Run(st, es[..0]) == st by { NothingRun(st); }
    forall k | 0 <= k < |es| - 1
      ensures Run(st, es[..k + 1]) == Run(Step(st, es[0]), es[1..][..k]) && es[k + 1] == es[1..][k]
    {
      RunFront(st, es[..k + 1]);
      assert es[..k + 1][1..] == es[1..][..k];
    }
    if EventFits(st, es[0]) && AllFit(Step(st, es[0]), es[1..]) {
      forall k | 0 <= k < |es|
        ensures EventFits(Run(st, es[..k]), es[k])
      {
        if k > 0 { assert EventFits(Run(Step(st, es[0]), es[1..][..k - 1]), es[1..][k - 1]); }
      }
    }
    if AllFit(st, es) {
      assert EventFits(Run(st, es[..0]), es[0]);
      forall k | 0 <= k < |es| - 1
        ensures EventFits(Run(Step(st, es[0]), es[1..][..k]), es[1..][k])
      {
        assert EventFits(Run(st, es[..k + 1]), es[k + 1]);
      }
    }
  }

  lemma NothingRun(st: State)
    ensures Run(st, []) == st
  {}

  lemma EventFitsIs(st: State, codes: seq<Code>, es: seq<Event>, rem: seq<seq<bool>>, free: seq<nat>, s: nat, c: nat)
    requires InStep(st, codes, es, rem, free) && s < |free| && c < |rem|
    ensures EventFits(st, Give(s, c)) <==> OfferFits(free[s], |rem[c]|, |codes[c].bits|)
  {
    hide Fill, Valid;
    assert |st.segs[s]| == free[s];
    assert Knows(st.cws[c], codes[c], rem[c]);
  }

  lemma LengthsAfter(rem: seq<seq<bool>>, c: nat, k: nat)
    requires c < |rem| && k <= |rem[c]|
    ensures Lengths(rem[c := rem[c][k..]]) == Lengths(rem)[c := |rem[c]| - k]
  {}

  /** Whether the run can be followed is a matter of lengths. */
  lemma {:induction false} FitIff(st: State, codes: seq<Code>, es: seq<Event>, rem: seq<seq<bool>>, free: seq<nat>)
    requires InStep(st, codes, es, rem, free)
    ensures AllFit(st, es) <==> LengthsFit(es, Lengths(BitsOf(codes)), Lengths(rem), free)
    decreases |es|
  {
    hide InStep, Step, AllFit, EventFits, OfferFits;
    if es == [] {
      NothingToFit(st);
    } else {
      SameCount(st, codes, es, rem, free);
      EventRead(st, codes, es, rem, free);
      FitFront(st, es);
      var a := After(es[0], rem, free);
      FitIff(Step(st, es[0]), codes, es[1..], a.0, a.1);
      match es[0] {
        case Turn => TurnFits(st);
        case Give(s, c) =>
          if s < |free| && c < |rem| {
            EventFitsIs(st, codes, es, rem, free, s, c);
            LengthsAfter(rem, c, Min(|rem[c]|, free[s]));
          } else {
            NobodyFits(st, s, c);
          }
      }
    }
  }

  lemma NothingToFit(st: State)
    ensures AllFit(st, [])
  {}

  lemma TurnFits(st: State)
    ensures EventFits(st, Turn)
  {}

  lemma NobodyFits(st: State, s: nat, c: nat)
    requires s >= |st.segs| || c >= |st.cws|
    ensures EventFits(st, Give(s, c))
  {}

  lemma SameCount(st: State, codes: seq<Code>, es: seq<Event>, rem: seq<seq<bool>>, free: seq<nat>)
    requires InStep(st, codes, es, rem, free)
    ensures |st.cws| == |codes| == |rem| && |st.segs| == |free|
  {}

  /** With at most 31 bits of room in every segment and at most 33 bits in every codeword every offer fits. */
  lemma {:induction false} ShortFits(es: seq<Event>, whole: seq<nat>, left: seq<nat>, free: seq<nat>)
    requires |whole| == |left| && (forall c | 0 <= c < |left| :: left[c] <= whole[c] <= 33)
    requires forall s | 0 <= s < |free| :: free[s] <= 31
    ensures LengthsFit(es, whole, left, free)
    decreases |es|
  {
    if es != [] {
      match es[0] {
        case Turn => ShortFits(es[1..], whole, left, free);
        case Give(s, c) =>
          if s < |free| && c < |left| {
            var k := Min(left[c], free[s]);
            ShortFits(es[1..], whole, left[c := left[c] - k], free[s := free[s] - k]);
          } else {
            ShortFits(es[1..], whole, left, free);
          }
      }
    }
  }
}
