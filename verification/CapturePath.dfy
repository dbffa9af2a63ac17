/**
  The 10-bit capture path of gst-plugin-vfmcap/gst_streambox_src.c: who owns
  each output buffer and each capture buffer at every step, and which frames
  reach downstream.

  The driver, the GPU and downstream are the environment: they answer
  arbitrarily, except that requeueing and fence waits succeed. `Downstream`
  shows that releasing buffers keeps the invariant at any point; a run lets
  it happen wherever a call goes on to read the pool.
 */
module CapturePath {
  /** GPU work submitted on a slot: output buffer, capture buffer, frame number. */
  datatype Work = Idle | Busy(pool: nat, buf: nat, frame: nat)

  /** Buffers and frames that only the running call knows about. */
  datatype Hand = Hand(pools: set<nat>, bufs: set<nat>, frames: set<nat>)

  const NOTHING := Hand({}, {}, {})

  predicate ExactlyOne(a: bool, b: bool, c: bool, d: bool) {
    && (a || b || c || d)
    && !(a && b) && !(a && c) && !(a && d) && !(b && c) && !(b && d) && !(c && d)
  }

  predicate Increasing(s: seq<nat>) { forall i, j | 0 <= i < j < |s| :: s[i] < s[j] }

  predicate AllBelow(s: seq<nat>, f: nat) { forall d | d in s :: d < f }

  /** `GstFlowReturn`, and Waiting for a call that has not returned yet. */
  datatype Flow = Ok | Eos | Flushing | Error | Waiting

  /** What one turn of a poll loop finds. */
  datatype Poll = Interrupted | Fails | Flush | SignalChange | Timeout | Ready(dequeue: Dequeue)
  datatype Dequeue = Frame | Again | Broken

  /** Where a poll loop leaves: the first answer that is not passed over decides. */
  datatype Found = NewFrame | Failed | Flushed | Changed | NotYet

  /**
    What one call of `create_path_b` is answered: by the format check, by the
    polls of its loop, by the conversion and the wrapping of a frame, by the
    submission of one, and by the polls of the second loop.
   */
  datatype Call = Call(changed: bool, polls: seq<Poll>, converted: bool, wrapped: bool, submitted: bool,
                       more: seq<Poll>)

  /* ---------- Which answer decides ---------- */

  function Timeouts(polls: seq<Poll>): nat {
    if polls == [] then 0 else Timeouts(polls[..|polls| - 1]) + if polls[|polls| - 1] == Timeout then 1 else 0
  }

  /** An interruption, a frame that is not there after all, one timeout, or a frame no buffer was queued for. */
  predicate PassedOver(a: Poll, some: bool) {
    a == Interrupted || a == Timeout || a == Ready(Again) || (a == Ready(Frame) && !some)
  }

  /** The loop gets to answer `k`: all before it are passed over, fewer than `limit` timeouts among them. */
  ghost predicate Reaches(polls: seq<Poll>, limit: nat, some: bool, k: nat) {
    k <= |polls| && Timeouts(polls[..k]) < limit && forall i | 0 <= i < k :: PassedOver(polls[i], some)
  }

  /** The loop gets to an answer `a`. */
  ghost predicate Finds(polls: seq<Poll>, limit: nat, some: bool, a: Poll) {
    exists k: nat :: k < |polls| && Reaches(polls, limit, some, k) && polls[k] == a
  }

  /** The loop gets to the timeout that is one too many. */
  ghost predicate TimesOut(polls: seq<Poll>, limit: nat, some: bool) {
    exists k: nat :: k < |polls| && Reaches(polls, limit, some, k) && polls[k] == Timeout
                                                             && Timeouts(polls[..k]) + 1 >= limit
  }

  lemma NothingPassed(polls: seq<Poll>, limit: nat, some: bool)
    requires limit > 0
    ensures Reaches(polls, limit, some, 0) && Timeouts(polls[..0]) == 0
  {}

  lemma PassedOne(polls: seq<Poll>, limit: nat, some: bool, k: nat)
    requires k < |polls| && Reaches(polls, limit, some, k) && PassedOver(polls[k], some)
    requires polls[k] == Timeout ==> Timeouts(polls[..k]) + 1 < limit
    ensures Reaches(polls, limit, some, k + 1)
    ensures Timeouts(polls[..k + 1]) == Timeouts(polls[..k]) + if polls[k] == Timeout then 1 else 0
  {
    assert polls[..k + 1][..k] == polls[..k];
  }

  lemma {:induction false} MoreTimeouts(polls: seq<Poll>, i: nat, k: nat)
    requires i <= k <= |polls|
    ensures Timeouts(polls[..i]) <= Timeouts(polls[..k])
  {
    if i < k {
      MoreTimeouts(polls, i, k - 1);
      assert polls[..k][..k - 1] == polls[..k - 1];
    }
  }

  /** An answer that is not passed over, or the last timeout, ends the loop. */
  predicate Decides(polls: seq<Poll>, limit: nat, some: bool, k: nat) {
    k < |polls| && (!PassedOver(polls[k], some) || (polls[k] == Timeout && Timeouts(polls[..k]) + 1 >= limit))
  }

  lemma DecidesFirst(polls: seq<Poll>, limit: nat, some: bool, k: nat, m: nat)
    requires Decides(polls, limit, some, k) && Reaches(polls, limit, some, m)
    ensures m <= k
  {
    assert polls[..k + 1][..k] == polls[..k];
    if k < m { MoreTimeouts(polls, k + 1, m); }
  }

  /** The loop ends at the one answer it gets to that decides. */
  lemma OnlyHere(polls: seq<Poll>, limit: nat, some: bool, k: nat)
    requires k < |polls| && Reaches(polls, limit, some, k)
    ensures Decides(polls, limit, some, k) ==>
              && (forall a | !PassedOver(a, some) :: Finds(polls, limit, some, a) <==> polls[k] == a)
              && (TimesOut(polls, limit, some) <==> polls[k] == Timeout)
              && !Reaches(polls, limit, some, |polls|)
  {
    hide Reaches, Timeouts;
    if Decides(polls, limit, some, k) {
      forall m: nat | Reaches(polls, limit, some, m)
        ensures m <= k && (Decides(polls, limit, some, m) ==> m == k)
      {
        DecidesFirst(polls, limit, some, k, m);
        if Decides(polls, limit, some, m) { DecidesFirst(polls, limit, some, m, k); }
      }
    }
  }

  lemma AllPassed(polls: seq<Poll>, limit: nat, some: bool)
    requires Reaches(polls, limit, some, |polls|)
    ensures forall a | !PassedOver(a, some) :: !Finds(polls, limit, some, a)
    ensures !TimesOut(polls, limit, some)
  {
    hide Reaches, Timeouts;
    forall k: nat | Reaches(polls, limit, some, k)
      ensures !Decides(polls, limit, some, k)
    {
      if Decides(polls, limit, some, k) { DecidesFirst(polls, limit, some, k, |polls|); }
    }
  }

  /* ---------- Output buffers ---------- */

  lemma OneLeft(was: seq<bool>, pool: seq<bool>, i: nat)
    requires StillFree(was, pool) && i < |pool|
    ensures TwoFree(was) ==> Free(pool[i := false])
  {
    if TwoFree(was) {
      var j, k :| 0 <= j < k < |was| && was[j] && was[k];
      assert pool[i := false][if j == i then k else j];
    }
  }

  ghost predicate Free(pool: seq<bool>) { exists i :: 0 <= i < |pool| && pool[i] }

  ghost predicate TwoFree(pool: seq<bool>) { exists i, j :: 0 <= i < j < |pool| && pool[i] && pool[j] }

  /** Buffers are released and none is taken. */
  ghost predicate StillFree(was: seq<bool>, pool: seq<bool>) {
    |was| == |pool| && forall i | 0 <= i < |was| :: was[i] ==> pool[i]
  }

  class PathB {
    var poolFree: seq<bool>
    var queued: seq<bool>
    var slot: nat
    /** `vk_async_pending`. */
    var pending: bool
    var pendPool: nat
    var pendBuf: nat
    /** What the GPU is doing on the two slots, and whether that is the pending work. */
    ghost var gpu: seq<Work>
    ghost var inFlight: bool
    /** Output buffers wrapped in GstBuffers that downstream still refers to. */
    var held: set<nat>
    /** Frames dequeued so far, those sent downstream in order, those dropped, and the pending one. */
    ghost var next: nat
    ghost var delivered: seq<nat>
    ghost var dropped: set<nat>
    ghost var pendFrame: nat

    /** Every output buffer has exactly one owner. */
    ghost predicate PoolsOwned(h: Hand)
      reads this`poolFree, this`held, this`inFlight, this`pendPool
    {
      && (forall i | i in held :: i < |poolFree|)
      && (forall i | i in h.pools :: i < |poolFree|)
      && forall i: nat | i < |poolFree| :: ExactlyOne(poolFree[i], inFlight && pendPool == i, i in held, i in h.pools)
    }

    /** Every capture buffer is queued to the driver, read by the GPU, or in hand. */
    ghost predicate BufsOwned(h: Hand)
      reads this`queued, this`inFlight, this`pendBuf
    {
      && (forall i | i in h.bufs :: i < |queued|)
      && forall i: nat | i < |queued| :: ExactlyOne(queued[i], inFlight && pendBuf == i, i in h.bufs, false)
    }

    /** Every dequeued frame is delivered, dropped, in flight, or in hand; delivery is in order. */
    ghost predicate FramesOwned(h: Hand)
      reads this`next, this`delivered, this`dropped, this`inFlight, this`pendFrame
    {
      && (forall f | f in h.frames || f in dropped || f in delivered :: f < next)
      && (forall f: nat | f < next ::
            ExactlyOne(f in delivered, f in dropped, inFlight && pendFrame == f, f in h.frames))
      && Increasing(delivered)
      && (inFlight ==> pendFrame < next && AllBelow(delivered, pendFrame))
      && (forall f | f in h.frames :: AllBelow(delivered, f) && (inFlight ==> pendFrame < f))
    }

    /** While a frame is in flight its work, and no other, is on the slot that is not current. */
    ghost predicate SlotsOwned()
      reads this`gpu, this`slot, this`inFlight, this`pendPool, this`pendBuf, this`pendFrame, this`poolFree, this`queued
    {
      && |gpu| == 2 && slot < 2
      && gpu[slot] == Idle
      && gpu[1 - slot] == (if inFlight then Busy(pendPool, pendBuf, pendFrame) else Idle)
      && (inFlight ==> pendPool < |poolFree| && pendBuf < |queued|)
    }

    ghost predicate Valid(h: Hand)
      reads this
    {
      PoolsOwned(h) && BufsOwned(h) && FramesOwned(h) && SlotsOwned()
    }

    /** The flag says whether the GPU has work. */
    ghost predicate Settled(h: Hand)
      reads this
    {
      Valid(h) && pending == inFlight
    }

    /** The state after the 10-bit path has been started: everything free, everything queued. */
    constructor (pools: nat, bufs: nat)
      ensures Settled(NOTHING) && next == 0 && delivered == [] && held == {} && |poolFree| == pools && |queued| == bufs
    {
      poolFree := seq(pools, _ => true);
      queued := seq(bufs, _ => true);
      slot, pending, pendPool, pendBuf := 0, false, 0, 0;
      gpu, inFlight, held := [Idle, Idle], false, {};
      next, delivered, dropped, pendFrame := 0, [], {}, 0;
    }

    /* ---------- Steps ---------- */

    /** `p010_buf_release` from downstream threads, any number of times. */
    method Downstream(ghost h: Hand)
      requires Valid(h)
      modifies this`poolFree, this`held
      ensures Valid(h) && held <= old(held) && |poolFree| == old(|poolFree|) && StillFree(old(poolFree), poolFree)
    {
      var more: bool := *;
      while more && held != {}
        invariant Valid(h) && held <= old(held) && |poolFree| == old(|poolFree|) && StillFree(old(poolFree), poolFree)
        decreases held, more
      {
        var i :| i in held;
        poolFree := poolFree[i := true];
        held := held - {i};
        more := *;
      }
    }

    /** VIDIOC_DQBUF: some queued buffer, holding the next frame. */
    method Dequeue(ghost h: Hand) returns (idx: nat)
      requires Valid(h) && true in queued
      modifies this`queued, this`next
      ensures idx < |queued| == old(|queued|) && idx !in h.bufs && old(next) !in h.frames && next == old(next) + 1
      ensures Valid(Hand(h.pools, h.bufs + {idx}, h.frames + {old(next)}))
      ensures AllBelow(delivered, old(next)) && (inFlight ==> pendFrame < old(next) && pendBuf != idx)
      ensures forall f | f in h.frames :: f < old(next)
    {
      idx :| 0 <= idx < |queued| && queued[idx];
      queued := queued[idx := false];
      next := next + 1;
    }

    /** VIDIOC_QBUF, which succeeds. */
    method Requeue(ghost h: Hand, idx: nat)
      requires Valid(h) && idx in h.bufs
      modifies this`queued
      ensures Valid(Hand(h.pools, h.bufs - {idx}, h.frames))
      ensures idx < old(|queued|) && queued == old(queued)[idx := true]
    {
      queued := queued[idx := true];
    }

    /** A frame in hand is given up. */
    ghost method Drop(h: Hand, f: nat)
      requires Valid(h) && f in h.frames
      modifies this`dropped
      ensures Valid(Hand(h.pools, h.bufs, h.frames - {f})) && dropped == old(dropped) + {f}
    {
      dropped := dropped + {f};
    }

    /** `p010_pool_acquire`: the lowest free index, or -1. */
    method PoolAcquire(ghost h: Hand) returns (i: int)
      requires Valid(h)
      modifies this`poolFree
      ensures |poolFree| == old(|poolFree|) && -1 <= i < |poolFree|
      ensures i == -1 ==> poolFree == old(poolFree) && Valid(h) && forall k | 0 <= k < |poolFree| :: !poolFree[k]
      ensures i >= 0 ==> i !in h.pools && Valid(Hand(h.pools + {i}, h.bufs, h.frames))
      ensures i >= 0 ==> poolFree == old(poolFree)[i := false]
      ensures i >= 0 ==> old(poolFree[i]) && forall k | 0 <= k < i :: !old(poolFree)[k]
    {
      var k := 0;
      while k < |poolFree|
        invariant 0 <= k <= |poolFree| && poolFree == old(poolFree) && forall m | 0 <= m < k :: !poolFree[m]
      {
        if poolFree[k] {
          poolFree := poolFree[k := false];
          return k;
        }
        k := k + 1;
      }
      return -1;
    }

    /** An output buffer in hand goes back to the pool. */
    method PoolRelease(ghost h: Hand, i: nat)
      requires Valid(h) && i in h.pools
      modifies this`poolFree
      ensures Valid(Hand(h.pools - {i}, h.bufs, h.frames)) && |poolFree| == old(|poolFree|)
    {
      poolFree := poolFree[i := true];
    }

    /** `vdin1_vk_submit_async` on the current slot, which is never busy. */
    method SubmitAsync(ghost h: Hand, pool: nat, buf: nat, ghost frame: nat, ok: bool)
      requires Valid(h) && pool in h.pools && buf in h.bufs && frame in h.frames
      modifies this`gpu
      ensures gpu == if ok then old(gpu)[slot := Busy(pool, buf, frame)] else old(gpu)
    {
      if ok { gpu := gpu[slot := Busy(pool, buf, frame)]; }
    }

    /** Saving the asynchronous state and flipping the slot, after a submission. */
    method SavePending(ghost h: Hand, pool: nat, buf: nat, ghost frame: nat, ghost before: seq<Work>)
      requires !inFlight && pool in h.pools && buf in h.bufs && frame in h.frames && AllBelow(delivered, frame)
      requires forall f | f in h.frames && f != frame :: false
      requires PoolsOwned(h) && BufsOwned(h) && FramesOwned(h)
      requires |before| == 2 && slot < 2 && before == [Idle, Idle] && gpu == before[slot := Busy(pool, buf, frame)]
      modifies this`pending, this`inFlight, this`pendPool, this`pendBuf, this`pendFrame, this`slot
      ensures pending && inFlight && pendFrame == frame && Valid(Hand(h.pools - {pool}, h.bufs - {buf}, {}))
    {
      pending, pendPool, pendBuf := true, pool, buf;
      inFlight, pendFrame := true, frame;
      slot := 1 - slot;
    }

    /** `vdin1_vk_wait_async`, which succeeds: the work in flight comes into the call's hands. */
    method WaitAsync(ghost h: Hand)
      requires Valid(h) && inFlight && pendBuf !in h.bufs
      modifies this`gpu, this`inFlight
      ensures !inFlight && gpu == [Idle, Idle]
      ensures Valid(Hand(h.pools + {pendPool}, h.bufs + {pendBuf}, h.frames + {pendFrame}))
      ensures AllBelow(delivered, pendFrame)
    {
      gpu := gpu[1 - slot := Idle];
      inFlight := false;
    }

    /** The output buffer, wrapped in a GstBuffer, goes downstream. */
    method Deliver(ghost h: Hand, pool: nat, ghost frame: nat)
      requires Valid(h) && pool in h.pools && frame in h.frames
      requires AllBelow(delivered, frame) && (inFlight ==> frame < pendFrame)
      requires forall f | f in h.frames && f != frame :: frame < f
      modifies this`held, this`delivered
      ensures delivered == old(delivered) + [frame]
      ensures Valid(Hand(h.pools - {pool}, h.bufs, h.frames - {frame}))
    {
      assert forall k | 0 <= k < |delivered| :: delivered[k] in delivered;
      held := held + {pool};
      delivered := delivered + [frame];
    }

    lemma InOrder(h: Hand, f: nat)
      requires Valid(h) && f in h.frames
      ensures AllBelow(delivered, f) && f < next && (inFlight ==> pendFrame < f)
    {}

    lemma SlotsIdle(h: Hand)
      requires Valid(h) && !inFlight
      ensures gpu == [Idle, Idle] && slot < 2
    {}

    /* ---------- create_path_b ---------- */

    /**
      A poll loop that gives up after `limit` timeouts: the first answer that
      decides says where it leaves, NotYet when the answers run out before.
     */
    method PollLoop(polls: seq<Poll>, limit: nat) returns (o: Found)
      requires limit > 0
      ensures o == NewFrame <==> true in queued && Finds(polls, limit, true, Ready(Frame))
      ensures o == Flushed <==> Finds(polls, limit, true in queued, Flush)
      ensures o == Changed <==>
                Finds(polls, limit, true in queued, SignalChange) || TimesOut(polls, limit, true in queued)
      ensures o == Failed <==>
                Finds(polls, limit, true in queued, Fails) || Finds(polls, limit, true in queued, Ready(Broken))
      ensures o == NotYet <==> Reaches(polls, limit, true in queued, |polls|)
    {
      ghost var some := true in queued;
      var timeouts, k := 0, 0;
      NothingPassed(polls, limit, some);
      while k < |polls|
        invariant k <= |polls| && Reaches(polls, limit, some, k) && timeouts == Timeouts(polls[..k])
      {
        hide Reaches, Timeouts;
        OnlyHere(polls, limit, some, k);
        match polls[k] {
          case Interrupted =>
          case Fails => return Failed;
          case Flush => return Flushed;
          case SignalChange => return Changed;
          case Timeout =>
            timeouts := timeouts + 1;
            if timeouts >= limit { return Changed; }
          case Ready(Frame) =>
            if true in queued { return NewFrame; }
          case Ready(Again) =>
          case Ready(Broken) => return Failed;
        }
        PassedOne(polls, limit, some, k);
        k := k + 1;
      }
      AllPassed(polls, limit, some);
      return NotYet;
    }

    /** The `clean_exit` part: nothing stays in flight. */
    method CleanExit()
      requires Settled(NOTHING)
      modifies this
      ensures Settled(NOTHING) && !pending && delivered == old(delivered) && next == old(next)
      ensures |poolFree| == old(|poolFree|) && |queued| == old(|queued|)
      ensures dropped == old(dropped) + if old(pending) then {old(pendFrame)} else {}
    {
      hide PoolsOwned, BufsOwned, FramesOwned, SlotsOwned, AllBelow;
      if pending {
        ghost var h := Hand({pendPool}, {pendBuf}, {pendFrame});
        WaitAsync(NOTHING);
        assert Hand({} + {pendPool}, {} + {pendBuf}, {} + {pendFrame}) == h;
        Requeue(h, pendBuf);
        assert h.bufs - {pendBuf} == {} && h.pools - {pendPool} == {} && h.frames - {pendFrame} == {};
        PoolRelease(Hand(h.pools, {}, h.frames), pendPool);
        Drop(Hand({}, {}, h.frames), pendFrame);
        pending := false;
      }
    }

    /** `qbuf_return`: the current frame is dropped and its buffer requeued. */
    method QbufReturn(idx: nat, ghost f: nat)
      requires Valid(Hand({}, {idx}, {f}))
      modifies this`queued, this`dropped
      ensures Valid(NOTHING) && |queued| == old(|queued|) && dropped == old(dropped) + {f}
    {
      hide PoolsOwned, BufsOwned, FramesOwned, SlotsOwned, AllBelow;
      Requeue(Hand({}, {idx}, {f}), idx);
      assert {idx} - {idx} == {} && {f} - {f} == {};
      Drop(Hand({}, {}, {f}), f);
    }

    /**
      The first frame: converted at once, and a second one submitted behind it.
      OK exactly when it has an output buffer, is converted and wrapped, and
      the second loop has been decided, whatever that found.
     */
    method Prime(idx: nat, ghost f: nat, c: Call) returns (flow: Flow, ghost hand: Hand)
      requires Settled(Hand({}, {idx}, {f})) && !pending && idx < |queued|
      modifies this
      ensures Settled(hand) && (flow != Waiting ==> hand == NOTHING) && (flow == Ok || flow == Error || flow == Waiting)
      ensures flow == Waiting ==> hand.frames == {f}
      ensures delivered == if flow == Ok then old(delivered) + [f] else old(delivered)
      ensures |poolFree| == old(|poolFree|) && |queued| == old(|queued|)
      ensures Free(old(poolFree)) ==> (flow == Error <==> !c.converted || !c.wrapped)
      ensures !c.converted || !c.wrapped ==> flow == Error
      ensures flow == Waiting ==> Reaches(c.more, 3, true, |c.more|)
      ensures flow == Ok ==> !Reaches(c.more, 3, true, |c.more|)
      ensures next == old(next) + if flow == Ok && Finds(c.more, 3, true, Ready(Frame)) then 1 else 0
      ensures pending ==> flow == Ok && Finds(c.more, 3, true, Ready(Frame)) && c.submitted && pendFrame == old(next)
      ensures flow == Ok && Finds(c.more, 3, true, Ready(Frame)) && c.submitted && TwoFree(old(poolFree)) ==> pending
      ensures dropped == old(dropped) + (if flow == Error then {f} else {})
                         + (if next > old(next) && !pending then {old(next)} else {})
    {
      hide PoolsOwned, BufsOwned, FramesOwned, SlotsOwned, AllBelow, Finds, TimesOut, Reaches;
      hand := NOTHING;
      Downstream(Hand({}, {idx}, {f}));
      ghost var free := poolFree;
      var out := PoolAcquire(Hand({}, {idx}, {f}));
      if out < 0 {
        QbufReturn(idx, f);
        return Error, hand;
      }
      OneLeft(old(poolFree), free, out);
      assert {} + {out} == {out} && {out} - {out} == {} && {idx} - {idx} == {} && {f} - {f} == {};
      if !c.converted {
        PoolRelease(Hand({out}, {idx}, {f}), out);
        QbufReturn(idx, f);
        return Error, hand;
      }
      Requeue(Hand({out}, {idx}, {f}), idx);
      if !c.wrapped {
        PoolRelease(Hand({out}, {}, {f}), out);
        Drop(Hand({}, {}, {f}), f);
        return Error, hand;
      }
      assert queued[idx];
      flow, hand := Bootstrap(out, f, c);
    }

    /** The second loop: whatever it finds, the converted frame is delivered, a second one behind it if there is one. */
    method Bootstrap(out: nat, ghost f: nat, c: Call) returns (flow: Flow, ghost hand: Hand)
      requires Settled(Hand({out}, {}, {f})) && !pending && true in queued
      modifies this
      ensures Settled(hand) && hand == if flow == Waiting then Hand({out}, {}, {f}) else NOTHING
      ensures flow == if Reaches(c.more, 3, true, |c.more|) then Waiting else Ok
      ensures delivered == if flow == Ok then old(delivered) + [f] else old(delivered)
      ensures |poolFree| == old(|poolFree|) && |queued| == old(|queued|)
      ensures next == old(next) + if flow == Ok && Finds(c.more, 3, true, Ready(Frame)) then 1 else 0
      ensures pending ==> next > old(next) && c.submitted && pendFrame == old(next)
      ensures next > old(next) && c.submitted && Free(old(poolFree)) ==> pending
      ensures dropped == old(dropped) + if next > old(next) && !pending then {old(next)} else {}
    {
      hide PoolsOwned, BufsOwned, FramesOwned, SlotsOwned, AllBelow, Finds, TimesOut, Reaches;
      Downstream(Hand({out}, {}, {f}));
      var o := PollLoop(c.more, 3);
      assert o == NotYet <==> Reaches(c.more, 3, true, |c.more|);
      if o == NotYet { return Waiting, Hand({out}, {}, {f}); }
      if o == NewFrame {
        Second(out, f, c.submitted);
      } else {
        InOrder(Hand({out}, {}, {f}), f);
        assert {out} - {out} == {} && {f} - {f} == {};
        Deliver(Hand({out}, {}, {f}), out, f);
      }
      return Ok, NOTHING;
    }

    /** Bootstrapping: the second frame goes to the GPU if that works, and back to the driver if not. */
    method Second(out: nat, ghost f: nat, submitted: bool)
      requires Settled(Hand({out}, {}, {f})) && !pending && true in queued
      modifies this
      ensures Settled(NOTHING) && delivered == old(delivered) + [f] && next == old(next) + 1
      ensures |poolFree| == old(|poolFree|) && |queued| == old(|queued|)
      ensures if pending then submitted && pendFrame == old(next) && dropped == old(dropped)
              else dropped == old(dropped) + {old(next)}
      ensures submitted && Free(old(poolFree)) ==> pending
    {
      hide PoolsOwned, BufsOwned, FramesOwned, SlotsOwned, AllBelow;
      ghost var f2 := next;
      InOrder(Hand({out}, {}, {f}), f);
      var idx2 := Dequeue(Hand({out}, {}, {f}));
      assert {} + {idx2} == {idx2} && {f} + {f2} == {f, f2} && {f, f2} - {f} == {f2} && {out} - {out} == {};
      Deliver(Hand({out}, {idx2}, {f, f2}), out, f);
      SubmitFrame(idx2, f2, submitted);
    }

    /** Acquire an output buffer and submit the frame; on any failure drop it with its buffer requeued. */
    method SubmitFrame(idx: nat, ghost f: nat, submitted: bool)
      requires Valid(Hand({}, {idx}, {f})) && !inFlight
      modifies this
      ensures Settled(NOTHING) && delivered == old(delivered) && next == old(next)
      ensures |poolFree| == old(|poolFree|) && |queued| == old(|queued|)
      ensures if pending then submitted && pendFrame == f && dropped == old(dropped) else dropped == old(dropped) + {f}
      ensures submitted && Free(old(poolFree)) ==> pending
    {
      hide PoolsOwned, BufsOwned, FramesOwned, SlotsOwned, AllBelow;
      Downstream(Hand({}, {idx}, {f}));
      var out := PoolAcquire(Hand({}, {idx}, {f}));
      if out < 0 {
        pending := false;
        QbufReturn(idx, f);
        return;
      }
      assert {} + {out} == {out} && {out} - {out} == {} && {idx} - {idx} == {};
      ghost var h := Hand({out}, {idx}, {f});
      ghost var before := gpu;
      SlotsIdle(h);
      InOrder(h, f);
      SubmitAsync(h, out, idx, f, submitted);
      if !submitted {
        PoolRelease(h, out);
        pending := false;
        QbufReturn(idx, f);
        return;
      }
      SavePending(h, out, idx, f, before);
    }

    /**
      The steady state: wait for the pending frame, send it downstream, submit
      the current one behind it. OK exactly when the pending frame can be wrapped.
     */
    method Steady(idx: nat, ghost f: nat, c: Call) returns (flow: Flow)
      requires Settled(Hand({}, {idx}, {f})) && pending
      modifies this
      ensures Settled(NOTHING) && (flow == Ok || flow == Error) && (flow == Ok <==> c.wrapped) && next == old(next)
      ensures delivered == if flow == Ok then old(delivered) + [old(pendFrame)] else old(delivered)
      ensures |poolFree| == old(|poolFree|) && |queued| == old(|queued|)
      ensures pending ==> flow == Ok && c.submitted && pendFrame == f
      ensures flow == Ok && c.submitted && Free(old(poolFree)) ==> pending
      ensures dropped == old(dropped) + (if flow == Error then {old(pendFrame)} else {}) + if pending then {} else {f}
    {
      hide PoolsOwned, BufsOwned, FramesOwned, SlotsOwned, AllBelow;
      Downstream(Hand({}, {idx}, {f}));
      ghost var p := pendFrame;
      var pool := TakeBack(idx, f);
      assert {p, f} - {p} == {f} && {pool} - {pool} == {};
      if !c.wrapped {
        PoolRelease(Hand({pool}, {idx}, {p, f}), pool);
        Drop(Hand({}, {idx}, {p, f}), p);
        pending := false;
        QbufReturn(idx, f);
        return Error;
      }
      Deliver(Hand({pool}, {idx}, {p, f}), pool, p);
      SubmitFrame(idx, f, c.submitted);
      return Ok;
    }

    /** The pending frame comes into the call's hands, and its capture buffer goes back to the driver. */
    method TakeBack(idx: nat, ghost f: nat) returns (pool: nat)
      requires Valid(Hand({}, {idx}, {f})) && inFlight
      modifies this`gpu, this`inFlight, this`queued
      ensures !inFlight && pendFrame < f && AllBelow(delivered, pendFrame) && |queued| == old(|queued|)
      ensures Valid(Hand({pool}, {idx}, {pendFrame, f}))
    {
      hide PoolsOwned, BufsOwned, FramesOwned, SlotsOwned, AllBelow;
      pool := pendPool;
      var buf := pendBuf;
      ghost var p := pendFrame;
      PendingApart(Hand({}, {idx}, {f}), idx, f);
      WaitAsync(Hand({}, {idx}, {f}));
      assert {} + {pool} == {pool} && {idx} + {buf} == {idx, buf} && {f} + {p} == {p, f};
      assert {idx, buf} - {buf} == {idx};
      Requeue(Hand({pool}, {idx, buf}, {p, f}), buf);
    }

    lemma PendingApart(h: Hand, idx: nat, f: nat)
      requires Valid(h) && inFlight && idx in h.bufs && f in h.frames
      ensures pendBuf !in h.bufs && pendBuf != idx && pendFrame < f
    {}

    /** Nothing is different but output buffers that downstream has released. */
    twostate predicate Untouched()
      reads this
    {
      && queued == old(queued) && pending == old(pending) && gpu == old(gpu) && slot == old(slot)
      && next == old(next) && delivered == old(delivered) && dropped == old(dropped)
      && (pending ==> pendPool == old(pendPool) && pendBuf == old(pendBuf) && pendFrame == old(pendFrame))
    }

    /** What was pending is dropped, and nothing is pending any more. */
    twostate predicate Drained()
      reads this
    {
      && !pending && next == old(next) && delivered == old(delivered)
      && dropped == old(dropped) + if old(pending) then {old(pendFrame)} else {}
    }

    /**
      `create_path_b` on the 10-bit path, by the answers it gets. A call whose
      answers run out has not returned.
     */
    method Create(c: Call) returns (flow: Flow, ghost hand: Hand)
      requires Settled(NOTHING)
      modifies this
      ensures Settled(hand) && (flow != Waiting ==> hand == NOTHING)
      ensures |poolFree| == old(|poolFree|) && |queued| == old(|queued|)
      // a format change, a signal change or five timeouts end the stream
      ensures c.changed ==> flow == Eos
      ensures var some := true in old(queued);
              !c.changed ==> (flow == Eos <==> Finds(c.polls, 5, some, SignalChange) || TimesOut(c.polls, 5, some))
      ensures flow == Eos ==> Drained()
      // a flush and a failure leave everything as it was
      ensures !c.changed ==> (flow == Flushing <==> Finds(c.polls, 5, true in old(queued), Flush))
      ensures flow == Flushing ==> Untouched()
      ensures var some := true in old(queued);
              !c.changed && (Finds(c.polls, 5, some, Fails) || Finds(c.polls, 5, some, Ready(Broken))) ==>
                flow == Error && Untouched()
      ensures !c.changed && Reaches(c.polls, 5, true in old(queued), |c.polls|) ==>
                flow == Waiting && Untouched() && hand == NOTHING
      // a ready frame is taken, and only then is a frame delivered
      ensures next > old(next) <==> !c.changed && true in old(queued) && Finds(c.polls, 5, true, Ready(Frame))
      ensures delivered == if flow != Ok then old(delivered)
                           else old(delivered) + [if old(pending) then old(pendFrame) else old(next)]
      ensures flow == Ok ==> next > old(next)
      // with a frame pending
      ensures next > old(next) && old(pending) ==>
                && next == old(next) + 1 && (flow == Ok <==> c.wrapped) && (flow == Error <==> !c.wrapped)
                && (pending ==> flow == Ok && c.submitted && pendFrame == old(next))
                && (flow == Ok && c.submitted && Free(old(poolFree)) ==> pending)
                && dropped == old(dropped) + (if flow == Error then {old(pendFrame)} else {})
                              + if pending then {} else {old(next)}
      // with none pending
      ensures next > old(next) && !old(pending) ==>
                && (flow == Ok || flow == Error || flow == Waiting)
                && (!c.converted || !c.wrapped ==> flow == Error)
                && (Free(old(poolFree)) ==> (flow == Error <==> !c.converted || !c.wrapped))
                && (flow != Error ==> (flow == Waiting <==> Reaches(c.more, 3, true, |c.more|)))
                && next == old(next) + (if flow == Ok && Finds(c.more, 3, true, Ready(Frame)) then 2 else 1)
                && (pending ==> next == old(next) + 2 && c.submitted && pendFrame == old(next) + 1)
                && (next == old(next) + 2 && c.submitted && TwoFree(old(poolFree)) ==> pending)
                && dropped == old(dropped) + (if flow == Error then {old(next)} else {})
                              + (if next == old(next) + 2 && !pending then {old(next) + 1} else {})
    {
      hide PoolsOwned, BufsOwned, FramesOwned, SlotsOwned, AllBelow, Finds, TimesOut, Reaches;
      hand := NOTHING;
      Downstream(NOTHING);
      if c.changed {
        CleanExit();
        return Eos, hand;
      }
      var o := PollLoop(c.polls, 5);
      match o {
        case NotYet => return Waiting, hand;
        case Failed => return Error, hand;
        case Flushed => return Flushing, hand;
        case Changed =>
          CleanExit();
          return Eos, hand;
        case NewFrame =>
      }
      ghost var f := next;
      var idx := Dequeue(NOTHING);
      assert {} + {idx} == {idx} && {} + {f} == {f};
      if pending {
        flow := Steady(idx, f, c);
      } else {
        flow, hand := Prime(idx, f, c);
      }
    }

    /** `stop_path_b`, when downstream has let go of everything: drain, then take the pool down. */
    method Stop()
      requires Settled(NOTHING) && held == {}
      modifies this
      ensures !pending && gpu == [Idle, Idle] && poolFree == [] && delivered == old(delivered) && next == old(next)
      ensures forall f: nat | f < next :: f in delivered || f in dropped
      ensures forall i | 0 <= i < |queued| :: queued[i]
    {
      CleanExit();
      SlotsIdle(NOTHING);
      assert forall i: nat | i < |queued| :: ExactlyOne(queued[i], inFlight && pendBuf == i, i in NOTHING.bufs, false);
      poolFree := [];
    }
  }

  /** How many calls delivered a frame. */
  function Delivered(flows: seq<Flow>): nat {
    if flows == [] then 0 else Delivered(flows[..|flows| - 1]) + if flows[|flows| - 1] == Ok then 1 else 0
  }

  /**
    Any number of calls, until one ends the stream or has not returned:
    frames go downstream in the order they were dequeued, none twice, none
    lost, one for each call that returns OK.
   */
  method Session(pools: nat, bufs: nat, calls: seq<Call>) returns (s: PathB, flows: seq<Flow>, ghost hand: Hand)
    ensures s.Settled(hand) && Increasing(s.delivered) && |s.delivered| == Delivered(flows)
    ensures forall f: nat | f < s.next ::
              f in s.delivered || f in s.dropped || (s.pending && f == s.pendFrame) || f in hand.frames
    ensures |flows| <= |calls| && forall k | 0 <= k < |flows| - 1 :: flows[k] != Waiting && flows[k] != Eos
    ensures |flows| < |calls| ==> flows != [] && (flows[|flows| - 1] == Waiting || flows[|flows| - 1] == Eos)
  {
    s := new PathB(pools, bufs);
    hand, flows := NOTHING, [];
    while |flows| < |calls|
      invariant |flows| <= |calls| && fresh(s) && hand == NOTHING
      invariant s.Settled(NOTHING) && |s.delivered| == Delivered(flows)
      invariant forall k | 0 <= k < |flows| :: flows[k] != Waiting && flows[k] != Eos
      decreases |calls| - |flows|
    {
      var flow;
      ghost var was := flows;
      var call := calls[|flows|];
      flow, hand := s.Create(call);
      flows := flows + [flow];
      assert flows[..|flows| - 1] == was;
      if flow == Waiting || flow == Eos { break; }
    }
  }
}
