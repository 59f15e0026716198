/**
 * Progress over turns that lose nothing the other end is listening to. A listener stops at the
 * first frame with F_MORE clear, so a burst of nothing but resends is heard one frame at a time:
 * a round with a never-sent frame in it empties the window, any other takes at least one frame
 * off it. Hence n queued bytes are delivered after a bounded number of rounds, from any reachable
 * state.
 */
module ArqProgress {
  import opened Base
  import opened Arq
  import opened ArqSafety
  import opened ArqSystem
  import opened ArqTurn

  /** b hears packet p from a. */
  ghost function Hear(s: System, p: Packet): System
    requires |s.b.rx.slots| == MAXWIN
  {
    Swap(DoA(Swap(s), RecvOp(p)))
  }

  /** What hearing a packet of a's does to everything a's data direction cares about. */
  ghost predicate HeardShape(s: System, z: System)
    requires |s.b.rx.slots| == MAXWIN
  {
    && z.a == s.a && Inv(z)
    && z.netAB == s.netAB && z.netBA == s.netBA
    && z.b.addr == s.b.addr && z.b.peer == s.b.peer && z.b.rx.cap == s.b.rx.cap
    && z.ab == s.ab.(rn := z.ab.rn) && s.ab.rn <= z.ab.rn
    && (Tidy(s.b) ==> Tidy(z.b))
    && z.b.tx.queue == s.b.tx.queue && z.ba == s.ba.(base := z.ba.base) && s.ba.base <= z.ba.base
    && z.b.txCap == s.b.txCap && z.b.tx.window == s.b.tx.window && z.b.tx.retransmitMs == s.b.tx.retransmitMs
  }

  lemma HearKeeps(s: System, p: Packet)
    requires Inv(s) && p in s.netAB && InTime(s.ba, s.ab, p)
    ensures HeardShape(s, Hear(s, p))
    ensures ForMe(s.b, p.frame) ==> Hear(s, p).ba.base == s.ba.base + Released(s.b.tx, p.frame.ack, p.frame.sack)
    ensures !ForMe(s.b, p.frame) ==> Hear(s, p) == s
  {
    var w := Swap(s);
    RecvKeeps(w, p);
    if ForMe(s.b, p.frame) {
      RecvShape(w, p);
      RxDataSlots(s.b.rx, p.frame.num, p.frame.payload);
      if Tidy(s.b) { RecvTidy(s.b, p.frame); }
    }
  }

  /** a sends its next frame, if any; b hears it at once if it is still listening. */
  ghost function BurstStep(s: System, now: u32, on: bool): System
    requires Inv(s)
  {
    var s1 := DoA(s, NextTxOp(now));
    var o := NextTx(s.a, now).1;
    if on && o.Some? then Hear(s1, Labelled(s, now, o.value)) else s1
  }

  // ---- what every run keeps at each end ----

  /** The window is in sending order and nothing deliverable is held back. */
  ghost predicate Tidy(l: Link) { Orderly(l.tx.win) && |l.rx.slots| == MAXWIN && !CanDeliver(l.rx) }

  lemma AckOrderly(t: TxHalf, ack: u8, sack: Sack)
    requires Orderly(t.win)
    ensures Orderly(TxAck(t, ack, sack).win)
  {
    hide SackHit, Cum, AckedAfter;
    var m := MarkAcked(t, ack, sack);
    var n := LeadingAcked(m);
    var w := FlagGaps(m[n..]);
    forall i, j | 0 <= i < j < |w| && !w[i].acked && !w[i].everSent ensures !w[j].everSent {
      assert !t.win[n + i].acked && !t.win[n + i].everSent;
    }
    forall i | 0 <= i < |w| && w[i].txThisTurn ensures w[i].everSent {
      assert t.win[n + i].txThisTurn;
    }
  }

  lemma RecvTidy(l: Link, f: Frame)
    requires Tidy(l)
    ensures Tidy(OnRx(l, f))
  {
    var l1 := TrackEpoch(l, f.epoch);
    TrackTidy(l, f.epoch);
    hide TrackEpoch, TxAck, RxData, Orderly, CanDeliver;
    if ForMe(l, f) {
      AckOrderly(l1.tx, f.ack, f.sack);
      RxDataSlots(l1.rx, f.num, f.payload);
    }
  }

  lemma TrackTidy(l: Link, epoch: u8)
    requires Tidy(l)
    ensures Tidy(TrackEpoch(l, epoch))
  {
  }

  lemma StepTidy(s: System, op: Op)
    requires Tidy(s.a) && Tidy(s.b)
    ensures Tidy(DoA(s, op).a) && Tidy(DoA(s, op).b)
  {
    match op
    case WriteOp(_) =>
    case ReadOp(max) => DrainSlots(s.a.rx.(queue := s.a.rx.queue[Min(max, |s.a.rx.queue|)..]));
    case NextTxOp(now) => NextTxOrderly(s.a, now);
    case RecvOp(p) => RecvTidy(s.a, p.frame);
    case _ =>
  }

  lemma {:induction false} RunTidy(s: System, es: seq<Event>)
    requires Tidy(s.a) && Tidy(s.b) && Run(s, es)
    ensures Tidy(After(s, es).a) && Tidy(After(s, es).b)
    decreases |es|
  {
    if es != [] {
      StepTidy(if es[0].atA then s else Swap(s), es[0].op);
      RunTidy(Do(s, es[0]), es[1..]);
    }
  }

  // ---- one burst ----

  /** Everything the window holds that was sent this turn has reached b. */
  ghost predicate SentHeard(s: System)
    requires |s.b.rx.slots| == MAXWIN
  {
    MarkedGot(s.a.tx.win, s.ab.base, s.b.rx.slots, s.ab.rn)
  }

  ghost predicate MarkedGot(win: seq<TxFrame>, base: nat, slots: seq<RxSlot>, rn: nat)
    requires |slots| == MAXWIN
  {
    forall i: nat {:trigger win[i].txThisTurn} :: i < |win| && win[i].txThisTurn ==> Got(slots, rn, base + i)
  }

  /** What one burst step keeps. */
  ghost predicate BurstInv(s: System, z: System) {
    && Inv(z)
    && z.ab.base == s.ab.base && z.ab.accepted == s.ab.accepted && z.ab.read == s.ab.read
    && z.ab.stale == s.ab.stale && z.ba.stale == s.ba.stale
    && s.ab.rn <= z.ab.rn
    && z.b.rx.cap == s.b.rx.cap && Tidy(z.a) && Tidy(z.b)
    && z.ba.hist == s.ba.hist && s.ba.base <= z.ba.base && z.b.tx.queue == s.b.tx.queue
    && z.a.addr == s.a.addr && z.a.peer == s.a.peer && z.b.addr == s.b.addr && z.b.peer == s.b.peer
    && z.b.tx.window == s.b.tx.window && z.b.tx.retransmitMs == s.b.tx.retransmitMs
    && z.a.tx.window == s.a.tx.window && z.a.tx.retransmitMs == s.a.tx.retransmitMs
    && z.a.rx == s.a.rx && z.ba.rn == s.ba.rn && z.ba.read == s.ba.read && z.ba.accepted == s.ba.accepted
  }

  lemma FrameAddressed(a: Link, b: Link, now: u32)
    requires Facing(a, b) && |a.rx.slots| == MAXWIN && NextTx(a, now).1.Some?
    ensures ForMe(b, NextTx(a, now).1.value)
  {
  }

  lemma SendShape(s: System, now: u32)
    requires Inv(s)
    ensures
      var s1 := DoA(s, NextTxOp(now));
      && Inv(s1) && s1.b == s.b && s1.ba == s.ba && s1.a == NextTx(s.a, now).0 && s1.netBA == s.netBA
      && s1.ab == s.ab.(hist := s.ab.hist + Framed(s.a.tx))
      && s1.a.rx == s.a.rx && s1.a.addr == s.a.addr && s1.a.peer == s.a.peer && s1.a.txCap == s.a.txCap
      && s1.a.tx.window == s.a.tx.window && s1.a.tx.retransmitMs == s.a.tx.retransmitMs
      && (NextTx(s.a, now).1.Some? ==> Labelled(s, now, NextTx(s.a, now).1.value) in s1.netAB)
  {
    NextTxKeeps(s, now);
    NextTxShape(s.a, now);
    FillIdle(s.a.tx);
  }

  lemma BurstStepKeeps(s: System, now: u32, on: bool)
    requires Inv(s) && Facing(s.a, s.b) && Tidy(s.a) && Tidy(s.b)
    ensures BurstInv(s, BurstStep(s, now, on))
    ensures BurstStep(s, now, on).a == NextTx(s.a, now).0
    ensures var z := BurstStep(s, now, on); !on ==> z.b == s.b && z.ab.rn == s.ab.rn && z.ba == s.ba
  {
    SendShape(s, now);
    NextTxOrderly(s.a, now);
    if on && NextTx(s.a, now).1.Some? {
      var s1 := DoA(s, NextTxOp(now));
      var p := Labelled(s, now, NextTx(s.a, now).1.value);
      PromptPacketInTime(s, now);
      FrameAddressed(s.a, s.b, now);
      HearKeeps(s1, p);
    }
  }

  /** A data frame heard in time and in the window has reached b; what had reached b still has. */
  lemma HearGot(s: System, p: Packet)
    requires Inv(s) && p in s.netAB && InTime(s.ba, s.ab, p) && ForMe(s.b, p.frame)
    ensures
      var z := Hear(s, p);
      && |z.b.rx.slots| == MAXWIN
      && (forall a: nat :: Got(s.b.rx.slots, s.ab.rn, a) ==> Got(z.b.rx.slots, z.ab.rn, a))
      && (p.frame.data && p.absNum < s.ab.rn + MAXWIN ==> Got(z.b.rx.slots, z.ab.rn, p.absNum))
      && z.a == s.a && z.ab.base == s.ab.base
  {
    RecvShape(Swap(s), p);
    if p.frame.data {
      WindowBounds(s.a.tx, s.b.rx, s.ab);
      RxDataKeeps(s.b.rx, s.ab, p);
    }
  }

  /** The one position a turn step marks, if it sends data. */
  ghost function Marked(l: Link, now: u32): Option<nat>
    requires |l.rx.slots| == MAXWIN
  {
    var o := NextTx(l, now).1;
    if o.Some? && o.value.data then Some(Pick(Fill(l.tx).win, 0, now, Fill(l.tx).retransmitMs)) else None
  }

  lemma MarkedInWindow(l: Link, now: u32)
    requires LinkValid(l)
    ensures Marked(l, now).Some? ==> Marked(l, now).value < MAXWIN
  {
    FillValid(l.tx);
  }

  /** Only the picked position gains the per-turn mark. */
  lemma MarksOnlyPicked(l: Link, now: u32)
    requires |l.rx.slots| == MAXWIN
    ensures MarkedBy(l.tx.win, NextTx(l, now).0.tx.win, Marked(l, now))
  {
    NewFramesUnmarked(l.tx);
  }

  ghost predicate MarkedBy(w: seq<TxFrame>, w': seq<TxFrame>, k: Option<nat>) {
    forall i: nat {:trigger w'[i].txThisTurn} :: i < |w'| && w'[i].txThisTurn ==>
      (i < |w| && w[i].txThisTurn) || k == Some(i)
  }

  lemma MarkedGotStep(w: seq<TxFrame>, w': seq<TxFrame>, k: Option<nat>, base: nat,
                      slots: seq<RxSlot>, rn: nat, slots': seq<RxSlot>, rn': nat)
    requires |slots| == |slots'| == MAXWIN
    requires MarkedGot(w, base, slots, rn) && MarkedBy(w, w', k)
    requires forall a: nat :: Got(slots, rn, a) ==> Got(slots', rn', a)
    requires k.Some? ==> Got(slots', rn', base + k.value)
    ensures MarkedGot(w', base, slots', rn')
  {
  }

  /** The packet of a burst step is heard: everything heard before still is, and so is this frame. */
  lemma StepHears(s: System, now: u32)
    requires Inv(s) && Facing(s.a, s.b) && s.ab.base <= s.ab.rn && NextTx(s.a, now).1.Some?
    ensures
      var z := BurstStep(s, now, true);
      && |z.b.rx.slots| == MAXWIN
      && z.a == NextTx(s.a, now).0 && z.ab.base == s.ab.base
      && (forall a: nat :: Got(s.b.rx.slots, s.ab.rn, a) ==> Got(z.b.rx.slots, z.ab.rn, a))
      && (Marked(s.a, now).Some? ==> Got(z.b.rx.slots, z.ab.rn, s.ab.base + Marked(s.a, now).value))
  {
    hide DoA, NextTx, Hear, Fill;
    SendShape(s, now);
    PromptPacketInTime(s, now);
    FrameAddressed(s.a, s.b, now);
    MarkedInWindow(s.a, now);
    HearGot(DoA(s, NextTxOp(now)), Labelled(s, now, NextTx(s.a, now).1.value));
  }

  lemma BothSlots(s: System)
    requires Inv(s)
    ensures |s.a.rx.slots| == |s.b.rx.slots| == MAXWIN
  {
  }

  /** Where nothing is sent, or nobody listens, the step is a's alone. */
  lemma StepUnheard(s: System, now: u32, on: bool)
    requires Inv(s) && !(on && NextTx(s.a, now).1.Some?) && (on || Marked(s.a, now).None?)
    ensures var z := BurstStep(s, now, on);
      && z.a == NextTx(s.a, now).0 && z.b == s.b && z.ab.base == s.ab.base && z.ab.rn == s.ab.rn
      && Marked(s.a, now).None?
  {
    SendShape(s, now);
    MarkedOnlySent(s.a, now);
    hide DoA, NextTx, Marked;
  }

  lemma MarkedOnlySent(l: Link, now: u32)
    requires |l.rx.slots| == MAXWIN
    ensures NextTx(l, now).1.None? ==> Marked(l, now).None?
  {
  }

  /** A frame just sent to a listener, or no data frame at all: what was sent this turn has been heard. */
  lemma BurstStepHeard(s: System, now: u32, on: bool)
    requires Inv(s) && Facing(s.a, s.b) && s.ab.base <= s.ab.rn && SentHeard(s)
    requires on || Marked(s.a, now).None?
    ensures |BurstStep(s, now, on).b.rx.slots| == MAXWIN
    ensures SentHeard(BurstStep(s, now, on))
  {
    hide BurstStep, NextTx, MarkedGot, Marked, Got, ArqSystem.Inv, MarkedBy;
    BothSlots(s);
    MarksOnlyPicked(s.a, now);
    var z := BurstStep(s, now, on);
    var w, w', k := s.a.tx.win, NextTx(s.a, now).0.tx.win, Marked(s.a, now);
    if on && NextTx(s.a, now).1.Some? {
      StepHears(s, now);
      MarkedGotStep(w, w', k, s.ab.base, s.b.rx.slots, s.ab.rn, z.b.rx.slots, z.ab.rn);
    } else {
      StepUnheard(s, now, on);
      MarkedGotStep(w, w', k, s.ab.base, s.b.rx.slots, s.ab.rn, s.b.rx.slots, s.ab.rn);
    }
  }

  /** A fill only appends, and what it appends has never been sent. */
  lemma {:induction false} NewFramesUnmarked(t: TxHalf)
    ensures t.win <= Fill(t).win
    ensures forall i :: |t.win| <= i < |Fill(t).win| ==> !Fill(t).win[i].txThisTurn && !Fill(t).win[i].everSent
    decreases |t.queue|
  {
    if |t.win| < t.window && |t.queue| > 0 {
      NewFramesUnmarked(FillOne(t));
      assert FillOne(t).win[|t.win|] == Fill(t).win[|t.win|];
    }
  }

  /** a's whole burst from its k-th call on; b listens up to the first frame with F_MORE clear. */
  ghost function Burst(s: System, clock: nat -> u32, k: nat, on: bool): System
    requires Inv(s) && Facing(s.a, s.b) && Tidy(s.a) && Tidy(s.b)
    decreases |s.a.tx.queue|, Unsent(s.a.tx.win), if s.a.ackSentTurn then 0 else 1
  {
    BurstStepKeeps(s, clock(k), on);
    var z := BurstStep(s, clock(k), on);
    var o := NextTx(s.a, clock(k)).1;
    if o.None? then z
    else NextTxDecreases(s.a, clock(k)); Burst(z, clock, k + 1, on && o.value.more)
  }

  /** A burst keeps the invariant and only adds to what was framed, heard and acknowledged. */
  lemma {:induction false} BurstKeeps(s: System, clock: nat -> u32, k: nat, on: bool)
    requires Inv(s) && Facing(s.a, s.b) && Tidy(s.a) && Tidy(s.b)
    ensures BurstInv(s, Burst(s, clock, k, on))
    ensures s.ab.hist <= Burst(s, clock, k, on).ab.hist
    ensures var z := Burst(s, clock, k, on); !on ==> z.b == s.b && z.ab.rn == s.ab.rn && z.ba == s.ba
    decreases |s.a.tx.queue|, Unsent(s.a.tx.win), if s.a.ackSentTurn then 0 else 1
  {
    hide BurstStep, NextTx, ArqSystem.Inv, Orderly, CanDeliver;
    BurstStepKeeps(s, clock(k), on);
    StepHist(s, clock(k), on);
    var o := NextTx(s.a, clock(k)).1;
    if o.Some? {
      NextTxDecreases(s.a, clock(k));
      BurstKeeps(BurstStep(s, clock(k), on), clock, k + 1, on && o.value.more);
    }
  }

  lemma StepHist(s: System, now: u32, on: bool)
    requires Inv(s)
    ensures s.ab.hist <= BurstStep(s, now, on).ab.hist
  {
    SendShape(s, now);
  }

  /** Every frame sent in an earlier turn has timed out whenever the clock is read. */
  ghost predicate Expired(t: TxHalf, clock: nat -> u32) {
    forall k: nat, i {:trigger clock(k), t.win[i].sentAt} ::
      0 <= i < |t.win| && t.win[i].everSent && !t.win[i].txThisTurn ==>
      Elapsed(clock(k), t.win[i].sentAt) >= t.retransmitMs
  }

  lemma ExpiredSteady(t: TxHalf, clock: nat -> u32)
    requires Expired(t, clock)
    ensures Steady(t, clock) && Expired(Fill(t), clock)
  {
    FillAppends(t);
    FillIdle(t);
    var z := Fill(t);
    forall k: nat, i {:trigger clock(k), z.win[i].sentAt} | 0 <= i < |z.win| && z.win[i].everSent
      && !z.win[i].txThisTurn
      ensures Elapsed(clock(k), z.win[i].sentAt) >= z.retransmitMs
    {
      assert z.win[i] == t.win[i];
      assert Elapsed(clock(k), t.win[i].sentAt) >= t.retransmitMs;
    }
    forall k: nat, i {:trigger clock(k), t.win[i].sentAt} | 0 <= i < |t.win| && t.win[i].everSent
      && !t.win[i].txThisTurn
      ensures Elapsed(clock(k), t.win[i].sentAt) >= t.retransmitMs
        && Elapsed(clock(0), t.win[i].sentAt) >= t.retransmitMs
    {
      assert Elapsed(clock(k), t.win[i].sentAt) >= t.retransmitMs;
      assert Elapsed(clock(0), t.win[i].sentAt) >= t.retransmitMs;
    }
  }

  lemma ExpiredStep(l: Link, now: u32, clock: nat -> u32)
    requires |l.rx.slots| == MAXWIN && Expired(l.tx, clock)
    ensures Expired(NextTx(l, now).0.tx, clock)
  {
    NewFramesUnmarked(l.tx);
    FillIdle(l.tx);
    var t' := NextTx(l, now).0.tx;
    forall k: nat, i {:trigger clock(k), t'.win[i].sentAt} | 0 <= i < |t'.win| && t'.win[i].everSent
      && !t'.win[i].txThisTurn
      ensures Elapsed(clock(k), t'.win[i].sentAt) >= t'.retransmitMs
    {
      assert i < |l.tx.win| && t'.win[i] == l.tx.win[i];
      assert Elapsed(clock(k), l.tx.win[i].sentAt) >= l.tx.retransmitMs;
    }
  }

  /** Everything framed has reached b. */
  ghost predicate AllReached(s: System)
    requires |s.b.rx.slots| == MAXWIN
  {
    forall a: nat :: a < |s.ab.hist| ==> Got(s.b.rx.slots, s.ab.rn, a)
  }

  /** The burst still has a fresh frame to send to a listener, or nothing left to send at all. */
  ghost predicate Flowing(t: TxHalf, clock: nat -> u32, on: bool) {
    (on && HasFresh(Fill(t).win)) || Quiet(Fill(t), clock)
  }

  /** One call of a flowing burst keeps it flowing, and sends data only to a listener. */
  lemma FlowingStep(l: Link, clock: nat -> u32, k: nat, on: bool)
    requires |l.rx.slots| == MAXWIN && Orderly(l.tx.win) && Expired(l.tx, clock) && Flowing(l.tx, clock, on)
    ensures
      var (l', o) := NextTx(l, clock(k));
      && (on || Marked(l, clock(k)).None?)
      && (o.Some? ==> Flowing(l'.tx, clock, on && o.value.more))
      && (o.None? ==> Quiet(l'.tx, clock))
  {
    ExpiredSteady(l.tx, clock);
    if on && HasFresh(Fill(l.tx).win) {
      FreshStep(l, clock, k);
    } else {
      QuietStep(l, clock, k);
    }
  }

  /**
   * At the end of a burst that sends a never-sent frame, with expired timers, nothing framed is
   * missing at the other end: the listener takes in all of it.
   */
  lemma {:induction false} BurstReaches(s: System, clock: nat -> u32, k: nat, on: bool)
    requires Inv(s) && Facing(s.a, s.b) && Tidy(s.a) && Tidy(s.b)
    requires s.ab.base <= s.ab.rn && SentHeard(s) && Expired(s.a.tx, clock) && Flowing(s.a.tx, clock, on)
    ensures BurstInv(s, Burst(s, clock, k, on))
    ensures AllReached(Burst(s, clock, k, on))
    ensures Burst(s, clock, k, on).a.tx.queue == Fill(s.a.tx).queue
    decreases |s.a.tx.queue|, Unsent(s.a.tx.win), if s.a.ackSentTurn then 0 else 1
  {
    hide BurstStep, NextTx, Fill, Flowing, SentHeard, Expired;
    var z := BurstStep(s, clock(k), on);
    var o := NextTx(s.a, clock(k)).1;
    BurstStepKeeps(s, clock(k), on);
    FlowingStep(s.a, clock, k, on);
    BurstStepHeard(s, clock(k), on);
    ExpiredStep(s.a, clock(k), clock);
    QueueFilled(s.a, clock(k));
    if o.None? {
      NothingMoves(s.a, clock(k));
      QuietMeansReached(z, clock);
    } else {
      NextTxDecreases(s.a, clock(k));
      BurstReaches(z, clock, k + 1, on && o.value.more);
    }
  }

  lemma NothingMoves(l: Link, now: u32)
    requires |l.rx.slots| == MAXWIN && NextTx(l, now).1.None?
    ensures NextTx(l, now).0.tx == Fill(l.tx)
  {
  }

  lemma QueueFilled(l: Link, now: u32)
    requires |l.rx.slots| == MAXWIN
    ensures Fill(NextTx(l, now).0.tx).queue == Fill(l.tx).queue
  {
    FillIdle(l.tx);
    FillIdle(NextTx(l, now).0.tx);
  }

  /** A turn that has nothing more to send has sent, or had acked, every window frame. */
  lemma QuietMeansReached(z: System, clock: nat -> u32)
    requires Inv(z) && SentHeard(z) && Expired(z.a.tx, clock) && Quiet(z.a.tx, clock)
    ensures AllReached(z)
  {
    forall a: nat | a < |z.ab.hist|
      ensures Got(z.b.rx.slots, z.ab.rn, a)
    {
      if z.ab.base <= a {
        var i := a - z.ab.base;
        var f := z.a.tx.win[i];
        assert !Eligible(f, clock(0), z.a.tx.retransmitMs) by { assert z.a.tx.win[i].sentAt == f.sentAt; }
        if f.everSent && !f.txThisTurn { assert Elapsed(clock(0), f.sentAt) >= z.a.tx.retransmitMs; }
        assert z.a.tx.win[i].acked || z.a.tx.win[i].txThisTurn;
      }
    }
  }

  // ---- room in the receive ring ----

  const BURST_BYTES: nat := 3536

  lemma {:induction false} FlatSize(h: seq<Bytes>)
    requires forall i :: 0 <= i < |h| ==> |h[i]| <= MAXPAY
    ensures |Flat(h)| <= |h| * MAXPAY
  {
    if h != [] { FlatSize(h[..|h| - 1]); }
  }

  lemma RestOf(read: Bytes, queue: Bytes, stale: Bytes, early: Bytes, late: Bytes)
    requires read + queue == stale + (early + late) && read == stale + early
    ensures queue == late
  {
    assert stale + (early + late) == read + late;
    assert queue == (read + queue)[|read|..];
    assert late == (read + late)[|read|..];
  }

  /** What a drained ring has taken in since frame rn0. */
  lemma RingSince(r: RxHalf, f: Flow, rn0: nat)
    requires RxInv(r, f) && rn0 <= f.rn
    requires f.read == f.stale + Flat(f.hist[..rn0])
    requires forall i :: 0 <= i < |f.hist| ==> |f.hist[i]| <= MAXPAY
    ensures |r.queue| <= (f.rn - rn0) * MAXPAY
  {
    var part := f.hist[rn0..f.rn];
    assert f.hist[..f.rn] == f.hist[..rn0] + part;
    FlatConcat(f.hist[..rn0], part);
    RestOf(f.read, r.queue, f.stale, Flat(f.hist[..rn0]), Flat(part));
    FlatSize(part);
  }

  /** With room for a full window beyond what was already delivered, nothing in order is held back. */
  lemma FrontNotHeld(s: System, rn0: nat)
    requires Inv(s) && !CanDeliver(s.b.rx) && s.b.rx.cap >= BURST_BYTES
    requires rn0 <= s.ab.rn && |s.ab.hist| <= rn0 + MAXWIN
    requires s.ab.read == s.ab.stale + Flat(s.ab.hist[..rn0])
    ensures !Full(s.b.rx.slots, s.ab.rn)
  {
    var f, r := s.ab, s.b.rx;
    if Full(r.slots, f.rn) {
      assert SlotOk(r.slots, f.hist, f.rn);
      RingSince(r, f, rn0);
      FrontFits(r, f);
    }
  }

  /** So whatever was heard in full is delivered. */
  lemma ReachedMeansDelivered(s: System, rn0: nat)
    requires Inv(s) && AllReached(s) && !CanDeliver(s.b.rx) && s.b.rx.cap >= BURST_BYTES
    requires rn0 <= s.ab.rn && |s.ab.hist| <= rn0 + MAXWIN
    requires s.ab.read == s.ab.stale + Flat(s.ab.hist[..rn0])
    ensures s.ab.rn == |s.ab.hist|
  {
    FrontNotHeld(s, rn0);
    assert s.ab.rn < |s.ab.hist| ==> Got(s.b.rx.slots, s.ab.rn, s.ab.rn);
  }

  /** A frame held at the front that fits is deliverable. */
  lemma FrontFits(r: RxHalf, f: Flow)
    requires RxInv(r, f) && Full(r.slots, f.rn) && f.rn < |f.hist| && |f.hist[f.rn]| <= MAXPAY
    requires |r.queue| + MAXPAY <= r.cap
    ensures CanDeliver(r)
  {
    WrapSlot(f.rn);
    assert SlotOk(r.slots, f.hist, f.rn);
  }

  // ---- one turn ----

  /** a's turn, heard by b as far as b listens; an empty turn is a poll. */
  ghost function Exchange(s: System, clock: nat -> u32): System
    requires Inv(s) && Facing(s.a, s.b) && Tidy(s.a) && Tidy(s.b)
  {
    OpenTurn(s);
    var s0 := DoA(s, BeginTurnOp);
    BurstKeeps(s0, clock, 0, true);
    var s1 := Burst(s0, clock, 0, true);
    if NextTx(s0.a, clock(0)).1.Some? then s1 else PollHeard(s1)
  }

  /** a polls and b hears it. */
  ghost function PollHeard(s: System): System
    requires |s.a.rx.slots| == |s.b.rx.slots| == MAXWIN
  {
    Hear(DoA(s, PollOp), Packet(Poll(s.a), 0, s.ba.rn))
  }

  lemma OpenTurn(s: System)
    requires Inv(s) && Facing(s.a, s.b) && Tidy(s.a) && Tidy(s.b)
    ensures BurstInv(s, DoA(s, BeginTurnOp))
  {
    HeaderKeeps(s, BeginTurnOp);
  }

  /** The system as a turn at a opens. */
  ghost function Opening(s: System): System
    requires |s.a.rx.slots| == MAXWIN
  {
    DoA(s, BeginTurnOp)
  }

  lemma BeganTurn(s: System)
    requires |s.a.rx.slots| == MAXWIN
    ensures var z := Opening(s);
      && z.a.tx == TxBeginTurn(s.a.tx) && z.ab == s.ab && z.b == s.b
      && |z.a.tx.win| == |s.a.tx.win| && z.a.tx.queue == s.a.tx.queue
      && (forall i :: 0 <= i < |z.a.tx.win| ==> !z.a.tx.win[i].txThisTurn)
      && SameAcks(s.a.tx.win, z.a.tx.win)
  {
  }


  /** A turn is its burst, or a poll after an empty one. */
  lemma ExchangeParts(s: System, clock: nat -> u32)
    requires Inv(s) && Facing(s.a, s.b) && Tidy(s.a) && Tidy(s.b)
    ensures BurstInv(s, Opening(s)) && BurstInv(Opening(s), Burst(Opening(s), clock, 0, true))
    ensures
      var s0 := Opening(s);
      var z := Burst(s0, clock, 0, true);
      Exchange(s, clock) == if NextTx(s0.a, clock(0)).1.Some? then z else PollHeard(z)
  {
    OpenTurn(s);
    BurstKeeps(DoA(s, BeginTurnOp), clock, 0, true);
  }

  lemma PollKeeps(s: System)
    requires Inv(s) && Facing(s.a, s.b) && Tidy(s.a) && Tidy(s.b)
    ensures
      var z := PollHeard(s);
      && BurstInv(s, z) && z.a == s.a && z.ab == s.ab && z.b.rx == s.b.rx
      && z.ba.base == s.ba.base + Released(s.b.tx, s.a.rx.next, SackOf(s.a.rx))
  {
    var p := Packet(Poll(s.a), 0, s.ba.rn);
    EmitKeeps(s, p);
    var s1 := DoA(s, PollOp);
    WindowBounds(s.b.tx, s.a.rx, s.ba);
    assert InTime(s1.ba, s1.ab, p);
    assert ForMe(s1.b, p.frame);
    RecvShape(Swap(s1), p);
    HearKeeps(s1, p);
  }

  /** A turn keeps the invariant and only adds to what was framed, heard and acknowledged. */
  lemma ExchangeKeeps(s: System, clock: nat -> u32)
    requires Inv(s) && Facing(s.a, s.b) && Tidy(s.a) && Tidy(s.b)
    ensures BurstInv(s, Exchange(s, clock))
  {
    hide Exchange, Opening, Burst, PollHeard, NextTx, ArqSystem.Inv, Orderly, CanDeliver;
    ExchangeParts(s, clock);
    var s0 := Opening(s);
    if NextTx(s0.a, clock(0)).1.None? { PollKeeps(Burst(s0, clock, 0, true)); }
  }

  /** The receiver is ready for a full window: ring drained, nothing deliverable held back. */
  ghost predicate Ready(r: RxHalf) {
    |r.slots| == MAXWIN && r.queue == [] && !CanDeliver(r) && r.cap >= BURST_BYTES
  }

  lemma ReadyBase(s: System)
    requires Inv(s) && Ready(s.b.rx)
    ensures s.ab.base <= s.ab.rn
    ensures s.ab.read == s.ab.stale + Flat(s.ab.hist[..s.ab.rn])
  {
    assert s.ab.read + s.b.rx.queue == s.ab.read;
    if s.ab.base > s.ab.rn {
      assert Got(s.b.rx.slots, s.ab.rn, s.ab.rn);
      assert SlotOk(s.b.rx.slots, s.ab.hist, s.ab.rn);
      FrontFits(s.b.rx, s.ab);
    }
  }

  /** What the ring has taken in by the end of a turn leaves nothing in order held back. */
  lemma NoneHeldBack(s: System, z: System)
    requires Inv(s) && Ready(s.b.rx) && BurstInv(s, z) && s.ab.hist <= z.ab.hist
    ensures !Full(z.b.rx.slots, z.ab.rn)
  {
    ReadyBase(s);
    assert z.ab.hist[..s.ab.rn] == s.ab.hist[..s.ab.rn];
    FrontNotHeld(z, s.ab.rn);
  }

  /** The frames of the window a turn sends from. */
  function TurnWindow(t: TxHalf): TxHalf { Fill(TxBeginTurn(t)) }

  /** A burst with a never-sent frame and expired timers delivers everything framed. */
  lemma BurstDelivers(s: System, clock: nat -> u32)
    requires Inv(s) && Facing(s.a, s.b) && Tidy(s.a) && Tidy(s.b) && Ready(s.b.rx) && SentHeard(s)
    requires Expired(s.a.tx, clock) && Flowing(s.a.tx, clock, true)
    ensures BurstInv(s, Burst(s, clock, 0, true))
    ensures Burst(s, clock, 0, true).ab.rn == |Burst(s, clock, 0, true).ab.hist|
    ensures Burst(s, clock, 0, true).a.tx.queue == Fill(s.a.tx).queue
  {
    hide Burst, Fill, Expired, SentHeard, Flowing, Orderly, CanDeliver, AllReached;
    ReadyBase(s);
    BurstReaches(s, clock, 0, true);
    BurstKeeps(s, clock, 0, true);
    var z := Burst(s, clock, 0, true);
    hide TxInv, AckInv, SlotsInv, SessionInv;
    assert z.ab.hist[..s.ab.rn] == s.ab.hist[..s.ab.rn];
    WindowSize(s);
    WindowSize(z);
    WindowCap(s);
    ReachedMeansDelivered(z, s.ab.rn);
  }

  lemma WindowCap(s: System)
    requires Inv(s) && s.ab.base <= s.ab.rn
    ensures |s.a.tx.win| <= MAXWIN && s.ab.rn <= |s.ab.hist|
  {
  }

  lemma NothingToSend(t: TxHalf, clock: nat -> u32)
    requires t.win == [] && !HasFresh(Fill(t).win)
    ensures Quiet(Fill(t), clock) && Fill(t) == t
  {
    NoFreshNoFill(t);
  }

  /** A fill that frames anything leaves a frame waiting. */
  lemma NoFreshNoFill(t: TxHalf)
    ensures Fill(t) != t ==> HasFresh(Fill(t).win)
  {
    if |t.win| < t.window && |t.queue| > 0 {
      FillAppends(FillOne(t));
      var w := Fill(t).win;
      assert w[|t.win|] == FillOne(t).win[|t.win|];
      assert MoreToSend(w, |w|);
    }
  }

  /** One turn with a never-sent frame, or with nothing in the window, delivers everything framed. */
  lemma FreshExchange(s: System, clock: nat -> u32)
    requires Inv(s) && Facing(s.a, s.b) && Tidy(s.a) && Tidy(s.b) && Ready(s.b.rx)
    requires Expired(TxBeginTurn(s.a.tx), clock)
    requires HasFresh(TurnWindow(s.a.tx).win) || s.a.tx.win == []
    ensures BurstInv(s, Exchange(s, clock))
    ensures Exchange(s, clock).ab.rn == |Exchange(s, clock).ab.hist|
    ensures Exchange(s, clock).a.tx.queue == TurnWindow(s.a.tx).queue
    ensures s.ab.hist <= Exchange(s, clock).ab.hist
  {
    ExchangeParts(s, clock);
    BeganTurn(s);
    var s0 := Opening(s);
    if !HasFresh(Fill(s0.a.tx).win) { NothingToSend(s0.a.tx, clock); }
    assert Flowing(s0.a.tx, clock, true) && SentHeard(s0);
    hide Exchange, Opening, Burst, Fill, NextTx, Expired, SentHeard, Flowing, HasFresh, ArqSystem.Inv, Orderly,
      CanDeliver, TxBeginTurn, PollHeard;
    BurstDelivers(s0, clock);
    BurstKeeps(s0, clock, 0, true);
    if NextTx(s0.a, clock(0)).1.None? { PollKeeps(Burst(s0, clock, 0, true)); }
  }

  /** A turn acknowledges nothing of its own. */
  ghost predicate SameAcks(w: seq<TxFrame>, w': seq<TxFrame>) {
    |w| <= |w'| && forall i :: 0 <= i < |w| ==> w'[i].acked == w[i].acked
  }

  /** A burst leaves as many frames in the window as its first fill did. */
  lemma {:induction false} BurstLength(s: System, clock: nat -> u32, k: nat, on: bool)
    requires Inv(s) && Facing(s.a, s.b) && Tidy(s.a) && Tidy(s.b)
    ensures |Burst(s, clock, k, on).a.tx.win| == |Fill(s.a.tx).win|
    ensures Burst(s, clock, k, on).a.tx.queue == Fill(s.a.tx).queue
    ensures SameAcks(s.a.tx.win, Burst(s, clock, k, on).a.tx.win)
    decreases |s.a.tx.queue|, Unsent(s.a.tx.win), if s.a.ackSentTurn then 0 else 1
  {
    hide BurstStep, NextTx, Fill, ArqSystem.Inv, Orderly, CanDeliver;
    BurstStepKeeps(s, clock(k), on);
    FillStays(s.a, clock(k));
    KeepsAcks(s.a, clock(k));
    var o := NextTx(s.a, clock(k)).1;
    if o.Some? {
      NextTxDecreases(s.a, clock(k));
      BurstLength(BurstStep(s, clock(k), on), clock, k + 1, on && o.value.more);
    }
  }

  lemma KeepsAcks(l: Link, now: u32)
    requires |l.rx.slots| == MAXWIN
    ensures SameAcks(l.tx.win, NextTx(l, now).0.tx.win)
  {
    FillAppends(l.tx);
    hide Fill, Eligible, SackOf, MoreToSend;
  }

  lemma FillStays(l: Link, now: u32)
    requires |l.rx.slots| == MAXWIN
    ensures var t := NextTx(l, now).0.tx; Fill(t) == t && |t.win| == |Fill(l.tx).win| && t.queue == Fill(l.tx).queue
  {
    hide MakeFrame, Poll, MoreToSend, Sent, Eligible;
    FillTwice(l.tx);
    NextTxFilled(l.(tx := Fill(l.tx)), now);
    assert NextTx(l.(tx := Fill(l.tx)), now).0.tx == NextTx(l, now).0.tx;
  }

  /** The front of a window of resends is due and goes first. */
  lemma FrontGoesFirst(l: Link, clock: nat -> u32)
    requires |l.rx.slots| == MAXWIN && Orderly(l.tx.win) && l.tx.win != [] && Expired(l.tx, clock)
    requires !HasFresh(Fill(l.tx).win) && forall i :: 0 <= i < |l.tx.win| ==> !l.tx.win[i].txThisTurn
    ensures Marked(l, clock(0)) == Some(0) && !NextTx(l, clock(0)).1.value.more
  {
    NoFreshNoFill(l.tx);
    var w := l.tx.win;
    assert w[0].everSent;
    assert Elapsed(clock(0), w[0].sentAt) >= l.tx.retransmitMs;
    StaleFirst(l, clock(0), clock(0));
  }

  /** The first frame of a burst of resends is heard and delivered; it says that no more follow. */
  lemma StaleFirstHeard(s: System, clock: nat -> u32)
    requires Inv(s) && Facing(s.a, s.b) && Tidy(s.a) && Tidy(s.b) && Ready(s.b.rx)
    requires Expired(s.a.tx, clock) && !HasFresh(Fill(s.a.tx).win) && s.a.tx.win != []
    requires forall i :: 0 <= i < |s.a.tx.win| ==> !s.a.tx.win[i].txThisTurn
    ensures
      var z, o := BurstStep(s, clock(0), true), NextTx(s.a, clock(0)).1;
      BurstInv(s, z) && o.Some? && !o.value.more && s.ab.hist == z.ab.hist && z.ab.rn > s.ab.base
  {
    ReadyBase(s);
    FrontGoesFirst(s.a, clock);
    StepHears(s, clock(0));
    BurstStepKeeps(s, clock(0), true);
    StepHist(s, clock(0), true);
    NoFreshNoFill(s.a.tx);
    FillStays(s.a, clock(0));
    var z := BurstStep(s, clock(0), true);
    WindowSize(s);
    WindowSize(z);
    hide NextTx, Fill, BurstStep, Expired, HasFresh, Orderly, CanDeliver, ArqSystem.Inv;
    NoneHeldBack(s, z);
    FrontDelivered(z.b.rx.slots, z.ab.rn, s.ab.base);
    assert |z.ab.hist| == |s.ab.hist|;
  }

  lemma FrontDelivered(slots: seq<RxSlot>, rn: nat, a: nat)
    requires |slots| == MAXWIN && Got(slots, rn, a) && a <= rn && !Full(slots, rn)
    ensures a < rn
  {
  }

  /**
   * One turn of nothing but resends, with expired timers: the listener takes in its first frame,
   * which is the front of the window, and no other; that frame is delivered.
   */
  lemma StaleExchange(s: System, clock: nat -> u32)
    requires Inv(s) && Facing(s.a, s.b) && Tidy(s.a) && Tidy(s.b) && Ready(s.b.rx)
    requires Expired(TxBeginTurn(s.a.tx), clock)
    requires !HasFresh(TurnWindow(s.a.tx).win) && s.a.tx.win != []
    ensures
      var z := Exchange(s, clock);
      && BurstInv(s, z) && s.ab.hist == z.ab.hist && z.ab.rn > s.ab.base
      && z.a.tx.queue == s.a.tx.queue
  {
    ExchangeParts(s, clock);
    BeganTurn(s);
    var s0 := Opening(s);
    hide Exchange, Opening, BurstStep, Fill, NextTx, Burst, Expired, HasFresh, TxBeginTurn, Orderly, CanDeliver,
      ArqSystem.Inv;
    StaleFirstHeard(s0, clock);
    NoFreshNoFill(s0.a.tx);
    StaleRest(s0, clock);
  }

  /** After that frame nobody listens. */
  lemma StaleRest(s: System, clock: nat -> u32)
    requires Inv(s) && Facing(s.a, s.b) && Tidy(s.a) && Tidy(s.b) && Fill(s.a.tx) == s.a.tx
    requires NextTx(s.a, clock(0)).1.Some? && !NextTx(s.a, clock(0)).1.value.more
    ensures
      var y, z := BurstStep(s, clock(0), true), Burst(s, clock, 0, true);
      && BurstInv(s, z) && z.b == y.b && z.ab.rn == y.ab.rn
      && s.ab.hist == z.ab.hist && z.a.tx.queue == s.a.tx.queue && SameAcks(s.a.tx.win, z.a.tx.win)
  {
    hide BurstStep, NextTx, Fill, ArqSystem.Inv, Orderly, CanDeliver, SameAcks;
    BurstStepKeeps(s, clock(0), true);
    NextTxDecreases(s.a, clock(0));
    BurstLength(s, clock, 0, true);
    BurstKeeps(s, clock, 0, true);
    var y, z := BurstStep(s, clock(0), true), Burst(s, clock, 0, true);
    BurstKeeps(y, clock, 1, false);
    WindowSize(s);
    WindowSize(z);
    assert |z.ab.hist| == |s.ab.hist|;
  }

  // ---- the acks coming back ----

  /** An ack releases everything below it. */
  lemma AckReleases(t: TxHalf, f: Flow, ack: nat, sack: Sack)
    requires TxInv(t, f) && ack <= |f.hist| && f.base - ack <= 239
    ensures f.base + Released(t, Wrap8(ack), sack) >= ack
  {
    CumExact(t, f.base, |f.hist|, ack);
    var m := MarkAcked(t, Wrap8(ack), sack);
    assert forall i :: 0 <= i < ack - f.base ==> m[i].acked;
    assert LeadingAcked(m) >= ack - f.base;
  }

  /** In b's turn (seen from b as the sender) the first frame acknowledges everything b has delivered. */
  lemma StepAcks(w: System, now: u32)
    requires Inv(w) && Facing(w.a, w.b) && Tidy(w.a) && Tidy(w.b) && NextTx(w.a, now).1.Some?
    ensures BurstStep(w, now, true).ba.base >= w.ba.rn
  {
    SendShape(w, now);
    var s1 := DoA(w, NextTxOp(now));
    var p := Labelled(w, now, NextTx(w.a, now).1.value);
    PromptPacketInTime(w, now);
    FrameAddressed(w.a, w.b, now);
    HearKeeps(s1, p);
    WindowBounds(w.b.tx, w.a.rx, w.ba);
    AckReleases(w.b.tx, w.ba, w.ba.rn, p.frame.sack);
  }

  lemma BurstAcks(w: System, clock: nat -> u32)
    requires Inv(w) && Facing(w.a, w.b) && Tidy(w.a) && Tidy(w.b) && NextTx(w.a, clock(0)).1.Some?
    ensures Burst(w, clock, 0, true).ba.base >= w.ba.rn
  {
    StepAcks(w, clock(0));
    BurstStepKeeps(w, clock(0), true);
    NextTxDecreases(w.a, clock(0));
    BurstKeeps(BurstStep(w, clock(0), true), clock, 1, NextTx(w.a, clock(0)).1.value.more);
    hide BurstStep, NextTx;
  }

  /** A turn, even an empty one, acknowledges everything delivered. */
  lemma ExchangeAcks(w: System, clock: nat -> u32)
    requires Inv(w) && Facing(w.a, w.b) && Tidy(w.a) && Tidy(w.b)
    ensures Exchange(w, clock).ba.base >= w.ba.rn
  {
    ExchangeParts(w, clock);
    BeganTurn(w);
    var s0 := Opening(w);
    BurstKeeps(s0, clock, 0, true);
    hide Exchange, Opening, Burst, NextTx, PollHeard;
    if NextTx(s0.a, clock(0)).1.Some? {
      BurstAcks(s0, clock);
    } else {
      var s1 := Burst(s0, clock, 0, true);
      PollKeeps(s1);
      WindowBounds(s1.b.tx, s1.a.rx, s1.ba);
      AckReleases(s1.b.tx, s1.ba, s1.ba.rn, SackOf(s1.a.rx));
    }
  }

  // ---- rounds ----

  /** What a round asks of the state: a drained receiver, addressed ends, and timers that have run out. */
  ghost predicate CanRound(s: System, ca: nat -> u32) {
    && Inv(s) && Facing(s.a, s.b) && Tidy(s.a) && Tidy(s.b) && Ready(s.b.rx)
    && Expired(TxBeginTurn(s.a.tx), ca)
  }

  /** Only the drained ring, its size, the addresses and the timers are asked for: runs keep the rest. */
  lemma ReachableCanRound(s: System, es: seq<Event>, ca: nat -> u32)
    requires Start(s) && Run(s, es)
    requires var z := After(s, es);
      Facing(z.a, z.b) && z.b.rx.queue == [] && z.b.rx.cap >= BURST_BYTES && Expired(TxBeginTurn(z.a.tx), ca)
    ensures CanRound(After(s, es), ca)
  {
    StartInv(s);
    RunKeeps(s, es);
    RunTidy(s, es);
  }

  /** a's turn and b's turn. */
  ghost function Turns(s: System, ca: nat -> u32, cb: nat -> u32): System
    requires CanRound(s, ca)
  {
    ExchangeKeeps(s, ca);
    var m := Swap(Exchange(s, ca));
    assert Inv(m);
    ExchangeKeeps(m, cb);
    Swap(Exchange(m, cb))
  }

  /** One round: a's turn, b's turn, then b's application reads everything delivered. */
  ghost function Round(s: System, ca: nat -> u32, cb: nat -> u32): System
    requires CanRound(s, ca)
  {
    TurnsKeep(s, ca, cb);
    var z := Turns(s, ca, cb);
    Swap(DoA(Swap(z), ReadOp(|z.b.rx.queue|)))
  }

  /** What both turns leave: the invariant, and all that b had delivered acknowledged. */
  lemma TurnsKeep(s: System, ca: nat -> u32, cb: nat -> u32)
    requires CanRound(s, ca)
    ensures
      var m, z := Exchange(s, ca), Turns(s, ca, cb);
      && BurstInv(s, m) && Inv(z) && Facing(z.a, z.b) && Tidy(z.a) && Tidy(z.b)
      && z.b.rx == m.b.rx && z.ab.rn == m.ab.rn && z.ab.hist == m.ab.hist && z.ab.read == m.ab.read
      && z.ab.base >= m.ab.rn && z.ab.accepted == s.ab.accepted && z.ab.stale == s.ab.stale
      && z.a.tx.queue == m.a.tx.queue && z.a.tx.window == s.a.tx.window && z.b.rx.cap == s.b.rx.cap
  {
    ExchangeKeeps(s, ca);
    var m := Swap(Exchange(s, ca));
    assert Inv(m);
    ExchangeKeeps(m, cb);
    ExchangeAcks(m, cb);
    hide Exchange;
  }

  /** b's application reads everything delivered; nothing held becomes deliverable by that. */
  lemma ReadAll(z: System)
    requires Inv(z) && Facing(z.a, z.b) && Tidy(z.a) && Tidy(z.b)
    requires !Full(z.b.rx.slots, z.ab.rn) && z.b.rx.cap >= BURST_BYTES
    ensures
      var y := Swap(DoA(Swap(z), ReadOp(|z.b.rx.queue|)));
      && Inv(y) && Facing(y.a, y.b) && Tidy(y.a) && Tidy(y.b) && Ready(y.b.rx) && y.a == z.a
      && y.ab == z.ab.(read := y.ab.read) && y.ab.read == y.ab.stale + Flat(y.ab.hist[..y.ab.rn])
  {
    ReadKeeps(Swap(z), |z.b.rx.queue|);
    StepTidy(Swap(z), ReadOp(|z.b.rx.queue|));
    DrainNothing(z.b.rx, z.ab, |z.b.rx.queue|);
  }

  /** When the next frame is not held, reading frees nothing more. */
  lemma DrainNothing(r: RxHalf, f: Flow, n: nat)
    requires RxInv(r, f) && !Full(r.slots, f.rn) && n == |r.queue|
    ensures RxRead(r, n) == AfterRead(r, n) && AfterRead(r, n).queue == []
    ensures ReadFlow(r, f, n) == f.(read := f.read + r.queue)
    ensures !CanDeliver(AfterRead(r, n))
  {
    WrapSlot(f.rn);
    assert r.queue[..n] == r.queue;
  }

  /** How many frames are in the window: framed and not released. */
  lemma WindowSize(s: System)
    requires Inv(s)
    ensures |s.a.tx.win| == |s.ab.hist| - s.ab.base && s.ab.rn <= |s.ab.hist|
  {
  }

  /** What any round leaves. */
  lemma RoundKeeps(s: System, ca: nat -> u32, cb: nat -> u32)
    requires CanRound(s, ca)
    ensures
      var m, z := Exchange(s, ca), Round(s, ca, cb);
      && Inv(z) && Facing(z.a, z.b) && Tidy(z.a) && Tidy(z.b) && Ready(z.b.rx)
      && z.ab.rn == m.ab.rn && z.ab.hist == m.ab.hist && z.ab.base >= m.ab.rn
      && z.ab.read == z.ab.stale + Flat(z.ab.hist[..z.ab.rn])
      && z.ab.accepted == s.ab.accepted && z.ab.stale == s.ab.stale
      && z.a.tx.queue == m.a.tx.queue && z.a.tx.window == s.a.tx.window
  {
    TurnsKeep(s, ca, cb);
    ExchangeHist(s, ca);
    NoneHeldBack(s, Exchange(s, ca));
    hide Exchange, Turns;
    ReadAll(Turns(s, ca, cb));
  }

  lemma ExchangeHist(s: System, clock: nat -> u32)
    requires Inv(s) && Facing(s.a, s.b) && Tidy(s.a) && Tidy(s.b)
    ensures s.ab.hist <= Exchange(s, clock).ab.hist
  {
    ExchangeParts(s, clock);
    BeganTurn(s);
    var s0 := Opening(s);
    BurstKeeps(s0, clock, 0, true);
    hide Exchange, Opening, Burst, PollHeard, NextTx, ArqSystem.Inv, Orderly, CanDeliver;
    if NextTx(s0.a, clock(0)).1.None? { PollKeeps(Burst(s0, clock, 0, true)); }
  }

  /** A round in which a never-sent frame goes out: the window empties, everything framed is read by the peer. */
  lemma FreshRoundEmptiesWindow(s: System, ca: nat -> u32, cb: nat -> u32)
    requires CanRound(s, ca) && (HasFresh(TurnWindow(s.a.tx).win) || s.a.tx.win == [])
    ensures
      var z := Round(s, ca, cb);
      && z.a.tx.win == [] && z.ab.rn == |z.ab.hist| && z.ab.read == z.ab.stale + Flat(z.ab.hist)
      && z.a.tx.queue == TurnWindow(s.a.tx).queue
  {
    hide Exchange, Round, HasFresh, TurnWindow, Tidy, Expired, TxBeginTurn;
    FreshExchange(s, ca);
    RoundKeeps(s, ca, cb);
    AllAcked(Round(s, ca, cb));
  }

  lemma AllAcked(z: System)
    requires Inv(z) && z.ab.rn == |z.ab.hist| && z.ab.base >= z.ab.rn
    requires z.ab.read == z.ab.stale + Flat(z.ab.hist[..z.ab.rn])
    ensures z.a.tx.win == [] && z.ab.read == z.ab.stale + Flat(z.ab.hist)
  {
    WindowSize(z);
    assert z.ab.hist[..|z.ab.hist|] == z.ab.hist;
  }

  /** A round of nothing but resends: at least the front frame leaves the window. */
  lemma StaleRoundShrinksWindow(s: System, ca: nat -> u32, cb: nat -> u32)
    requires CanRound(s, ca) && !HasFresh(TurnWindow(s.a.tx).win) && s.a.tx.win != []
    ensures
      var z := Round(s, ca, cb);
      |z.a.tx.win| < |s.a.tx.win| && z.a.tx.queue == s.a.tx.queue
  {
    StaleExchange(s, ca);
    RoundKeeps(s, ca, cb);
    var z := Round(s, ca, cb);
    hide Exchange, Round, CanRound, HasFresh, TurnWindow, ArqSystem.Inv, Tidy, BurstInv;
    WindowSize(z);
    WindowSize(s);
  }

  /** With the window empty and the ring drained, everything framed has been read. */
  lemma EmptyMeansRead(z: System)
    requires Inv(z) && Ready(z.b.rx) && z.a.tx.win == []
    ensures z.ab.rn == |z.ab.hist| && z.ab.read == z.ab.stale + Flat(z.ab.hist)
  {
    ReadyBase(z);
    WindowSize(z);
    assert z.ab.hist[..|z.ab.hist|] == z.ab.hist;
  }

  // ---- how many rounds ----

  /** Rounds k, k+1, ..., n-1, each with its own clocks, each with its timers run out. */
  ghost predicate RoundsOk(s: System, ca: nat -> nat -> u32, cb: nat -> nat -> u32, k: nat, n: nat)
    decreases n - k
  {
    k >= n || (CanRound(s, ca(k)) && RoundsOk(Round(s, ca(k), cb(k)), ca, cb, k + 1, n))
  }

  ghost function Rounds(s: System, ca: nat -> nat -> u32, cb: nat -> nat -> u32, k: nat, n: nat): System
    decreases n - k
  {
    if k >= n || !CanRound(s, ca(k)) then s else Rounds(Round(s, ca(k), cb(k)), ca, cb, k + 1, n)
  }

  /** What any number of rounds keeps. */
  ghost predicate Between(s: System, z: System) {
    && Inv(z) && Facing(z.a, z.b) && Tidy(z.a) && Tidy(z.b) && Ready(z.b.rx)
    && z.ab.accepted == s.ab.accepted && z.ab.stale == s.ab.stale
    && z.a.tx.window == s.a.tx.window && |z.a.tx.queue| <= |s.a.tx.queue|
  }

  /** Any round either empties the window or shortens it. */
  lemma RoundShrinks(s: System, ca: nat -> u32, cb: nat -> u32)
    requires CanRound(s, ca)
    ensures var z := Round(s, ca, cb);
      Between(s, z) && (z.a.tx.win == [] || |z.a.tx.win| < |s.a.tx.win|)
  {
    RoundKeeps(s, ca, cb);
    FillIdle(TxBeginTurn(s.a.tx));
    hide Round;
    if HasFresh(TurnWindow(s.a.tx).win) || s.a.tx.win == [] {
      FreshRoundEmptiesWindow(s, ca, cb);
    } else {
      StaleRoundShrinksWindow(s, ca, cb);
    }
  }

  /**
   * Rounds that empty a window. One, if a never-sent frame goes out; else a round for every frame,
   * but with bytes queued only until there is room to frame some, which makes the next one fresh.
   */
  function RoundsToEmpty(t: TxHalf): (n: nat)
    ensures 1 <= n && (t.win != [] ==> n <= |t.win|)
  {
    if t.win == [] || HasFresh(TurnWindow(t).win) then 1
    else if t.queue != [] && |t.win| >= t.window >= 2 then |t.win| - t.window + 2
    else |t.win|
  }

  /** A window that did not empty in a round needs one round less. */
  lemma RoundSpent(s: System, ca: nat -> u32, cb: nat -> u32)
    requires CanRound(s, ca)
    ensures var z := Round(s, ca, cb);
      Between(s, z) && (z.a.tx.win == [] || RoundsToEmpty(z.a.tx) < RoundsToEmpty(s.a.tx))
  {
    hide Round, CanRound, Between, HasFresh, TurnWindow;
    RoundShrinks(s, ca, cb);
    if HasFresh(TurnWindow(s.a.tx).win) || s.a.tx.win == [] {
      FreshRoundEmptiesWindow(s, ca, cb);
    } else {
      StaleRoundShrinksWindow(s, ca, cb);
      SameWindow(s, Round(s, ca, cb));
      RoomMeansFresh(s.a.tx);
      RoomMeansFresh(Round(s, ca, cb).a.tx);
    }
  }

  lemma SameWindow(s: System, z: System)
    requires Between(s, z)
    ensures z.a.tx.window == s.a.tx.window
  {
  }

  /** Room in the window and bytes to fill it: the next turn has a never-sent frame. */
  lemma RoomMeansFresh(t: TxHalf)
    ensures |t.win| < t.window && t.queue != [] ==> HasFresh(TurnWindow(t).win)
  {
    var y := TxBeginTurn(t);
    if |t.win| < t.window && t.queue != [] {
      FillIdle(FillOne(y));
      FillAppends(y);
      var i := |t.win|;
      assert !TurnWindow(t).win[i].acked && !TurnWindow(t).win[i].txThisTurn && !TurnWindow(t).win[i].everSent;
    }
  }

  /** That many rounds empty the window. */
  lemma {:induction false} RoundsEmptyWindow(s: System, ca: nat -> nat -> u32, cb: nat -> nat -> u32, k: nat, n: nat)
    requires RoundsOk(s, ca, cb, k, n) && k < n && n - k >= RoundsToEmpty(s.a.tx)
    ensures var z := Rounds(s, ca, cb, k, n); Between(s, z) && z.a.tx.win == []
    decreases n - k
  {
    hide Round, CanRound, Between, Rounds, RoundsOk, RoundsToEmpty;
    FirstRoundOk(s, ca, cb, k, n);
    RoundSpent(s, ca(k), cb(k));
    RoundsStep(s, ca, cb, k, n);
    var y := Round(s, ca(k), cb(k));
    if k + 1 < n {
      EmptyNeedsOne(y.a.tx);
      RoundsEmptyWindow(y, ca, cb, k + 1, n);
      BetweenTrans(s, y, Rounds(y, ca, cb, k + 1, n));
    } else {
      NoRounds(y, ca, cb, n);
    }
  }

  lemma EmptyNeedsOne(t: TxHalf)
    ensures t.win == [] ==> RoundsToEmpty(t) == 1
  {
  }

  /** An empty window takes a full window's worth of bytes from the queue. */
  lemma {:induction false} FillTakes(t: TxHalf)
    requires |t.win| <= t.window
    ensures |Fill(t).queue| == if |t.queue| <= (t.window - |t.win|) * MAXPAY then 0
      else |t.queue| - (t.window - |t.win|) * MAXPAY
    decreases |t.queue|
  {
    if |t.win| < t.window && |t.queue| > 0 { FillTakes(FillOne(t)); }
  }

  /** What is left of q queued bytes after n rounds of w bytes each. */
  function Left(q: nat, w: nat, n: nat): nat { if q <= n * w then 0 else q - n * w }

  lemma LeftStep(q: nat, w: nat, n: nat)
    requires n > 0
    ensures Left(Left(q, w, 1), w, n - 1) == Left(q, w, n)
  {
    assert n * w == (n - 1) * w + w;
    assert 0 <= (n - 1) * w;
  }

  /** One round from an empty window, whatever the timers. */
  lemma RoundMoves(s: System, ca: nat -> u32, cb: nat -> u32)
    requires Between(s, s) && s.a.tx.win == []
    ensures CanRound(s, ca)
    ensures var z := Round(s, ca, cb);
      Between(s, z) && z.a.tx.win == [] && |z.a.tx.queue| == Left(|s.a.tx.queue|, s.a.tx.window * MAXPAY, 1)
  {
    assert CanRound(s, ca);
    RoundShrinks(s, ca, cb);
    FreshRoundEmptiesWindow(s, ca, cb);
    FillTakes(TxBeginTurn(s.a.tx));
  }

  lemma LeftNone(q: nat, w: nat, n: nat)
    requires q <= n * w
    ensures Left(q, w, n) == 0
  {
  }

  lemma BetweenTrans(s: System, y: System, z: System)
    requires Between(s, y) && (Between(y, z) || y == z)
    ensures Between(s, z) && Between(y, y) && y.a.tx.window == s.a.tx.window && |y.a.tx.queue| <= |s.a.tx.queue|
    ensures y.ab.stale == s.ab.stale && y.ab.accepted == s.ab.accepted
  {
  }

  /** From an empty window each round moves a full window's worth of payload until none is left. */
  lemma {:induction false} RoundsDeliver(s: System, ca: nat -> nat -> u32, cb: nat -> nat -> u32, k: nat, n: nat)
    requires Between(s, s) && s.a.tx.win == [] && k <= n
    ensures RoundsOk(s, ca, cb, k, n)
    ensures
      var z := Rounds(s, ca, cb, k, n);
      && Between(s, z) && z.a.tx.win == []
      && |z.a.tx.queue| == Left(|s.a.tx.queue|, s.a.tx.window * MAXPAY, n - k)
    decreases n - k
  {
    hide Round, Between, CanRound, Left, Rounds, RoundsOk;
    if k < n {
      RoundMoves(s, ca(k), cb(k));
      var y := Round(s, ca(k), cb(k));
      BetweenTrans(s, y, y);
      RoundsDeliver(y, ca, cb, k + 1, n);
      RoundsStep(s, ca, cb, k, n);
      BetweenTrans(s, y, Rounds(y, ca, cb, k + 1, n));
      LeftStep(|s.a.tx.queue|, s.a.tx.window * MAXPAY, n - k);
    } else {
      NoRounds(s, ca, cb, k);
    }
  }

  lemma NoRounds(s: System, ca: nat -> nat -> u32, cb: nat -> nat -> u32, k: nat)
    ensures RoundsOk(s, ca, cb, k, k) && Rounds(s, ca, cb, k, k) == s
    ensures Left(|s.a.tx.queue|, s.a.tx.window * MAXPAY, 0) == |s.a.tx.queue|
  {
  }

  lemma FirstRoundOk(s: System, ca: nat -> nat -> u32, cb: nat -> nat -> u32, k: nat, n: nat)
    requires k < n && RoundsOk(s, ca, cb, k, n)
    ensures CanRound(s, ca(k))
  {
  }

  lemma RoundsStep(s: System, ca: nat -> nat -> u32, cb: nat -> nat -> u32, k: nat, n: nat)
    requires k < n && CanRound(s, ca(k))
    ensures var y := Round(s, ca(k), cb(k));
      && (RoundsOk(s, ca, cb, k, n) <==> RoundsOk(y, ca, cb, k + 1, n))
      && Rounds(s, ca, cb, k, n) == Rounds(y, ca, cb, k + 1, n)
  {
    hide Round, CanRound;
  }

  /**
   * From any state runs can reach: RoundsToEmpty rounds with expired timers empty the window; then
   * after ceil(q / (window * MAXPAY)) more the peer's application has read every byte accepted,
   * where q is what is still queued by then.
   */
  lemma EverythingDelivered(s: System, y: System, ca: nat -> nat -> u32, cb: nat -> nat -> u32, m: nat, n: nat)
    requires RoundsOk(s, ca, cb, 0, m) && m >= RoundsToEmpty(s.a.tx) && y == Rounds(s, ca, cb, 0, m)
    requires |y.a.tx.queue| <= n * (s.a.tx.window * MAXPAY)
    ensures RoundsOk(y, ca, cb, m, m + n)
    ensures
      var z := Rounds(y, ca, cb, m, m + n);
      && Between(s, z) && z.a.tx.queue == [] && z.a.tx.win == []
      && z.ab.read == s.ab.stale + s.ab.accepted && |y.a.tx.queue| <= |s.a.tx.queue|
  {
    hide Rounds, RoundsOk, Round, Between, CanRound, Left;
    RoundsEmptyWindow(s, ca, cb, 0, m);
    BetweenTrans(s, y, y);
    RoundsDeliver(y, ca, cb, m, m + n);
    LeftNone(|y.a.tx.queue|, s.a.tx.window * MAXPAY, n);
    var z := Rounds(y, ca, cb, m, m + n);
    BetweenTrans(s, y, z);
    BetweenTrans(s, z, z);
    AllRead(z);
  }

  lemma AllRead(z: System)
    requires Between(z, z) && z.a.tx.win == [] && z.a.tx.queue == []
    ensures z.ab.read == z.ab.stale + z.ab.accepted
  {
    EmptyMeansRead(z);
    assert Flat(z.ab.hist) + [] == Flat(z.ab.hist);
  }

  // ---- the listener really does cost rounds ----

  /** The receiver holds nothing out of order. */
  ghost predicate NothingHeld(slots: seq<RxSlot>) { forall j :: 0 <= j < |slots| ==> !slots[j].received }

  /** The next frame, alone: stored, delivered, and nothing is held again. */
  lemma LoneFrameDelivered(r: RxHalf, f: Flow)
    requires RxInv(r, f) && NothingHeld(r.slots) && f.rn < |f.hist| && |r.queue| + |f.hist[f.rn]| <= r.cap
    ensures
      var x := f.hist[f.rn];
      var r' := RxData(r, Wrap8(f.rn), x);
      && RxDataCount(r, Wrap8(f.rn), x) == 1
      && |r'.slots| == MAXWIN && NothingHeld(r'.slots) && r'.next == Wrap8(f.rn + 1)
  {
    WrapDiff(f.rn, f.rn);
    WrapSum(f.rn, 1);
    var r1 := Store(r, Wrap8(f.rn), f.hist[f.rn]);
    assert CanDeliver(r1);
    var r2 := Deliver(r1);
    assert NothingHeld(r2.slots);
    assert !CanDeliver(r2);
    assert Drain(r2) == r2 && Drain(r1) == r2;
    assert DrainCount(r2) == 0 && DrainCount(r1) == 1;
  }

  lemma NoSack(r: RxHalf)
    requires |r.slots| == MAXWIN && NothingHeld(r.slots)
    ensures forall d :: 0 <= d < 16 ==> !SackOf(r)[d]
  {
    forall d | 0 <= d < 16 ensures !SackOf(r)[d] {
      assert !Holds(r, Wrap8(r.next + 1 + d));
    }
  }

  /** An ack for the front frame alone leaves the others. */
  lemma AckOne(t: TxHalf, f: Flow, r: RxHalf)
    requires TxInv(t, f) && |t.win| >= 2 && !t.win[1].acked
    requires |r.slots| == MAXWIN && NothingHeld(r.slots) && r.next == Wrap8(f.base + 1)
    ensures |TxAck(t, r.next, SackOf(r)).win| == |t.win| - 1
  {
    CumExact(t, f.base, |f.hist|, f.base + 1);
    NoSack(r);
    hide SackOf;
    var m := MarkAcked(t, r.next, SackOf(r));
    assert m[0].acked && !m[1].acked;
    assert LeadingAcked(m) == 1;
  }

  /**
   * A window of n due resends, none of which the peer has: of the whole burst the peer takes in
   * the front frame alone, and its ack leaves n - 1 frames in the window.
   */
  lemma StaleBurstHeardOnce(s: System, clock: nat -> u32)
    requires Inv(s) && Facing(s.a, s.b) && Tidy(s.a) && Tidy(s.b) && Ready(s.b.rx)
    requires Expired(TxBeginTurn(s.a.tx), clock) && !HasFresh(TurnWindow(s.a.tx).win)
    requires |s.a.tx.win| >= 2 && (forall i :: 0 <= i < |s.a.tx.win| ==> !s.a.tx.win[i].acked)
    requires s.ab.rn == s.ab.base && NothingHeld(s.b.rx.slots)
    ensures |Turn(s.a, clock).1| >= 2
    ensures var z := Exchange(s, clock);
      && z.ab.rn == s.ab.rn + 1 && |z.a.tx.win| == |s.a.tx.win| && |z.b.rx.slots| == MAXWIN
      && |TxAck(z.a.tx, z.b.rx.next, SackOf(z.b.rx)).win| == |s.a.tx.win| - 1
  {
    hide Exchange, Opening, Burst, PollHeard, Fill, NextTx, SendTurn, Turn, Expired, HasFresh, TxAck, SackOf, Orderly,
      CanDeliver, TxBeginTurn, ArqSystem.Inv;
    ExchangeParts(s, clock);
    BeganTurn(s);
    var s0 := Opening(s);
    TurnOf(s, clock);
    NoFreshNoFill(s0.a.tx);
    BothDue(s0.a, clock);
    StaleHeardExactly(s0, clock);
    FrontReleased(s, Burst(s0, clock, 0, true));
  }

  /** With the front frame delivered and nothing held, its ack releases it alone. */
  lemma FrontReleased(s: System, z: System)
    requires Inv(s) && Inv(z) && |s.a.tx.win| >= 2 && !s.a.tx.win[1].acked && SameAcks(s.a.tx.win, z.a.tx.win)
    requires s.ab.hist == z.ab.hist && s.ab.base == z.ab.base
    requires |z.b.rx.slots| == MAXWIN && NothingHeld(z.b.rx.slots) && z.b.rx.next == Wrap8(s.ab.base + 1)
    ensures |z.a.tx.win| == |s.a.tx.win|
    ensures |TxAck(z.a.tx, z.b.rx.next, SackOf(z.b.rx)).win| == |s.a.tx.win| - 1
  {
    WindowSize(s);
    WindowSize(z);
    AckOne(z.a.tx, z.ab, z.b.rx);
  }

  lemma TurnOf(s: System, clock: nat -> u32)
    requires |s.a.rx.slots| == MAXWIN
    ensures Turn(s.a, clock) == SendTurn(Opening(s).a, clock, 0)
    ensures (NextTx(Opening(s).a, clock(0)).1.Some? <==> SendTurn(Opening(s).a, clock, 0).1 != [])
  {
    if NextTx(Opening(s).a, clock(0)).1.Some? { NextTxDecreases(Opening(s).a, clock(0)); }
  }

  lemma BothDue(l: Link, clock: nat -> u32)
    requires |l.rx.slots| == MAXWIN && Expired(l.tx, clock) && !HasFresh(Fill(l.tx).win) && Fill(l.tx) == l.tx
      && |l.tx.win| >= 2
    requires forall i :: 0 <= i < |l.tx.win| ==> !l.tx.win[i].acked && !l.tx.win[i].txThisTurn
    ensures |SendTurn(l, clock, 0).1| >= 2
  {
    ExpiredSteady(l.tx, clock);
    var w := l.tx.win;
    assert w[0].everSent && w[1].everSent;
    assert Elapsed(clock(0), w[0].sentAt) >= l.tx.retransmitMs;
    assert Elapsed(clock(0), w[1].sentAt) >= l.tx.retransmitMs;
    StaleTurn(l, clock);
  }

  lemma StaleHeardExactly(s: System, clock: nat -> u32)
    requires Inv(s) && Facing(s.a, s.b) && Tidy(s.a) && Tidy(s.b) && Ready(s.b.rx)
    requires Expired(s.a.tx, clock) && !HasFresh(Fill(s.a.tx).win) && s.a.tx.win != []
    requires forall i :: 0 <= i < |s.a.tx.win| ==> !s.a.tx.win[i].txThisTurn
    requires s.ab.rn == s.ab.base && NothingHeld(s.b.rx.slots)
    ensures var z := Burst(s, clock, 0, true);
      && BurstInv(s, z) && s.ab.hist == z.ab.hist
      && z.ab.rn == s.ab.rn + 1 && SameAcks(s.a.tx.win, z.a.tx.win)
      && |z.b.rx.slots| == MAXWIN && NothingHeld(z.b.rx.slots) && z.b.rx.next == Wrap8(s.ab.rn + 1)
  {
    FrontGoesFirst(s.a, clock);
    NoFreshNoFill(s.a.tx);
    StaleRest(s, clock);
    SendShape(s, clock(0));
    LabelTrue(s, clock(0));
    PromptPacketInTime(s, clock(0));
    FrameAddressed(s.a, s.b, clock(0));
    var p := Labelled(s, clock(0), NextTx(s.a, clock(0)).1.value);
    var s1 := DoA(s, NextTxOp(clock(0)));
    assert p.absNum == s.ab.base;
    RecvShape(Swap(s1), p);
    LoneFrameDelivered(s.b.rx, s1.ab);
  }
}
