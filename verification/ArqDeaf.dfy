/**
 * When two ends can never talk in one direction again: the sender's window starts 1 to 239 frames
 * past the one the receiver waits for. Its frames are outside the receive window or wait behind
 * one that will never be sent, the receiver's acknowledgements are outside the send window, and
 * neither end ever finds out.
 */
module ArqDeaf {
  import opened Base
  import opened Arq
  import opened ArqSafety
  import opened ArqSystem
  import opened ArqTurn

  /** How far the send window has run past the frame the receiver waits for, in 8 bits. */
  function Ahead(t: TxHalf, r: RxHalf): u8 { Wrap8(t.base - r.next) }

  ghost predicate FrontUnacked(win: seq<TxFrame>) { win != [] ==> !win[0].acked }

  /** b is deaf to a: it waits for a frame that a has let go of, or never had. */
  ghost predicate Deaf(s: System) {
    && |s.a.rx.slots| == |s.b.rx.slots| == MAXWIN
    && TxValid(s.a.tx) && FrontUnacked(s.a.tx.win) && 1 <= Ahead(s.a.tx, s.b.rx) <= 239
    && !Holds(s.b.rx, s.b.rx.next)
    && (forall p :: p in s.netAB ==> NotAwaited(p, s.b.rx.next) && p.frame.epoch == s.a.myEpoch)
    && (forall p :: p in s.netBA ==> p.frame.ack == s.b.rx.next && p.frame.epoch == s.b.myEpoch)
    && s.a.peerEpoch == s.b.myEpoch && s.b.peerEpoch == s.a.myEpoch
    && s.a.myEpoch != 0 && s.b.myEpoch != 0
  }

  predicate NotAwaited(p: Packet, n: u8) { p.frame.data ==> p.frame.num != n }

  /** What b waits for and what it has taken in stay; a's application can only have written more. */
  ghost predicate StillDeaf(s: System, z: System) {
    && Deaf(z) && z.b.rx.next == s.b.rx.next
    && z.ab.read + z.b.rx.queue == s.ab.read + s.b.rx.queue
    && z.ab.stale == s.ab.stale && |s.ab.accepted| <= |z.ab.accepted|
  }

  // ---- the sender ----

  /** An ack for the awaited frame releases nothing beyond what leaves the window ahead of it. */
  lemma AckKeepsAhead(t: TxHalf, r: RxHalf, sack: Sack)
    requires TxValid(t) && FrontUnacked(t.win) && 1 <= Ahead(t, r) <= 239
    ensures var z := TxAck(t, r.next, sack); TxValid(z) && FrontUnacked(z.win) && 1 <= Ahead(z, r) <= 239
  {
    hide TxAck, Released, TxValid;
    AckValid(t, r.next, sack);
    FrontStays(t, r.next, sack);
    NoneCovered(t, r);
    if Ahead(t, r) >= 16 { FarFront(t, r, sack); }
    AheadBy(t.base, r.next, Released(t, r.next, sack));
  }

  lemma AckValid(t: TxHalf, ack: u8, sack: Sack)
    requires TxValid(t)
    ensures TxValid(TxAck(t, ack, sack)) && Released(t, ack, sack) <= MAXWIN
    ensures TxAck(t, ack, sack).base == Wrap8(t.base + Released(t, ack, sack))
  {
    hide TxAck, Released;
    AckSlides(t, ack, sack);
    SlideWindow(t.win, t.base, Released(t, ack, sack), TxAck(t, ack, sack).win);
  }

  lemma NoneCovered(t: TxHalf, r: RxHalf)
    requires TxValid(t) && 1 <= Ahead(t, r) <= 239
    ensures Cum(t, r.next) == 0
  {
  }

  lemma AheadBy(base: u8, next: u8, n: nat)
    requires Wrap8(base - next) + n < 256
    ensures Wrap8(Wrap8(base + n) - next) == Wrap8(base - next) + n
  {
  }

  lemma FrontStays(t: TxHalf, ack: u8, sack: Sack)
    ensures FrontUnacked(TxAck(t, ack, sack).win)
  {
    var m := MarkAcked(t, ack, sack);
    var n := LeadingAcked(m);
    assert n < |m| ==> !m[n..][0].acked;
  }

  /** Sixteen or more past it, the front frame is beyond the reach of a selective ack. */
  lemma FarFront(t: TxHalf, r: RxHalf, sack: Sack)
    requires TxValid(t) && FrontUnacked(t.win) && 16 <= Ahead(t, r) <= 239 && Cum(t, r.next) == 0
    ensures Released(t, r.next, sack) == 0
  {
    var m := MarkAcked(t, r.next, sack);
    if t.win != [] {
      assert t.win[0].num == Wrap8(t.base);
      assert !SackHit(t.win[0].num, r.next, sack);
      assert !m[0].acked;
    }
  }

  /** Whatever the window sends is not what b waits for. */
  lemma SentNotAwaited(s: System, now: u32)
    requires Deaf(s) && NextTx(s.a, now).1.Some?
    ensures NotAwaited(Labelled(s, now, NextTx(s.a, now).1.value), s.b.rx.next)
  {
    DeafParts(s);
    hide Deaf, Fill, Holds, SackOf, Eligible;
    var t := Fill(s.a.tx);
    FillShape(s.a.tx);
    var i := Pick(t.win, 0, now, t.retransmitMs);
    if i < |t.win| { StillAhead(t.base, s.b.rx.next, i); }
  }

  lemma StillAhead(base: u8, n: u8, i: nat)
    requires 1 <= Wrap8(base - n) <= 239 && i < MAXWIN
    ensures Wrap8(base + i) != n
  {
  }

  lemma {:induction false} FillShape(t: TxHalf)
    requires TxValid(t)
    ensures TxValid(Fill(t)) && Fill(t).base == t.base && t.win <= Fill(t).win
    decreases |t.queue|
  {
    if |t.win| < t.window && |t.queue| > 0 {
      WrapSum(t.base + |t.win|, 1);
      FillShape(FillOne(t));
    }
  }

  /** What a step at the sender has to leave in place. */
  ghost predicate SenderOnly(s: System, z: System)
    requires |s.a.rx.slots| == MAXWIN
  {
    && z == s.(a := z.a, ab := z.ab, ba := z.ba, netAB := z.netAB)
    && |z.a.rx.slots| == MAXWIN && z.a.myEpoch == s.a.myEpoch && z.a.peerEpoch == s.a.peerEpoch
    && z.ab.read == s.ab.read && z.ab.stale == s.ab.stale && |s.ab.accepted| <= |z.ab.accepted|
    && (forall p :: p in z.netAB ==> p in s.netAB || (NotAwaited(p, s.b.rx.next) && p.frame.epoch == s.a.myEpoch))
  }

  lemma SenderMoves(s: System, z: System)
    requires Deaf(s) && SenderOnly(s, z)
    requires TxValid(z.a.tx) && FrontUnacked(z.a.tx.win) && 1 <= Ahead(z.a.tx, s.b.rx) <= 239
    ensures StillDeaf(s, z)
  {
    hide TxValid, FrontUnacked, Ahead, Holds, NotAwaited;
  }

  /** The parts of deafness a step at the sender reads. */
  lemma DeafParts(s: System)
    requires Deaf(s)
    ensures |s.a.rx.slots| == |s.b.rx.slots| == MAXWIN && s.a.peerEpoch == s.b.myEpoch && s.a.myEpoch != 0
      && s.b.myEpoch != 0
    ensures TxValid(s.a.tx) && FrontUnacked(s.a.tx.win) && 1 <= Ahead(s.a.tx, s.b.rx) <= 239
    ensures forall p :: p in s.netBA ==> p.frame.ack == s.b.rx.next && p.frame.epoch == s.b.myEpoch
  {
  }

  lemma FillFront(t: TxHalf)
    requires FrontUnacked(t.win)
    ensures FrontUnacked(Fill(t).win)
  {
    FillAppends(t);
  }

  lemma SendDeaf(s: System, now: u32)
    requires Deaf(s)
    ensures StillDeaf(s, DoA(s, NextTxOp(now)))
  {
    DeafParts(s);
    SendShape(s.a, now);
    if NextTx(s.a, now).1.Some? {
      SentNotAwaited(s, now);
      EpochStamped(s, now);
    }
    hide Deaf, StillDeaf, Fill, Framed, NextTx, Labelled, NotAwaited, TxValid, FrontUnacked;
    SenderMoves(s, DoA(s, NextTxOp(now)));
  }

  lemma SendShape(l: Link, now: u32)
    requires |l.rx.slots| == MAXWIN && TxValid(l.tx) && FrontUnacked(l.tx.win)
    ensures var z := NextTx(l, now).0;
      && z == l.(tx := z.tx, ackPending := z.ackPending, ackSentTurn := z.ackSentTurn)
      && TxValid(z.tx) && FrontUnacked(z.tx.win) && z.tx.base == l.tx.base
  {
    FillShape(l.tx);
    FillFront(l.tx);
    ArqSystem.NextTxShape(l, now);
    hide Fill, NextTx;
  }

  lemma EpochStamped(s: System, now: u32)
    requires |s.a.rx.slots| == MAXWIN && NextTx(s.a, now).1.Some?
    ensures Labelled(s, now, NextTx(s.a, now).1.value).frame.epoch == s.a.myEpoch
  {
    hide Fill, SackOf;
  }

  lemma SenderHears(s: System, p: Packet)
    requires Deaf(s) && p in s.netBA
    ensures StillDeaf(s, DoA(s, RecvOp(p)))
  {
    DeafParts(s);
    hide Deaf, StillDeaf, TxAck, RxData, RxDataCount, Released, Holds, TxValid, FrontUnacked;
    AckKeepsAhead(s.a.tx, s.b.rx, p.frame.sack);
    RxDataSlots(s.a.rx, p.frame.num, p.frame.payload);
    SenderMoves(s, DoA(s, RecvOp(p)));
  }

  lemma SenderStep(s: System, op: Op)
    requires Deaf(s) && EnabledA(s, op)
    ensures StillDeaf(s, DoA(s, op))
  {
    match op
    case NextTxOp(now) => SendDeaf(s, now);
    case RecvOp(p) => SenderHears(s, p);
    case ReadOp(max) => DrainSlots(AfterRead(s.a.rx, max));
    case PollOp => hide SackOf, Holds;
    case _ => hide Holds;
  }

  // ---- the receiver ----

  /** Storing a frame that is not awaited leaves nothing deliverable. */
  lemma DataStaysDeaf(r: RxHalf, num: u8, payload: Bytes)
    requires |r.slots| == MAXWIN && !Holds(r, r.next) && num != r.next
    ensures var z := RxData(r, num, payload);
      |z.slots| == MAXWIN && z.next == r.next && z.queue == r.queue && !Holds(z, z.next)
  {
    var r1 := Store(r, num, payload);
    assert !Holds(r1, r1.next);
    assert Drain(r1) == r1;
  }

  lemma SameAhead(t: TxHalf, r: RxHalf, z: RxHalf)
    ensures z.next == r.next ==> Ahead(t, z) == Ahead(t, r)
  {
  }

  lemma ReceiverHears(s: System, p: Packet)
    requires Deaf(s) && p in s.netAB
    ensures StillDeaf(s, Do(s, Event(false, RecvOp(p))))
  {
    hide TxAck, RxData, RxDataCount, Released, Holds, TxValid, FrontUnacked, Ahead;
    if p.frame.data { DataStaysDeaf(s.b.rx, p.frame.num, p.frame.payload); }
    SameAhead(s.a.tx, s.b.rx, Do(s, Event(false, RecvOp(p))).b.rx);
  }

  lemma ReceiverReads(s: System, max: nat)
    requires Deaf(s)
    ensures StillDeaf(s, Do(s, Event(false, ReadOp(max))))
  {
    var r := AfterRead(s.b.rx, max);
    assert !CanDeliver(r) && Drain(r) == r;
    var n := Min(max, |s.b.rx.queue|);
    assert s.ab.read + s.b.rx.queue[..n] + s.b.rx.queue[n..] == s.ab.read + s.b.rx.queue;
  }

  lemma ReceiverSends(s: System, now: u32)
    requires Deaf(s)
    ensures StillDeaf(s, Do(s, Event(false, NextTxOp(now))))
  {
    ArqSystem.NextTxShape(s.b, now);
    hide Fill, Framed, Holds, Pick;
  }

  lemma ReceiverStep(s: System, op: Op)
    requires Deaf(s) && EnabledA(Swap(s), op)
    ensures StillDeaf(s, Do(s, Event(false, op)))
  {
    match op
    case NextTxOp(now) => ReceiverSends(s, now);
    case RecvOp(p) => ReceiverHears(s, p);
    case ReadOp(max) => ReceiverReads(s, max);
    case PollOp => hide SackOf, Holds;
    case _ => hide Holds;
  }

  /** A deaf end stays deaf, through every run. */
  lemma {:induction false} DeafForever(s: System, es: seq<Event>)
    requires Deaf(s) && Run(s, es)
    ensures StillDeaf(s, After(s, es))
    decreases |es|
  {
    if es != [] {
      if es[0].atA { SenderStep(s, es[0].op); } else { ReceiverStep(s, es[0].op); }
      hide DoA, Deaf, EnabledA;
      DeafForever(Do(s, es[0]), es[1..]);
    }
  }
}
