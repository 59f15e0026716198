/**
 * The send window running ahead of delivery, reached by a run from the start: two frames, the
 * second heard and selectively acked first, and a receive ring with room for the first alone.
 */
module ArqAhead {
  import opened Base
  import opened Arq
  import opened ArqSafety
  import opened ArqSystem

  lemma RunSnoc(s: System, es: seq<Event>, e: Event)
    requires Run(s, es) && Inv(After(s, es)) && Enabled(After(s, es), e)
    ensures Run(s, es + [e]) && After(s, es + [e]) == Do(After(s, es), e) && Inv(Do(After(s, es), e))
  {
    var z := After(s, es);
    StepKeeps(z, e);
    assert Run(Do(z, e), [e][1..]);
    RunConcat(s, es, [e]);
  }

  /** Freshly started ends that face each other, the sender with room for two frames. */
  ghost predicate Setting(s: System, d: Bytes) {
    && Start(s) && Facing(s.a, s.b) && s.a.tx.window >= 2 && s.a.txCap >= 222 && s.b.rx.cap == MAXPAY && |d| == 222
  }

  /** What two calls make of 222 queued bytes. */
  lemma TwoFrames(l: Link, d: Bytes)
    requires Fresh(l) && l.tx.window >= 2 && l.txCap >= 222 && |d| == 222
    ensures
      var l1 := Write(l, d);
      var (l2, o0) := NextTx(l1, 0);
      && l1 == l.(tx := l1.tx) && l1.tx.queue == d && |l1.rx.slots| == MAXWIN
      && Framed(l1.tx) == [d[..MAXPAY], d[MAXPAY..]]
      && Pick(Fill(l1.tx).win, 0, 0, Fill(l1.tx).retransmitMs) == 0
      && o0 == Some(MakeFrame(l1, true, true, 0, d[..MAXPAY]))
      && l2 == l.(tx := l2.tx, ackPending := false) && l2.tx.base == 0 && l2.tx.queue == []
      && |l2.tx.win| == 2 && l2.tx.win[0].txThisTurn && !l2.tx.win[0].acked
      && l2.tx.win[1] == NewFrame(1, d[MAXPAY..]) && l2.tx.win[0].num == 0 && l2.tx.window == l.tx.window
  {
    var l1 := Write(l, d);
    assert d[..222] == d && [] + d == d;
    assert l1.tx.queue == d && l1.tx.win == [] && l1.tx.next == 0;
    var t1 := FillOne(l1.tx);
    assert [] + [NewFrame(0, d[..MAXPAY])] == [NewFrame(0, d[..MAXPAY])];
    assert Min(|d|, MAXPAY) == MAXPAY;
    assert t1.win == [NewFrame(0, d[..MAXPAY])];
    assert t1.win == [NewFrame(0, d[..MAXPAY])] && t1.queue == d[MAXPAY..];
    var t2 := FillOne(t1);
    assert t1.queue[..1] == d[MAXPAY..] && t2.queue == [];
    assert t2.win == [NewFrame(0, d[..MAXPAY]), NewFrame(1, d[MAXPAY..])];
    assert Fill(l1.tx) == Fill(t1) && Fill(t1) == Fill(t2) && Fill(t2) == t2;
    assert Framed(t2) == [];
    assert Framed(t1) == [d[MAXPAY..]] + Framed(t2);
    assert Framed(l1.tx) == [d[..MAXPAY]] + Framed(t1);
    FirstPick(t2);
    FirstOfTwo(l1, t2);
  }

  lemma FirstOfTwo(l: Link, t: TxHalf)
    requires |l.rx.slots| == MAXWIN && Fill(l.tx) == t && |t.win| == 2
    requires t.win[0] == NewFrame(0, t.win[0].raw) && t.win[1] == NewFrame(1, t.win[1].raw)
    ensures
      var (z, o) := NextTx(l, 0);
      && o == Some(MakeFrame(l, true, true, 0, t.win[0].raw))
      && z == l.(tx := z.tx, ackPending := false) && z.tx == t.(win := t.win[0 := Sent(t.win[0], 0)])
  {
    FirstPick(t);
    hide SackOf;
    var w := t.win[0 := Sent(t.win[0], 0)];
    assert w[1] == t.win[1];
    assert MoreToSend(w, 0);
  }

  lemma FirstPick(t: TxHalf)
    requires |t.win| > 0 && t.win[0] == NewFrame(t.win[0].num, t.win[0].raw)
    ensures Pick(t.win, 0, 0, t.retransmitMs) == 0
  {
  }

  /** The second call sends the second frame. */
  lemma SecondFrame(l: Link, x: Bytes)
    requires |l.rx.slots| == MAXWIN && |l.tx.win| == 2 && l.tx.win[0].txThisTurn && l.tx.win[1] == NewFrame(1, x)
      && l.tx.queue == []
    ensures
      var (z, o) := NextTx(l, 0);
      && o == Some(MakeFrame(l, true, false, 1, x)) && Pick(Fill(l.tx).win, 0, 0, Fill(l.tx).retransmitMs) == 1
      && z == l.(tx := z.tx, ackPending := false) && z.tx == l.tx.(win := l.tx.win[1 := Sent(l.tx.win[1], 0)])
      && Framed(l.tx) == []
  {
    assert Fill(l.tx) == l.tx;
    assert !Eligible(l.tx.win[0], 0, l.tx.retransmitMs) && Eligible(l.tx.win[1], 0, l.tx.retransmitMs);
    hide SackOf;
  }

  /** Both frames are on the air. */
  lemma SendTwo(s: System, d: Bytes) returns (es: seq<Event>, p0: Packet, p1: Packet)
    requires Setting(s, d)
    ensures Run(s, es)
    ensures var z := After(s, es);
      && Inv(z) && z.b == s.b && z.ba == s.ba && z.ab == s.ab.(accepted := d, hist := [d[..MAXPAY], d[MAXPAY..]])
      && {p0, p1} <= z.netAB && p0.absNum == 0 && p1.absNum == 1 && p0.absAck == p1.absAck == 0
      && p0.frame.data && p0.frame.num == 0 && p0.frame.payload == d[..MAXPAY] && ForMe(s.b, p0.frame)
      && p1.frame.data && p1.frame.num == 1 && p1.frame.payload == d[MAXPAY..] && ForMe(s.b, p1.frame)
      && z.a == s.a.(tx := z.a.tx, ackPending := false)
      && |z.a.tx.win| == 2 && !z.a.tx.win[0].acked && z.a.tx.win[0].num == 0 && z.a.tx.win[1].num == 1
         && z.a.tx.base == 0
  {
    hide ArqSystem.Inv, NextTx, Fill, Framed, SackOf, Run, After;
    StartInv(s);
    var e1, e2 := Event(true, WriteOp(d)), Event(true, NextTxOp(0));
    TwoFrames(s.a, d);
    Nothing(s);
    RunSnoc(s, [], e1);
    var s1 := Do(s, e1);
    assert s1.a == Write(s.a, d);
    RunSnoc(s, [] + [e1], e2);
    var s2 := Do(s1, e2);
    SecondFrame(s2.a, d[MAXPAY..]);
    RunSnoc(s, [] + [e1] + [e2], e2);
    es := [] + [e1] + [e2] + [e2];
    p0 := Labelled(s1, 0, NextTx(s1.a, 0).1.value);
    p1 := Labelled(s2, 0, NextTx(s2.a, 0).1.value);
  }

  lemma Nothing(s: System)
    ensures Run(s, []) && After(s, []) == s
  {
  }

  /** The peer with nothing yet. */
  ghost predicate Blank(l: Link) {
    |l.rx.slots| == MAXWIN && l.rx.queue == [] && l.rx.next == 0 && l.rx.cap == MAXPAY && forall j ::
      0 <= j < MAXWIN ==> !l.rx.slots[j].received
  }

  /** The second frame, first: held, and reported by the bitmap alone. */
  lemma SecondHeld(r: RxHalf, x: Bytes)
    requires |r.slots| == MAXWIN && r.queue == [] && r.next == 0
      && (forall j :: 0 <= j < MAXWIN ==> !r.slots[j].received)
    ensures var z := RxData(r, 1, x);
      && z == r.(slots := r.slots[1 := RxSlot(true, 1, x)]) && RxDataCount(r, 1, x) == 0
      && SackOf(z)[0]
  {
    var z := Store(r, 1, x);
    assert !CanDeliver(z);
    assert Holds(z, 1);
  }

  /** Then the first: delivered, and the second no longer fits. */
  lemma FirstFills(r: RxHalf, w: Bytes, x: Bytes)
    requires |r.slots| == MAXWIN && r.queue == [] && r.next == 0 && r.cap == MAXPAY == |w| && |x| > 0
    requires !r.slots[0].received && r.slots[1] == RxSlot(true, 1, x)
    ensures RxData(r, 0, w).next == 1 && RxDataCount(r, 0, w) == 1
  {
    var r1 := Store(r, 0, w);
    assert r1.slots[0] == RxSlot(true, 0, w) && CanDeliver(r1);
    var r2 := Deliver(r1);
    assert |r2.queue| == MAXPAY && r2.next == 1 && !CanDeliver(r2);
    assert Drain(r1) == Drain(r2) && Drain(r2) == r2;
    assert DrainCount(r2) == 0 && DrainCount(r1) == 1;
  }

  /** A bitmap that reports frame 1 marks it and nothing else. */
  lemma SecondAcked(t: TxHalf, sack: Sack)
    requires |t.win| == 2 && !t.win[0].acked && t.win[0].num == 0 && t.win[1].num == 1 && t.base == 0 && sack[0]
    ensures var z := TxAck(t, 0, sack);
      |z.win| == 2 && z.win[1].acked && z.base == 0 && Released(t, 0, sack) == 0
  {
    var m := MarkAcked(t, 0, sack);
    assert !SackHit(0, 0, sack) && SackHit(1, 0, sack);
    assert !m[0].acked && m[1].acked;
    assert m[0..] == m;
  }

  ghost predicate SameAddress(l: Link, z: Link) { z.addr == l.addr && z.peer == l.peer }

  lemma KeepsAddress(l: Link, f: Frame)
    requires |l.rx.slots| == MAXWIN
    ensures SameAddress(l, OnRx(l, f))
  {
    hide TxAck, Drain, Store;
  }

  /** The peer, having framed nothing, hears a data frame. */
  lemma PeerHears(s: System, p: Packet)
    requires Inv(s) && p in s.netAB && ForMe(s.b, p.frame) && p.frame.data && s.ba.hist == [] && s.ab.rn <= 2
    ensures |s.a.rx.slots| == |s.b.rx.slots| == MAXWIN && Enabled(s, Event(false, RecvOp(p)))
    ensures var z := Do(s, Event(false, RecvOp(p)));
      && z.a == s.a && z.netAB == s.netAB && z.netBA == s.netBA && SameAddress(s.b, z.b) && z.ba.hist == []
      && z.b.rx == RxData(s.b.rx, p.frame.num, p.frame.payload)
      && z.ab == s.ab.(rn := s.ab.rn + RxDataCount(s.b.rx, p.frame.num, p.frame.payload))
  {
    assert Inv(Swap(s));
    assert s.ba.base == 0;
    hide ArqSystem.Inv, TxAck, RxData, OnRx, Released;
    RecvShape(Swap(s), p);
    KeepsAddress(s.b, p.frame);
  }

  /** The peer polls and the sender hears that. */
  lemma SenderHears(s: System)
    requires Inv(s) && Facing(s.a, s.b) && s.ab.base <= 2
    ensures |s.a.rx.slots| == |s.b.rx.slots| == MAXWIN
    ensures var q := Packet(Poll(s.b), 0, s.ab.rn);
      var s1 := Do(s, Event(false, PollOp));
      && s1 == s.(netBA := s.netBA + {q}) && Inv(s1) && Enabled(s, Event(false, PollOp))
      && Enabled(s1, Event(true, RecvOp(q)))
      && var z := Do(s1, Event(true, RecvOp(q)));
         && z.b == s.b && z.netAB == s.netAB && SameAddress(s.a, z.a) && z.ba == s.ba
         && z.a.tx == TxAck(s.a.tx, s.b.rx.next, SackOf(s.b.rx))
         && z.ab == s.ab.(base := s.ab.base + Released(s.a.tx, s.b.rx.next, SackOf(s.b.rx)))
  {
    var e, q := Event(false, PollOp), Packet(Poll(s.b), 0, s.ab.rn);
    StepKeeps(s, e);
    var s1 := Do(s, e);
    assert ForMe(s.a, q.frame);
    hide ArqSystem.Inv, TxAck, RxData, OnRx, Released, SackOf;
    RecvShape(s1, q);
    KeepsAddress(s.a, q.frame);
  }

  /**
   * From the start, in nine steps: the sender has released both frames, the peer has delivered one.
   */
  lemma WindowRunsAhead(s: System, d: Bytes) returns (es: seq<Event>)
    requires Setting(s, d)
    ensures Run(s, es) && After(s, es).ab.base == 2 && After(s, es).ab.rn == 1
  {
    hide ArqSystem.Inv, SackOf, Run, After, OnRx, TxAck, RxData, MakeFrame, Released, RxDataCount, Do, Enabled;
    var es0, p0, p1 := SendTwo(s, d);
    var s0 := After(s, es0);
    BlankPeer(s, d);
    // the second frame arrives first, and its selective ack comes back
    var e1, poll := Event(false, RecvOp(p1)), Event(false, PollOp);
    PeerHears(s0, p1);
    RunSnoc(s, es0, e1);
    var s1 := Do(s0, e1);
    SecondHeld(s0.b.rx, d[MAXPAY..]);
    SenderHears(s1);
    var e3 := Event(true, RecvOp(Packet(Poll(s1.b), 0, s1.ab.rn)));
    RunSnoc(s, es0 + [e1], poll);
    RunSnoc(s, es0 + [e1] + [poll], e3);
    var s3 := Do(Do(s1, poll), e3);
    SecondAcked(s1.a.tx, SackOf(s1.b.rx));
    // then the first frame, and the ack for it
    var e4 := Event(false, RecvOp(p0));
    PeerHears(s3, p0);
    RunSnoc(s, es0 + [e1] + [poll] + [e3], e4);
    var s4 := Do(s3, e4);
    FirstFills(s3.b.rx, d[..MAXPAY], d[MAXPAY..]);
    SenderHears(s4);
    var e6 := Event(true, RecvOp(Packet(Poll(s4.b), 0, s4.ab.rn)));
    RunSnoc(s, es0 + [e1] + [poll] + [e3] + [e4], poll);
    RunSnoc(s, es0 + [e1] + [poll] + [e3] + [e4] + [poll], e6);
    AheadAtLast(s3, Do(Do(s4, poll), e6), s4.b.rx);
    es := es0 + [e1] + [poll] + [e3] + [e4] + [poll] + [e6];
  }

  lemma BlankPeer(s: System, d: Bytes)
    requires Setting(s, d)
    ensures Blank(s.b) && s.ab.base == 0 && s.ab.rn == 0 && s.ba.base == 0 && s.ba.rn == 0 && s.ba.hist == []
  {
  }

  /** The last ack releases both frames. */
  lemma AheadAtLast(s: System, z: System, r: RxHalf)
    requires Inv(s) && Inv(z) && |s.ab.hist| == 2 && |s.a.tx.win| == 2 && s.a.tx.win[1].acked
    requires s.ab.base == 0 && s.ab.rn == 0 && |r.slots| == MAXWIN
    requires r == RxData(s.b.rx, 0, s.ab.hist[0]) && r.next == 1
    requires z.ab == s.ab.(rn := 1, base := Released(s.a.tx, r.next, SackOf(r)))
    ensures z.ab.base == 2
  {
    BaseCanPassDelivery(s.a.tx, s.b.rx, s.ab);
    assert z.ab.base + |z.a.tx.win| == |z.ab.hist|;
    hide RxData, SackOf, Released;
  }
}
