/**
 * What one end shows of what it has heard: the acknowledgement it owes, the edges its firmware
 * reads (data delivered, a frame taken, the peer restarted), and what becomes of a frame whose
 * payload cannot be read.
 */
module ArqEdges {
  import opened Base
  import opened Arq
  import opened ArqSafety
  import opened ArqSystem
  import opened ArqTurn

  // ---- every data frame is answered ----

  /** Every frame of a turn carries the same acknowledgement: all that has been delivered, and all that is held. */
  ghost predicate Acknowledges(r: RxHalf, out: seq<Frame>)
    requires |r.slots| == MAXWIN
  {
    forall i :: 0 <= i < |out| ==> out[i].ack == r.next && out[i].sack == SackOf(r)
  }

  lemma {:induction false} TurnAcknowledges(l: Link, clock: nat -> u32, k: nat)
    requires |l.rx.slots| == MAXWIN
    ensures Acknowledges(l.rx, SendTurn(l, clock, k).1)
    ensures !l.ackSentTurn && l.ackPending ==> SendTurn(l, clock, k).1 != [] && !SendTurn(l, clock, k).0.ackPending
    ensures !l.ackPending ==> !SendTurn(l, clock, k).0.ackPending
    decreases |l.tx.queue|, Unsent(l.tx.win), if l.ackSentTurn then 0 else 1
  {
    OneAcknowledges(l, clock(k));
    hide NextTx, SackOf;
    var z, o := NextTx(l, clock(k)).0, NextTx(l, clock(k)).1;
    if o.Some? {
      NextTxDecreases(l, clock(k));
      TurnAcknowledges(z, clock, k + 1);
      var rest := SendTurn(z, clock, k + 1).1;
      assert forall i :: 0 < i < |[o.value] + rest| ==> ([o.value] + rest)[i] == rest[i - 1];
    }
  }

  lemma OneAcknowledges(l: Link, now: u32)
    requires |l.rx.slots| == MAXWIN
    ensures var (z, o) := NextTx(l, now);
      && z.rx == l.rx
      && (o.Some? ==> o.value.ack == l.rx.next && o.value.sack == SackOf(l.rx) && !z.ackPending)
      && (o.None? ==> z.ackPending == l.ackPending && (l.ackSentTurn || !l.ackPending))
  {
    hide Fill, SackOf, Pick, MoreToSend;
  }

  /**
   * Whatever data frame an end takes, new, old, held already or unreadable, its next turn answers it
   * on any clock: at least one frame goes out, every frame acknowledges exactly what has been
   * delivered and what is held, and then nothing is owed.
   */
  lemma DataIsAnswered(l: Link, f: Frame, readable: bool, clock: nat -> u32)
    requires |l.rx.slots| == MAXWIN && f.data
    ensures var z := if readable then Accept(l, f) else AcceptUnread(l, f);
      && |z.rx.slots| == MAXWIN
      && Turn(z, clock).1 != [] && Acknowledges(z.rx, Turn(z, clock).1) && !Turn(z, clock).0.ackPending
  {
    RxDataSlots(l.rx, f.num, f.payload);
    DrainSlots(l.rx);
    var z := if readable then Accept(l, f) else AcceptUnread(l, f);
    hide TxAck, RxData, Drain, CanDeliver, SackOf;
    TurnAcknowledges(BeginTurn(z), clock, 0);
  }

  // ---- the edges ----

  /** Something was delivered in a step if and only if the edge says so. */
  lemma DeliveryEdge(s: System, op: Op)
    requires Inv(s) && EnabledA(s, op)
    ensures DoA(s, op).a.gotData <==> s.a.gotData || DoA(s, op).ba.rn > s.ba.rn
  {
    BothSlots(s);
    match op
    case RecvOp(p) =>
      if ForMe(s.a, p.frame) { HeardEdge(s, p); }
      hide DoA, ArqSystem.Inv;
    case ReadOp(max) => hide Drain, ArqSystem.Inv;
    case NextTxOp(now) => hide Fill, Framed, ArqSystem.Inv;
    case _ => hide ArqSystem.Inv;
  }

  lemma HeardEdge(s: System, p: Packet)
    requires Inv(s) && p in s.netBA && ForMe(s.a, p.frame)
    ensures var z := DoA(s, RecvOp(p)); z.a.gotData <==> s.a.gotData || z.ba.rn > s.ba.rn
  {
    SameSession(s, p);
    TakenEdge(s.a.(peerEpoch := s.b.myEpoch), p.frame);
    hide ArqSystem.Inv, Released, RxDataCount, Accept;
  }

  lemma BothSlots(s: System)
    requires Inv(s)
    ensures |s.a.rx.slots| == |s.b.rx.slots| == MAXWIN
  {
  }

  lemma TakenEdge(l: Link, f: Frame)
    requires |l.rx.slots| == MAXWIN
    ensures Accept(l, f).gotData <==> l.gotData || (f.data && RxDataCount(l.rx, f.num, f.payload) > 0)
  {
    hide TxAck, RxData, Store;
  }

  /** A frame was taken, and the peer has restarted, if and only if the edges say so. */
  lemma HearingEdges(l: Link, f: Frame)
    requires |l.rx.slots| == MAXWIN
    ensures OnRx(l, f).validRx <==> l.validRx || ForMe(l, f)
    ensures OnRx(l, f).peerReset <==> l.peerReset || (ForMe(l, f) && l.peerEpoch != 0 && f.epoch != l.peerEpoch)
  {
    hide TxAck, RxData, CanDeliver, Store;
  }

  /**
   * A change of the peer's epoch alone, before any frame of the new session is taken, forgets what
   * the old one owed and reported, and keeps what is queued to send and what is yet to be read.
   */
  lemma RestartForgets(l: Link, epoch: u8)
    requires |l.rx.slots| == MAXWIN && l.peerEpoch != 0 && epoch != l.peerEpoch
    ensures var z := TrackEpoch(l, epoch);
      && !z.ackPending && z.rxAux == 0 && z.peerReset && z.peerEpoch == epoch
      && z.tx.win == [] && z.tx.queue == l.tx.queue && z.rx.queue == l.rx.queue && z.rx.next == 0
      && (forall j :: 0 <= j < MAXWIN ==> !z.rx.slots[j].received)
      && z.validRx == l.validRx && z.gotData == l.gotData
  {
  }

  /** A new session says nothing, owes nothing and shows nothing of the one before. */
  lemma NewSessionSilent(l: Link, clock: nat -> u32)
    requires |l.rx.slots| == MAXWIN
    ensures var z := NewSession(l);
      && |z.rx.slots| == MAXWIN && Turn(z, clock).1 == []
      && !z.gotData && z.rxCtrl == 0 && z.rxAux == 0 && !z.ackPending
  {
    var z := BeginTurn(NewSession(l));
    assert Fill(z.tx) == z.tx;
    assert NextTx(z, clock(0)).1.None?;
  }

  /** A write takes a prefix of what is offered, all of it or as much as fills the ring. */
  lemma WriteFills(l: Link, d: Bytes)
    requires |l.tx.queue| <= l.txCap
    ensures var q := Write(l, d).tx.queue;
      exists k :: 0 <= k <= |d| && q == l.tx.queue + d[..k] && (k == |d| || |q| == l.txCap)
  {
    var k := Min(|d|, l.txCap - |l.tx.queue|);
    assert Write(l, d).tx.queue == l.tx.queue + d[..k];
  }

  // ---- who is heard ----

  /** Bytes addressed elsewhere, or from a stranger, change nothing at all, whatever else they say. */
  lemma StrangersIgnored(l: Link, f: Frame)
    requires |l.rx.slots| == MAXWIN
    requires (f.dst != l.addr && f.dst != ADDR_BCAST) || (l.peer != 0 && f.src != l.peer)
    ensures OnRx(l, f) == l
  {
  }

  /** An end that knows its peer addresses it alone: what it sends, in a turn or as a poll, no other end takes. */
  lemma PeerAlone(l: Link, now: u32, other: Link)
    requires |l.rx.slots| == MAXWIN && |other.rx.slots| == MAXWIN && l.peer != 0 && l.peer != ADDR_BCAST
    ensures NextTx(l, now).1.Some? && ForMe(other, NextTx(l, now).1.value) ==> other.addr == l.peer
    ensures ForMe(other, Poll(l)) ==> other.addr == l.peer
    ensures NextTx(l, now).1.Some? ==> NextTx(l, now).1.value.src == l.addr
  {
    hide Fill, SackOf, MoreToSend;
  }

  // ---- a payload that cannot be read ----

  /** The cumulative part of an ack heard again covers nothing more. */
  lemma CumTwice(t: TxHalf, ack: u8, sack: Sack)
    requires TxValid(t)
    ensures Cum(TxAck(t, ack, sack), ack) == 0
  {
    AckSlides(t, ack, sack);
    CoveredSlide(t, ack, sack);
    hide TxAck, Released, MarkAcked;
    CumAhead(t, TxAck(t, ack, sack), ack, Released(t, ack, sack));
  }

  lemma CoveredSlide(t: TxHalf, ack: u8, sack: Sack)
    ensures Cum(t, ack) <= Released(t, ack, sack)
  {
    var m := MarkAcked(t, ack, sack);
    hide SackHit, Wrap8;
    assert forall i :: 0 <= i < Cum(t, ack) ==> m[i].acked;
  }

  lemma CumAhead(t: TxHalf, z: TxHalf, ack: u8, n: nat)
    requires |t.win| <= MAXWIN && |z.win| + n == |t.win| && z.base == Wrap8(t.base + n) && Cum(t, ack) <= n
    ensures Cum(z, ack) == 0
  {
    var c := Wrap8(ack - t.base);
    WrapOn(ack, t.base, n);
    assert if c < n then Wrap8(c - n) == c - n + 256 else Wrap8(c - n) == c - n;
    hide Wrap8;
  }

  lemma WrapOn(a: int, b: int, n: nat)
    ensures Wrap8(a - Wrap8(b + n)) == Wrap8(Wrap8(a - b) - n)
  {
    var q, r := (b + n) / 256, (a - b) / 256;
    assert a - Wrap8(b + n) == Wrap8(a - b) - n + 256 * (q + r);
    AddWraps(Wrap8(a - b) - n, q + r);
  }

  lemma AddWraps(x: int, k: int)
    ensures Wrap8(x + 256 * k) == Wrap8(x)
  {
  }

  /** An ack heard again changes nothing. */
  lemma AckTwice(t: TxHalf, ack: u8, sack: Sack)
    requires TxValid(t)
    ensures TxAck(TxAck(t, ack, sack), ack, sack) == TxAck(t, ack, sack)
  {
    var m, n := MarkAcked(t, ack, sack), Released(t, ack, sack);
    var z := TxAck(t, ack, sack);
    CumTwice(t, ack, sack);
    hide SackHit, Wrap8, Cum, AckedAfter;
    assert z.win == FlagGaps(m[n..]);
    forall i | 0 <= i < |z.win| ensures SackHit(z.win[i].num, ack, sack) ==> z.win[i].acked {
      assert z.win[i].num == t.win[n + i].num;
    }
    assert MarkAcked(z, ack, sack) == z.win;
    FrontStaysUnacked(t, ack, sack);
    assert z.win[0..] == z.win;
    FlagTwice(m[n..]);
    SameBase(t.base, n);
  }

  lemma FrontStaysUnacked(t: TxHalf, ack: u8, sack: Sack)
    ensures LeadingAcked(TxAck(t, ack, sack).win) == 0
  {
    var m := MarkAcked(t, ack, sack);
    var n := LeadingAcked(m);
    hide SackHit, Cum;
    assert n < |m| ==> !m[n..][0].acked;
  }

  lemma FlagTwice(w: seq<TxFrame>)
    ensures FlagGaps(FlagGaps(w)) == FlagGaps(w)
  {
    var z := FlagGaps(w);
    forall i | 0 <= i < |w| ensures AckedAfter(z, i) == AckedAfter(w, i) {
      if AckedAfter(w, i) { var j :| i < j < |w| && w[j].acked; assert z[j].acked; }
      if AckedAfter(z, i) { var j :| i < j < |z| && z[j].acked; assert w[j].acked; }
    }
  }

  lemma SameBase(b: u8, n: nat)
    ensures Wrap8(Wrap8(b + n) + 0) == Wrap8(b + n)
  {
  }

  /**
   * A data frame whose payload cannot be read is heard like one that can, but not stored: heard again
   * readable, the two together leave both halves where the readable frame alone would.
   */
  lemma UnreadableThenReadable(l: Link, f: Frame)
    requires |l.rx.slots| == MAXWIN && !CanDeliver(l.rx) && TxValid(l.tx)
    ensures |AcceptUnread(l, f).rx.slots| == MAXWIN
    ensures var y, z := Accept(AcceptUnread(l, f), f), Accept(l, f);
      && y.rx == z.rx && y.tx == z.tx && y.gotData == z.gotData && y.ackPending == z.ackPending
    ensures AcceptUnread(l, f) == Accept(l, f).(rx := l.rx, gotData := l.gotData)
  {
    hide TxAck, RxData, CanDeliver, Store;
    assert Drain(l.rx) == l.rx;
    AckTwice(l.tx, f.ack, f.sack);
  }
}
