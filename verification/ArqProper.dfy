/**
 * What holds of one end of the link whatever it has been through: any operations, any sessions,
 * any frames from anyone that are neither empty nor oversized.
 */
module ArqProper {
  import opened Base
  import opened Arq
  import opened ArqSafety
  import opened ArqSystem
  import opened ArqTurn
  import opened ArqDeaf

  /** What a held frame always is: in its slot, inside the window, between 1 and 221 bytes. */
  ghost predicate SlotProper(r: RxHalf, j: nat)
    requires j < |r.slots|
  {
    && r.slots[j].num % MAXWIN == j && Wrap8(r.slots[j].num - r.next) < MAXWIN
    && 0 < |r.slots[j].buf| <= MAXPAY
  }

  ghost predicate SlotsProper(r: RxHalf) {
    |r.slots| == MAXWIN && forall j :: 0 <= j < MAXWIN && r.slots[j].received ==> SlotProper(r, j)
  }

  /** What every operation at an end keeps, whoever it talks to. */
  ghost predicate Proper(l: Link) {
    LinkValid(l) && FrontUnacked(l.tx.win) && SlotsProper(l.rx) && !CanDeliver(l.rx)
  }

  lemma FreshProper(l: Link)
    requires Fresh(l)
    ensures Proper(l)
  {
  }

  lemma NewSessionProper(l: Link)
    requires LinkValid(l)
    ensures Proper(NewSession(l))
  {
  }

  lemma TrackProper(l: Link, epoch: u8)
    requires Proper(l)
    ensures Proper(TrackEpoch(l, epoch))
  {
  }

  lemma {:induction false} DrainProper(r: RxHalf)
    requires SlotsProper(r) && |r.queue| <= r.cap
    ensures SlotsProper(Drain(r)) && |Drain(r).queue| <= Drain(r).cap
    decreases HeldSlots(r.slots)
  {
    if CanDeliver(r) {
      DeliverProper(r);
      DrainProper(Deliver(r));
    }
  }

  lemma DeliverProper(r: RxHalf)
    requires SlotsProper(r) && CanDeliver(r)
    ensures SlotsProper(Deliver(r))
  {
    var d := Deliver(r);
    forall j | 0 <= j < MAXWIN && d.slots[j].received ensures SlotProper(d, j) {
      assert SlotProper(r, j) && j != r.next % MAXWIN;
      NextWindow(r.slots[j].num, r.next);
    }
  }

  lemma NextWindow(num: u8, next: u8)
    requires Wrap8(num - next) < MAXWIN && num % MAXWIN != next % MAXWIN
    ensures Wrap8(num - Wrap8(next + 1)) < MAXWIN
  {
    WrapDiff(num, next + 1);
    assert Wrap8(num - (next + 1)) == Wrap8(num - next) - 1;
  }

  lemma StoreProper(r: RxHalf, num: u8, payload: Bytes)
    requires SlotsProper(r) && 0 < |payload| <= MAXPAY
    ensures SlotsProper(Store(r, num, payload))
  {
    var s := Store(r, num, payload);
    forall j | 0 <= j < MAXWIN && s.slots[j].received ensures SlotProper(s, j) {
      assert s.slots[j] == r.slots[j] ==> SlotProper(r, j);
    }
  }

  lemma DataProper(r: RxHalf, num: u8, payload: Bytes)
    requires SlotsProper(r) && |r.queue| <= r.cap && !CanDeliver(r) && 0 < |payload| <= MAXPAY
    ensures var z := RxData(r, num, payload); SlotsProper(z) && |z.queue| <= z.cap && !CanDeliver(z)
  {
    StoreProper(r, num, payload);
    DrainProper(Store(r, num, payload));
    RxDataSlots(r, num, payload);
  }

  /** Any operation, and any frame that is not oversized or empty, leaves an end as every end is. */
  lemma StepProper(s: System, op: Op)
    requires Proper(s.a)
    requires op.RecvOp? && op.p.frame.data ==> 0 < |op.p.frame.payload| <= MAXPAY
    ensures Proper(DoA(s, op).a)
  {
    match op
    case NextTxOp(now) =>
      hide SlotsProper, CanDeliver, NextTx, TxValid, FrontUnacked, Framed, Fill;
      ArqDeaf.SendShape(s.a, now);
      FillLess(s.a.tx);
      ArqSystem.NextTxShape(s.a, now);
    case ReadOp(max) =>
      DrainProper(AfterRead(s.a.rx, max));
      DrainSlots(AfterRead(s.a.rx, max));
      hide TxValid, FrontUnacked, SlotsProper, CanDeliver, Drain, DrainCount;
    case RecvOp(p) =>
      hide SlotsProper, CanDeliver, TxValid, FrontUnacked, DoA;
      RecvProper(s.a, p.frame);
      RecvIs(s, p);
    case _ => hide SlotsProper, CanDeliver, SackOf;
  }

  lemma FillLess(t: TxHalf)
    ensures |Fill(t).queue| <= |t.queue|
  {
    FillIdle(t);
  }

  lemma RecvIs(s: System, p: Packet)
    requires |s.a.rx.slots| == MAXWIN
    ensures DoA(s, RecvOp(p)).a == OnRx(s.a, p.frame)
  {
    hide Accept, TrackEpoch, Released, RxDataCount;
  }

  lemma RecvProper(l: Link, f: Frame)
    requires Proper(l) && (f.data ==> 0 < |f.payload| <= MAXPAY)
    ensures Proper(OnRx(l, f))
  {
    if ForMe(l, f) {
      TrackProper(l, f.epoch);
      var l1 := TrackEpoch(l, f.epoch);
      hide TrackEpoch, SlotsProper, CanDeliver, TxAck, RxData, TxValid, FrontUnacked, Store;
      AckValid(l1.tx, f.ack, f.sack);
      FrontStays(l1.tx, f.ack, f.sack);
      AckQueue(l1.tx, f.ack, f.sack);
      if f.data { DataProper(l1.rx, f.num, f.payload); }
    }
  }

  lemma AckQueue(t: TxHalf, ack: u8, sack: Sack)
    ensures TxAck(t, ack, sack).queue == t.queue
  {
  }
}
