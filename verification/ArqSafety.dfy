/**
 * One direction of the protocol: a send half, the peer's receive half, and every packet that was
 * ever put on the air between them. The invariant here is what all steps keep; the byte-stream
 * theorem is one of its consequences.
 */
module ArqSafety {
  import opened Base
  import opened Arq

  /** A frame on the air, labelled with the unbounded numbers its 8-bit fields abbreviate. */
  datatype Packet = Packet(frame: Frame, absNum: nat, absAck: nat)

  /**
   * History of one direction: `hist` is every payload ever framed, in order; `base` of them have
   * left the send window; `rn` of them have been delivered; `accepted` is every byte the sender's
   * link took from its application and `read` every byte the receiver's application took out.
   * `stale` is what an earlier session had left in the receive ring when this one began.
   */
  datatype Flow = Flow(hist: seq<Bytes>, base: nat, rn: nat, accepted: Bytes, read: Bytes, stale: Bytes)

  /** The slot frame a belongs to is occupied. */
  predicate Full(slots: seq<RxSlot>, a: nat)
    requires |slots| == MAXWIN
  {
    slots[a % MAXWIN].received
  }

  /** Frame a has reached the receiver: delivered already, or held in its slot. */
  predicate Got(slots: seq<RxSlot>, rn: nat, a: nat)
    requires |slots| == MAXWIN
  {
    a < rn || (a < rn + MAXWIN && Full(slots, a))
  }

  /** Every occupied slot holds the one frame of the receive window that belongs there. */
  ghost predicate SlotsInv(slots: seq<RxSlot>, rn: nat, hist: seq<Bytes>) {
    && |slots| == MAXWIN
    && (forall a: nat {:trigger Full(slots, a)} :: rn <= a < rn + MAXWIN && Full(slots, a) ==> SlotOk(slots, hist, a))
  }

  ghost predicate SlotOk(slots: seq<RxSlot>, hist: seq<Bytes>, a: nat)
    requires |slots| == MAXWIN
  {
    a < |hist| && slots[a % MAXWIN].num == Wrap8(a) && slots[a % MAXWIN].buf == hist[a]
  }

  ghost predicate WinOk(win: seq<TxFrame>, base: nat, hist: seq<Bytes>) {
    && base + |win| == |hist|
    && (forall i :: 0 <= i < |win| ==> win[i].raw == hist[base + i])
  }

  ghost predicate TxInv(t: TxHalf, f: Flow) {
    && TxValid(t)
    && t.base == Wrap8(f.base)
    && WinOk(t.win, f.base, f.hist)
    && (forall i :: 0 <= i < |f.hist| ==> 0 < |f.hist[i]| <= MAXPAY)
    && Flat(f.hist) + t.queue == f.accepted
  }

  ghost predicate RxInv(r: RxHalf, f: Flow) {
    && RxValid(r)
    && r.next == Wrap8(f.rn)
    && f.rn <= |f.hist|
    && f.read + r.queue == f.stale + Flat(f.hist[..f.rn])
    && SlotsInv(r.slots, f.rn, f.hist)
  }

  /** What the sender believes acked has really reached the receiver. */
  ghost predicate AckInv(win: seq<TxFrame>, base: nat, slots: seq<RxSlot>, rn: nat)
    requires |slots| == MAXWIN
  {
    && (forall a: nat :: a < base ==> Got(slots, rn, a))
    && (forall i: nat {:trigger win[i].acked} :: i < |win| && win[i].acked ==> Got(slots, rn, base + i))
  }

  ghost predicate DataPktOk(hist: seq<Bytes>, p: Packet) {
    p.frame.data ==> p.absNum < |hist| && p.frame.num == Wrap8(p.absNum) && p.frame.payload == hist[p.absNum]
  }

  ghost predicate AckPktOk(slots: seq<RxSlot>, rn: nat, p: Packet)
    requires |slots| == MAXWIN
  {
    && p.absAck <= rn
    && p.frame.ack == Wrap8(p.absAck)
    && (forall k: nat {:trigger p.frame.sack[k]} :: k < MAXWIN - 1 && p.frame.sack[k] ==>
       Got(slots, rn, p.absAck + 1 + k))
  }

  /** The invariant of one direction; `out` travels with the data, `back` against it. */
  ghost predicate DirInv(t: TxHalf, r: RxHalf, f: Flow, out: set<Packet>, back: set<Packet>) {
    && EndsInv(t, r, f)
    && (forall p :: p in out ==> DataPktOk(f.hist, p))
    && (forall p :: p in back ==> AckPktOk(r.slots, f.rn, p))
  }

  ghost predicate EndsInv(t: TxHalf, r: RxHalf, f: Flow) {
    TxInv(t, f) && RxInv(r, f) && AckInv(t.win, f.base, r.slots, f.rn)
  }

  // ---- consequences ----

  lemma GotBelowHist(slots: seq<RxSlot>, rn: nat, hist: seq<Bytes>, a: nat)
    requires SlotsInv(slots, rn, hist) && rn <= |hist| && Got(slots, rn, a)
    ensures a < |hist|
  {
  }

  lemma BaseBound(base: nat, slots: seq<RxSlot>, rn: nat)
    requires |slots| == MAXWIN && forall a: nat :: a < base ==> Got(slots, rn, a)
    ensures base <= rn + MAXWIN
  {
    assert rn + MAXWIN < base ==> Got(slots, rn, rn + MAXWIN);
  }

  /**
   * Backpressure lets the send window run ahead of delivery, but never past the receiver's
   * slots, and everything between is held.
   */
  lemma WindowBounds(t: TxHalf, r: RxHalf, f: Flow)
    requires EndsInv(t, r, f)
    ensures f.base <= f.rn + MAXWIN
    ensures |f.hist| <= f.rn + 2 * MAXWIN
    ensures forall a: nat {:trigger Full(r.slots, a)} :: f.rn <= a < f.base ==>
      Full(r.slots, a) && SlotOk(r.slots, f.hist, a)
  {
    BaseBound(f.base, r.slots, f.rn);
    forall a: nat | f.rn <= a < f.base
      ensures Full(r.slots, a) && SlotOk(r.slots, f.hist, a)
    {
      assert Got(r.slots, f.rn, a);
    }
  }

  /** What the receiver's application has taken out is a prefix of what the sender accepted. */
  lemma DeliveredIsPrefix(t: TxHalf, r: RxHalf, f: Flow)
    requires EndsInv(t, r, f)
    ensures f.read + r.queue <= f.stale + f.accepted
    ensures f.read <= f.stale + f.accepted
  {
    FlatPrefix(f.hist, f.rn);
    assert f.stale + Flat(f.hist[..f.rn]) <= f.stale + f.accepted;
  }

  // ---- receiver steps ----

  lemma SameSlot(rn: nat, a: nat, b: nat)
    requires rn <= a < rn + MAXWIN && rn <= b < rn + MAXWIN && a % MAXWIN == b % MAXWIN
    ensures a == b
  {
  }

  lemma ClearFront(slots: seq<RxSlot>, rn: nat, hist: seq<Bytes>)
    requires SlotsInv(slots, rn, hist) && Full(slots, rn)
    ensures SlotsInv(Clear(slots, rn % MAXWIN), rn + 1, hist)
    ensures forall a: nat :: Got(slots, rn, a) ==> Got(Clear(slots, rn % MAXWIN), rn + 1, a)
  {
    var s' := Clear(slots, rn % MAXWIN);
    forall a: nat | rn + 1 <= a < rn + 1 + MAXWIN && Full(s', a)
      ensures SlotOk(s', hist, a)
    {
      assert a % MAXWIN != rn % MAXWIN;
      assert Full(slots, a);
      assert SlotOk(slots, hist, a);
    }
    forall a: nat | Got(slots, rn, a)
      ensures Got(s', rn + 1, a)
    {
      if rn < a { if a % MAXWIN == rn % MAXWIN { SameSlot(rn, a, rn); } }
    }
  }

  /** Delivering the frame at the front keeps the receive half in step and loses nothing it had. */
  lemma DeliverKeeps(r: RxHalf, f: Flow)
    requires RxInv(r, f) && CanDeliver(r)
    ensures RxInv(Deliver(r), f.(rn := f.rn + 1))
    ensures forall a: nat :: Got(r.slots, f.rn, a) ==> Got(Deliver(r).slots, f.rn + 1, a)
  {
    WrapSlot(f.rn);
    WrapSum(f.rn, 1);
    assert Full(r.slots, f.rn);
    assert SlotOk(r.slots, f.hist, f.rn);
    ClearFront(r.slots, f.rn, f.hist);
    assert f.hist[..f.rn + 1] == f.hist[..f.rn] + [f.hist[f.rn]];
    FlatSnoc(f.hist[..f.rn], f.hist[f.rn]);
    assert f.read + Deliver(r).queue == (f.read + r.queue) + f.hist[f.rn];
    assert (f.stale + Flat(f.hist[..f.rn])) + f.hist[f.rn] == f.stale + Flat(f.hist[..f.rn + 1]);
  }

  /** How many frames a drain delivers. */
  ghost function DrainCount(r: RxHalf): nat
    requires |r.slots| == MAXWIN
    decreases HeldSlots(r.slots)
  {
    if CanDeliver(r) then 1 + DrainCount(Deliver(r)) else 0
  }

  /** Draining delivers frames in order, byte for byte, and every frame it had it still has. */
  lemma {:induction false} DrainKeeps(r: RxHalf, f: Flow)
    requires RxInv(r, f)
    ensures RxInv(Drain(r), f.(rn := f.rn + DrainCount(r)))
    ensures forall a: nat :: Got(r.slots, f.rn, a) ==> Got(Drain(r).slots, f.rn + DrainCount(r), a)
    decreases HeldSlots(r.slots)
  {
    if CanDeliver(r) {
      DeliverKeeps(r, f);
      DrainKeeps(Deliver(r), f.(rn := f.rn + 1));
    }
  }

  /**
   * Which old data frames the 8-bit window test turns away, however old: all but those a whole
   * number of wraps behind or within 15 short of one. The first it mistakes is 241 behind.
   */
  lemma OldFrameRejected(rn: nat, a: nat)
    requires a < rn
    ensures Wrap8(Wrap8(a) - Wrap8(rn)) >= MAXWIN <==> 1 <= (rn - a) % 256 <= 240
  {
    WrapDiff(a, rn);
    NegWrap(rn - a);
  }

  lemma InWindow(rn: nat, a: nat, top: nat)
    requires a < top <= rn + 2 * MAXWIN && rn - a <= 240
    ensures Wrap8(Wrap8(a) - Wrap8(rn)) < MAXWIN <==> rn <= a < rn + MAXWIN
  {
    WrapDiff(a, rn);
    if a < rn { OldFrameRejected(rn, a); }
  }

  lemma FillSlot(slots: seq<RxSlot>, rn: nat, hist: seq<Bytes>, a: nat)
    requires SlotsInv(slots, rn, hist) && rn <= a < rn + MAXWIN && a < |hist|
    ensures
      var s' := slots[a % MAXWIN := RxSlot(true, Wrap8(a), hist[a])];
      && SlotsInv(s', rn, hist) && Full(s', a)
      && (forall b: nat :: Got(slots, rn, b) ==> Got(s', rn, b))
  {
    var s' := slots[a % MAXWIN := RxSlot(true, Wrap8(a), hist[a])];
    forall b: nat | rn <= b < rn + MAXWIN && Full(s', b)
      ensures SlotOk(s', hist, b)
    {
      if b % MAXWIN == a % MAXWIN { SameSlot(rn, a, b); } else { assert Full(slots, b); }
    }
  }

  /** A genuine data frame no more than 240 behind is stored in its own slot or ignored. */
  lemma StoreKeeps(r: RxHalf, f: Flow, p: Packet)
    requires RxInv(r, f) && p.frame.data && DataPktOk(f.hist, p)
    requires f.rn - p.absNum <= 240 && |f.hist| <= f.rn + 2 * MAXWIN
    ensures RxInv(Store(r, p.frame.num, p.frame.payload), f)
    ensures forall a: nat :: Got(r.slots, f.rn, a) ==> Got(Store(r, p.frame.num, p.frame.payload).slots, f.rn, a)
    ensures p.absNum < f.rn + MAXWIN ==> Got(Store(r, p.frame.num, p.frame.payload).slots, f.rn, p.absNum)
  {
    var a := p.absNum;
    InWindow(f.rn, a, |f.hist|);
    WrapSlot(a);
    if f.rn <= a < f.rn + MAXWIN {
      if Full(r.slots, a) {
        assert SlotOk(r.slots, f.hist, a);
      } else {
        FillSlot(r.slots, f.rn, f.hist, a);
      }
    }
  }

  ghost function RxDataCount(r: RxHalf, num: u8, payload: Bytes): nat
    requires |r.slots| == MAXWIN
  {
    if Wrap8(num - r.next) < MAXWIN then DrainCount(Store(r, num, payload)) else 0
  }

  lemma RxDataKeeps(r: RxHalf, f: Flow, p: Packet)
    requires RxInv(r, f) && p.frame.data && DataPktOk(f.hist, p)
    requires f.rn - p.absNum <= 240 && |f.hist| <= f.rn + 2 * MAXWIN
    ensures
      var r' := RxData(r, p.frame.num, p.frame.payload);
      var f' := f.(rn := f.rn + RxDataCount(r, p.frame.num, p.frame.payload));
      && RxInv(r', f')
      && (forall a: nat :: Got(r.slots, f.rn, a) ==> Got(r'.slots, f'.rn, a))
      && (p.absNum < f.rn + MAXWIN ==> Got(r'.slots, f'.rn, p.absNum))
  {
    InWindow(f.rn, p.absNum, |f.hist|);
    StoreKeeps(r, f, p);
    DrainKeeps(Store(r, p.frame.num, p.frame.payload), f);
  }

  function AfterRead(r: RxHalf, max: nat): RxHalf { r.(queue := r.queue[Min(max, |r.queue|)..]) }

  ghost function ReadFlow(r: RxHalf, f: Flow, max: nat): Flow
    requires |r.slots| == MAXWIN
  {
    f.(read := f.read + r.queue[..Min(max, |r.queue|)], rn := f.rn + DrainCount(AfterRead(r, max)))
  }

  lemma RxReadKeeps(r: RxHalf, f: Flow, max: nat)
    requires RxInv(r, f)
    ensures RxInv(RxRead(r, max), ReadFlow(r, f, max))
    ensures forall a: nat :: Got(r.slots, f.rn, a) ==> Got(RxRead(r, max).slots, ReadFlow(r, f, max).rn, a)
  {
    var n := Min(max, |r.queue|);
    assert r.queue == r.queue[..n] + r.queue[n..];
    assert (f.read + r.queue[..n]) + r.queue[n..] == f.read + r.queue;
    DrainKeeps(AfterRead(r, max), f.(read := f.read + r.queue[..n]));
  }

  /** Frames the receiver has are never lost by a receiver step: acks already given stay true. */
  lemma RxStepLifts(t: TxHalf, r: RxHalf, f: Flow, out: set<Packet>, back: set<Packet>, r': RxHalf, f': Flow)
    requires DirInv(t, r, f, out, back)
    requires f' == f.(rn := f'.rn, read := f'.read) && f.rn <= f'.rn
    requires RxInv(r', f')
    requires forall a: nat :: Got(r.slots, f.rn, a) ==> Got(r'.slots, f'.rn, a)
    ensures DirInv(t, r', f', out, back)
  {
    forall p | p in back
      ensures AckPktOk(r'.slots, f'.rn, p)
    {
      assert AckPktOk(r.slots, f.rn, p);
    }
  }

  /** The SACK bitmap reports exactly the frames held out of order. */
  lemma SackOfExact(r: RxHalf, f: Flow, k: nat)
    requires RxInv(r, f) && k < MAXWIN - 1
    ensures SackOf(r)[k] <==> Got(r.slots, f.rn, f.rn + 1 + k)
  {
    var a := f.rn + 1 + k;
    WrapSum(f.rn, 1 + k);
    WrapSlot(a);
    assert SackOf(r)[k] == Holds(r, Wrap8(a));
    if Full(r.slots, a) { assert SlotOk(r.slots, f.hist, a); }
  }

  /** A frame the receiver sends now carries an ack that is true now, hence forever. */
  lemma AckPktFresh(r: RxHalf, f: Flow, p: Packet)
    requires RxInv(r, f)
    requires p.absAck == f.rn && p.frame.ack == r.next && p.frame.sack == SackOf(r)
    ensures AckPktOk(r.slots, f.rn, p)
  {
    forall k: nat | k < MAXWIN - 1 && p.frame.sack[k]
      ensures Got(r.slots, f.rn, p.absAck + 1 + k)
    {
      SackOfExact(r, f, k);
    }
  }

  // ---- sender steps ----

  /** A cumulative ack no more than 239 behind the window covers exactly what it should. */
  lemma CumExact(t: TxHalf, base: nat, top: nat, ack: nat)
    requires t.base == Wrap8(base) && base + |t.win| == top && |t.win| <= MAXWIN
    requires ack <= top && base - ack <= 239
    ensures Cum(t, Wrap8(ack)) == if ack <= base then 0 else ack - base
  {
    WrapDiff(ack, base);
  }

  /**
   * Which old cumulative acks acknowledge nothing, however old: those whose distance behind the
   * window, up to whole wraps, is zero or leaves more than the window to the next wrap. Against a
   * full window the first one mistaken is 240 behind.
   */
  lemma StaleAckIgnored(t: TxHalf, base: nat, ack: nat)
    requires t.base == Wrap8(base) && |t.win| <= MAXWIN && ack <= base
    ensures Cum(t, Wrap8(ack)) == 0 <==> (base - ack) % 256 == 0 || |t.win| < 256 - (base - ack) % 256
  {
    WrapDiff(ack, base);
    NegWrap(base - ack);
  }

  /**
   * The send window can really run ahead of delivery: the front frame arrives and is delivered,
   * the next one, selectively acked before, no longer fits; the ack that follows releases both.
   */
  lemma BaseCanPassDelivery(t: TxHalf, r: RxHalf, f: Flow)
    requires EndsInv(t, r, f) && f.base == f.rn && |t.win| >= 2 && t.win[1].acked
    requires RxData(r, Wrap8(f.rn), f.hist[f.rn]).next == Wrap8(f.rn + 1)
    ensures
      var r' := RxData(r, Wrap8(f.rn), f.hist[f.rn]);
      f.base + Released(t, r'.next, SackOf(r')) > f.rn + 1
  {
    var r' := RxData(r, Wrap8(f.rn), f.hist[f.rn]);
    CumExact(t, f.base, |f.hist|, f.rn + 1);
    var w := MarkAcked(t, r'.next, SackOf(r'));
    assert w[0].acked && w[1].acked;
  }

  /** A selective ack no more than 239 behind names the one frame it was meant for. */
  lemma SackNames(base: nat, ack: nat, i: nat, d: nat)
    requires base - ack <= 239 && i < MAXWIN && d < MAXWIN - 1
    requires ack + 1 + d < base + 2 * MAXWIN
    requires d == Wrap8(Wrap8(base + i) - Wrap8(ack) - 1)
    ensures base + i == ack + 1 + d
  {
    assert d == Wrap8(base + i - ack - 1);
  }

  /** A selective ack marks only a frame that has reached the receiver. */
  lemma SackSound(slots: seq<RxSlot>, rn: nat, hist: seq<Bytes>, base: nat, i: nat, p: Packet)
    requires SlotsInv(slots, rn, hist) && rn <= |hist| <= base + MAXWIN
    requires AckPktOk(slots, rn, p) && base - p.absAck <= 239
    requires i < MAXWIN && SackHit(Wrap8(base + i), p.frame.ack, p.frame.sack)
    ensures Got(slots, rn, base + i)
  {
    var d := Wrap8(Wrap8(base + i) - p.frame.ack - 1);
    assert Got(slots, rn, p.absAck + 1 + d);
    GotBelowHist(slots, rn, hist, p.absAck + 1 + d);
    SackNames(base, p.absAck, i, d);
  }

  /** After a genuine ack every frame marked acked has really reached the receiver. */
  lemma MarkSound(t: TxHalf, r: RxHalf, f: Flow, p: Packet, i: nat)
    requires EndsInv(t, r, f) && AckPktOk(r.slots, f.rn, p)
    requires f.base - p.absAck <= 239
    requires i < |t.win| && MarkAcked(t, p.frame.ack, p.frame.sack)[i].acked
    ensures Got(r.slots, f.rn, f.base + i)
  {
    CumExact(t, f.base, |f.hist|, p.absAck);
    WrapSum(f.base, i);
    hide SackHit, Got, SlotsInv, AckPktOk;
    if SackHit(t.win[i].num, p.frame.ack, p.frame.sack) { SackSound(r.slots, f.rn, f.hist, f.base, i, p); }
    else if !t.win[i].acked { AckedBelow(r, f, p, f.base + i); }
  }

  lemma AckedBelow(r: RxHalf, f: Flow, p: Packet, a: nat)
    requires |r.slots| == MAXWIN && AckPktOk(r.slots, f.rn, p) && a < p.absAck
    ensures Got(r.slots, f.rn, a)
  {
  }

  ghost function Released(t: TxHalf, ack: u8, sack: Sack): nat {
    LeadingAcked(MarkAcked(t, ack, sack))
  }

  /** The window left after sliding n frames out. */
  ghost predicate Slid(w: seq<TxFrame>, n: nat, w': seq<TxFrame>) {
    && |w'| + n == |w|
    && (forall i :: 0 <= i < |w'| ==> w'[i].num == w[n + i].num && w'[i].raw == w[n + i].raw)
  }

  lemma SlideWindow(w: seq<TxFrame>, base: u8, n: nat, w': seq<TxFrame>)
    requires Consecutive(w, base) && Slid(w, n, w')
    ensures Consecutive(w', Wrap8(base + n))
    ensures Wrap8(Wrap8(base + n) + |w'|) == Wrap8(base + |w|)
  {
    forall i | 0 <= i < |w'|
      ensures w'[i].num == Wrap8(Wrap8(base + n) + i) && 0 < |w'[i].raw| <= MAXPAY
    {
      assert w'[i].num == w[n + i].num;
      WrapSum(base + n, i);
    }
    WrapSum(base + n, |w'|);
  }

  lemma AckSlides(t: TxHalf, ack: u8, sack: Sack)
    ensures Slid(t.win, Released(t, ack, sack), TxAck(t, ack, sack).win)
    ensures forall i :: 0 <= i < |TxAck(t, ack, sack).win| ==>
      TxAck(t, ack, sack).win[i].acked == MarkAcked(t, ack, sack)[Released(t, ack, sack) + i].acked
    ensures TxAck(t, ack, sack) == t.(win := TxAck(t, ack, sack).win, base := Wrap8(t.base + Released(t, ack, sack)))
  {
  }

  /** Sliding the window keeps it consecutive and in step with the history. */
  lemma SlideKeeps(t: TxHalf, f: Flow, ack: u8, sack: Sack)
    requires TxInv(t, f)
    ensures TxInv(TxAck(t, ack, sack), f.(base := f.base + Released(t, ack, sack)))
  {
    hide TxAck, Released;
    var n := Released(t, ack, sack);
    AckSlides(t, ack, sack);
    SlideWindow(t.win, t.base, n, TxAck(t, ack, sack).win);
    WrapSum(f.base, n);
  }

  /** Processing an ack releases only frames the receiver has, and keeps the window contiguous. */
  lemma TxAckKeeps(t: TxHalf, r: RxHalf, f: Flow, p: Packet)
    requires EndsInv(t, r, f) && AckPktOk(r.slots, f.rn, p)
    requires f.base - p.absAck <= 239
    ensures EndsInv(TxAck(t, p.frame.ack, p.frame.sack), r,
                    f.(base := f.base + Released(t, p.frame.ack, p.frame.sack)))
  {
    SlideKeeps(t, f, p.frame.ack, p.frame.sack);
    AckedReached(t, r, f, p);
  }

  ghost predicate Reached(win: seq<TxFrame>, base: nat, slots: seq<RxSlot>, rn: nat)
    requires |slots| == MAXWIN
  {
    forall i: nat {:trigger win[i].acked} :: i < |win| && win[i].acked ==> Got(slots, rn, base + i)
  }

  lemma SlideReached(m: seq<TxFrame>, base: nat, slots: seq<RxSlot>, rn: nat, n: nat, w': seq<TxFrame>)
    requires |slots| == MAXWIN && Reached(m, base, slots, rn) && |w'| + n == |m|
    requires forall a: nat :: a < base ==> Got(slots, rn, a)
    requires forall i: nat :: i < n ==> m[i].acked
    requires forall i: nat :: i < |w'| ==> w'[i].acked == m[n + i].acked
    ensures AckInv(w', base + n, slots, rn)
  {
    forall a: nat | a < base + n
      ensures Got(slots, rn, a)
    {
      if a >= base { assert m[a - base].acked; }
    }
    forall i: nat | i < |w'| && w'[i].acked
      ensures Got(slots, rn, base + n + i)
    {
      assert m[n + i].acked;
    }
  }

  lemma MarkedReached(t: TxHalf, r: RxHalf, f: Flow, p: Packet)
    requires EndsInv(t, r, f) && AckPktOk(r.slots, f.rn, p)
    requires f.base - p.absAck <= 239
    ensures Reached(MarkAcked(t, p.frame.ack, p.frame.sack), f.base, r.slots, f.rn)
  {
    var m := MarkAcked(t, p.frame.ack, p.frame.sack);
    forall i: nat {:trigger m[i].acked} | i < |m| && m[i].acked
      ensures Got(r.slots, f.rn, f.base + i)
    {
      MarkSound(t, r, f, p, i);
    }
  }

  lemma AckedReached(t: TxHalf, r: RxHalf, f: Flow, p: Packet)
    requires EndsInv(t, r, f) && AckPktOk(r.slots, f.rn, p)
    requires f.base - p.absAck <= 239
    ensures AckInv(TxAck(t, p.frame.ack, p.frame.sack).win, f.base + Released(t, p.frame.ack, p.frame.sack), r.slots,
      f.rn)
  {
    MarkedReached(t, r, f, p);
    AckWindow(t, p.frame.ack, p.frame.sack, f.base, r.slots, f.rn);
  }

  lemma AckWindow(t: TxHalf, ack: u8, sack: Sack, base: nat, slots: seq<RxSlot>, rn: nat)
    requires |slots| == MAXWIN && Reached(MarkAcked(t, ack, sack), base, slots, rn)
    requires forall a: nat :: a < base ==> Got(slots, rn, a)
    ensures AckInv(TxAck(t, ack, sack).win, base + Released(t, ack, sack), slots, rn)
  {
    AckSlides(t, ack, sack);
    SlideReached(MarkAcked(t, ack, sack), base, slots, rn, Released(t, ack, sack), TxAck(t, ack, sack).win);
  }

  /** The payloads a fill frames, in order. */
  ghost function Framed(t: TxHalf): seq<Bytes>
    decreases |t.queue|
  {
    if |t.win| < t.window && |t.queue| > 0 then
      [t.queue[..Min(|t.queue|, MAXPAY)]] + Framed(FillOne(t))
    else []
  }

  lemma SlotsExtend(slots: seq<RxSlot>, rn: nat, hist: seq<Bytes>, x: Bytes)
    requires SlotsInv(slots, rn, hist)
    ensures SlotsInv(slots, rn, hist + [x])
  {
    forall a: nat | rn <= a < rn + MAXWIN && Full(slots, a)
      ensures SlotOk(slots, hist + [x], a)
    {
      assert SlotOk(slots, hist, a);
    }
  }

  /** Moving the first n queued bytes into a frame keeps the byte stream. */
  lemma FlatMove(h: seq<Bytes>, q: Bytes, n: nat)
    requires n <= |q|
    ensures Flat(h + [q[..n]]) + q[n..] == Flat(h) + q
  {
    FlatSnoc(h, q[..n]);
    assert (Flat(h) + q[..n]) + q[n..] == Flat(h) + q;
  }

  lemma FillOneTx(t: TxHalf, f: Flow)
    requires TxInv(t, f) && |t.win| < t.window && |t.queue| > 0
    ensures TxInv(FillOne(t), f.(hist := f.hist + [t.queue[..Min(|t.queue|, MAXPAY)]]))
  {
    hide Flat;
    FlatMove(f.hist, t.queue, Min(|t.queue|, MAXPAY));
    WrapSum(t.base + |t.win|, 1);
  }

  lemma FillOneRx(r: RxHalf, f: Flow, x: Bytes)
    requires RxInv(r, f)
    ensures RxInv(r, f.(hist := f.hist + [x]))
  {
    assert (f.hist + [x])[..f.rn] == f.hist[..f.rn];
    SlotsExtend(r.slots, f.rn, f.hist, x);
  }

  lemma FillOneKeeps(t: TxHalf, r: RxHalf, f: Flow)
    requires EndsInv(t, r, f)
    requires |t.win| < t.window && |t.queue| > 0
    ensures EndsInv(FillOne(t), r, f.(hist := f.hist + [t.queue[..Min(|t.queue|, MAXPAY)]]))
  {
    FillOneTx(t, f);
    FillOneRx(r, f, t.queue[..Min(|t.queue|, MAXPAY)]);
    assert !FillOne(t).win[|t.win|].acked;
  }

  /** Framing moves bytes from the queue to the window: none lost, none invented. */
  lemma {:induction false} FillKeeps(t: TxHalf, r: RxHalf, f: Flow)
    requires EndsInv(t, r, f)
    ensures EndsInv(Fill(t), r, f.(hist := f.hist + Framed(t)))
    ensures t.win <= Fill(t).win
    decreases |t.queue|
  {
    if |t.win| < t.window && |t.queue| > 0 {
      var x := t.queue[..Min(|t.queue|, MAXPAY)];
      FillOneKeeps(t, r, f);
      FillKeeps(FillOne(t), r, f.(hist := f.hist + [x]));
      assert f.hist + Framed(t) == (f.hist + [x]) + Framed(FillOne(t));
    } else {
      assert f.hist + Framed(t) == f.hist;
    }
  }

  /** Window contents equal in everything the protocol invariant reads. */
  ghost predicate SameFrames(w: seq<TxFrame>, w': seq<TxFrame>) {
    && |w| == |w'|
    && (forall i :: 0 <= i < |w| ==> w'[i].num == w[i].num && w'[i].raw == w[i].raw && w'[i].acked == w[i].acked)
  }

  /** Marking a frame as sent, or clearing the per-turn marks, touches nothing the invariant reads. */
  lemma MarkKeeps(t: TxHalf, t': TxHalf, r: RxHalf, f: Flow)
    requires EndsInv(t, r, f)
    requires t' == t.(win := t'.win, window := t'.window, retransmitMs := t'.retransmitMs)
    requires 1 <= t'.window <= MAXWIN && SameFrames(t.win, t'.win)
    ensures EndsInv(t', r, f)
  {
  }

  lemma TxWriteKeeps(t: TxHalf, r: RxHalf, f: Flow, cap: nat, d: Bytes)
    requires EndsInv(t, r, f)
    ensures |TxWrite(t, cap, d).queue| >= |t.queue|
    ensures EndsInv(TxWrite(t, cap, d), r, f.(accepted := f.accepted + TxWrite(t, cap, d).queue[|t.queue|..]))
  {
    var t' := TxWrite(t, cap, d);
    assert t'.queue == t.queue + t'.queue[|t.queue|..];
    assert Flat(f.hist) + t'.queue == (Flat(f.hist) + t.queue) + t'.queue[|t.queue|..];
  }

  /** Packets already on the air stay described by a longer history and the same receiver. */
  lemma TxStepLifts(t: TxHalf, r: RxHalf, f: Flow, out: set<Packet>, back: set<Packet>, t': TxHalf, f': Flow)
    requires DirInv(t, r, f, out, back)
    requires f.hist <= f'.hist && f'.rn == f.rn
    requires EndsInv(t', r, f')
    ensures DirInv(t', r, f', out, back)
  {
    forall p | p in out
      ensures DataPktOk(f'.hist, p)
    {
      assert DataPktOk(f.hist, p);
    }
  }
}
