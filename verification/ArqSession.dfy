/**
 * A session restart: one end drops everything and takes a new epoch. The first of its new frames
 * to arrive puts both directions into the protocol's invariant if and only if the two ends are in
 * sync: the restarted end has no other epoch on record for its peer, and the peer, having noticed,
 * numbers from zero both ways. A peer that knew another epoch always does; one that happens to
 * know the new epoch already, or has yet to hear anything, only if it is where a new session
 * begins. Of the peer's earlier frames that still arrive, exactly those that do not fit do harm.
 */
module ArqSession {
  import opened Base
  import opened Arq
  import opened ArqSafety
  import opened ArqSystem
  import opened ArqTurn

  /** An end that has just started a session: after initialisation or NewSession. */
  ghost predicate Restarted(l: Link) {
    && LinkValid(l)
    && l.tx.queue == [] && l.tx.win == [] && l.tx.base == 0 && l.tx.next == 0
    && l.rx.queue == [] && l.rx.next == 0 && NoneHeld(l.rx)
    && l.myEpoch != 0
  }

  ghost predicate NoneHeld(r: RxHalf) {
    |r.slots| == MAXWIN && forall j :: 0 <= j < MAXWIN ==> !r.slots[j].received
  }

  /** A new session empties the end and changes its epoch, whatever it was doing. */
  lemma NewSessionRestarts(l: Link)
    requires LinkValid(l)
    ensures Restarted(NewSession(l)) && NewSession(l).myEpoch != l.myEpoch
    ensures NewSession(l).peerEpoch == l.peerEpoch
  {
  }

  /** The restarted end has no epoch on record for its peer, or the one the peer is in. */
  ghost predicate KnowsPeer(a: Link, b: Link) { a.peerEpoch == 0 || a.peerEpoch == b.myEpoch }

  /**
   * The peer as it is once it has noticed the new epoch, with what it then still has: unread bytes,
   * frames in its window, unsent bytes. If the epoch is one it knows already, it notices nothing.
   */
  ghost function Noticed(a: Link, b: Link): System {
    var z := TrackEpoch(b, a.myEpoch);
    System(a, z, NoFlow.(stale := z.rx.queue), WindowFlow(z.tx), {}, {})
  }

  /** A sender with the frames of its window as its history. */
  ghost function WindowFlow(t: TxHalf): Flow {
    NoFlow.(hist := Raws(t.win), accepted := Flat(Raws(t.win)) + t.queue)
  }

  /** What a restart needs: a peer whose numbering, once it has noticed, starts where a new session's does. */
  ghost predicate InSync(a: Link, b: Link) {
    var z := TrackEpoch(b, a.myEpoch);
    KnowsPeer(a, b) && z.rx.next == 0 && NoneHeld(z.rx) && z.tx.base == 0 && NoneAcked(z.tx.win)
  }

  /** Whatever the peer's state, noticing the restart starts a session if and only if the two are in sync. */
  lemma NoticedInv(a: Link, b: Link)
    requires Restarted(a) && LinkValid(b) && b.myEpoch != 0
    ensures Inv(Noticed(a, b)) <==> InSync(a, b)
  {
    hide DirInv, LinkValid, TrackEpoch, NoneHeld, NoneAcked, Raws;
    var z := TrackEpoch(b, a.myEpoch);
    NoticedPeer(a, b);
    FirstDir(a.tx, z.rx);
    FirstDir(z.tx, a.rx);
    NothingFramed(a.tx);
  }

  lemma NoticedPeer(a: Link, b: Link)
    requires Restarted(a) && LinkValid(b)
    ensures var z := TrackEpoch(b, a.myEpoch);
      LinkValid(z) && TxValid(z.tx) && RxValid(z.rx) && z.myEpoch == b.myEpoch && z.peerEpoch == a.myEpoch
    ensures LinkValid(a) && TxValid(a.tx) && RxValid(a.rx) && NoneHeld(a.rx) && a.rx.next == 0
    ensures a.tx.win == [] && a.tx.base == 0 && a.tx.queue == [] && a.rx.queue == [] && a.myEpoch != 0
  {
  }

  lemma NothingFramed(t: TxHalf)
    requires t.win == [] && t.queue == []
    ensures WindowFlow(t) == NoFlow && NoneAcked(t.win)
  {
  }

  /** One direction with nothing delivered, nothing of this session held and nothing on the air. */
  lemma FirstDir(t: TxHalf, r: RxHalf)
    requires TxValid(t) && RxValid(r)
    ensures t.base == 0 && NoneAcked(t.win) && NoneHeld(r) && r.next == 0 ==>
      DirInv(t, r, WindowFlow(t).(stale := r.queue), {}, {})
    ensures DirInv(t, r, WindowFlow(t).(stale := r.queue), {}, {}) ==> t.base == 0 && r.next == 0
    ensures DirInv(t, r, WindowFlow(t).(stale := r.queue), {}, {}) && t.win == [] ==> NoneHeld(r)
    ensures DirInv(t, r, WindowFlow(t).(stale := r.queue), {}, {}) && NoneHeld(r) ==> NoneAcked(t.win)
  {
    var f := WindowFlow(t).(stale := r.queue);
    assert f.hist[..0] == [] && f.read + r.queue == f.stale + Flat([]);
    if DirInv(t, r, f, {}, {}) {
      if t.win == [] { NoneBelow(r, f); }
      if NoneHeld(r) { NoneReached(t.win, 0, r.slots); }
    }
  }

  /** A peer that knew another epoch starts over: only what the restarted end knows of it matters. */
  lemma OtherEpochInSync(a: Link, b: Link)
    requires Restarted(a) && LinkValid(b) && b.peerEpoch != 0 && b.peerEpoch != a.myEpoch
    ensures InSync(a, b) <==> KnowsPeer(a, b)
  {
  }

  /** A peer that has heard nothing yet may have sent: its unacknowledged first window is no hindrance. */
  lemma SilentPeerInSync(a: Link, b: Link)
    requires Restarted(a) && LinkValid(b) && b.peerEpoch == 0
    requires NoneHeld(b.rx) && b.rx.next == 0 && b.tx.base == 0 && NoneAcked(b.tx.win)
    ensures InSync(a, b) <==> KnowsPeer(a, b)
  {
  }

  // ---- what the peer's earlier frames do ----

  /** The frame acknowledges nothing in the window and carries no data that fits the receive window. */
  ghost predicate Harmless(l: Link, f: Frame) {
    && Cum(l.tx, f.ack) == 0
    && (forall i :: 0 <= i < |l.tx.win| ==> !SackHit(l.tx.win[i].num, f.ack, f.sack))
    && (f.data ==> Wrap8(f.num - l.rx.next) >= MAXWIN)
  }

  /**
   * An end that has had nothing acknowledged and holds nothing: a frame under the epoch it has on
   * record, or the first it hears, leaves both halves alone if and only if it is harmless.
   */
  lemma HarmlessIff(l: Link, f: Frame)
    requires LinkValid(l) && NoneHeld(l.rx) && ForMe(l, f) && (l.peerEpoch == 0 || l.peerEpoch == f.epoch)
    requires NoneAcked(l.tx.win)
    ensures |OnRx(l, f).rx.slots| == MAXWIN
    ensures OnRx(l, f).tx == l.tx && OnRx(l, f).rx == l.rx <==> Harmless(l, f)
  {
    AckLeaves(l.tx, f.ack, f.sack);
    if f.data { DataLeaves(l.rx, f.num, f.payload); }
    hide TxAck, RxData, LinkValid;
  }

  ghost predicate NoneAcked(win: seq<TxFrame>) { forall i :: 0 <= i < |win| ==> !win[i].acked }

  lemma AckLeaves(t: TxHalf, ack: u8, sack: Sack)
    requires TxValid(t) && NoneAcked(t.win)
    ensures (TxAck(t, ack, sack).base == t.base && NoneAcked(TxAck(t, ack, sack).win)) ==> TxAck(t, ack, sack) == t
    ensures TxAck(t, ack, sack) == t <==>
      Cum(t, ack) == 0 && forall i :: 0 <= i < |t.win| ==> !SackHit(t.win[i].num, ack, sack)
  {
    hide MarkAcked, FlagGaps, SackHit, Cum, TxValid, Wrap8;
    var m := MarkAcked(t, ack, sack);
    var n := LeadingAcked(m);
    MarkLeaves(t, ack, sack);
    FlagLeaves(m[n..]);
    assert n == 0 ==> m[n..] == m;
    CapAndBase(t);
    if TxAck(t, ack, sack).base == t.base { SameBase(t.base, n); }
  }

  lemma CapAndBase(t: TxHalf)
    requires TxValid(t)
    ensures |t.win| <= MAXWIN && Wrap8(t.base + 0) == t.base
  {
  }

  lemma SameBase(b: u8, n: nat)
    requires n <= MAXWIN && Wrap8(b + n) == b
    ensures n == 0
  {
  }

  lemma MarkLeaves(t: TxHalf, ack: u8, sack: Sack)
    requires NoneAcked(t.win)
    ensures var m := MarkAcked(t, ack, sack);
      && |m| == |t.win|
      && (m == t.win <==> Cum(t, ack) == 0 && forall i :: 0 <= i < |t.win| ==> !SackHit(t.win[i].num, ack, sack))
      && (m == t.win <==> NoneAcked(m))
  {
    var m := MarkAcked(t, ack, sack);
    hide SackHit;
    assert forall i :: 0 <= i < |m| ==> m[i].acked == (i < Cum(t, ack) || SackHit(t.win[i].num, ack, sack));
    assert |m| > 0 ==> m[0].acked == (0 < Cum(t, ack) || SackHit(t.win[0].num, ack, sack));
    if m == t.win { assert forall i :: 0 <= i < |m| ==> !m[i].acked; }
    if NoneAcked(m) {
      assert forall i :: 0 <= i < |m| ==> !SackHit(t.win[i].num, ack, sack);
      assert m == t.win;
    }
  }

  lemma FlagLeaves(w: seq<TxFrame>)
    ensures NoneAcked(w) <==> NoneAcked(FlagGaps(w))
    ensures NoneAcked(w) ==> FlagGaps(w) == w
  {
    var z := FlagGaps(w);
    assert forall i :: 0 <= i < |w| ==> z[i].acked == w[i].acked;
  }

  lemma DataLeaves(r: RxHalf, num: u8, payload: Bytes)
    requires NoneHeld(r) && |r.queue| <= r.cap
    ensures |RxData(r, num, payload).slots| == MAXWIN
    ensures var z := RxData(r, num, payload);
      && (z == r <==> Wrap8(num - r.next) >= MAXWIN)
      && (NoneHeld(z) && z.next == r.next ==> z == r)
  {
    if Wrap8(num - r.next) < MAXWIN {
      var r1 := Store(r, num, payload);
      if CanDeliver(r1) { OneDelivered(r1); } else { assert r1.slots[num % MAXWIN].received; }
    }
  }

  /** With one frame held, delivering it is all a drain does, and it moves on. */
  lemma OneDelivered(r: RxHalf)
    requires |r.slots| == MAXWIN && CanDeliver(r)
    requires forall j :: 0 <= j < MAXWIN && r.slots[j].received ==> j == r.next % MAXWIN
    ensures Drain(r) == Deliver(r) && NoneHeld(Drain(r)) && Drain(r).next != r.next
  {
    var d := Deliver(r);
    assert NoneHeld(d);
    assert !CanDeliver(d);
    assert Drain(d) == d;
  }

  /** For an end fresh from its restart that leaves polls, acks, and data numbered 16 or more. */
  lemma HarmlessAfterRestart(a: Link, f: Frame)
    requires Restarted(a)
    ensures Harmless(a, f) <==> !f.data || f.num >= 16
  {
  }

  /**
   * Any other old data frame is taken for new: number 0, if it fits, is delivered as the first of
   * the new stream, and the rest are held for their turn.
   */
  lemma OldFrameTakenForNew(a: Link, f: Frame)
    requires Restarted(a) && ForMe(a, f) && (a.peerEpoch == 0 || a.peerEpoch == f.epoch)
    requires f.data && f.num < 16
    ensures var r := OnRx(a, f).rx;
      && |r.slots| == MAXWIN
      && if f.num == 0 && |f.payload| <= a.rx.cap then r.queue == f.payload && r.next == 1 && NoneHeld(r)
         else r.queue == [] && r.next == 0 && Holds(r, f.num) && r.slots[f.num].buf == f.payload
  {
    OldFrameHalves(a, f);
    var r := Store(a.rx, f.num, f.payload);
    if CanDeliver(r) { OneDelivered(r); }
    hide OnRx;
  }

  // ---- until the peer hears ----

  /** What the restarted end does before the peer hears it: its own operations, and frames from the peer's past. */
  datatype Early = Own(op: Op) | Old(f: Frame)

  /** Old frames carry the epoch the peer is in; nothing of the new session has come back. */
  ghost predicate EarlyOk(s: System, e: Early) {
    match e
    case Own(op) => !op.RecvOp?
    case Old(f) => ForMe(s.a, f) && f.epoch == s.b.myEpoch
  }

  ghost function EarlyStep(s: System, e: Early): System
    requires |s.a.rx.slots| == MAXWIN
  {
    match e
    case Own(op) => DoA(s, op)
    case Old(f) => HearOld(s, f)
  }

  /** A frame of the peer's past arrives and is accounted for like any other. */
  ghost function HearOld(s: System, f: Frame): System
    requires |s.a.rx.slots| == MAXWIN
  {
    s.(a := OnRx(s.a, f), ab := s.ab.(base := s.ab.base + Released(s.a.tx, f.ack, f.sack)),
       ba := if f.data then s.ba.(rn := s.ba.rn + RxDataCount(s.a.rx, f.num, f.payload)) else s.ba)
  }

  /** Nothing of the new session has reached the peer, and nothing the peer has sent since has come back. */
  ghost predicate Unheard(s: System) {
    && s.netBA == {} && s.ab.rn == 0 && s.ab.base == 0 && s.ba.base == 0
    && NoneHeld(s.b.rx) && NoneAcked(s.a.tx.win) && s.b.peerEpoch == s.a.myEpoch
    && |s.a.rx.slots| == MAXWIN && !CanDeliver(s.a.rx)
  }

  /**
   * The frame acknowledges nothing in the window, and its data, if inside the receive window, is
   * held already or is the very payload the peer has framed under that number.
   */
  ghost predicate Fits(s: System, f: Frame)
    requires |s.a.rx.slots| == MAXWIN
  {
    && Cum(s.a.tx, f.ack) == 0
    && (forall i :: 0 <= i < |s.a.tx.win| ==> !SackHit(s.a.tx.win[i].num, f.ack, f.sack))
    && (f.data ==> DataFits(s.a.rx, s.ba, f.num, f.payload))
  }

  ghost predicate DataFits(r: RxHalf, f: Flow, num: u8, payload: Bytes)
    requires |r.slots| == MAXWIN
  {
    var d := Wrap8(num - r.next);
    d >= MAXWIN || Holds(r, num) || (f.rn + d < |f.hist| && f.hist[f.rn + d] == payload)
  }

  lemma HarmlessFits(s: System, f: Frame)
    requires |s.a.rx.slots| == MAXWIN && Harmless(s.a, f)
    ensures Fits(s, f)
  {
  }

  lemma NoticedUnheard(a: Link, b: Link)
    requires Restarted(a) && LinkValid(b) && InSync(a, b)
    ensures Unheard(Noticed(a, b))
  {
  }

  lemma OwnKeeps(s: System, op: Op)
    requires Inv(s) && Unheard(s) && !op.RecvOp?
    ensures Inv(DoA(s, op)) && Unheard(DoA(s, op))
    ensures DoA(s, op).b == s.b && DoA(s, op).a.myEpoch == s.a.myEpoch
  {
    hide ArqSystem.Inv, DoA, Unheard;
    SlotsOf(s);
    StepKeepsA(s, op);
    if op.NextTxOp? { SendingUnheard(s, op.now); } else { OtherUnheard(s, op); }
  }

  lemma SlotsOf(s: System)
    requires Unheard(s)
    ensures |s.a.rx.slots| == |s.b.rx.slots| == MAXWIN
  {
  }

  lemma SendingUnheard(s: System, now: u32)
    requires Unheard(s) && |s.a.rx.slots| == MAXWIN
    ensures var z := DoA(s, NextTxOp(now)); Unheard(z) && z.b == s.b && z.a.myEpoch == s.a.myEpoch
  {
    hide NextTx, Fill, Framed, Labelled;
    NextTxUnacked(s.a, now);
    ArqSystem.NextTxShape(s.a, now);
  }

  lemma OtherUnheard(s: System, op: Op)
    requires Unheard(s) && |s.a.rx.slots| == MAXWIN && !op.RecvOp? && !op.NextTxOp?
    ensures var z := DoA(s, op); Unheard(z) && z.b == s.b && z.a.myEpoch == s.a.myEpoch
  {
    if op.ReadOp? { DrainSlots(AfterRead(s.a.rx, op.max)); }
    hide Drain, DrainCount, SackOf, CanDeliver;
  }

  lemma NextTxUnacked(l: Link, now: u32)
    requires |l.rx.slots| == MAXWIN && NoneAcked(l.tx.win)
    ensures NoneAcked(NextTx(l, now).0.tx.win)
  {
    NewUnacked(l.tx);
    hide Fill, Eligible, SackOf;
  }

  /** A fill appends unacked frames. */
  lemma {:induction false} NewUnacked(t: TxHalf)
    requires NoneAcked(t.win)
    ensures NoneAcked(Fill(t).win)
    decreases |t.queue|
  {
    if |t.win| < t.window && |t.queue| > 0 { NewUnacked(FillOne(t)); }
  }

  /**
   * One frame from the peer's past, in any state the restarted end can be in before the peer
   * hears it: the protocol's invariant survives it if and only if the frame fits.
   */
  lemma OldFrameKeepsIff(s: System, f: Frame)
    requires Inv(s) && Unheard(s) && EarlyOk(s, Old(f))
    ensures Inv(HearOld(s, f)) <==> Fits(s, f)
    ensures Fits(s, f) ==> Unheard(HearOld(s, f))
  {
    hide ArqSystem.Inv, HearOld, Fits, Unheard;
    SlotsOf(s);
    if Fits(s, f) { FittingKeeps(s, f); }
    if Inv(HearOld(s, f)) { KeptMeansFits(s, f); }
  }

  lemma FittingKeeps(s: System, f: Frame)
    requires Inv(s) && Unheard(s) && EarlyOk(s, Old(f)) && Fits(s, f)
    ensures Inv(HearOld(s, f)) && Unheard(HearOld(s, f))
  {
    hide ArqSystem.Inv, OnRx, Released, TxAck, RxData, RxDataCount, DirInv, DataFits, SackHit, Cum, NoneHeld,
      CanDeliver;
    InvParts(s);
    OldFrameHalves(s.a, f);
    OldFrameEpochs(s.a, f);
    AckLeaves(s.a.tx, f.ack, f.sack);
    NoneReleased(s.a.tx, f.ack, f.sack);
    if f.data {
      FittingData(s.b.tx, s.a.rx, s.ba, s.netAB, f);
      RxDataSlots(s.a.rx, f.num, f.payload);
    }
    InvOf(s, HearOld(s, f));
  }

  lemma NoneReleased(t: TxHalf, ack: u8, sack: Sack)
    requires TxAck(t, ack, sack) == t
    ensures Released(t, ack, sack) == 0
  {
    AckSlides(t, ack, sack);
  }

  /** The joint invariant when only end a has moved and its send half has not. */
  lemma InvOf(s: System, z: System)
    requires Inv(s) && Unheard(s) && z == s.(a := z.a, ba := z.ba)
    requires z.a.tx == s.a.tx && z.a.txCap == s.a.txCap && z.a.myEpoch == s.a.myEpoch && z.a.peerEpoch == s.b.myEpoch
    requires z.ba.base == s.ba.base && DirInv(s.b.tx, z.a.rx, z.ba, {}, s.netAB) && !CanDeliver(z.a.rx)
    ensures Inv(z) && Unheard(z)
  {
    hide TxInv, AckInv, SlotsInv, DataPktOk, AckPktOk, NoneHeld, CanDeliver;
  }

  /** Data that fits goes where the frame of that number belongs. */
  lemma FittingData(t: TxHalf, r: RxHalf, f: Flow, back: set<Packet>, g: Frame)
    requires DirInv(t, r, f, {}, back) && |r.slots| == MAXWIN && g.data && DataFits(r, f, g.num, g.payload)
    ensures DirInv(t, RxData(r, g.num, g.payload), f.(rn := f.rn + RxDataCount(r, g.num, g.payload)), {}, back)
  {
    hide Holds, Drain, DrainCount, Flat, AckInv, AckPktOk, SlotsInv;
    var d := Wrap8(g.num - r.next);
    WindowBounds(t, r, f);
    if d < MAXWIN {
      if Holds(r, g.num) {
        DrainKeeps(r, f);
      } else {
        NumberIs(g.num, f.rn, d);
        RxDataKeeps(r, f, Packet(g, f.rn + d, 0));
      }
      RxStepLifts(t, r, f, {}, back, RxData(r, g.num, g.payload), f.(rn := f.rn + RxDataCount(r, g.num, g.payload)));
    }
  }

  lemma NumberIs(num: u8, rn: nat, d: nat)
    requires d == Wrap8(num - Wrap8(rn))
    ensures num == Wrap8(rn + d)
  {
  }

  /** A frame after which the invariant still holds has acknowledged nothing, and its data fits. */
  lemma KeptMeansFits(s: System, f: Frame)
    requires Inv(s) && Unheard(s) && EarlyOk(s, Old(f)) && Inv(HearOld(s, f))
    ensures Fits(s, f)
  {
    hide ArqSystem.Inv, OnRx, Released, TxAck, RxData, RxDataCount, RxInv, DataFits, SackHit, Cum, NoneAcked,
      CanDeliver;
    var z := HearOld(s, f);
    InvParts(s);
    InvParts(z);
    OldFrameHalves(s.a, f);
    AckLeaves(s.a.tx, f.ack, f.sack);
    NoneReached(z.a.tx.win, z.ab.base, s.b.rx.slots);
    if f.data { KeptData(s.a.rx, s.ba, f.num, f.payload); }
  }

  lemma KeptData(r: RxHalf, f: Flow, num: u8, payload: Bytes)
    requires RxInv(r, f) && !CanDeliver(r)
    requires RxInv(RxData(r, num, payload), f.(rn := f.rn + RxDataCount(r, num, payload)))
    ensures DataFits(r, f, num, payload)
  {
    var d := Wrap8(num - r.next);
    if d < MAXWIN && !Holds(r, num) {
      hide Flat, RxInv;
      StartsAt(r, f);
      var r1 := Store(r, num, payload);
      if CanDeliver(r1) {
        FrontOnly(r, num, payload);
        KeptFront(r, f, payload);
      } else {
        KeptHeld(r, f, num, payload, d);
      }
    }
  }

  lemma StartsAt(r: RxHalf, f: Flow)
    requires RxInv(r, f)
    ensures |r.slots| == MAXWIN && r.next == Wrap8(f.rn)
  {
  }

  /** A payload that is held has to be the one framed under its number. */
  lemma KeptHeld(r: RxHalf, f: Flow, num: u8, payload: Bytes, d: nat)
    requires |r.slots| == MAXWIN && r.next == Wrap8(f.rn) && d == Wrap8(num - r.next) < MAXWIN && !Holds(r, num)
    requires RxInv(Store(r, num, payload), f)
    ensures f.rn + d < |f.hist| && f.hist[f.rn + d] == payload
  {
    NumberIs(num, f.rn, d);
    WrapSlot(f.rn + d);
    var r1 := Store(r, num, payload);
    assert Full(r1.slots, f.rn + d);
    assert SlotOk(r1.slots, f.hist, f.rn + d);
  }

  /** Where nothing was deliverable, storing the next frame alone makes something so. */
  lemma FrontOnly(r: RxHalf, num: u8, payload: Bytes)
    requires |r.slots| == MAXWIN && !CanDeliver(r) && Wrap8(num - r.next) < MAXWIN && CanDeliver(Store(r, num, payload))
    ensures num == r.next
  {
  }

  /** A delivered payload has to be the one framed: the stream would differ otherwise. */
  lemma KeptFront(r: RxHalf, f: Flow, payload: Bytes)
    requires RxInv(r, f) && !Holds(r, r.next) && CanDeliver(Store(r, r.next, payload))
    requires var r1 := Store(r, r.next, payload); RxInv(Drain(r1), f.(rn := f.rn + DrainCount(r1)))
    ensures f.rn < |f.hist| && f.hist[f.rn] == payload
  {
    var r1 := Store(r, r.next, payload);
    var h := f.hist[f.rn := payload];
    var n := f.rn + DrainCount(r1);
    assert DrainCount(r1) >= 1;
    hide Drain, DrainCount, Flat, CanDeliver;
    FrontStored(r, f, payload);
    DrainKeeps(r1, f.(hist := h));
    SameRest(f.read, Drain(r1).queue, f.stale, Flat(f.hist[..n]), Flat(h[..n]));
    FlatAt(f.hist, n, f.rn, payload);
  }

  lemma SameRest(read: Bytes, queue: Bytes, stale: Bytes, x: Bytes, y: Bytes)
    requires read + queue == stale + x && read + queue == stale + y
    ensures x == y
  {
    assert x == (stale + x)[|stale|..] && y == (stale + y)[|stale|..];
  }

  lemma FrontStored(r: RxHalf, f: Flow, payload: Bytes)
    requires RxInv(r, f) && !Holds(r, r.next) && f.rn < |f.hist|
    ensures RxInv(Store(r, r.next, payload), f.(hist := f.hist[f.rn := payload]))
  {
    var h := f.hist[f.rn := payload];
    WrapSlot(f.rn);
    assert h[..f.rn] == f.hist[..f.rn];
    forall a: nat | f.rn <= a < f.rn + MAXWIN && Full(r.slots, a) ensures SlotOk(r.slots, h, a) {
      assert SlotOk(r.slots, f.hist, a);
    }
    FillSlot(r.slots, f.rn, h, f.rn);
  }

  /** Changing one piece changes the whole. */
  lemma FlatAt(h: seq<Bytes>, n: nat, i: nat, x: Bytes)
    requires i < n <= |h| && Flat(h[..n]) == Flat(h[i := x][..n])
    ensures h[i] == x
  {
    hide Flat;
    var a, b := h[..i], h[i + 1..n];
    assert h[..n] == a + [h[i]] + b && h[i := x][..n] == a + [x] + b;
    FlatConcat(a + [h[i]], b);
    FlatConcat(a + [x], b);
    FlatSnoc(a, h[i]);
    FlatSnoc(a, x);
    Middle(Flat(a), h[i], x, Flat(b));
  }

  lemma Middle(a: Bytes, x: Bytes, y: Bytes, b: Bytes)
    requires a + x + b == a + y + b
    ensures x == y
  {
    assert |x| == |y|;
    assert x == (a + x + b)[|a|..|a| + |x|] && y == (a + y + b)[|a|..|a| + |y|];
  }

  /** The parts of the joint invariant an old frame could break. */
  lemma InvParts(s: System)
    requires Inv(s)
    ensures LinkValid(s.a) && RxInv(s.a.rx, s.ba) && TxInv(s.a.tx, s.ab) && |s.b.rx.slots| == MAXWIN
    ensures AckInv(s.a.tx.win, s.ab.base, s.b.rx.slots, s.ab.rn) && |s.a.tx.win| <= MAXWIN
    ensures DirInv(s.b.tx, s.a.rx, s.ba, s.netBA, s.netAB)
    ensures s.a.peerEpoch == 0 || s.a.peerEpoch == s.b.myEpoch
  {
  }

  lemma OldFrameHalves(l: Link, f: Frame)
    requires |l.rx.slots| == MAXWIN && ForMe(l, f) && (l.peerEpoch == 0 || l.peerEpoch == f.epoch)
    ensures OnRx(l, f).tx == TxAck(l.tx, f.ack, f.sack)
    ensures OnRx(l, f).rx == if f.data then RxData(l.rx, f.num, f.payload) else l.rx
  {
    hide TxAck, RxData;
  }

  /** While the peer has framed nothing, nothing is held and nothing delivered. */
  lemma NoneBelow(r: RxHalf, f: Flow)
    requires RxInv(r, f) && f.hist == []
    ensures NoneHeld(r) && r.next == 0
  {
    forall j | 0 <= j < MAXWIN ensures !r.slots[j].received {
      assert Full(r.slots, j) ==> SlotOk(r.slots, f.hist, j);
    }
  }

  /** While nothing has reached the peer, nothing is released or acked. */
  lemma NoneReached(win: seq<TxFrame>, base: nat, slots: seq<RxSlot>)
    requires |slots| == MAXWIN && AckInv(win, base, slots, 0) && |win| <= MAXWIN
    requires forall j :: 0 <= j < MAXWIN ==> !slots[j].received
    ensures base == 0 && NoneAcked(win)
  {
    assert base > 0 ==> !Got(slots, 0, 0);
    forall i | 0 <= i < |win| ensures !win[i].acked {
      assert !Got(slots, 0, i);
    }
  }

  lemma OldFrameEpochs(l: Link, f: Frame)
    requires |l.rx.slots| == MAXWIN && ForMe(l, f) && (l.peerEpoch == 0 || l.peerEpoch == f.epoch)
    ensures var z := OnRx(l, f);
      && z.peerEpoch == f.epoch && z.myEpoch == l.myEpoch && z.addr == l.addr && z.peer == l.peer && z.txCap == l.txCap
      && z.txCtrl == l.txCtrl && z.txAux == l.txAux && z.ackSentTurn == l.ackSentTurn
  {
    hide TxAck, Drain, Store;
  }

  /** What the restarted end does early on, each frame from the peer's past fitting. */
  ghost predicate EarlyRun(s: System, es: seq<Early>)
    decreases |es|
  {
    es == [] || (
      && |s.a.rx.slots| == MAXWIN && EarlyOk(s, es[0]) && (es[0].Old? ==> Fits(s, es[0].f))
      && EarlyRun(EarlyStep(s, es[0]), es[1..]))
  }

  ghost function EarlyAfter(s: System, es: seq<Early>): System
    requires EarlyRun(s, es)
    decreases |es|
  {
    if es == [] then s else EarlyAfter(EarlyStep(s, es[0]), es[1..])
  }

  lemma {:induction false} EarlyKeeps(s: System, es: seq<Early>)
    requires Inv(s) && Unheard(s) && EarlyRun(s, es)
    ensures var z := EarlyAfter(s, es); Inv(z) && Unheard(z) && z.b == s.b && z.a.myEpoch == s.a.myEpoch
    decreases |es|
  {
    if es != [] {
      var z := EarlyStep(s, es[0]);
      EarlyOne(s, es[0]);
      hide ArqSystem.Inv, Unheard, EarlyStep, EarlyOk, Fits;
      EarlyKeeps(z, es[1..]);
    }
  }

  lemma EarlyOne(s: System, e: Early)
    requires Inv(s) && Unheard(s) && EarlyOk(s, e) && (e.Old? ==> Fits(s, e.f))
    ensures var z := EarlyStep(s, e); Inv(z) && Unheard(z) && z.b == s.b && z.a.myEpoch == s.a.myEpoch
  {
    hide ArqSystem.Inv, Fits, OnRx, Unheard, HearOld, RxDataCount, Released;
    match e
    case Own(op) => OwnKeeps(s, op);
    case Old(f) =>
      SlotsOf(s);
      OldFrameKeepsIff(s, f);
      OldFrameEpoch(s, f);
  }

  lemma OldFrameEpoch(s: System, f: Frame)
    requires |s.a.rx.slots| == MAXWIN && Inv(s) && EarlyOk(s, Old(f))
    ensures EarlyStep(s, Old(f)) == HearOld(s, f) && HearOld(s, f).b == s.b && HearOld(s, f).a.myEpoch == s.a.myEpoch
  {
    hide OnRx, Released, RxDataCount;
    InvParts(s);
    OldFrameEpochs(s.a, f);
  }

  /**
   * Epoch resynchronisation: with the ends in sync, and whatever the restarted end has queued, sent
   * and fittingly heard since, the first of its frames the peer accepts leaves the two ends in the
   * protocol invariant of a fresh session, in both directions.
   */
  lemma EpochResync(a: Link, b: Link, es: seq<Early>, p: Packet)
    requires Restarted(a) && LinkValid(b) && b.myEpoch != 0 && InSync(a, b)
    requires EarlyRun(Noticed(a, b), es)
    requires p in EarlyAfter(Noticed(a, b), es).netAB && ForMe(b, p.frame)
    ensures
      var s := EarlyAfter(Noticed(a, b), es);
      && s.b == TrackEpoch(b, a.myEpoch) && OnRx(s.b, p.frame) == OnRx(b, p.frame)
      && Enabled(s, Event(false, RecvOp(p)))
      && |s.a.rx.slots| == |s.b.rx.slots| == MAXWIN
      && Inv(Do(s, Event(false, RecvOp(p)))) && Do(s, Event(false, RecvOp(p))).b == OnRx(b, p.frame)
  {
    hide EarlyRun, EarlyAfter, OnRx, ArqSystem.Inv, Do, Enabled, TrackEpoch;
    NoticedInv(a, b);
    NoticedUnheard(a, b);
    EarlyKeeps(Noticed(a, b), es);
    var s := EarlyAfter(Noticed(a, b), es);
    FirstHeard(s, a, b, p);
    StepKeeps(s, Event(false, RecvOp(p)));
  }

  /** The first frame the peer accepts finds it as it noticed the restart. */
  lemma FirstHeard(s: System, a: Link, b: Link, p: Packet)
    requires Restarted(a) && LinkValid(b) && Inv(s) && Unheard(s)
    requires s.b == Noticed(a, b).b && s.a.myEpoch == a.myEpoch && p in s.netAB && ForMe(b, p.frame)
    ensures s.b == TrackEpoch(b, a.myEpoch) && OnRx(s.b, p.frame) == OnRx(b, p.frame)
    ensures |s.a.rx.slots| == |s.b.rx.slots| == MAXWIN && Enabled(s, Event(false, RecvOp(p)))
    ensures Do(s, Event(false, RecvOp(p))).b == OnRx(b, p.frame)
  {
    hide OnRx, DoA, Restarted, LinkValid, NoneHeld;
    SlotsOf(s);
    EpochOfNet(s, p);
    NoticedOnce(b, p.frame);
    HeardBy(s, p);
  }

  lemma EpochOfNet(s: System, p: Packet)
    requires Inv(s) && Unheard(s) && p in s.netAB
    ensures p.frame.epoch == s.a.myEpoch && s.ba.base == 0
  {
  }

  /** Noticing an epoch twice is noticing it once. */
  lemma NoticedOnce(b: Link, f: Frame)
    requires |b.rx.slots| == MAXWIN && ForMe(b, f)
    ensures var z := TrackEpoch(b, f.epoch); |z.rx.slots| == MAXWIN && ForMe(z, f) && OnRx(z, f) == OnRx(b, f)
  {
    hide Accept;
    assert TrackEpoch(TrackEpoch(b, f.epoch), f.epoch) == TrackEpoch(b, f.epoch);
  }

  lemma HeardBy(s: System, p: Packet)
    requires |s.a.rx.slots| == |s.b.rx.slots| == MAXWIN && ForMe(s.b, p.frame)
    ensures Do(s, Event(false, RecvOp(p))).b == OnRx(s.b, p.frame)
  {
    hide OnRx, Released, RxDataCount;
  }
}
