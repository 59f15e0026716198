/**
 * No run of a session ends in a dead end: from every state that keeps the protocol's invariant,
 * whatever was lost on the way there, the two ends can go on so that each application reads
 * everything the other end has accepted.
 */
module ArqFinish {
  import opened Base
  import opened Arq
  import opened ArqSafety
  import opened ArqSystem
  import opened ArqTurn
  import opened ArqProgress

  /** Each application has read everything the other end accepted. */
  ghost predicate Finished(s: System) {
    s.ab.read == s.ab.stale + s.ab.accepted && s.ba.read == s.ba.stale + s.ba.accepted
  }

  ghost predicate CanFinish(s: System) {
    exists es: seq<Event> :: Run(s, es) && Finished(After(s, es))
  }

  /** A session between two ends that address each other and have room for a whole frame. */
  ghost predicate Open(s: System) {
    Inv(s) && Facing(s.a, s.b) && s.a.rx.cap >= MAXPAY && s.b.rx.cap >= MAXPAY
  }

  /** What one direction still has to do: frames to release, bytes to frame, bytes to read. */
  ghost function Owed(t: TxHalf, f: Flow): int {
    |t.win| + |t.queue| + |f.stale| + |f.accepted| - |f.read|
  }

  /** Nothing new accepted, and neither direction has more to do than before. */
  ghost predicate Onward(s: System, z: System) {
    && Open(z) && Owed(z.a.tx, z.ab) <= Owed(s.a.tx, s.ab) && Owed(z.b.tx, z.ba) <= Owed(s.b.tx, s.ba)
    && z.ab.accepted == s.ab.accepted && z.ab.stale == s.ab.stale
    && z.ba.accepted == s.ba.accepted && z.ba.stale == s.ba.stale
  }

  lemma OwedSome(s: System)
    requires Inv(s)
    ensures Owed(s.a.tx, s.ab) >= 0 && Owed(s.b.tx, s.ba) >= 0
  {
    DeliveredIsPrefix(s.a.tx, s.b.rx, s.ab);
    DeliveredIsPrefix(s.b.tx, s.a.rx, s.ba);
  }

  // ---- every operation but a write leads onward ----

  /** Framing takes at least a byte for each frame. */
  lemma {:induction false} FillOwes(t: TxHalf)
    ensures |Fill(t).win| + |Fill(t).queue| <= |t.win| + |t.queue|
    decreases |t.queue|
  {
    if |t.win| < t.window && |t.queue| > 0 { FillOwes(FillOne(t)); }
  }

  lemma {:induction false} DrainCap(r: RxHalf)
    requires |r.slots| == MAXWIN
    ensures Drain(r).cap == r.cap && r.queue <= Drain(r).queue
    decreases HeldSlots(r.slots)
  {
    if CanDeliver(r) { DrainCap(Deliver(r)); }
  }

  lemma StepOnward(s: System, op: Op)
    requires Open(s) && EnabledA(s, op) && !op.WriteOp?
    ensures Onward(s, DoA(s, op))
  {
    hide ArqSystem.Inv, Drain, DrainCount;
    StepKeepsA(s, op);
    Slots(s);
    match op
    case ReadOp(max) => DrainCap(AfterRead(s.a.rx, max));
    case NextTxOp(now) =>
      hide Fill, Framed, NextTx, Labelled;
      FillOwes(s.a.tx);
      ArqSystem.NextTxShape(s.a, now);
    case RecvOp(p) =>
      hide OnRx, TxAck, Released, RxData, RxDataCount;
      if ForMe(s.a, p.frame) { RecvOnward(s, p); }
    case _ =>
  }

  lemma Slots(s: System)
    requires Inv(s)
    ensures |s.a.rx.slots| == |s.b.rx.slots| == MAXWIN
  {
  }

  lemma RecvOnward(s: System, p: Packet)
    requires Inv(s) && p in s.netBA && ForMe(s.a, p.frame)
    ensures var z := DoA(s, RecvOp(p));
      && |z.a.tx.win| + Released(s.a.tx, p.frame.ack, p.frame.sack) == |s.a.tx.win| && z.a.tx.queue == s.a.tx.queue
      && z.b == s.b && z.ab == s.ab.(base := z.ab.base) && z.ba == s.ba.(rn := z.ba.rn)
      && z.a.rx.cap == s.a.rx.cap && z.a.addr == s.a.addr && z.a.peer == s.a.peer
  {
    RecvShape(s, p);
    AckSlides(s.a.tx, p.frame.ack, p.frame.sack);
    RxDataSlots(s.a.rx, p.frame.num, p.frame.payload);
    OnRxEnds(s, p);
    hide ArqSystem.Inv, TxAck, Released, RxData, RxDataCount, DoA;
  }

  lemma OnRxEnds(s: System, p: Packet)
    requires Inv(s)
    ensures var z := DoA(s, RecvOp(p)); z.a.addr == s.a.addr && z.a.peer == s.a.peer
  {
    Slots(s);
    hide ArqSystem.Inv, TxAck, Released, RxData, RxDataCount;
  }

  lemma EventOnward(s: System, e: Event)
    requires Open(s) && Enabled(s, e) && !e.op.WriteOp?
    ensures |s.a.rx.slots| == |s.b.rx.slots| == MAXWIN && Onward(s, Do(s, e))
  {
    Slots(s);
    StepOnward(if e.atA then s else Swap(s), e.op);
    hide ArqSystem.Inv, DoA;
  }

  // ---- runs ----

  /** es is a run from s to z that leads onward. */
  ghost predicate Leads(s: System, es: seq<Event>, z: System) {
    Run(s, es) && After(s, es) == z && Onward(s, z)
  }

  lemma Nowhere(s: System)
    requires Open(s)
    ensures Leads(s, [], s)
  {
  }

  lemma Then(s: System, es: seq<Event>, y: System, e: Event)
    requires Leads(s, es, y) && Enabled(y, e) && !e.op.WriteOp?
    ensures |y.a.rx.slots| == |y.b.rx.slots| == MAXWIN && Leads(s, es + [e], Do(y, e))
  {
    EventOnward(y, e);
    hide Do, Enabled, Open;
    assert Run(Do(y, e), [e][1..]);
    assert Run(y, [e]) && After(y, [e]) == Do(y, e);
    RunConcat(s, es, [e]);
  }

  lemma Both(s: System, es: seq<Event>, y: System, fs: seq<Event>, z: System)
    requires Leads(s, es, y) && Leads(y, fs, z)
    ensures Leads(s, es + fs, z)
  {
    hide Run, After, Open;
    RunConcat(s, es, fs);
  }

  // ---- one direction has something to do ----

  /** b's application reads all there is. */
  lemma Reading(s: System) returns (es: seq<Event>, z: System)
    requires Open(s) && s.b.rx.queue != []
    ensures Leads(s, es, z) && Owed(z.a.tx, z.ab) < Owed(s.a.tx, s.ab)
  {
    var e := Event(false, ReadOp(|s.b.rx.queue|));
    Nowhere(s);
    Then(s, [], s, e);
    es, z := [] + [e], Do(s, e);
    hide Drain, DrainCount;
  }

  /** Reading nothing at all still delivers what is held and fits. */
  lemma Unblocking(s: System) returns (es: seq<Event>, z: System)
    requires Open(s) && |s.b.rx.slots| == MAXWIN && CanDeliver(s.b.rx)
    ensures Leads(s, es, z) && Owed(z.a.tx, z.ab) < Owed(s.a.tx, s.ab)
  {
    var e := Event(false, ReadOp(0));
    Nowhere(s);
    Then(s, [], s, e);
    var y := Do(s, e);
    FrontDelivers(s);
    var fs, w := Reading(y);
    Both(s, [] + [e], y, fs, w);
    es, z := [] + [e] + fs, w;
    hide Drain, DrainCount, Leads;
  }

  lemma FrontDelivers(s: System)
    requires Inv(s) && |s.a.rx.slots| == |s.b.rx.slots| == MAXWIN && CanDeliver(s.b.rx)
    ensures Do(s, Event(false, ReadOp(0))).b.rx.queue != []
  {
    var r := s.b.rx;
    assert AfterRead(r, 0) == r;
    DrainCap(Deliver(r));
    WrapSlot(s.ab.rn);
    assert Full(r.slots, s.ab.rn) && SlotOk(r.slots, s.ab.hist, s.ab.rn);
  }

  /** b polls: a releases everything b has delivered. */
  lemma Releasing(s: System) returns (es: seq<Event>, z: System)
    requires Open(s) && s.ab.base < s.ab.rn
    ensures Leads(s, es, z) && Owed(z.a.tx, z.ab) < Owed(s.a.tx, s.ab)
  {
    Slots(s);
    var e1, p := Event(false, PollOp), Packet(Poll(s.b), 0, s.ab.rn);
    Nowhere(s);
    Then(s, [], s, e1);
    var y := Do(s, e1);
    assert y == s.(netBA := s.netBA + {p});
    var e2 := Event(true, RecvOp(p));
    assert ForMe(y.a, p.frame) && InTime(y.ab, y.ba, p);
    Then(s, [] + [e1], y, e2);
    AckReleases(s.a.tx, s.ab, s.ab.rn, p.frame.sack);
    RecvOnward(y, p);
    es, z := [] + [e1] + [e2], Do(y, e2);
    hide SackOf, OnRx, TxAck, Released, RxDataCount;
  }

  /** When the front frame's timer has run out. */
  function Due(t: TxHalf): u32
    requires t.win != []
  {
    (t.win[0].sentAt + t.retransmitMs) % 0x1_0000_0000
  }

  lemma DueNow(t: TxHalf)
    requires t.win != [] && !t.win[0].acked
    ensures var w := Fill(TxBeginTurn(t)).win; w != [] && Pick(w, 0, Due(t), Fill(TxBeginTurn(t)).retransmitMs) == 0
  {
    FillIdle(TxBeginTurn(t));
    assert TxBeginTurn(t).win[0] == Fill(TxBeginTurn(t)).win[0];
  }

  lemma FirstNow(t: TxHalf)
    requires t.win == [] && t.queue != [] && t.window >= 1
    ensures var w := Fill(TxBeginTurn(t)).win; w != [] && Pick(w, 0, 0, Fill(TxBeginTurn(t)).retransmitMs) == 0
  {
    var y := TxBeginTurn(t);
    FillAppends(FillOne(y));
    assert Fill(y) == Fill(FillOne(y));
    assert FillOne(y).win[0] == Fill(y).win[0];
  }

  /** Some moment at which the front frame goes out first, in a turn just begun. */
  lemma FrontSent(t: TxHalf) returns (now: u32)
    requires 1 <= t.window && (t.win != [] ==> !t.win[0].acked) && (t.win != [] || t.queue != [])
    ensures var w := Fill(TxBeginTurn(t)).win; w != [] && Pick(w, 0, now, Fill(TxBeginTurn(t)).retransmitMs) == 0
  {
    if t.win != [] {
      DueNow(t);
      now := Due(t);
    } else {
      FirstNow(t);
      now := 0;
    }
  }

  /** a sends its front frame, which is the next b expects and fits. */
  lemma Resending(s: System) returns (es: seq<Event>, z: System)
    requires Open(s) && |s.b.rx.slots| == MAXWIN && s.ab.base == s.ab.rn && s.b.rx.queue == [] && !CanDeliver(s.b.rx)
    requires s.a.tx.win != [] || s.a.tx.queue != []
    ensures Leads(s, es, z) && Owed(z.a.tx, z.ab) < Owed(s.a.tx, s.ab)
  {
    Slots(s);
    NextUnheld(s);
    var now := FrontSent(s.a.tx);
    var e1 := Event(true, BeginTurnOp);
    Nowhere(s);
    Then(s, [], s, e1);
    var x := Do(s, e1);
    var e2 := Event(true, NextTxOp(now));
    Then(s, [] + [e1], x, e2);
    var y, p := Do(x, e2), Labelled(x, now, NextTx(x.a, now).1.value);
    FrontHeard(s, now);
    var e3 := Event(false, RecvOp(p));
    Then(s, [] + [e1] + [e2], y, e3);
    var w := Do(y, e3);
    hide Leads, Do, Enabled, ArqSystem.Inv, NextTx, Labelled, TxBeginTurn, Fill, CanDeliver;
    var fs, v := Reading(w);
    Both(s, [] + [e1] + [e2] + [e3], w, fs, v);
    assert Onward(s, w) by { LeadsOnward(s, [] + [e1] + [e2] + [e3], w); }
    es, z := [] + [e1] + [e2] + [e3] + fs, v;
  }

  lemma LeadsOnward(s: System, es: seq<Event>, z: System)
    requires Leads(s, es, z)
    ensures Onward(s, z)
  {
  }

  /** While nothing is deliverable into an empty ring, the next frame is not held, so the front is unacked. */
  lemma NextUnheld(s: System)
    requires Open(s) && |s.b.rx.slots| == MAXWIN && s.b.rx.queue == [] && !CanDeliver(s.b.rx)
    ensures !Full(s.b.rx.slots, s.ab.rn) && s.ab.base <= s.ab.rn
    ensures s.ab.base == s.ab.rn && s.a.tx.win != [] ==> !s.a.tx.win[0].acked
  {
    if Full(s.b.rx.slots, s.ab.rn) {
      assert SlotOk(s.b.rx.slots, s.ab.hist, s.ab.rn);
      FrontFits(s.b.rx, s.ab);
    }
    WindowBounds(s.a.tx, s.b.rx, s.ab);
  }

  /** The front frame goes on the air in a turn just begun. */
  lemma FrontOnAir(s: System, now: u32)
    requires Open(s) && |s.a.rx.slots| == MAXWIN
    requires var t := Fill(TxBeginTurn(s.a.tx)); t.win != [] && Pick(t.win, 0, now, t.retransmitMs) == 0
    ensures var x := DoA(s, BeginTurnOp);
      && NextTx(x.a, now).1.Some?
      && var p := Labelled(x, now, NextTx(x.a, now).1.value);
      && var y := DoA(x, NextTxOp(now));
      && Inv(y) && y.b == s.b && y.ab == s.ab.(hist := y.ab.hist)
      && p in y.netAB && InTime(y.ba, y.ab, p) && ForMe(y.b, p.frame) && p.frame.data && p.absNum == s.ab.base
  {
    var x := DoA(s, BeginTurnOp);
    HeaderKeeps(s, BeginTurnOp);
    SendShape(x, now);
    PromptPacketInTime(x, now);
    FrameAddressed(x.a, x.b, now);
  }

  /** It arrives and is delivered. */
  lemma FrontHeard(s: System, now: u32)
    requires Open(s) && |s.a.rx.slots| == |s.b.rx.slots| == MAXWIN
    requires s.ab.base == s.ab.rn && s.b.rx.queue == [] && !CanDeliver(s.b.rx)
    requires var t := Fill(TxBeginTurn(s.a.tx)); t.win != [] && Pick(t.win, 0, now, t.retransmitMs) == 0
    ensures var x := DoA(s, BeginTurnOp);
      && NextTx(x.a, now).1.Some?
      && var p := Labelled(x, now, NextTx(x.a, now).1.value);
      && var y := DoA(x, NextTxOp(now));
      && p in y.netAB && InTime(y.ba, y.ab, p) && |y.b.rx.slots| == MAXWIN
      && Hear(y, p).b.rx.queue != []
  {
    FrontOnAir(s, now);
    hide NextTx, Labelled, TxBeginTurn, Fill, RxData, RxDataCount, Released, TxAck;
    var x := DoA(s, BeginTurnOp);
    var p, y := Labelled(x, now, NextTx(x.a, now).1.value), DoA(x, NextTxOp(now));
    FrontTaken(s, y, p);
  }

  /** The expected frame, heard into an empty ring, is delivered. */
  lemma FrontTaken(s: System, y: System, p: Packet)
    requires Open(s) && |s.b.rx.slots| == MAXWIN && s.ab.base == s.ab.rn && s.b.rx.queue == [] && !CanDeliver(s.b.rx)
    requires Inv(y) && y.b == s.b && y.ab == s.ab.(hist := y.ab.hist) && p in y.netAB && InTime(y.ba, y.ab, p)
    requires ForMe(y.b, p.frame) && p.frame.data && p.absNum == s.ab.base
    ensures Hear(y, p).b.rx.queue != []
  {
    HearGot(y, p);
    HearKeeps(y, p);
    RxDataSlots(y.b.rx, p.frame.num, p.frame.payload);
    RecvShape(Swap(y), p);
    hide DoA, Hear, RxData;
    Delivered(Hear(y, p).b.rx, Hear(y, p).ab, y.ab.rn);
  }

  /** A frame that has arrived while nothing deliverable is held has been delivered. */
  lemma Delivered(r: RxHalf, f: Flow, n: nat)
    requires RxInv(r, f) && Got(r.slots, f.rn, n) && !CanDeliver(r) && r.cap >= MAXPAY && n <= f.rn
    requires forall i :: 0 <= i < |f.hist| ==> 0 < |f.hist[i]| <= MAXPAY
    requires f.read == f.stale + Flat(f.hist[..Min(n, |f.hist|)])
    ensures r.queue != []
  {
    if r.queue == [] {
      if f.rn == n {
        assert SlotOk(r.slots, f.hist, n);
        FrontFits(r, f);
      } else {
        FlatGrows(f.hist, n, f.rn);
      }
    }
  }

  lemma FlatGrows(h: seq<Bytes>, n: nat, m: nat)
    requires n < m <= |h| && h[n] != []
    ensures |Flat(h[..n])| < |Flat(h[..m])|
  {
    FlatPrefix(h[..m], n + 1);
    assert h[..m][..n + 1] == h[..n] + [h[n]];
    FlatSnoc(h[..n], h[n]);
  }

  /** A direction whose reader has not read all that was accepted can get nearer to it. */
  lemma Advance(s: System) returns (es: seq<Event>, z: System)
    requires Open(s) && s.ab.read != s.ab.stale + s.ab.accepted
    ensures Leads(s, es, z) && Owed(z.a.tx, z.ab) < Owed(s.a.tx, s.ab)
  {
    Slots(s);
    if s.b.rx.queue != [] {
      es, z := Reading(s);
    } else if CanDeliver(s.b.rx) {
      es, z := Unblocking(s);
    } else {
      NextUnheld(s);
      if s.ab.base < s.ab.rn {
        es, z := Releasing(s);
      } else {
        SomethingLeft(s);
        es, z := Resending(s);
      }
    }
  }

  lemma SomethingLeft(s: System)
    requires Inv(s) && s.ab.base == s.ab.rn && s.b.rx.queue == [] && s.ab.read != s.ab.stale + s.ab.accepted
    ensures s.a.tx.win != [] || s.a.tx.queue != []
  {
    assert s.ab.hist[..|s.ab.hist|] == s.ab.hist;
    assert Flat(s.ab.hist) + [] == Flat(s.ab.hist);
    assert s.ab.read + [] == s.ab.read;
  }

  // ---- the other direction ----

  /** The same run with the ends exchanged. */
  function Flip(es: seq<Event>): seq<Event> {
    seq(|es|, i requires 0 <= i < |es| => Event(!es[i].atA, es[i].op))
  }

  lemma {:induction false} FlipRun(s: System, es: seq<Event>)
    requires Run(Swap(s), es)
    ensures Run(s, Flip(es)) && After(s, Flip(es)) == Swap(After(Swap(s), es))
    decreases |es|
  {
    hide DoA, EnabledA;
    if es != [] {
      var e := Flip(es)[0];
      assert Do(Swap(s), es[0]) == Swap(Do(s, e));
      FlipRun(Do(s, e), es[1..]);
      assert Flip(es)[1..] == Flip(es[1..]);
    }
  }

  lemma AdvanceBack(s: System) returns (es: seq<Event>, z: System)
    requires Open(s) && s.ba.read != s.ba.stale + s.ba.accepted
    ensures Leads(s, es, z) && Owed(z.b.tx, z.ba) < Owed(s.b.tx, s.ba)
  {
    var fs, y := Advance(Swap(s));
    hide Run, After, ArqSystem.Inv;
    FlipRun(s, fs);
    es, z := Flip(fs), Swap(y);
  }

  /** From every state of an open session there is a run in which both applications read everything. */
  lemma {:induction false} OpenCanFinish(s: System)
    requires Open(s)
    ensures CanFinish(s)
    decreases Owed(s.a.tx, s.ab) + Owed(s.b.tx, s.ba)
  {
    OwedSome(s);
    hide Run, After, Open, Owed;
    if Finished(s) {
      Nowhere(s);
    } else {
      var es, z;
      if s.ab.read != s.ab.stale + s.ab.accepted { es, z := Advance(s); } else { es, z := AdvanceBack(s); }
      OpenCanFinish(z);
      FinishFrom(s, es, z);
    }
  }

  lemma FinishFrom(s: System, es: seq<Event>, z: System)
    requires Run(s, es) && After(s, es) == z && CanFinish(z)
    ensures CanFinish(s)
  {
    hide Run, After;
    var fs :| Run(z, fs) && Finished(After(z, fs));
    RunConcat(s, es, fs);
  }

  /** Every run from an open state leaves it open. */
  lemma {:induction false} RunOpen(s: System, es: seq<Event>)
    requires Open(s) && Run(s, es)
    ensures Open(After(s, es))
    decreases |es|
  {
    if es != [] {
      StepOpen(s, es[0]);
      hide Open, Do, Enabled;
      RunOpen(Do(s, es[0]), es[1..]);
    }
  }

  lemma StepOpen(s: System, e: Event)
    requires Open(s) && Enabled(s, e)
    ensures |s.a.rx.slots| == |s.b.rx.slots| == MAXWIN && Open(Do(s, e))
  {
    Slots(s);
    StepKeeps(s, e);
    if !e.op.WriteOp? { EventOnward(s, e); }
    hide ArqSystem.Inv;
  }

  /**
   * No dead ends: after any run of a session, whatever the channel lost, duplicated or delayed,
   * there is a continuation in which each application reads exactly what the other end accepted.
   */
  lemma EveryRunCanFinish(s: System, es: seq<Event>)
    requires Start(s) && Run(s, es) && Facing(s.a, s.b) && s.a.rx.cap >= MAXPAY && s.b.rx.cap >= MAXPAY
    ensures CanFinish(After(s, es))
  {
    StartInv(s);
    RunOpen(s, es);
    OpenCanFinish(After(s, es));
  }
}
