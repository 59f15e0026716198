/**
 * Two ends and a channel that may lose, duplicate and reorder anything ever sent. Runs are
 * sequences of operations at either end; every run within one session keeps the invariant of
 * both directions, so both applications read a prefix of what the other wrote.
 */
module ArqSystem {
  import opened Base
  import opened Arq
  import opened ArqSafety

  /** `ab` is the history of the data a sends to b; `netAB` is every packet a ever sent. */
  datatype System = System(a: Link, b: Link, ab: Flow, ba: Flow, netAB: set<Packet>, netBA: set<Packet>)

  datatype Op =
    | WriteOp(d: Bytes)
    | ReadOp(max: nat)
    | BeginTurnOp
    | NextTxOp(now: u32)
    | PollOp
    | RecvOp(p: Packet)
    | SetTimingOp(window: u8, retransmitMs: u32)
    | SetHeaderOp(ctrl: u8, aux: u8)

  /** An operation at end a, or at end b. */
  datatype Event = Event(atA: bool, op: Op)

  function Swap(s: System): System { System(s.b, s.a, s.ba, s.ab, s.netBA, s.netAB) }

  const NoFlow: Flow := Flow([], 0, 0, [], [], [])

  ghost predicate SessionInv(l: Link, peer: Link, sent: set<Packet>) {
    && l.myEpoch != 0
    && (l.peerEpoch == 0 || l.peerEpoch == peer.myEpoch)
    && (forall p :: p in sent ==> p.frame.epoch == l.myEpoch)
  }

  /** Everything a run of one session keeps. */
  ghost predicate Inv(s: System) {
    && LinkValid(s.a) && LinkValid(s.b)
    && DirInv(s.a.tx, s.b.rx, s.ab, s.netAB, s.netBA)
    && DirInv(s.b.tx, s.a.rx, s.ba, s.netBA, s.netAB)
    && SessionInv(s.a, s.b, s.netAB) && SessionInv(s.b, s.a, s.netBA)
  }

  /** A link as initialised: nothing queued, framed, held or delivered. */
  ghost predicate Fresh(l: Link) {
    && LinkValid(l)
    && l.tx.queue == [] && l.tx.win == [] && l.tx.base == 0 && l.tx.next == 0
    && l.rx.queue == [] && l.rx.next == 0 && (forall j :: 0 <= j < MAXWIN ==> !l.rx.slots[j].received)
    && l.myEpoch != 0 && l.peerEpoch == 0
  }

  ghost predicate Start(s: System) {
    && Fresh(s.a) && Fresh(s.b)
    && s.ab == NoFlow && s.ba == NoFlow && s.netAB == {} && s.netBA == {}
  }

  /** Each end accepts the other's frames. */
  predicate Facing(a: Link, b: Link) {
    (a.peer == 0 || a.peer == b.addr) && (b.peer == 0 || b.peer == a.addr)
  }

  /** The wrap bounds on how late a packet may arrive, exact for 8-bit numbers and this window. */
  predicate InTime(mine: Flow, theirs: Flow, p: Packet) {
    && mine.base - p.absAck <= 239
    && (p.frame.data ==> theirs.rn - p.absNum <= 240)
  }

  predicate EnabledA(s: System, op: Op) {
    op.RecvOp? ==> op.p in s.netBA && InTime(s.ab, s.ba, op.p)
  }

  /** The packet a turn step puts on the air, with the numbers its 8-bit fields stand for. */
  ghost function Labelled(s: System, now: u32, f: Frame): Packet
    requires |s.a.rx.slots| == MAXWIN
  {
    var t := Fill(s.a.tx);
    Packet(f, s.ab.base + Pick(t.win, 0, now, t.retransmitMs), s.ba.rn)
  }

  /** The effect of one operation at end a. */
  ghost function DoA(s: System, op: Op): System
    requires |s.a.rx.slots| == MAXWIN
  {
    match op
    case WriteOp(d) =>
      var l := Write(s.a, d);
      var n := Min(|s.a.tx.queue|, |l.tx.queue|);
      s.(a := l, ab := s.ab.(accepted := s.ab.accepted + l.tx.queue[n..]))
    case ReadOp(max) => s.(a := Read(s.a, max), ba := ReadFlow(s.a.rx, s.ba, max))
    case BeginTurnOp => s.(a := BeginTurn(s.a))
    case NextTxOp(now) =>
      var (l, out) := NextTx(s.a, now);
      s.(a := l, ab := s.ab.(hist := s.ab.hist + Framed(s.a.tx)),
         netAB := if out.Some? then s.netAB + {Labelled(s, now, out.value)} else s.netAB)
    case PollOp => s.(netAB := s.netAB + {Packet(Poll(s.a), 0, s.ba.rn)})
    case RecvOp(p) =>
      if !ForMe(s.a, p.frame) then s else
      var l := TrackEpoch(s.a, p.frame.epoch);
      s.(a := OnRx(s.a, p.frame),
         ab := s.ab.(base := s.ab.base + Released(l.tx, p.frame.ack, p.frame.sack)),
         ba := if p.frame.data then s.ba.(rn := s.ba.rn + RxDataCount(l.rx, p.frame.num, p.frame.payload)) else s.ba)
    case SetTimingOp(w, ms) => s.(a := SetTiming(s.a, w, ms))
    case SetHeaderOp(ctrl, aux) => s.(a := s.a.(txCtrl := ctrl, txAux := aux))
  }

  ghost predicate Enabled(s: System, e: Event) { EnabledA(if e.atA then s else Swap(s), e.op) }

  ghost function Do(s: System, e: Event): System
    requires |s.a.rx.slots| == |s.b.rx.slots| == MAXWIN
  {
    if e.atA then DoA(s, e.op) else Swap(DoA(Swap(s), e.op))
  }

  // ---- each operation keeps the invariant ----

  lemma WriteKeeps(s: System, d: Bytes)
    requires Inv(s)
    ensures Inv(DoA(s, WriteOp(d)))
  {
    var s' := DoA(s, WriteOp(d));
    TxWriteKeeps(s.a.tx, s.b.rx, s.ab, s.a.txCap, d);
    TxStepLifts(s.a.tx, s.b.rx, s.ab, s.netAB, s.netBA, s'.a.tx, s'.ab);
  }

  lemma ReadKeeps(s: System, max: nat)
    requires Inv(s)
    ensures Inv(DoA(s, ReadOp(max)))
  {
    var s' := DoA(s, ReadOp(max));
    RxReadKeeps(s.a.rx, s.ba, max);
    RxStepLifts(s.b.tx, s.a.rx, s.ba, s.netBA, s.netAB, s'.a.rx, s'.ba);
  }

  lemma HeaderKeeps(s: System, op: Op)
    requires Inv(s) && (op.BeginTurnOp? || op.SetTimingOp? || op.SetHeaderOp?)
    ensures Inv(DoA(s, op))
  {
    var s' := DoA(s, op);
    MarkKeeps(s.a.tx, s'.a.tx, s.b.rx, s.ab);
    TxStepLifts(s.a.tx, s.b.rx, s.ab, s.netAB, s.netBA, s'.a.tx, s'.ab);
  }

  /** Adding a true packet to the air keeps both directions. */
  lemma EmitKeeps(s: System, p: Packet)
    requires Inv(s) && DataPktOk(s.ab.hist, p)
    requires p.absAck == s.ba.rn && p.frame.ack == s.a.rx.next && p.frame.sack == SackOf(s.a.rx)
    requires p.frame.epoch == s.a.myEpoch
    ensures Inv(s.(netAB := s.netAB + {p}))
  {
    AckPktFresh(s.a.rx, s.ba, p);
  }

  /** A turn step without its emission: frames queued bytes and marks the picked frame sent. */
  lemma FrameKeeps(s: System, now: u32)
    requires Inv(s)
    ensures Inv(DoA(s, NextTxOp(now)).(netAB := s.netAB))
  {
    var s' := DoA(s, NextTxOp(now));
    FillKeeps(s.a.tx, s.b.rx, s.ab);
    FillQueue(s.a.tx);
    NextTxShape(s.a, now);
    MarkKeeps(Fill(s.a.tx), s'.a.tx, s.b.rx, s'.ab);
    TxStepLifts(s.a.tx, s.b.rx, s.ab, s.netAB, s.netBA, s'.a.tx, s'.ab);
    assert DirInv(s'.a.tx, s'.b.rx, s'.ab, s.netAB, s.netBA);
    assert DirInv(s'.b.tx, s'.a.rx, s'.ba, s.netBA, s.netAB);
  }

  lemma NextTxShape(l: Link, now: u32)
    requires |l.rx.slots| == MAXWIN
    ensures
      var l' := NextTx(l, now).0;
      && l' == l.(tx := l'.tx, ackPending := l'.ackPending, ackSentTurn := l'.ackSentTurn)
      && l'.tx == Fill(l.tx).(win := l'.tx.win) && SameFrames(Fill(l.tx).win, l'.tx.win)
  {
  }

  /** The frame a turn step emits is the one its label says. */
  lemma LabelTrue(s: System, now: u32)
    requires Inv(s) && NextTx(s.a, now).1.Some?
    ensures
      var p := Labelled(s, now, NextTx(s.a, now).1.value);
      && DataPktOk(DoA(s, NextTxOp(now)).ab.hist, p)
      && p.frame.ack == s.a.rx.next && p.frame.sack == SackOf(s.a.rx) && p.frame.epoch == s.a.myEpoch
  {
    hide Eligible, MoreToSend, SackOf, Framed, AckInv, RxInv, AckPktOk;
    var t := Fill(s.a.tx);
    FillKeeps(s.a.tx, s.b.rx, s.ab);
    WindowFrame(t, DoA(s, NextTxOp(now)).ab, Pick(t.win, 0, now, t.retransmitMs));
  }

  lemma WindowFrame(t: TxHalf, f: Flow, i: nat)
    requires TxInv(t, f)
    ensures i < |t.win| ==>
      f.base + i < |f.hist| && t.win[i].num == Wrap8(f.base + i) && t.win[i].raw == f.hist[f.base + i]
  {
    WrapSum(f.base, i);
  }

  /** A turn step: frames queued bytes, then sends the picked frame or the lone ack. */
  lemma NextTxKeeps(s: System, now: u32)
    requires Inv(s)
    ensures Inv(DoA(s, NextTxOp(now)))
  {
    FrameKeeps(s, now);
    if NextTx(s.a, now).1.Some? {
      LabelTrue(s, now);
      EmitKeeps(DoA(s, NextTxOp(now)).(netAB := s.netAB), Labelled(s, now, NextTx(s.a, now).1.value));
    }
  }

  lemma {:induction false} FillQueue(t: TxHalf)
    ensures |Fill(t).queue| <= |t.queue|
    decreases |t.queue|
  {
    if |t.win| < t.window && |t.queue| > 0 { FillQueue(FillOne(t)); }
  }

  /** Within a session an arriving frame never triggers an epoch reset. */
  lemma SameSession(s: System, p: Packet)
    requires Inv(s) && p in s.netBA
    ensures TrackEpoch(s.a, p.frame.epoch) == s.a.(peerEpoch := s.b.myEpoch)
  {
  }

  lemma RecvAckPart(s: System, p: Packet)
    requires Inv(s) && p in s.netBA && InTime(s.ab, s.ba, p)
    ensures
      var t' := TxAck(s.a.tx, p.frame.ack, p.frame.sack);
      var f' := s.ab.(base := s.ab.base + Released(s.a.tx, p.frame.ack, p.frame.sack));
      DirInv(t', s.b.rx, f', s.netAB, s.netBA) && t'.queue == s.a.tx.queue
  {
    TxAckKeeps(s.a.tx, s.b.rx, s.ab, p);
    TxStepLifts(s.a.tx, s.b.rx, s.ab, s.netAB, s.netBA, TxAck(s.a.tx, p.frame.ack, p.frame.sack),
                s.ab.(base := s.ab.base + Released(s.a.tx, p.frame.ack, p.frame.sack)));
  }

  lemma RecvDataPart(s: System, p: Packet)
    requires Inv(s) && p in s.netBA && InTime(s.ab, s.ba, p) && p.frame.data
    ensures
      var r' := RxData(s.a.rx, p.frame.num, p.frame.payload);
      var f' := s.ba.(rn := s.ba.rn + RxDataCount(s.a.rx, p.frame.num, p.frame.payload));
      DirInv(s.b.tx, r', f', s.netBA, s.netAB)
  {
    WindowBounds(s.b.tx, s.a.rx, s.ba);
    RxDataKeeps(s.a.rx, s.ba, p);
    RxStepLifts(s.b.tx, s.a.rx, s.ba, s.netBA, s.netAB, RxData(s.a.rx, p.frame.num, p.frame.payload),
                s.ba.(rn := s.ba.rn + RxDataCount(s.a.rx, p.frame.num, p.frame.payload)));
  }

  lemma RecvKeeps(s: System, p: Packet)
    requires Inv(s) && EnabledA(s, RecvOp(p))
    ensures Inv(DoA(s, RecvOp(p)))
  {
    if ForMe(s.a, p.frame) {
      RecvShape(s, p);
      RecvAckPart(s, p);
      if p.frame.data { RecvDataPart(s, p); }
      var s' := DoA(s, RecvOp(p));
      assert DirInv(s'.a.tx, s'.b.rx, s'.ab, s'.netAB, s'.netBA);
      assert DirInv(s'.b.tx, s'.a.rx, s'.ba, s'.netBA, s'.netAB);
    }
  }

  lemma RecvShape(s: System, p: Packet)
    requires Inv(s) && p in s.netBA && ForMe(s.a, p.frame)
    ensures
      var s' := DoA(s, RecvOp(p));
      && s'.b == s.b && s'.netAB == s.netAB && s'.netBA == s.netBA
      && s'.a.tx == TxAck(s.a.tx, p.frame.ack, p.frame.sack)
      && s'.ab == s.ab.(base := s.ab.base + Released(s.a.tx, p.frame.ack, p.frame.sack))
      && s'.a.rx == (if p.frame.data then RxData(s.a.rx, p.frame.num, p.frame.payload) else s.a.rx)
      && s'.ba == (if p.frame.data then s.ba.(rn := s.ba.rn + RxDataCount(s.a.rx, p.frame.num, p.frame.payload))
         else s.ba)
      && s'.a.txCap == s.a.txCap && s'.a.myEpoch == s.a.myEpoch && s'.a.peerEpoch == s.b.myEpoch
  {
    SameSession(s, p);
  }

  lemma StepKeepsA(s: System, op: Op)
    requires Inv(s) && EnabledA(s, op)
    ensures Inv(DoA(s, op))
  {
    match op
    case WriteOp(d) => WriteKeeps(s, d);
    case ReadOp(max) => ReadKeeps(s, max);
    case NextTxOp(now) => NextTxKeeps(s, now);
    case PollOp => EmitKeeps(s, Packet(Poll(s.a), 0, s.ba.rn));
    case RecvOp(p) => RecvKeeps(s, p);
    case _ => HeaderKeeps(s, op);
  }

  lemma StepKeeps(s: System, e: Event)
    requires Inv(s) && Enabled(s, e)
    ensures Inv(Do(s, e))
  {
    if e.atA { StepKeepsA(s, e.op); } else { StepKeepsA(Swap(s), e.op); }
  }

  // ---- whole runs ----

  /** A run: every event is possible when it happens, and no packet arrives beyond the wrap bound. */
  ghost predicate Run(s: System, es: seq<Event>)
    decreases |es|
  {
    es == [] || (|s.a.rx.slots| == |s.b.rx.slots| == MAXWIN && Enabled(s, es[0]) && Run(Do(s, es[0]), es[1..]))
  }

  ghost function After(s: System, es: seq<Event>): System
    requires Run(s, es)
    decreases |es|
  {
    if es == [] then s else After(Do(s, es[0]), es[1..])
  }

  lemma {:induction false} RunKeeps(s: System, es: seq<Event>)
    requires Inv(s) && Run(s, es)
    ensures Inv(After(s, es))
    decreases |es|
  {
    if es != [] {
      StepKeeps(s, es[0]);
      RunKeeps(Do(s, es[0]), es[1..]);
    }
  }

  /** One run after another. */
  lemma {:induction false} RunConcat(s: System, es: seq<Event>, fs: seq<Event>)
    requires Run(s, es) && Run(After(s, es), fs)
    ensures Run(s, es + fs) && After(s, es + fs) == After(After(s, es), fs)
    decreases |es|
  {
    hide Do, Enabled;
    if es == [] {
      assert es + fs == fs;
    } else {
      RunConcat(Do(s, es[0]), es[1..], fs);
      assert (es + fs)[0] == es[0] && (es + fs)[1..] == es[1..] + fs;
    }
  }

  lemma StartInv(s: System)
    requires Start(s)
    ensures Inv(s)
  {
  }

  /** A run changes neither what earlier sessions left behind nor who talks to whom. */
  lemma {:induction false} RunStale(s: System, es: seq<Event>)
    requires Run(s, es)
    ensures After(s, es).ab.stale == s.ab.stale && After(s, es).ba.stale == s.ba.stale
    decreases |es|
  {
    if es != [] { RunStale(Do(s, es[0]), es[1..]); }
  }

  /**
   * The byte-exact stream: after every run of a session, under any loss, duplication and
   * reordering within the wrap bound, what each application has read is a prefix of what the
   * other end accepted.
   */
  lemma ByteExactStream(s: System, es: seq<Event>)
    requires Start(s) && Run(s, es)
    ensures After(s, es).ab.read <= After(s, es).ab.accepted
    ensures After(s, es).ba.read <= After(s, es).ba.accepted
  {
    StartInv(s);
    RunKeeps(s, es);
    RunStale(s, es);
    var z := After(s, es);
    DeliveredIsPrefix(z.a.tx, z.b.rx, z.ab);
    DeliveredIsPrefix(z.b.tx, z.a.rx, z.ba);
    assert [] + z.ab.accepted == z.ab.accepted && [] + z.ba.accepted == z.ba.accepted;
  }

  /**
   * Nothing is released unsafely: every frame the sender has let go of is delivered or still
   * held by the peer, the window never runs past the held run, and accepted bytes are exactly
   * those released, in flight and queued.
   */
  lemma NothingReleasedUnsafely(s: System, es: seq<Event>)
    requires Start(s) && Run(s, es)
    ensures
      var z := After(s, es);
      && |z.b.rx.slots| == MAXWIN && z.ab.rn <= |z.ab.hist|
      && z.ab.base + |z.a.tx.win| == |z.ab.hist|
      && (forall a: nat :: a < z.ab.base ==> Got(z.b.rx.slots, z.ab.rn, a))
      && (forall a: nat {:trigger Full(z.b.rx.slots, a)} :: z.ab.rn <= a < z.ab.base ==>
            Full(z.b.rx.slots, a) && SlotOk(z.b.rx.slots, z.ab.hist, a))
      && z.ab.base <= z.ab.rn + MAXWIN
      && Flat(z.ab.hist[..z.ab.base]) + Flat(Raws(z.a.tx.win)) + z.a.tx.queue == z.ab.accepted
      && z.ab.read + z.b.rx.queue == z.ab.stale + Flat(z.ab.hist[..z.ab.rn])
  {
    StartInv(s);
    RunKeeps(s, es);
    var z := After(s, es);
    WindowBounds(z.a.tx, z.b.rx, z.ab);
    assert Raws(z.a.tx.win) == z.ab.hist[z.ab.base..];
    assert z.ab.hist == z.ab.hist[..z.ab.base] + Raws(z.a.tx.win);
    FlatConcat(z.ab.hist[..z.ab.base], Raws(z.a.tx.win));
  }

  ghost function Raws(win: seq<TxFrame>): seq<Bytes> {
    seq(|win|, i requires 0 <= i < |win| => win[i].raw)
  }

  /** A packet heard before its sender's next call is at most 16 behind. */
  lemma PromptPacketInTime(s: System, now: u32)
    requires Inv(s)
    ensures
      var s' := DoA(s, NextTxOp(now));
      var out := NextTx(s.a, now).1;
      out.Some? ==> InTime(s'.ba, s'.ab, Labelled(s, now, out.value))
  {
    NextTxKeeps(s, now);
    var s' := DoA(s, NextTxOp(now));
    WindowBounds(s'.a.tx, s'.b.rx, s'.ab);
    WindowBounds(s'.b.tx, s'.a.rx, s'.ba);
  }

  /**
   * How late a packet may be: whatever has happened since it was sent, it is in time as long as
   * its sender has framed at most 224 more frames and the other end at most 207. A channel or a
   * receive ring that holds packets for up to twelve full windows of either end is within that.
   */
  lemma LatePacketInTime(s: System, es: seq<Event>, p: Packet)
    requires Inv(s) && Run(s, es)
    requires p.absAck == s.ba.rn && (p.frame.data ==> s.ab.base <= p.absNum)
    requires |After(s, es).ab.hist| <= |s.ab.hist| + 224 && |After(s, es).ba.hist| <= |s.ba.hist| + 207
    ensures InTime(After(s, es).ba, After(s, es).ab, p)
  {
    RunKeeps(s, es);
    WindowBounds(s.b.tx, s.a.rx, s.ba);
    Spans(s);
    Spans(After(s, es));
  }

  /** Windows and deliveries against what has been framed. */
  lemma Spans(s: System)
    requires Inv(s)
    ensures |s.ab.hist| <= s.ab.base + MAXWIN && |s.ba.hist| <= s.ba.base + MAXWIN
    ensures s.ab.rn <= |s.ab.hist| && s.ba.base <= |s.ba.hist|
  {
  }
}
