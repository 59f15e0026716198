/**
 * The two header fields the firmware rides on, across the air: whatever control nibble and
 * telemetry byte it last set, every frame sent from then on shows them to the peer that takes it.
 */
module StationHeader {
  import opened Base
  import opened Arq
  import opened ArqSafety
  import opened Wire
  import opened Station
  import opened StationSystem
  import ArqSystem
  import Ascon
  import Nonce
  import Replay

  /** Control nibble and telemetry byte. */
  datatype Stamp = Stamp(ctrl: u8, aux: u8)

  /** What end a's firmware has set last in a run, starting from what was set before. */
  function LastSet(es: seq<Event>, before: Stamp): Stamp
    decreases |es|
  {
    if es == [] then before
    else
      LastSet(es[1..], if es[0].atA && es[0].op.Local? && es[0].op.op.SetHeaderOp?
                       then Stamp(es[0].op.op.ctrl, es[0].op.op.aux) else before)
  }

  /** End a sends these bytes: a frame of its turn, or a poll. */
  ghost predicate Sends(s: Pair, o: ArqSystem.Op, b: Bytes)
    requires StationValid(s.a)
  {
    match o
    case NextTxOp(now) => Transmit(s.a, MAXFRAME, now).1 == Some(b)
    case PollOp => Emit(s.a, MAXFRAME, Poll(s.a.link)).1 == Some(b)
    case _ => false
  }

  /** What a peer shows its firmware of the last frame it took. */
  ghost predicate Shows(l: Link, h: Stamp) { l.validRx && l.rxCtrl == h.ctrl && l.rxAux == h.aux }

  // ---- at the sender ----

  lemma KeepsStamp(s: ArqSystem.System, o: ArqSystem.Op)
    requires |s.a.rx.slots| == MAXWIN && !o.SetHeaderOp?
    ensures ArqSystem.DoA(s, o).a.txCtrl == s.a.txCtrl && ArqSystem.DoA(s, o).a.txAux == s.a.txAux
    ensures ArqSystem.DoA(s, o).b.txCtrl == s.b.txCtrl && ArqSystem.DoA(s, o).b.txAux == s.b.txAux
  {
    hide OnRx, NextTx, Drain, DrainCount, SackOf, Framed, Released, RxDataCount, ArqSystem.Labelled, TrackEpoch;
    match o
    case NextTxOp(now) => ArqSystem.NextTxShape(s.a, now);
    case RecvOp(p) => OnRxKeeps(s.a, p.frame);
    case _ =>
  }

  lemma OnRxKeeps(l: Link, f: Frame)
    requires |l.rx.slots| == MAXWIN
    ensures OnRx(l, f).txCtrl == l.txCtrl && OnRx(l, f).txAux == l.txAux
  {
    hide TxAck, RxData, CanDeliver, Store;
  }

  ghost predicate Stamped(l: Link, h: Stamp) { l.txCtrl == h.ctrl && l.txAux == h.aux }

  /** One event of a run, in what is stamped at end a. */
  lemma EventStamps(s: Pair, e: Event, h: Stamp)
    requires StationSystem.Inv(s) && Enabled(s, e) && Stamped(s.a.link, h)
    ensures StationSystem.Inv(Do(s, e)) && Stamped(Do(s, e).a.link, LastSet([e], h))
  {
    hide StationSystem.Inv, Do, ArqSystem.DoA, Enabled, ArqSystem.Enabled, ActsOn;
    StepRefines(s, e);
    var m := MeaningOf(s, e);
    FramesValid(s);
    InvFrames(s);
    if m != [] {
      var o := m[0].op;
      if !o.SetHeaderOp? { KeepsStamp(if e.atA then Frames(s) else ArqSystem.Swap(Frames(s)), o); }
      else { SetsStamp(if e.atA then Frames(s) else ArqSystem.Swap(Frames(s)), o); }
    }
    assert [e][1..] == [];
  }

  lemma InvFrames(s: Pair)
    requires StationSystem.Inv(s)
    ensures ArqSystem.Inv(Frames(s))
  {
  }

  lemma SetsStamp(s: ArqSystem.System, o: ArqSystem.Op)
    requires |s.a.rx.slots| == MAXWIN && o.SetHeaderOp?
    ensures ArqSystem.DoA(s, o).a.txCtrl == o.ctrl && ArqSystem.DoA(s, o).a.txAux == o.aux
    ensures ArqSystem.DoA(s, o).b == s.b
  {
  }

  lemma {:induction false} RunStamps(s: Pair, es: seq<Event>, h: Stamp)
    requires StationSystem.Inv(s) && Run(s, es) && Stamped(s.a.link, h)
    ensures StationSystem.Inv(After(s, es)) && Stamped(After(s, es).a.link, LastSet(es, h))
    decreases |es|
  {
    hide StationSystem.Inv, Do, Enabled;
    if es != [] {
      EventStamps(s, es[0], h);
      assert [es[0]][1..] == [];
      RunStamps(Do(s, es[0]), es[1..], LastSet([es[0]], h));
    }
  }

  /** The bytes a station sends are a frame with its stamp. */
  lemma SentStamped(s: Pair, o: ArqSystem.Op, b: Bytes, h: Stamp)
    requires StationValid(s.a) && ConfigValid(s.a.cfg) && Sends(s, o, b) && Stamped(s.a.link, h)
    ensures exists f: Frame, ctr: nat ::
      f.ctrl == h.ctrl && f.ctrl % 16 == 0 && f.aux == h.aux && |f.payload| <= MAXPAY
      && Encode(s.a.cfg, MAXFRAME, f, ctr) == Some(b)
  {
    if o.NextTxOp? {
      TransmitShape(s.a, o.now);
      hide Transmit, Encode;
      NextTxStamped(s.a.link, o.now);
    } else {
      hide Encode;
      var f := Poll(s.a.link);
      assert f.ctrl == h.ctrl && Encode(s.a.cfg, MAXFRAME, f, s.a.txCtr + 1) == Some(b);
    }
  }

  lemma NextTxStamped(l: Link, now: u32)
    requires |l.rx.slots| == MAXWIN && NextTx(l, now).1.Some?
    ensures NextTx(l, now).1.value.ctrl == l.txCtrl && NextTx(l, now).1.value.aux == l.txAux
  {
    hide Fill, SackOf, MoreToSend;
  }

  // ---- at the receiver ----

  /** A station that takes bytes shows the stamp of the frame they encode. */
  lemma TakenShows(to: Station, f: Frame, ctr: nat, b: Bytes)
    requires |to.link.rx.slots| == MAXWIN && Compatible(to.cfg) && f.ctrl % 16 == 0 && |f.payload| <= MAXPAY
    requires Encode(to.cfg, MAXFRAME, f, ctr) == Some(b) && Takes(to, b)
    ensures Shows(Receive(to, b).0.link, Stamp(f.ctrl, f.aux))
  {
    EncodedHeader(to.cfg, f, ctr);
    var out := Decode(to.cfg, TrackGuard(to, b[5]), b).1;
    DecodedHeader(to.cfg, TrackGuard(to, b[5]), b);
    hide Encode, Decode, HeaderFrame, Inverse, Accept, AcceptUnread, TrackEpoch, TrackGuard;
    ActShows(TrackEpoch(to.link, b[5]), out);
  }

  lemma ActShows(l: Link, out: Outcome)
    requires |l.rx.slots| == MAXWIN && out.Accepted?
    ensures Shows(ActOn(l, out), Stamp(out.frame.ctrl, out.frame.aux))
  {
    hide TxAck, RxData, Drain, CanDeliver, Store;
  }

  /** The station takes these bytes: they are for it, and they decode. */
  ghost predicate Takes(to: Station, b: Bytes)
    requires ConfigValid(to.cfg)
  {
    |b| >= HDR && ForMe(to.link, HeaderFrame(b)) && Decode(to.cfg, TrackGuard(to, b[5]), b).1.Accepted?
  }

  /** What is decoded has the header of the bytes. */
  lemma DecodedHeader(c: Config, g: Replay.Guard, b: Bytes)
    requires ConfigValid(c) && |b| >= HDR && Decode(c, g, b).1.Accepted?
    ensures var f := Decode(c, g, b).1.frame; f.ctrl == HeaderFrame(b).ctrl && f.aux == HeaderFrame(b).aux
  {
    hide Ascon.Open, Nonce.FromBigEndian, Expand, Replay.Check, FlagBit, Inverse;
  }

  /**
   * What the firmware of one end sets is what the other's sees: after any run of two stations,
   * every frame end a then sends, in its turn or as a poll, whatever station with the same settings
   * takes it and whatever that has been through, it shows the nibble and the byte last set at a.
   */
  lemma StampArrives(s: Pair, es: seq<Event>, o: ArqSystem.Op, b: Bytes, to: Station)
    requires Start(s) && Run(s, es) && StationValid(After(s, es).a) && Sends(After(s, es), o, b)
    requires to.cfg == After(s, es).a.cfg && |to.link.rx.slots| == MAXWIN && ConfigValid(to.cfg) && Takes(to, b)
    ensures Shows(Receive(to, b).0.link, LastSet(es, Stamp(s.a.link.txCtrl, s.a.link.txAux)))
  {
    var h := Stamp(s.a.link.txCtrl, s.a.link.txAux);
    StartsInv(s);
    RunStamps(s, es, h);
    var z := After(s, es);
    InvCompatible(z);
    hide StationSystem.Inv, Run, After, Sends, Takes, Encode, Receive, Shows, Start;
    SentStamped(z, o, b, LastSet(es, h));
    var f: Frame, ctr: nat :|
      f.ctrl == LastSet(es, h).ctrl && f.ctrl % 16 == 0 && f.aux == LastSet(es, h).aux && |f.payload| <= MAXPAY
      && Encode(z.a.cfg, MAXFRAME, f, ctr) == Some(b);
    TakenShows(to, f, ctr, b);
  }

  lemma StartsInv(s: Pair)
    requires Start(s)
    ensures StationSystem.Inv(s)
  {
    ArqSystem.StartInv(Frames(s));
    hide ArqSystem.Inv, LinkValid;
  }

  lemma InvCompatible(s: Pair)
    requires StationSystem.Inv(s)
    ensures Compatible(s.a.cfg)
  {
  }
}
