/**
 * Two whole stations and a channel of bytes: what they put on the air may be lost, duplicated
 * and reordered. Every run of the byte level is a run of the frame level, where a frame dropped
 * by the replay window is one more loss, so the stream theorem holds for bytes.
 */
module StationSystem {
  import opened Base
  import opened Arq
  import opened ArqSafety
  import opened Wire
  import opened Station
  import ArqSystem
  import Replay
  import Nonce

  /** Bytes on the air, and the packet they stand for. */
  datatype Air = Air(bytes: Bytes, pkt: Packet)

  datatype Pair = Pair(a: Station, b: Station, ab: Flow, ba: Flow, airAB: set<Air>, airBA: set<Air>)

  /** An operation of the frame level that receives nothing, or bytes from the air. */
  datatype Op = Local(op: ArqSystem.Op) | Hear(x: Air)

  datatype Event = Event(atA: bool, op: Op)

  function Swap(s: Pair): Pair { Pair(s.b, s.a, s.ba, s.ab, s.airBA, s.airAB) }

  function Packets(air: set<Air>): set<Packet> { set x | x in air :: x.pkt }

  /** The frame level under it. */
  function Frames(s: Pair): ArqSystem.System {
    ArqSystem.System(s.a.link, s.b.link, s.ab, s.ba, Packets(s.airAB), Packets(s.airBA))
  }

  /** The bytes are the packet's frame, encoded under a counter that fits its eight bytes. */
  ghost predicate Carries(c: Config, x: Air) {
    && ConfigValid(c) && x.pkt.frame.ctrl % 16 == 0 && |x.pkt.frame.payload| <= MAXPAY
    && exists ctr: nat :: ctr < Nonce.Pow256(8) && Encode(c, MAXFRAME, x.pkt.frame, ctr) == Some(x.bytes)
  }

  ghost predicate AllCarry(c: Config, air: set<Air>) { forall x :: x in air ==> Carries(c, x) }

  /** A station that has not heard its peer yet has not seeded its replay window either. */
  ghost predicate Sane(s: Station) { StationValid(s) && (s.guard.init ==> s.link.peerEpoch != 0) }

  ghost predicate Inv(s: Pair) {
    && ArqSystem.Inv(Frames(s))
    && Sane(s.a) && Sane(s.b) && s.a.cfg == s.b.cfg && Compatible(s.a.cfg)
    && AllCarry(s.a.cfg, s.airAB) && AllCarry(s.a.cfg, s.airBA)
  }

  /** Two stations as initialised, set up alike. */
  ghost predicate Start(s: Pair) {
    && ArqSystem.Start(Frames(s)) && s.airAB == {} && s.airBA == {}
    && StationValid(s.a) && StationValid(s.b) && !s.a.guard.init && !s.b.guard.init
    && s.a.cfg == s.b.cfg && Compatible(s.a.cfg)
  }

  /** Bytes come from the air and in time; the frame counter has not run out; nibbles are nibbles. */
  ghost predicate EnabledA(s: Pair, op: Op) {
    match op
    case Hear(x) => x in s.airBA && ArqSystem.InTime(s.ab, s.ba, x.pkt)
    case Local(o) =>
      && !o.RecvOp? && s.a.txCtr + 1 < Nonce.Pow256(8)
      && (o.SetHeaderOp? ==> o.ctrl % 16 == 0)
  }

  /** Did the station act on the bytes, or drop them? */
  ghost predicate ActsOn(s: Station, x: Air) {
    ConfigValid(s.cfg) && |x.bytes| >= HDR && Decode(s.cfg, TrackGuard(s, x.bytes[5]), x.bytes).1.Accepted?
  }

  /** Both stations are well formed. The invariant keeps this. */
  ghost predicate Sound(s: Pair) { StationValid(s.a) && StationValid(s.b) }

  /** The effect of one operation at station a, with what it means for both streams. */
  ghost function DoA(s: Pair, op: Op): Pair
    requires Sound(s) && EnabledA(s, op)
  {
    match op
    case Hear(x) =>
      var z := Receive(s.a, x.bytes).0;
      if ActsOn(s.a, x) then
        var y := ArqSystem.DoA(Frames(s), ArqSystem.RecvOp(x.pkt));
        s.(a := z, ab := y.ab, ba := y.ba)
      else s.(a := z)
    case Local(o) =>
      var y := ArqSystem.DoA(Frames(s), o);
      if o.NextTxOp? then
        var (z, b) := Transmit(s.a, MAXFRAME, o.now);
        var f := NextTx(s.a.link, o.now).1;
        s.(a := z, ab := y.ab,
           airAB := if b.Some? && f.Some? then s.airAB + {Air(b.value, ArqSystem.Labelled(Frames(s), o.now, f.value))}
             else s.airAB)
      else if o.PollOp? then
        var (z, b) := Emit(s.a, MAXFRAME, Poll(s.a.link));
        s.(a := z, airAB := if b.Some? then s.airAB + {Air(b.value, Packet(Poll(s.a.link), 0, s.ba.rn))} else s.airAB)
      else s.(a := s.a.(link := y.a), ab := y.ab, ba := y.ba)
  }

  // ---- reception ----

  /** The decoder on the bytes of a frame: taken, or dropped for an old counter. */
  lemma DecodeCarried(c: Config, g: Replay.Guard, x: Air)
    requires Compatible(c) && Carries(c, x)
    ensures |x.bytes| >= HDR && HeaderFrame(x.bytes) == x.pkt.frame.(payload := []) && x.bytes[5] == x.pkt.frame.epoch
    ensures
      var (g', out) := Decode(c, g, x.bytes);
      && (out == Accepted(x.pkt.frame, true) || (out == Rejected && g.init && g' == g))
  {
    var ctr: nat :| ctr < Nonce.Pow256(8) && Encode(c, MAXFRAME, x.pkt.frame, ctr) == Some(x.bytes);
    EncodedHeader(c, x.pkt.frame, ctr);
    hide Encode, Decode, HeaderFrame, Nonce.Pow256, Inverse, Replay.Check;
    if Sealing(c) {
      SealedRoundTrip(c, g, x.pkt.frame, ctr);
      OldCounter(g, ctr);
    } else {
      PlainRoundTrip(c, g, x.pkt.frame, ctr);
    }
  }

  lemma OldCounter(g: Replay.Guard, ctr: nat)
    ensures !Replay.Check(g, ctr).1 ==> g.init && Replay.Check(g, ctr).0 == g
  {
    hide Replay.ShiftLeft;
  }

  /** Hearing bytes is receiving their frame, or nothing at all. */
  lemma HearShape(s: Station, x: Air)
    requires Sane(s) && Compatible(s.cfg) && Carries(s.cfg, x)
    requires s.link.peerEpoch == 0 || s.link.peerEpoch == x.pkt.frame.epoch
    ensures ActsOn(s, x) ==> Receive(s, x.bytes).0.link == OnRx(s.link, x.pkt.frame)
    ensures !ActsOn(s, x) ==> Receive(s, x.bytes).0 == s
    ensures var z := Receive(s, x.bytes).0;
      z.link.txCtrl == s.link.txCtrl && (x.pkt.frame.epoch != 0 && z.guard.init ==> z.link.peerEpoch != 0)
  {
    DecodeCarried(s.cfg, TrackGuard(s, x.pkt.frame.epoch), x);
    hide Carries, Decode, HeaderFrame, Inverse, Receive, LinkValid, OnRx;
    if ActsOn(s, x) {
      if ForMe(s.link, x.pkt.frame) {
        ReceiveDecoded(s, x.bytes, x.pkt.frame);
        AcceptedPeer(s.link, x.pkt.frame);
      } else {
        NotForMe(s, x);
      }
    } else {
      SameEpoch(s);
      ReceiveRejected(s, x.bytes);
    }
  }

  lemma AcceptedPeer(l: Link, f: Frame)
    requires |l.rx.slots| == MAXWIN && ForMe(l, f)
    ensures OnRx(l, f).peerEpoch == f.epoch && OnRx(l, f).txCtrl == l.txCtrl
  {
    hide Drain, TxAck, Store;
  }

  lemma NotForMe(s: Station, x: Air)
    requires |s.link.rx.slots| == MAXWIN && ConfigValid(s.cfg)
    requires |x.bytes| >= HDR && HeaderFrame(x.bytes) == x.pkt.frame.(payload := []) && !ForMe(s.link, x.pkt.frame)
    ensures Receive(s, x.bytes) == (s, false) && OnRx(s.link, x.pkt.frame) == s.link
  {
    hide Decode, HeaderFrame, Inverse;
  }

  // ---- each byte-level step is a frame-level step, or none ----

  /** The frame-level operation, if any, that a byte-level one amounts to. */
  ghost function Meaning(s: Pair, op: Op): Option<ArqSystem.Op> {
    match op
    case Local(o) => Some(o)
    case Hear(x) => if ActsOn(s.a, x) then Some(ArqSystem.RecvOp(x.pkt)) else None
  }

  /** One operation at station a refines the frame level and keeps the byte-level invariant. */
  lemma StepRefinesA(s: Pair, op: Op)
    requires Inv(s) && EnabledA(s, op)
    ensures Inv(DoA(s, op))
    ensures match Meaning(s, op)
      case None => Frames(DoA(s, op)) == Frames(s)
      case Some(o) => ArqSystem.EnabledA(Frames(s), o) && Frames(DoA(s, op)) == ArqSystem.DoA(Frames(s), o)
  {
    match op
    case Hear(x) => HearRefines(s, x);
    case Local(o) =>
      if o.NextTxOp? { NextTxRefines(s, o.now); }
      else if o.PollOp? { PollRefines(s); }
      else { QuietRefines(s, o); }
  }

  lemma HearRefines(s: Pair, x: Air)
    requires Inv(s) && EnabledA(s, Hear(x))
    ensures Inv(DoA(s, Hear(x)))
    ensures
      if ActsOn(s.a, x) then
        ArqSystem.EnabledA(Frames(s), ArqSystem.RecvOp(x.pkt))
          && Frames(DoA(s, Hear(x))) == ArqSystem.DoA(Frames(s), ArqSystem.RecvOp(x.pkt))
      else Frames(DoA(s, Hear(x))) == Frames(s)
  {
    hide ArqSystem.Inv, Receive, OnRx, Carries, LinkValid, ActsOn, Inverse, ArqSystem.DoA, ConfigValid;
    FramesLink(s, x);
    FramesValid(s);
    HearShape(s.a, x);
    if ActsOn(s.a, x) {
      RecvParts(Frames(s), x.pkt);
      ArqSystem.StepKeepsA(Frames(s), ArqSystem.RecvOp(x.pkt));
    }
    FramesValid(DoA(s, Hear(x)));
  }

  /** What receiving a packet leaves alone. */
  lemma RecvParts(s: ArqSystem.System, p: Packet)
    requires |s.a.rx.slots| == MAXWIN
    ensures var z := ArqSystem.DoA(s, ArqSystem.RecvOp(p));
      z == s.(a := OnRx(s.a, p.frame), ab := z.ab, ba := z.ba)
  {
    hide OnRx;
    if !ForMe(s.a, p.frame) { NothingForMe(s.a, p.frame); }
  }

  lemma NothingForMe(l: Link, f: Frame)
    requires |l.rx.slots| == MAXWIN && !ForMe(l, f)
    ensures OnRx(l, f) == l
  {
  }

  /** The frame-level invariant knows whose frame this is, and keeps both links valid. */
  lemma FramesLink(s: Pair, x: Air)
    requires ArqSystem.Inv(Frames(s)) && x in s.airBA
    ensures s.a.link.peerEpoch == 0 || s.a.link.peerEpoch == x.pkt.frame.epoch
    ensures x.pkt.frame.epoch != 0 && x.pkt in Frames(s).netBA
  {
    hide LinkValid, DirInv;
    assert x.pkt in Packets(s.airBA);
  }

  lemma FramesValid(s: Pair)
    ensures ArqSystem.Inv(Frames(s)) ==> LinkValid(s.a.link) && LinkValid(s.b.link)
    ensures ArqSystem.Inv(Frames(s)) ==> |s.a.link.rx.slots| == |s.b.link.rx.slots| == MAXWIN
  {
  }

  lemma PacketsAdd(air: set<Air>, x: Air)
    ensures Packets(air + {x}) == Packets(air) + {x.pkt}
  {
    assert forall y :: y in air ==> y in air + {x};
  }

  lemma NewCarries(c: Config, x: Air, ctr: nat)
    requires ConfigValid(c) && x.pkt.frame.ctrl % 16 == 0 && |x.pkt.frame.payload| <= MAXPAY
    requires ctr < Nonce.Pow256(8) && Encode(c, MAXFRAME, x.pkt.frame, ctr) == Some(x.bytes)
    ensures Carries(c, x)
  {
  }

  lemma NextTxRefines(s: Pair, now: u32)
    requires Inv(s) && EnabledA(s, Local(ArqSystem.NextTxOp(now)))
    ensures Inv(DoA(s, Local(ArqSystem.NextTxOp(now))))
    ensures Frames(DoA(s, Local(ArqSystem.NextTxOp(now)))) == ArqSystem.DoA(Frames(s), ArqSystem.NextTxOp(now))
  {
    hide ArqSystem.Inv, Transmit, NextTx, Encode, Carries, LinkValid, Nonce.Pow256, Fill;
    var op := ArqSystem.NextTxOp(now);
    FramesValid(s);
    ArqSystem.StepKeepsA(Frames(s), op);
    TransmitShape(s.a, now);
    NextTxEpochs(s.a.link, now);
    var f := NextTx(s.a.link, now).1;
    if f.Some? {
      var x := Air(Transmit(s.a, MAXFRAME, now).1.value, ArqSystem.Labelled(Frames(s), now, f.value));
      PacketsAdd(s.airAB, x);
      NewCarries(s.a.cfg, x, s.a.txCtr + 1);
    }
  }

  lemma NextTxEpochs(l: Link, now: u32)
    requires |l.rx.slots| == MAXWIN
    ensures NextTx(l, now).0.peerEpoch == l.peerEpoch
  {
  }

  lemma PollRefines(s: Pair)
    requires Inv(s) && EnabledA(s, Local(ArqSystem.PollOp))
    ensures Inv(DoA(s, Local(ArqSystem.PollOp)))
    ensures Frames(DoA(s, Local(ArqSystem.PollOp))) == ArqSystem.DoA(Frames(s), ArqSystem.PollOp)
  {
    hide ArqSystem.Inv, Encode, Carries, LinkValid, Nonce.Pow256, Emit, Poll, AllCarry;
    FramesValid(s);
    ArqSystem.StepKeepsA(Frames(s), ArqSystem.PollOp);
    var f := Poll(s.a.link);
    PollShape(s.a);
    var x := Air(Emit(s.a, MAXFRAME, f).1.value, Packet(f, 0, s.ba.rn));
    PacketsAdd(s.airAB, x);
    NewCarries(s.a.cfg, x, s.a.txCtr + 1);
    hide ConfigValid;
    MoreCarry(s.a.cfg, s.airAB, x);
  }

  lemma MoreCarry(c: Config, air: set<Air>, x: Air)
    requires AllCarry(c, air) && Carries(c, x)
    ensures AllCarry(c, air + {x})
  {
    hide Carries;
  }

  lemma PollShape(s: Station)
    requires StationValid(s)
    ensures var f := Poll(s.link); var (z, b) := Emit(s, MAXFRAME, f);
      && f.ctrl % 16 == 0 && |f.payload| <= MAXPAY
      && b.Some? && Encode(s.cfg, MAXFRAME, f, s.txCtr + 1) == b
      && z.link == s.link && z.cfg == s.cfg && z.guard == s.guard
  {
    EncodeFits(s.cfg, Poll(s.link), s.txCtr + 1);
    hide Encode, LinkValid, Inverse;
  }

  /** Operations that put nothing on the air. */
  lemma QuietRefines(s: Pair, o: ArqSystem.Op)
    requires Inv(s) && EnabledA(s, Local(o)) && !o.NextTxOp? && !o.PollOp?
    ensures Inv(DoA(s, Local(o)))
    ensures Frames(DoA(s, Local(o))) == ArqSystem.DoA(Frames(s), o)
  {
    ArqSystem.StepKeepsA(Frames(s), o);
    hide Drain, TxAck, Fill, AllCarry, Compatible, ConfigValid;
  }

  // ---- whole runs ----

  ghost predicate Enabled(s: Pair, e: Event) { EnabledA(if e.atA then s else Swap(s), e.op) }

  ghost function Do(s: Pair, e: Event): Pair
    requires Enabled(s, e)
  {
    if !Sound(s) then s else if e.atA then DoA(s, e.op) else Swap(DoA(Swap(s), e.op))
  }

  lemma SwapInv(s: Pair)
    requires Inv(s)
    ensures Inv(Swap(s)) && Frames(Swap(s)) == ArqSystem.Swap(Frames(s))
  {
    hide LinkValid, DirInv;
  }

  ghost function MeaningOf(s: Pair, e: Event): seq<ArqSystem.Event> {
    var m := Meaning(if e.atA then s else Swap(s), e.op);
    if m.None? then [] else [ArqSystem.Event(e.atA, m.value)]
  }

  lemma StepRefines(s: Pair, e: Event)
    requires Inv(s) && Enabled(s, e)
    ensures Inv(Do(s, e))
    ensures var m := MeaningOf(s, e);
      if m == [] then Frames(Do(s, e)) == Frames(s)
      else ArqSystem.Enabled(Frames(s), m[0]) && Frames(Do(s, e)) == ArqSystem.Do(Frames(s), m[0])
  {
    SwapInv(s);
    var w := if e.atA then s else Swap(s);
    StepRefinesA(w, e.op);
    SwapInv(DoA(w, e.op));
  }

  ghost predicate Run(s: Pair, es: seq<Event>)
    decreases |es|
  {
    es == [] || (Enabled(s, es[0]) && Run(Do(s, es[0]), es[1..]))
  }

  ghost function After(s: Pair, es: seq<Event>): Pair
    requires Run(s, es)
    decreases |es|
  {
    if es == [] then s else After(Do(s, es[0]), es[1..])
  }

  /** The frame-level run a byte-level run amounts to: dropped bytes leave nothing in it. */
  ghost function Story(s: Pair, es: seq<Event>): seq<ArqSystem.Event>
    requires Run(s, es)
    decreases |es|
  {
    if es == [] then [] else MeaningOf(s, es[0]) + Story(Do(s, es[0]), es[1..])
  }

  /** Every run of the byte level is a run of the frame level. */
  lemma {:induction false} BytesRefineFrames(s: Pair, es: seq<Event>)
    requires Inv(s) && Run(s, es)
    ensures Inv(After(s, es)) && ArqSystem.Run(Frames(s), Story(s, es))
    ensures Frames(After(s, es)) == ArqSystem.After(Frames(s), Story(s, es))
    decreases |es|
  {
    hide ArqSystem.Inv, Do, Sane, Compatible, AllCarry;
    FramesValid(s);
    if es != [] {
      StepRefines(s, es[0]);
      BytesRefineFrames(Do(s, es[0]), es[1..]);
      var m, rest := MeaningOf(s, es[0]), Story(Do(s, es[0]), es[1..]);
      if m != [] {
        assert (m + rest)[0] == m[0] && (m + rest)[1..] == rest;
      } else {
        assert m + rest == rest;
      }
    }
  }

  /**
   * The byte-exact stream, for bytes: whatever of what the two stations emitted is lost,
   * duplicated or reordered within the wrap bound, compressed or not, sealed or not, what each
   * application has read is a prefix of what the other end accepted.
   */
  lemma ByteExactOverBytes(s: Pair, es: seq<Event>)
    requires Start(s) && Run(s, es)
    ensures After(s, es).ab.read <= After(s, es).ab.accepted
    ensures After(s, es).ba.read <= After(s, es).ba.accepted
  {
    ArqSystem.StartInv(Frames(s));
    BytesRefineFrames(s, es);
    ArqSystem.ByteExactStream(Frames(s), Story(s, es));
  }
}
