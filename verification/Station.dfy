/**
 * One end of the link down to its bytes: the frames of Arq, put on the air and taken off it by
 * the wire format, with the frame counter and the anti-replay window. The class in LinkLayer.dfy
 * is proved against these functions; here the byte level is shown to carry the frame level.
 */
module Station {
  import opened Base
  import opened Arq
  import opened Wire
  import ArqTurn
  import Replay
  import Nonce
  import Ascon

  /** `flash` is what the persist callback last stored; `persists` says whether there is one. */
  datatype Station = Station(link: Link, cfg: Config, guard: Replay.Guard,
                             txCtr: nat, lastPersist: nat, stride: nat, persists: bool, flash: nat)

  ghost predicate StationValid(s: Station) {
    LinkValid(s.link) && ConfigValid(s.cfg) && s.link.txCtrl % 16 == 0
  }

  /** The frame counter advances, and is saved once it is a stride past the last save. */
  function Counted(ctr: nat, lastPersist: nat, stride: nat, persists: bool, flash: nat): (nat, nat, nat) {
    if persists && ctr + 1 - lastPersist >= stride then (ctr + 1, ctr + 1, ctr + 1) else (ctr + 1, lastPersist, flash)
  }

  function Count(s: Station): Station {
    var (ctr, last, flash) := Counted(s.txCtr, s.lastPersist, s.stride, s.persists, s.flash);
    s.(txCtr := ctr, lastPersist := last, flash := flash)
  }

  /** Put a frame on the air, or None if it does not fit. Only sealed frames use up a counter. */
  function Emit(s: Station, cap: nat, f: Frame): (Station, Option<Bytes>)
    requires f.ctrl % 16 == 0 && |f.payload| <= MAXPAY
    requires s.cfg.key.Some? ==> |s.cfg.key.value| == 16
    requires s.cfg.tagLen <= 16
  {
    var b := Encode(s.cfg, cap, f, s.txCtr + 1);
    (if b.Some? && Sealing(s.cfg) then Count(s) else s, b)
  }

  /** The next bytes of this turn. */
  function Transmit(s: Station, cap: nat, now: u32): (Station, Option<Bytes>)
    requires StationValid(s)
  {
    var (l, f) := NextTx(s.link, now);
    if f.None? then (s.(link := l), None)
    else
      NextTxShape(s.link, now);
      Emit(s.(link := l), cap, f.value)
  }

  /** Emitting leaves the frame-level state as it finds it. */
  lemma EmitLink(s: Station, l: Link, cap: nat, f: Frame)
    requires f.ctrl % 16 == 0 && |f.payload| <= MAXPAY && ConfigValid(s.cfg)
    ensures Emit(s, cap, f).0.link == s.link
    ensures Emit(s.(link := l), cap, f) == (Emit(s, cap, f).0.(link := l), Emit(s, cap, f).1)
  {
    hide Encode;
  }

  /** Sending the picked frame of a filled window. */
  function SendPicked(l: Link, p: nat, now: u32): (Link, Frame)
    requires |l.rx.slots| == MAXWIN && p < |l.tx.win|
  {
    var f := Sent(l.tx.win[p], now);
    var win := l.tx.win[p := f];
    (l.(tx := l.tx.(win := win), ackPending := false), MakeFrame(l, true, MoreToSend(win, p), f.num, f.raw))
  }

  lemma NextTxParts(l: Link, now: u32)
    requires |l.rx.slots| == MAXWIN
    ensures
      var l1 := l.(tx := Fill(l.tx));
      var p := Pick(l1.tx.win, 0, now, l1.tx.retransmitMs);
      NextTx(l, now) ==
        if p < |l1.tx.win| then (SendPicked(l1, p, now).0, Some(SendPicked(l1, p, now).1))
        else if !l.ackSentTurn && l.ackPending then (l1.(ackSentTurn := true, ackPending := false), Some(Poll(l1)))
        else (l1, None)
  {
    hide SackOf;
  }

  lemma NextTxShape(l: Link, now: u32)
    requires LinkValid(l) && l.txCtrl % 16 == 0
    ensures var (_, f) := NextTx(l, now); f.Some? ==> f.value.ctrl % 16 == 0 && |f.value.payload| <= MAXPAY
  {
    ArqTurn.FillValid(l.tx);
  }

  lemma NextTxLinkValid(l: Link, now: u32)
    requires LinkValid(l)
    ensures LinkValid(NextTx(l, now).0) && NextTx(l, now).0.txCtrl == l.txCtrl
  {
    ArqTurn.FillValid(l.tx);
    ArqTurn.FillIdle(l.tx);
    var t := Fill(l.tx);
    var p := Pick(t.win, 0, now, t.retransmitMs);
    if p < |t.win| { SentConsecutive(t.win, t.base, p, now); }
    hide Fill, Pick, SackOf, MoreToSend, Consecutive, Wrap8, Sent;
  }

  lemma SentConsecutive(w: seq<TxFrame>, b: u8, p: nat, now: u32)
    requires Consecutive(w, b) && p < |w|
    ensures Consecutive(w[p := Sent(w[p], now)], b)
  {
  }

  /** Transmitting sends the next frame whenever there is one, under the next counter. */
  lemma TransmitShape(s: Station, now: u32)
    requires StationValid(s)
    ensures var (z, b) := Transmit(s, MAXFRAME, now); var (l, f) := NextTx(s.link, now);
      && StationValid(z) && z.link == l && z.cfg == s.cfg && z.guard == s.guard
      && (b.Some? <==> f.Some?)
      && (f.Some? ==>
           && f.value.ctrl % 16 == 0 && |f.value.payload| <= MAXPAY
           && Encode(s.cfg, MAXFRAME, f.value, s.txCtr + 1) == b)
  {
    hide NextTx, Encode, TxValid, Inverse;
    NextTxLinkValid(s.link, now);
    NextTxShape(s.link, now);
    var (l, f) := NextTx(s.link, now);
    if f.Some? {
      EmitLink(s, l, MAXFRAME, f.value);
      EncodeFits(s.cfg, f.value, s.txCtr + 1);
    }
  }

  /** The replay window restarts when the peer's epoch changes. */
  function TrackGuard(s: Station, epoch: u8): Replay.Guard {
    if s.link.peerEpoch != 0 && epoch != s.link.peerEpoch then s.guard.(init := false) else s.guard
  }

  function ActOn(l: Link, out: Outcome): (z: Link)
    requires |l.rx.slots| == MAXWIN
    ensures |z.rx.slots| == MAXWIN
  {
    match out
    case Rejected => l
    case Accepted(f, readable) => if readable then Accept(l, f) else AcceptUnread(l, f)
  }

  /** Bytes arrive. The answer is whether they ended the peer's burst. */
  function Receive(s: Station, b: Bytes): (z: (Station, bool))
    requires |s.link.rx.slots| == MAXWIN
    requires s.cfg.key.Some? ==> |s.cfg.key.value| == 16
    requires s.cfg.tagLen <= 16
    ensures z.0.cfg == s.cfg && |z.0.link.rx.slots| == MAXWIN
  {
    if |b| < HDR || !ForMe(s.link, HeaderFrame(b)) then (s, false)
    else
      var l := TrackEpoch(s.link, b[5]);
      var (g, out) := Decode(s.cfg, TrackGuard(s, b[5]), b);
      (s.(link := ActOn(l, out), guard := g), out.Accepted? && !out.frame.more)
  }

  // ---- bytes carry frames ----

  /** Two ends that can talk: the same key, transform settings and sponge. */
  ghost predicate Compatible(c: Config) { ConfigValid(c) && !(c.encrypt && c.key.None?) }

  /** What a sealed frame is judged by: a counter the peer's window still takes. */
  ghost predicate CounterTaken(s: Station, f: Frame, ctr: nat) {
    Sealing(s.cfg) ==> ctr < Nonce.Pow256(8) && Replay.Check(TrackGuard(s, f.epoch), ctr).1
  }

  /**
   * Receiving the bytes one end emitted does to the other end exactly what the frame does, and
   * tells it whether the burst is over.
   */
  lemma BytesCarryFrames(from: Station, to: Station, f: Frame)
    requires StationValid(from) && |to.link.rx.slots| == MAXWIN
    requires from.cfg == to.cfg && Compatible(from.cfg)
    requires f.ctrl % 16 == 0 && |f.payload| <= MAXPAY && ForMe(to.link, f)
    requires CounterTaken(to, f, from.txCtr + 1)
    ensures
      var b := Emit(from, MAXFRAME, f).1;
      && b.Some? && |b.value| <= MAXFRAME
      && Receive(to, b.value).0.link == OnRx(to.link, f)
      && Receive(to, b.value).1 == !f.more
  {
    hide Encode, Decode, HeaderFrame, Accept, TrackEpoch, AcceptUnread, Nonce.Pow256, Receive, OnRx, TrackGuard,
      Replay.Check, Count, ForMe, LinkValid, Inverse;
    var ctr := from.txCtr + 1;
    var g := TrackGuard(to, f.epoch);
    EncodeFits(from.cfg, f, ctr);
    EncodedHeader(from.cfg, f, ctr);
    if Sealing(from.cfg) {
      SealedRoundTrip(from.cfg, g, f, ctr);
    } else {
      PlainRoundTrip(from.cfg, g, f, ctr);
    }
    ReceiveDecoded(to, Encode(from.cfg, MAXFRAME, f, ctr).value, f);
  }

  /** Bytes that decode to a frame for this end act as the frame. */
  lemma ReceiveDecoded(to: Station, b: Bytes, f: Frame)
    requires |to.link.rx.slots| == MAXWIN && ConfigValid(to.cfg) && ForMe(to.link, f)
    requires |b| >= HDR && HeaderFrame(b) == f.(payload := []) && b[5] == f.epoch
    requires Decode(to.cfg, TrackGuard(to, f.epoch), b).1 == Accepted(f, true)
    ensures Receive(to, b).0.link == OnRx(to.link, f) && Receive(to, b).1 == !f.more
  {
    hide Decode, HeaderFrame, Accept, TrackEpoch, AcceptUnread, TrackGuard, Inverse;
  }

  /** The header of an encoded frame is the frame's, whatever was done to the payload. */
  lemma EncodedHeader(c: Config, f: Frame, ctr: nat)
    requires ConfigValid(c) && f.ctrl % 16 == 0 && |f.payload| <= MAXPAY
    requires Encode(c, MAXFRAME, f, ctr).Some?
    ensures var b := Encode(c, MAXFRAME, f, ctr).value;
      |b| >= HDR && HeaderFrame(b) == f.(payload := []) && b[5] == f.epoch
  {
    hide Encode, Squeeze, Header, HeaderFrame, Inverse, Sealing;
    SqueezeUndone(c, f.payload);
    var (p, comp) := Squeeze(c, f.payload);
    var b := Encode(c, MAXFRAME, f, ctr).value;
    EncodeStarts(c, f, ctr);
    HeaderRoundTrip(f, comp, Sealing(c), |p|, b[HDR..]);
    assert b == b[..HDR] + b[HDR..];
    HeaderEpoch(b);
  }

  lemma HeaderEpoch(b: Bytes)
    requires |b| >= HDR
    ensures HeaderFrame(b).epoch == b[5]
  {
  }

  lemma EncodeStarts(c: Config, f: Frame, ctr: nat)
    requires ConfigValid(c) && f.ctrl % 16 == 0 && |f.payload| <= MAXPAY
    requires Encode(c, MAXFRAME, f, ctr).Some? && |Squeeze(c, f.payload).0| <= |f.payload|
    ensures var b := Encode(c, MAXFRAME, f, ctr).value; var (p, comp) := Squeeze(c, f.payload);
      |b| >= HDR && b[..HDR] == Header(f, comp, Sealing(c), |p|)
  {
    hide Header, Squeeze, Ascon.Seal, Nonce.BigEndian, Nonce.BuildNonce, Inverse;
  }

  /**
   * On an encrypting link, bytes that are not an authentic frame under a new counter do nothing
   * but what their epoch field does.
   */
  lemma ForgedBytesOnlyTouchEpoch(s: Station, b: Bytes)
    requires StationValid(s) && s.cfg.encrypt
    requires !(|b| >= HDR && |b| >= HDR + CTRW + b[8] + s.cfg.tagLen && s.cfg.key.Some?
               && exists m: Bytes :: SealedAs(s.cfg, b, m))
    ensures
      var z := Receive(s, b).0;
      && z == (if |b| >= HDR && ForMe(s.link, HeaderFrame(b))
               then s.(link := TrackEpoch(s.link, b[5]), guard := TrackGuard(s, b[5])) else s)
      && (|b| >= HDR && b[5] == s.link.peerEpoch ==> z == s)
      && !Receive(s, b).1
  {
    if |b| >= HDR && ForMe(s.link, HeaderFrame(b)) {
      var g := TrackGuard(s, b[5]);
      ForgedRejected(s.cfg, g, b);
      SameEpoch(s);
    }
  }

  /** The bytes of one sealed frame are acted on at most once, until another epoch is seen. */
  lemma ReplayIgnored(s: Station, b: Bytes)
    requires |s.link.rx.slots| == MAXWIN && ConfigValid(s.cfg) && s.cfg.encrypt && |b| >= HDR
    requires Decode(s.cfg, TrackGuard(s, b[5]), b).1.Accepted?
    ensures var z := Receive(s, b).0; z != s ==> Receive(z, b) == (z, false)
  {
    hide Receive, Decode, TrackEpoch, TrackGuard, Inverse, ForMe, HeaderFrame;
    var z := Receive(s, b).0;
    if z != s {
      ReceiveActed(s, b);
      ReplayOnce(s.(guard := TrackGuard(s, b[5])), b);
      SameEpoch(z);
      ReceiveRejected(z, b);
    }
  }

  lemma SameEpoch(s: Station)
    ensures TrackEpoch(s.link, s.link.peerEpoch) == s.link
    ensures TrackGuard(s, s.link.peerEpoch) == s.guard
  {
  }

  lemma ReceiveRejected(s: Station, b: Bytes)
    requires |s.link.rx.slots| == MAXWIN && ConfigValid(s.cfg) && |b| >= HDR
    requires TrackEpoch(s.link, b[5]) == s.link && Decode(s.cfg, TrackGuard(s, b[5]), b) == (s.guard, Rejected)
    ensures Receive(s, b) == (s, false)
  {
    hide Decode, TrackEpoch, TrackGuard, Inverse, ForMe, HeaderFrame;
  }

  lemma ReceiveActed(s: Station, b: Bytes)
    requires |s.link.rx.slots| == MAXWIN && ConfigValid(s.cfg) && |b| >= HDR
    requires Decode(s.cfg, TrackGuard(s, b[5]), b).1.Accepted? && Receive(s, b).0 != s
    ensures var z := Receive(s, b).0;
      z.cfg == s.cfg && z.guard == Decode(s.cfg, TrackGuard(s, b[5]), b).0 && z.link.peerEpoch == b[5]
  {
    hide Decode, TrackGuard, Inverse, ForMe, HeaderFrame, Accept, AcceptUnread;
    AcceptKeepsIdentity(TrackEpoch(s.link, b[5]), Decode(s.cfg, TrackGuard(s, b[5]), b).1.frame);
  }

  lemma AcceptKeepsIdentity(l: Link, f: Frame)
    requires |l.rx.slots| == MAXWIN
    ensures Accept(l, f).addr == l.addr && Accept(l, f).peer == l.peer && Accept(l, f).peerEpoch == l.peerEpoch
    ensures AcceptUnread(l, f).addr == l.addr && AcceptUnread(l, f).peer == l.peer
      && AcceptUnread(l, f).peerEpoch == l.peerEpoch
  {
  }

  lemma ReplayOnce(s: Station, b: Bytes)
    requires ConfigValid(s.cfg) && s.cfg.encrypt
    requires Decode(s.cfg, s.guard, b).1.Accepted?
    ensures Decode(s.cfg, Decode(s.cfg, s.guard, b).0, b) == (Decode(s.cfg, s.guard, b).0, Rejected)
  {
  }

  // ---- the counter half is a board's life ----

  /** Sealing one frame, in the micro-steps of the board model. */
  function SealActs(s: Station, epoch: u8): seq<Nonce.Act> {
    [Nonce.Bump, Nonce.CheckStride] + (if s.txCtr + 1 - s.lastPersist >= s.stride then [Nonce.WriteFlash] else [])
      + [Nonce.Emit(epoch)]
  }

  function BoardOf(s: Station): Nonce.Board { Nonce.Board(s.flash, s.txCtr, s.lastPersist, Nonce.Ready) }

  /** Each sealed frame is one such pass, used under its own counter and epoch. */
  lemma EmitIsBoardPass(s: Station, cap: nat, f: Frame, uses: seq<Nonce.Use>)
    requires StationValid(s) && f.ctrl % 16 == 0 && |f.payload| <= MAXPAY
    requires s.persists && s.stride == Nonce.STRIDE && Sealing(s.cfg) && Emit(s, cap, f).1.Some?
    ensures Nonce.Possible(BoardOf(s), SealActs(s, f.epoch))
    ensures Nonce.Uses(BoardOf(s), SealActs(s, f.epoch), uses) == uses + [Nonce.Use(f.epoch, s.txCtr + 1)]
    ensures Nonce.RunTo(BoardOf(s), SealActs(s, f.epoch)) == BoardOf(Emit(s, cap, f).0)
  {
    hide Encode, LinkValid, ConfigValid;
    var b0 := BoardOf(s);
    var saves := s.txCtr + 1 - s.lastPersist >= s.stride;
    var b1 := b0.(ctr := b0.ctr + 1, stage := Nonce.Bumped);
    var b2 := if saves then b1.(lastSave := b1.ctr, stage := Nonce.Saving) else b1.(stage := Nonce.Armed);
    var b3 := if saves then b2.(flash := b1.ctr, stage := Nonce.Armed) else b2;
    var emit := [Nonce.Emit(f.epoch)];
    var save := if saves then [Nonce.WriteFlash] else [];
    Pass(b3, Nonce.Emit(f.epoch), [], b3.(stage := Nonce.Ready), uses);
    if saves { Pass(b2, Nonce.WriteFlash, emit, b3, uses); }
    Pass(b1, Nonce.CheckStride, save + emit, b2, uses);
    Pass(b0, Nonce.Bump, [Nonce.CheckStride] + (save + emit), b1, uses);
    assert SealActs(s, f.epoch) == [Nonce.Bump] + ([Nonce.CheckStride] + (save + emit));
  }

  /** One act in front of a run. */
  lemma Pass(b: Nonce.Board, a: Nonce.Act, rest: seq<Nonce.Act>, b': Nonce.Board, uses: seq<Nonce.Use>)
    requires Nonce.CanDo(b, a) && Nonce.Do(b, a) == b' && Nonce.Possible(b', rest)
    ensures Nonce.Possible(b, [a] + rest)
    ensures Nonce.RunTo(b, [a] + rest) == Nonce.RunTo(b', rest)
    ensures Nonce.Uses(b, [a] + rest, uses) == Nonce.Uses(b', rest, Nonce.Log(b, a, uses))
  {
    assert ([a] + rest)[1..] == rest;
  }
}
