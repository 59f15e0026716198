/**
 * Selective-Repeat ARQ, one end of the link, as values: what each operation of the
 * link layer does to its send half and its receive half. The class in LinkLayer.dfy is
 * proved against these functions; the protocol theorems are stated about them.
 */
module Arq {
  import opened Base

  const MAXPAY: nat := 221
  const MAXWIN: nat := 16
  const ADDR_BCAST: u8 := 255

  /** Bit k set: sequence number ack+1+k is buffered at the receiver (bit 15 is never set). */
  type Sack = s: seq<bool> | |s| == 16 witness seq(16, _ => false)

  datatype TxFrame = TxFrame(num: u8, raw: Bytes, sentAt: u32, everSent: bool,
                             txThisTurn: bool, acked: bool, fastResend: bool)

  /** The send half: config window and timer, send ring contents, in-flight window. */
  datatype TxHalf = TxHalf(window: nat, retransmitMs: u32, queue: Bytes,
                           win: seq<TxFrame>, base: u8, next: u8)

  datatype RxSlot = RxSlot(received: bool, num: u8, buf: Bytes)

  /** The receive half: usable ring capacity, receive ring contents, slots, next expected. */
  datatype RxHalf = RxHalf(cap: nat, queue: Bytes, slots: seq<RxSlot>, next: u8)

  /** A decoded frame: header fields and application payload. */
  datatype Frame = Frame(src: u8, dst: u8, data: bool, more: bool, ctrl: u8, num: u8,
                         ack: u8, epoch: u8, sack: Sack, aux: u8, payload: Bytes)

  // ---- send half ----

  /** The window numbers consecutive frames from `base`, and every frame carries 1..MAXPAY bytes. */
  ghost predicate TxValid(t: TxHalf) {
    && 1 <= t.window <= MAXWIN
    && |t.win| <= MAXWIN
    && t.next == Wrap8(t.base + |t.win|)
    && Consecutive(t.win, t.base)
  }

  ghost predicate Consecutive(win: seq<TxFrame>, base: u8) {
    forall i :: 0 <= i < |win| ==> win[i].num == Wrap8(base + i) && 0 < |win[i].raw| <= MAXPAY
  }

  function NewFrame(seqNo: u8, raw: Bytes): TxFrame {
    TxFrame(seqNo, raw, 0, false, false, false, false)
  }

  /** Queue as many of the offered bytes as the send ring has room for. */
  function TxWrite(t: TxHalf, cap: nat, d: Bytes): TxHalf {
    if |t.queue| >= cap then t else t.(queue := t.queue + d[..Min(|d|, cap - |t.queue|)])
  }

  /** Frame the next payload's worth of queued bytes at the end of the window. */
  function FillOne(t: TxHalf): TxHalf
    requires |t.queue| > 0
  {
    var n := Min(|t.queue|, MAXPAY);
    t.(win := t.win + [NewFrame(t.next, t.queue[..n])], queue := t.queue[n..], next := Wrap8(t.next + 1))
  }

  /** Move queued bytes into fresh frames while the window has room. */
  function Fill(t: TxHalf): TxHalf
    decreases |t.queue|
  {
    if |t.win| < t.window && |t.queue| > 0 then Fill(FillOne(t)) else t
  }

  predicate Eligible(f: TxFrame, now: u32, retransmitMs: u32) {
    !f.acked && !f.txThisTurn && (!f.everSent || f.fastResend || Elapsed(now, f.sentAt) >= retransmitMs)
  }

  /** The first eligible window index at or after i, or |win| if there is none. */
  function Pick(win: seq<TxFrame>, i: nat, now: u32, retransmitMs: u32): (p: nat)
    requires i <= |win|
    ensures i <= p <= |win|
    ensures p < |win| ==> Eligible(win[p], now, retransmitMs)
    ensures forall k :: i <= k < p ==> !Eligible(win[k], now, retransmitMs)
    decreases |win| - i
  {
    if i == |win| || Eligible(win[i], now, retransmitMs) then i else Pick(win, i + 1, now, retransmitMs)
  }

  function Sent(f: TxFrame, now: u32): TxFrame {
    f.(txThisTurn := true, everSent := true, sentAt := now, fastResend := false)
  }

  /** Another never-sent frame is waiting this turn (the F_MORE bit). */
  predicate MoreToSend(win: seq<TxFrame>, except: nat) {
    exists i :: 0 <= i < |win| && i != except && !win[i].acked && !win[i].txThisTurn && !win[i].everSent
  }

  function TxBeginTurn(t: TxHalf): TxHalf {
    t.(win := seq(|t.win|, i requires 0 <= i < |t.win| => t.win[i].(txThisTurn := false)))
  }

  /** How many frames at the front a cumulative ack covers; an ack outside the window covers none. */
  function Cum(t: TxHalf, ack: u8): nat {
    var c := Wrap8(ack - t.base);
    if c <= |t.win| then c else 0
  }

  predicate SackHit(s: u8, ack: u8, sack: Sack) {
    var d := Wrap8(s - ack - 1);
    d < MAXWIN - 1 && sack[d]
  }

  function MarkAcked(t: TxHalf, ack: u8, sack: Sack): seq<TxFrame> {
    seq(|t.win|, i requires 0 <= i < |t.win| =>
      t.win[i].(acked := t.win[i].acked || i < Cum(t, ack) || SackHit(t.win[i].num, ack, sack)))
  }

  /** Length of the contiguously acked front. */
  function LeadingAcked(win: seq<TxFrame>): (n: nat)
    ensures n <= |win|
    ensures forall i :: 0 <= i < n ==> win[i].acked
    ensures n < |win| ==> !win[n].acked
  {
    if win == [] || !win[0].acked then 0 else 1 + LeadingAcked(win[1..])
  }

  predicate AckedAfter(win: seq<TxFrame>, i: nat) {
    exists j :: i < j < |win| && win[j].acked
  }

  /** Flag for immediate resend every sent frame that a later acked frame shows was skipped. */
  function FlagGaps(win: seq<TxFrame>): seq<TxFrame> {
    seq(|win|, i requires 0 <= i < |win| =>
      win[i].(fastResend := win[i].fastResend || (!win[i].acked && win[i].everSent && AckedAfter(win, i))))
  }

  /** Apply a cumulative ack and SACK bitmap: mark, slide, flag gaps. */
  function TxAck(t: TxHalf, ack: u8, sack: Sack): TxHalf {
    var win := MarkAcked(t, ack, sack);
    var n := LeadingAcked(win);
    t.(win := FlagGaps(win[n..]), base := Wrap8(t.base + n))
  }

  // ---- receive half ----

  ghost predicate RxValid(r: RxHalf) {
    && |r.slots| == MAXWIN
    && |r.queue| <= r.cap
  }

  predicate Holds(r: RxHalf, s: u8)
    requires |r.slots| == MAXWIN
  {
    r.slots[s % MAXWIN].received && r.slots[s % MAXWIN].num == s
  }

  ghost function HeldSlots(slots: seq<RxSlot>): set<nat> {
    set i | 0 <= i < |slots| && slots[i].received
  }

  function Clear(slots: seq<RxSlot>, j: nat): (s: seq<RxSlot>)
    requires j < |slots|
    ensures |s| == |slots|
    ensures slots[j].received ==> HeldSlots(s) < HeldSlots(slots)
  {
    var s := slots[j := slots[j].(received := false)];
    assert slots[j].received ==> j in HeldSlots(slots) && j !in HeldSlots(s);
    s
  }

  /** The next expected frame is held and fits the receive ring whole. */
  predicate CanDeliver(r: RxHalf)
    requires |r.slots| == MAXWIN
  {
    Holds(r, r.next) && |r.slots[r.next % MAXWIN].buf| <= r.cap - |r.queue|
  }

  /** Deliver the next expected frame. */
  function Deliver(r: RxHalf): (d: RxHalf)
    requires |r.slots| == MAXWIN
    ensures |d.slots| == MAXWIN
    ensures CanDeliver(r) ==> HeldSlots(d.slots) < HeldSlots(r.slots)
  {
    var j := r.next % MAXWIN;
    r.(queue := r.queue + r.slots[j].buf, slots := Clear(r.slots, j), next := Wrap8(r.next + 1))
  }

  /** Deliver the contiguous run of held frames while the receive ring has room for a whole frame. */
  function Drain(r: RxHalf): (d: RxHalf)
    requires |r.slots| == MAXWIN
    ensures |d.slots| == MAXWIN
    decreases HeldSlots(r.slots)
  {
    if CanDeliver(r) then Drain(Deliver(r)) else r
  }

  /** Buffer a data frame unless it is outside the receive window or already held. */
  function Store(r: RxHalf, seqNo: u8, payload: Bytes): RxHalf
    requires |r.slots| == MAXWIN
  {
    if Wrap8(seqNo - r.next) < MAXWIN && !Holds(r, seqNo) then
      r.(slots := r.slots[seqNo % MAXWIN := RxSlot(true, seqNo, payload)])
    else r
  }

  /** Accept a data frame: store it if it is in the window, then deliver what is in order. */
  function RxData(r: RxHalf, seqNo: u8, payload: Bytes): RxHalf
    requires |r.slots| == MAXWIN
  {
    if Wrap8(seqNo - r.next) < MAXWIN then Drain(Store(r, seqNo, payload)) else r
  }

  /** The application takes up to max bytes; freed room delivers frames held by backpressure. */
  function RxRead(r: RxHalf, max: nat): RxHalf
    requires |r.slots| == MAXWIN
  {
    Drain(r.(queue := r.queue[Min(max, |r.queue|)..]))
  }

  function SackOf(r: RxHalf): Sack
    requires |r.slots| == MAXWIN
  {
    seq(16, k requires 0 <= k < 16 => k < MAXWIN - 1 && Holds(r, Wrap8(r.next + 1 + k)))
  }

  // ---- one end ----

  datatype Link = Link(addr: u8, peer: u8, txCap: nat, tx: TxHalf, rx: RxHalf,
                       ackPending: bool, ackSentTurn: bool, gotData: bool,
                       myEpoch: u8, peerEpoch: u8, peerReset: bool, validRx: bool,
                       txCtrl: u8, rxCtrl: u8, txAux: u8, rxAux: u8)

  ghost predicate LinkValid(l: Link) {
    TxValid(l.tx) && RxValid(l.rx) && |l.tx.queue| <= l.txCap
  }

  /** The header every outgoing frame is stamped with, plus the given data part. */
  function MakeFrame(l: Link, data: bool, more: bool, seqNo: u8, payload: Bytes): Frame
    requires |l.rx.slots| == MAXWIN
  {
    Frame(l.addr, if l.peer != 0 then l.peer else ADDR_BCAST, data, more, l.txCtrl, seqNo,
          l.rx.next, l.myEpoch, SackOf(l.rx), l.txAux, payload)
  }

  function Poll(l: Link): Frame
    requires |l.rx.slots| == MAXWIN
  {
    MakeFrame(l, false, false, 0, [])
  }

  function BeginTurn(l: Link): Link {
    l.(tx := TxBeginTurn(l.tx), ackSentTurn := false)
  }

  /** The next frame of this turn, or None when the turn is done. */
  function NextTx(l: Link, now: u32): (Link, Option<Frame>)
    requires |l.rx.slots| == MAXWIN
  {
    var t := Fill(l.tx);
    var p := Pick(t.win, 0, now, t.retransmitMs);
    if p < |t.win| then
      var f := Sent(t.win[p], now);
      var t' := t.(win := t.win[p := f]);
      (l.(tx := t', ackPending := false), Some(MakeFrame(l, true, MoreToSend(t'.win, p), f.num, f.raw)))
    else if !l.ackSentTurn && l.ackPending then
      (l.(tx := t, ackSentTurn := true, ackPending := false), Some(Poll(l)))
    else
      (l.(tx := t), None)
  }

  predicate ForMe(l: Link, f: Frame) {
    && (f.dst == l.addr || f.dst == ADDR_BCAST)
    && (l.peer == 0 || f.src == l.peer)
  }

  function EmptySlots(slots: seq<RxSlot>): (s: seq<RxSlot>)
    ensures |s| == |slots|
  {
    seq(|slots|, i requires 0 <= i < |slots| => slots[i].(received := false))
  }

  /** Record the peer's epoch; a change means the peer restarted, so both halves start over. */
  function TrackEpoch(l: Link, epoch: u8): Link {
    if l.peerEpoch == 0 then l.(peerEpoch := epoch)
    else if epoch == l.peerEpoch then l
    else l.(tx := l.tx.(win := [], base := 0, next := 0),
            rx := l.rx.(slots := EmptySlots(l.rx.slots), next := 0),
            ackPending := false, rxAux := 0, peerEpoch := epoch, peerReset := true)
  }

  /** Act on a frame that passed the filter, authentication and decoding. */
  function Accept(l: Link, f: Frame): Link
    requires |l.rx.slots| == MAXWIN
  {
    var l1 := l.(rxCtrl := f.ctrl, rxAux := f.aux, validRx := true, tx := TxAck(l.tx, f.ack, f.sack));
    if f.data then
      var took := Wrap8(f.num - l.rx.next) < MAXWIN && CanDeliver(Store(l.rx, f.num, f.payload));
      l1.(rx := RxData(l.rx, f.num, f.payload), ackPending := true, gotData := l.gotData || took)
    else l1
  }

  /** Act on a frame whose payload does not decode: all but the storing. */
  function AcceptUnread(l: Link, f: Frame): Link
    requires |l.rx.slots| == MAXWIN
  {
    var l1 := l.(rxCtrl := f.ctrl, rxAux := f.aux, validRx := true, tx := TxAck(l.tx, f.ack, f.sack));
    if f.data then
      if Wrap8(f.num - l.rx.next) < MAXWIN then
        l1.(rx := Drain(l.rx), ackPending := true, gotData := l.gotData || CanDeliver(l.rx))
      else l1.(ackPending := true)
    else l1
  }

  /** A genuine frame arrives. */
  function OnRx(l: Link, f: Frame): Link
    requires |l.rx.slots| == MAXWIN
  {
    if ForMe(l, f) then Accept(TrackEpoch(l, f.epoch), f) else l
  }

  function Write(l: Link, d: Bytes): Link { l.(tx := TxWrite(l.tx, l.txCap, d)) }

  function Read(l: Link, max: nat): Link
    requires |l.rx.slots| == MAXWIN
  {
    var q := l.rx.queue[Min(max, |l.rx.queue|)..];
    l.(rx := RxRead(l.rx, max), gotData := l.gotData || CanDeliver(l.rx.(queue := q)))
  }

  function ClampWindow(w: u8): nat { if w < 1 then 1 else if w > MAXWIN then MAXWIN else w }

  function SetTiming(l: Link, window: u8, retransmitMs: u32): Link {
    l.(tx := l.tx.(window := ClampWindow(window), retransmitMs := retransmitMs))
  }

  /** The epoch a new session runs under: the next one, skipping zero. */
  function NextEpoch(e: u8): (n: u8)
    ensures n != 0 && n != e
  {
    var n := Wrap8(e + 1);
    if n == 0 then 1 else n
  }

  /** Drop all data and start a fresh session under a new epoch. */
  function NewSession(l: Link): Link {
    l.(tx := l.tx.(queue := [], win := [], base := 0, next := 0),
       rx := l.rx.(queue := [], slots := EmptySlots(l.rx.slots), next := 0),
       ackPending := false, ackSentTurn := false, gotData := false, rxCtrl := 0, rxAux := 0,
       myEpoch := NextEpoch(l.myEpoch))
  }
}
