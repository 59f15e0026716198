/**
 * One byte there and its acknowledgement back, and the two ways a restart can lose a byte that
 * was acknowledged: the restarted end has another epoch of its peer on record, so the peer's first
 * frame makes it start its numbering over once more while the peer has moved on; or the peer knows
 * the new epoch already, so it never starts over.
 */
module ArqTrip {
  import opened Base
  import opened Arq
  import opened ArqSafety
  import opened ArqSystem
  import opened ArqSession

  // ---- one byte, there and its acknowledgement back ----

  /** Nothing queued or in flight; the next frame is number k. */
  ghost predicate IdleTx(l: Link, k: nat) {
    && LinkValid(l) && l.tx.win == [] && l.tx.queue == [] && l.tx.base == l.tx.next == Wrap8(k) && l.txCap >= 1
  }

  /** Nothing held or waiting; frame m is expected. */
  ghost predicate IdleRx(l: Link, m: nat) {
    && NoneHeld(l.rx) && l.rx.queue == [] && l.rx.next == Wrap8(m) && l.rx.cap >= 1 && |l.tx.win| <= MAXWIN
  }

  lemma SendOne(l: Link, k: nat, x: u8, now: u32)
    requires IdleTx(l, k)
    ensures
      var l1 := Write(l, [x]);
      var (z, o) := NextTx(l1, now);
      && l1.tx.queue == [x] && |l1.rx.slots| == MAXWIN && l1 == l.(tx := l1.tx)
      && o.Some? && o.value.data && o.value.num == Wrap8(k) && o.value.payload == [x] && o.value.epoch == l.myEpoch
      && o.value.src == l.addr && o.value.dst == (if l.peer != 0 then l.peer else ADDR_BCAST)
      && Pick(Fill(l1.tx).win, 0, now, Fill(l1.tx).retransmitMs) == 0 && Framed(l1.tx) == [[x]]
      && z == l.(tx := z.tx, ackPending := false)
      && |z.tx.win| == 1 && z.tx.win[0].num == Wrap8(k) && z.tx.queue == [] && z.tx.base == Wrap8(k)
      && z.tx.next == Wrap8(k + 1) && TxValid(z.tx)
  {
    WrapSum(k, 1);
    var l1 := Write(l, [x]);
    var t := FillOne(l1.tx);
    assert Fill(t) == t && Fill(l1.tx) == t;
    assert Framed(t) == [];
    assert [x][..1] == [x];
  }

  /** The expected frame is delivered at once, the one before it is ignored. */
  lemma TakeOne(r: RxHalf, k: nat, m: nat, x: u8)
    requires NoneHeld(r) && r.queue == [] && r.next == Wrap8(m) && r.cap >= 1 && (m == k || m == k + 1)
    ensures var z := RxData(r, Wrap8(k), [x]);
      && NoneHeld(z) && z.cap == r.cap && z.next == Wrap8(k + 1) && z.queue == (if m == k then [x] else [])
      && RxDataCount(r, Wrap8(k), [x]) == (if m == k then 1 else 0)
  {
    WrapDiff(k, m);
    WrapSum(k, 1);
    if m == k {
      var s := Store(r, Wrap8(k), [x]);
      assert CanDeliver(s);
      OneDelivered(s);
      assert DrainCount(Deliver(s)) == 0;
    }
  }

  /** The peer hears it: the expected frame is delivered, the one before is only acknowledged again. */
  lemma HearOne(l: Link, f: Frame, k: nat, m: nat, x: u8)
    requires IdleRx(l, m) && (m == k || m == k + 1) && ForMe(l, f) && l.peerEpoch == f.epoch
    requires f.data && f.num == Wrap8(k) && f.payload == [x]
    ensures
      var z := OnRx(l, f);
      && z == l.(rx := z.rx, tx := z.tx, rxCtrl := z.rxCtrl, rxAux := z.rxAux, validRx := true, ackPending := true,
         gotData := z.gotData)
      && |z.tx.win| <= MAXWIN && Released(l.tx, f.ack, f.sack) <= MAXWIN
      && NoneHeld(z.rx) && z.rx.cap == l.rx.cap
      && z.rx.next == Wrap8(k + 1) && z.rx.queue == (if m == k then [x] else [])
      && RxDataCount(l.rx, f.num, f.payload) == (if m == k then 1 else 0)
  {
    hide RxData, RxDataCount, TxAck, Released, CanDeliver;
    AckSlides(l.tx, f.ack, f.sack);
    TakeOne(l.rx, k, m, x);
  }

  /** The ack comes back: it releases the frame, unless the epoch it carries resets the sender first. */
  lemma HearAck(l: Link, f: Frame, k: nat)
    requires LinkValid(l) && |l.tx.win| == 1 && l.tx.base == Wrap8(k) && l.tx.next == Wrap8(k + 1) && l.tx.queue == []
    requires ForMe(l, f) && !f.data && f.ack == Wrap8(k + 1)
    ensures
      var z := OnRx(l, f);
      var again := l.peerEpoch != 0 && l.peerEpoch != f.epoch;
      && z.tx.win == [] && z.tx.queue == [] && z.peerEpoch == f.epoch && z.myEpoch == l.myEpoch
      && z.tx.base == z.tx.next == (if again then 0 else Wrap8(k + 1))
      && z.addr == l.addr && z.peer == l.peer && z.txCap == l.txCap && LinkValid(z)
      && Released(TrackEpoch(l, f.epoch).tx, f.ack, f.sack) <= 1
  {
    hide TxAck, Released;
    var l1 := TrackEpoch(l, f.epoch);
    if l1.tx.win == [] { NoneLeft(l1.tx, f.ack, f.sack); } else { OneReleased(l1.tx, k, f.sack); }
  }

  lemma NoneLeft(t: TxHalf, ack: u8, sack: Sack)
    requires t.win == [] && t.base == 0
    ensures TxAck(t, ack, sack) == t && Released(t, ack, sack) == 0
  {
  }

  lemma OneReleased(t: TxHalf, k: nat, sack: Sack)
    requires |t.win| == 1 && t.base == Wrap8(k)
    ensures Released(t, Wrap8(k + 1), sack) == 1
    ensures TxAck(t, Wrap8(k + 1), sack) == t.(win := [], base := Wrap8(k + 1))
  {
    WrapDiff(k + 1, k);
    WrapSum(k, 1);
    var m := MarkAcked(t, Wrap8(k + 1), sack);
    assert m[0].acked && m[1..] == [];
    assert LeadingAcked(m) == 1;
  }

  /** Both ends idle, the peer knowing the restarted end's epoch, and counts no larger than c. */
  ghost predicate Idle(s: System, k: nat, m: nat, c: nat) {
    && IdleTx(s.a, k) && IdleRx(s.b, m) && s.b.peerEpoch == s.a.myEpoch
    && Facing(s.a, s.b) && s.ab.base <= c && s.ba.base <= c && s.ab.rn <= c
  }

  ghost predicate SameEnd(l: Link, z: Link) {
    z.addr == l.addr && z.peer == l.peer && z.myEpoch == l.myEpoch && z.txCap == l.txCap && z.rx.cap == l.rx.cap
  }

  lemma RunOne(s: System, e: Event)
    requires |s.a.rx.slots| == |s.b.rx.slots| == MAXWIN && Enabled(s, e)
    ensures Run(s, [e]) && After(s, [e]) == Do(s, e)
  {
    assert Run(Do(s, e), [e][1..]);
  }

  /** The restarted end writes and sends one byte. */
  lemma Sending(s: System, k: nat, m: nat, c: nat, x: u8) returns (es: seq<Event>, p: Packet)
    requires Idle(s, k, m, c)
    ensures Run(s, es)
    ensures var z := After(s, es);
      && z.b == s.b && z.ba == s.ba && z.ab == s.ab.(accepted := s.ab.accepted + [x], hist := z.ab.hist)
      && p in z.netAB && SameEnd(s.a, z.a) && z.a.peerEpoch == s.a.peerEpoch
      && LinkValid(z.a) && |z.a.tx.win| == 1 && z.a.tx.base == Wrap8(k) && z.a.tx.next == Wrap8(k + 1)
         && z.a.tx.queue == []
      && p.frame.data && p.frame.num == Wrap8(k) && p.frame.payload == [x] && p.frame.epoch == s.a.myEpoch
      && ForMe(s.b, p.frame) && p.absNum == s.ab.base
  {
    var e1, e2 := Event(true, WriteOp([x])), Event(true, NextTxOp(0));
    SendOne(s.a, k, x, 0);
    var s1 := Do(s, e1);
    RunOne(s, e1);
    var s2 := Do(s1, e2);
    RunOne(s1, e2);
    RunConcat(s, [e1], [e2]);
    es := [e1] + [e2];
    p := Labelled(s1, 0, NextTx(s1.a, 0).1.value);
    hide Fill, NextTx, Drain, Framed;
  }

  /** The peer hears it. */
  lemma Hearing(s: System, k: nat, m: nat, c: nat, x: u8, p: Packet)
    requires IdleRx(s.b, m) && (m == k || m == k + 1) && |s.a.rx.slots| == MAXWIN
    requires p in s.netAB && ForMe(s.b, p.frame) && s.b.peerEpoch == p.frame.epoch
    requires p.frame.data && p.frame.num == Wrap8(k) && p.frame.payload == [x] && p.absNum == s.ab.base
    requires s.ba.base <= c && s.ab.rn <= c && c <= 200
    ensures Run(s, [Event(false, RecvOp(p))])
    ensures var z := After(s, [Event(false, RecvOp(p))]);
      && z.a == s.a && z.ab == s.ab.(rn := z.ab.rn) && z.ab.rn <= s.ab.rn + 1
      && z.ba == s.ba.(base := z.ba.base) && z.ba.base <= s.ba.base + MAXWIN
      && SameEnd(s.b, z.b) && z.b.peerEpoch == s.b.peerEpoch && |z.b.tx.win| <= MAXWIN
      && NoneHeld(z.b.rx) && z.b.rx.next == Wrap8(k + 1) && z.b.rx.queue == (if m == k then [x] else [])
  {
    HearOne(s.b, p.frame, k, m, x);
    var e := Event(false, RecvOp(p));
    hide OnRx, Released, RxDataCount, Run, After;
    RunOne(s, e);
  }

  /** The peer polls, and the restarted end hears that. */
  lemma Answering(s: System, k: nat, c: nat) returns (es: seq<Event>)
    requires LinkValid(s.a) && |s.a.tx.win| == 1 && s.a.tx.base == Wrap8(k) && s.a.tx.next == Wrap8(k + 1)
      && s.a.tx.queue == []
    requires |s.a.rx.slots| == |s.b.rx.slots| == MAXWIN
    requires s.b.rx.next == Wrap8(k + 1) && Facing(s.a, s.b) && s.ab.base <= c <= 200
    ensures Run(s, es)
    ensures var z := After(s, es);
      && z.b == s.b && z.ba == s.ba && z.ab == s.ab.(base := z.ab.base) && z.ab.base <= s.ab.base + 1
      && z.a.tx.win == [] && z.a.tx.queue == [] && z.a.peerEpoch == s.b.myEpoch && LinkValid(z.a)
      && z.a.tx.base == z.a.tx.next == (if s.a.peerEpoch != 0 && s.a.peerEpoch != s.b.myEpoch then 0 else Wrap8(k + 1))
      && z.a.addr == s.a.addr && z.a.peer == s.a.peer && z.a.myEpoch == s.a.myEpoch && z.a.txCap == s.a.txCap
  {
    hide OnRx, Released, SackOf, TrackEpoch, Run, After, TxAck, LinkValid, NoneHeld;
    var e1, q := Event(false, PollOp), Packet(Poll(s.b), 0, s.ab.rn);
    RunOne(s, e1);
    var s1 := Do(s, e1);
    assert s1 == s.(netBA := s.netBA + {q});
    var e2 := Event(true, RecvOp(q));
    HearAck(s.a, q.frame, k);
    RunOne(s1, e2);
    RunConcat(s, [e1], [e2]);
    es := [e1] + [e2];
    Answered(s1, q);
  }

  lemma Answered(s: System, p: Packet)
    requires |s.a.rx.slots| == MAXWIN && ForMe(s.a, p.frame) && !p.frame.data
    ensures var z := DoA(s, RecvOp(p));
      z == s.(a := OnRx(s.a, p.frame),
              ab := s.ab.(base := s.ab.base + Released(TrackEpoch(s.a, p.frame.epoch).tx, p.frame.ack, p.frame.sack)))
  {
    hide OnRx, Released, TrackEpoch;
  }

  /** The peer's application reads all that was delivered. */
  lemma Taking(s: System) returns (es: seq<Event>)
    requires NoneHeld(s.b.rx) && |s.a.rx.slots| == MAXWIN
    ensures Run(s, es)
    ensures var z := After(s, es);
      && z.a == s.a && z.ba == s.ba && z.ab == s.ab.(read := s.ab.read + s.b.rx.queue)
      && z.b == s.b.(rx := s.b.rx.(queue := []), gotData := z.b.gotData)
  {
    hide Run, After;
    var e := Event(false, ReadOp(|s.b.rx.queue|));
    RunOne(s, e);
    es := [e];
    var r := s.b.rx.(queue := []);
    assert AfterRead(s.b.rx, |s.b.rx.queue|) == r;
    assert !CanDeliver(r) && Drain(r) == r && DrainCount(r) == 0;
    assert s.b.rx.queue[..|s.b.rx.queue|] == s.b.rx.queue;
  }

  /** Is the epoch the restarted end has on record for its peer another than the peer's? */
  predicate Mistaken(s: System) { s.a.peerEpoch != 0 && s.a.peerEpoch != s.b.myEpoch }

  /**
   * One byte written, sent, heard, answered and read. The peer reads it if it expected this
   * number; the sender takes it for delivered either way, and starts over if it was mistaken.
   */
  lemma Trip(s: System, k: nat, m: nat, c: nat, x: u8) returns (es: seq<Event>)
    requires Idle(s, k, m, c) && (m == k || m == k + 1) && c < 200
    ensures Run(s, es)
    ensures var z := After(s, es);
      && z.ab.accepted == s.ab.accepted + [x] && z.ab.stale == s.ab.stale
      && z.ab.read == (if m == k then s.ab.read + [x] else s.ab.read)
      && z.a.peerEpoch == z.b.myEpoch
      && Idle(z, if Mistaken(s) then 0 else k + 1, k + 1, c + MAXWIN)
  {
    hide Run, After;
    var es1, p := Sending(s, k, m, c, x);
    var s1 := After(s, es1);
    Hearing(s1, k, m, c, x, p);
    var es2 := [Event(false, RecvOp(p))];
    var s2 := After(s1, es2);
    RunConcat(s, es1, es2);
    var es3 := Answering(s2, k, c);
    var s3 := After(s2, es3);
    RunConcat(s, es1 + es2, es3);
    var es4 := Taking(s3);
    RunConcat(s, es1 + es2 + es3, es4);
    es := es1 + es2 + es3 + es4;
    assert s3.ab.read + [] == s3.ab.read;
  }

  /**
   * A mistaken end loses a byte for good, whatever else is right: of x, y, w its peer reads x and
   * w, and all three were acknowledged.
   */
  lemma MistakenEndLosesByte(a: Link, b: Link, x: u8, y: u8, w: u8) returns (es: seq<Event>)
    requires Restarted(a) && LinkValid(b) && !KnowsPeer(a, b)
    requires NoneHeld(Noticed(a, b).b.rx) && Noticed(a, b).b.rx.next == 0
    requires Facing(a, b) && a.txCap >= 1 && b.rx.cap >= 1
    ensures Run(Noticed(a, b), es)
    ensures var z := After(Noticed(a, b), es);
      && z.ab.accepted == [x, y, w] && z.ab.stale == b.rx.queue && z.ab.read == b.rx.queue + [x, w]
      && z.a.tx.win == [] && z.a.tx.queue == []
  {
    hide Run, After, LinkValid, TrackEpoch, Restarted, Idle, Noticed, NoneHeld, KnowsPeer, Facing;
    var s0 := Noticed(a, b);
    NoticedShape(a, b);
    var es0 := Taking(s0);
    var s1 := After(s0, es0);
    FirstIdle(a, b, s1);
    var es1 := Trip(s1, 0, 0, 0, x);
    var s2 := After(s1, es1);
    var es2 := Trip(s2, 0, 1, 16, y);
    var s3 := After(s2, es2);
    var es3 := Trip(s3, 1, 1, 32, w);
    RunConcat(s0, es0, es1);
    RunConcat(s0, es0 + es1, es2);
    RunConcat(s0, es0 + es1 + es2, es3);
    es := es0 + es1 + es2 + es3;
    IdleSender(After(s3, es3), 2, 2, 48);
    assert [] + [x] + [y] + [w] == [x, y, w];
    assert [] + b.rx.queue + [x] + [w] == b.rx.queue + [x, w];
  }

  /**
   * So does an end that draws the epoch its peer has on record already: the peer notices nothing
   * and goes on expecting frame 1, so the first byte is acknowledged and never delivered.
   */
  lemma RepeatedEpochLosesByte(a: Link, b: Link, x: u8, y: u8) returns (es: seq<Event>)
    requires Restarted(a) && LinkValid(b) && KnowsPeer(a, b)
    requires b.peerEpoch == a.myEpoch && b.rx.next == 1 && NoneHeld(b.rx)
    requires Facing(a, b) && a.txCap >= 1 && b.rx.cap >= 1
    ensures Noticed(a, b).b == b && Run(Noticed(a, b), es)
    ensures var z := After(Noticed(a, b), es);
      && z.ab.accepted == [x, y] && z.ab.stale == b.rx.queue && z.ab.read == b.rx.queue + [y]
      && z.a.tx.win == [] && z.a.tx.queue == []
  {
    hide Run, After, LinkValid, TrackEpoch, Restarted, Idle, Noticed, NoneHeld, KnowsPeer, Facing;
    var s0 := Noticed(a, b);
    NoticedShape(a, b);
    var es0 := Taking(s0);
    var s1 := After(s0, es0);
    FirstIdle(a, b, s1);
    var es1 := Trip(s1, 0, 1, 0, x);
    var s2 := After(s1, es1);
    var es2 := Trip(s2, 1, 1, 16, y);
    RunConcat(s0, es0, es1);
    RunConcat(s0, es0 + es1, es2);
    es := es0 + es1 + es2;
    IdleSender(After(s2, es2), 2, 2, 32);
    assert [] + [x] + [y] == [x, y];
    assert [] + b.rx.queue + [y] == b.rx.queue + [y];
  }

  lemma IdleSender(s: System, k: nat, m: nat, c: nat)
    requires Idle(s, k, m, c)
    ensures s.a.tx.win == [] && s.a.tx.queue == []
  {
  }

  lemma NoticedShape(a: Link, b: Link)
    requires Restarted(a) && LinkValid(b)
    ensures var s := Noticed(a, b);
      && |s.a.rx.slots| == MAXWIN && s.b.rx.queue == b.rx.queue
      && s.ab.read == [] && s.ab.accepted == [] && s.ab.stale == b.rx.queue
      && (b.peerEpoch == a.myEpoch ==> s.b == b)
  {
  }

  /** The peer, once all it had is read, waits for frame m; the restarted end starts at 0. */
  lemma FirstIdle(a: Link, b: Link, s: System)
    requires Restarted(a) && LinkValid(b)
    requires NoneHeld(Noticed(a, b).b.rx) && Facing(a, b) && a.txCap >= 1 && b.rx.cap >= 1
    requires var s0 := Noticed(a, b);
      && s.a == s0.a && s.ba == s0.ba && s.ab == s0.ab.(read := s.ab.read)
      && s.b == s0.b.(rx := s0.b.rx.(queue := []), gotData := s.b.gotData)
    ensures Idle(s, 0, Noticed(a, b).b.rx.next, 0) && (Mistaken(s) <==> !KnowsPeer(a, b))
  {
  }
}
