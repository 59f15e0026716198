/**
 * When a session restart really resynchronises the two ends, judged by what the runs do and not
 * by any numbering: every run is byte-exact, no end takes for delivered what has not arrived, and
 * no run is a dead end. For every restarted end, and every state its peer can be in, that is so if
 * and only if the two are in sync.
 */
module ArqResync {
  import opened Base
  import opened Arq
  import opened ArqSafety
  import opened ArqSystem
  import opened ArqTurn
  import opened ArqSession
  import opened ArqTrip
  import opened ArqProper
  import opened ArqDeaf
  import opened ArqFinish

  /** Each application has read a prefix of what the other end accepted. */
  ghost predicate Exact(s: System) {
    s.ab.read <= s.ab.stale + s.ab.accepted && s.ba.read <= s.ba.stale + s.ba.accepted
  }

  /** Frame n of a direction has been delivered, or the receiver holds its bytes. */
  ghost predicate Arrived(slots: seq<RxSlot>, f: Flow, n: nat)
    requires |slots| == MAXWIN
  {
    n < f.rn || (n < f.rn + MAXWIN && Full(slots, n) && n < |f.hist| && slots[n % MAXWIN].buf == f.hist[n])
  }

  /** The sender has let go of, and marked acknowledged, only frames that have arrived. */
  ghost predicate Truthful(t: TxHalf, r: RxHalf, f: Flow) {
    && |r.slots| == MAXWIN
    && (forall n: nat :: n < f.base ==> Arrived(r.slots, f, n))
    && (forall i: nat {:trigger t.win[i].acked} :: i < |t.win| && t.win[i].acked ==> Arrived(r.slots, f, f.base + i))
  }

  ghost predicate Sound(s: System) {
    Exact(s) && Truthful(s.a.tx, s.b.rx, s.ab) && Truthful(s.b.tx, s.a.rx, s.ba)
  }

  /** Whatever happens from here on is sound, and can still be brought to its end. */
  ghost predicate Good(s: System) {
    forall es: seq<Event> :: Run(s, es) ==> Sound(After(s, es)) && CanFinish(After(s, es))
  }

  /** Once the peer has noticed the restart, all goes well. */
  ghost predicate Resyncs(a: Link, b: Link) { Good(Noticed(a, b)) }

  // ---- in sync: all goes well ----

  lemma OpenSound(s: System)
    requires Open(s)
    ensures Sound(s)
  {
    DeliveredIsPrefix(s.a.tx, s.b.rx, s.ab);
    DeliveredIsPrefix(s.b.tx, s.a.rx, s.ba);
    InvTruthful(s.a.tx, s.b.rx, s.ab);
    InvTruthful(s.b.tx, s.a.rx, s.ba);
    hide TxInv, RxInv, AckInv;
  }

  lemma InvTruthful(t: TxHalf, r: RxHalf, f: Flow)
    requires EndsInv(t, r, f)
    ensures Truthful(t, r, f)
  {
    forall n: nat | Got(r.slots, f.rn, n) ensures Arrived(r.slots, f, n) {
      assert n >= f.rn ==> SlotOk(r.slots, f.hist, n);
    }
    hide TxInv, SlotsInv, Arrived;
  }

  lemma InSyncResyncs(a: Link, b: Link)
    requires Restarted(a) && LinkValid(b) && b.myEpoch != 0 && InSync(a, b)
    requires Facing(a, b) && a.rx.cap >= MAXPAY && b.rx.cap >= MAXPAY
    ensures Resyncs(a, b)
  {
    var s := Noticed(a, b);
    NoticedOpen(a, b);
    hide Run, After, Open, Sound, Noticed;
    forall es: seq<Event> | Run(s, es) ensures Sound(After(s, es)) && CanFinish(After(s, es)) {
      RunOpen(s, es);
      OpenSound(After(s, es));
      OpenCanFinish(After(s, es));
    }
  }

  lemma NoticedOpen(a: Link, b: Link)
    requires Restarted(a) && LinkValid(b) && b.myEpoch != 0 && InSync(a, b)
    requires Facing(a, b) && a.rx.cap >= MAXPAY && b.rx.cap >= MAXPAY
    ensures Open(Noticed(a, b))
  {
    NoticedInv(a, b);
    hide ArqSystem.Inv, InSync, Restarted, LinkValid;
  }

  // ---- not in sync: something goes wrong ----

  lemma {:induction false} GoodAfter(s: System, es: seq<Event>)
    requires Good(s) && Run(s, es)
    ensures Good(After(s, es))
  {
    hide Run, After, Sound, CanFinish;
    forall fs: seq<Event> | Run(After(s, es), fs)
      ensures Sound(After(After(s, es), fs)) && CanFinish(After(After(s, es), fs))
    {
      RunConcat(s, es, fs);
    }
  }

  lemma GoodNow(s: System)
    requires Good(s)
    ensures Sound(s) && CanFinish(s)
  {
    assert Run(s, []) && After(s, []) == s;
  }

  lemma GoodStep(s: System, e: Event)
    requires Good(s) && |s.a.rx.slots| == |s.b.rx.slots| == MAXWIN && Enabled(s, e)
    ensures Good(Do(s, e))
  {
    RunOne(s, e);
    GoodAfter(s, [e]);
    hide Run, After, Good;
  }

  lemma GoodSwap(s: System)
    requires Good(s)
    ensures Good(Swap(s))
  {
    hide Run, After;
    forall es: seq<Event> | Run(Swap(s), es)
      ensures Sound(After(Swap(s), es)) && CanFinish(After(Swap(s), es))
    {
      FlipRun(s, es);
      FinishSwap(After(s, Flip(es)));
    }
  }

  lemma FinishSwap(s: System)
    requires CanFinish(s)
    ensures CanFinish(Swap(s))
  {
    hide Run, After;
    var es :| Run(s, es) && Finished(After(s, es));
    FlipRun(Swap(s), es);
    assert Finished(After(Swap(s), Flip(es)));
  }

  /** One direction as a restart finds it: a sender with only its window, a receiver with only what it has read out. */
  ghost predicate Restarting(s: System) {
    && |s.a.rx.slots| == |s.b.rx.slots| == MAXWIN
    && TxValid(s.a.tx) && FrontUnacked(s.a.tx.win) && |s.a.tx.queue| <= s.a.txCap && s.a.txCap >= 1
    && Facing(s.a, s.b) && s.a.peerEpoch == s.b.myEpoch && s.b.peerEpoch == s.a.myEpoch
    && s.a.myEpoch != 0 && s.b.myEpoch != 0
    && s.ab == WindowFlow(s.a.tx).(stale := s.b.rx.queue)
    && SlotsProper(s.b.rx) && !CanDeliver(s.b.rx) && s.b.rx.cap >= MAXPAY && |s.b.rx.queue| <= s.b.rx.cap
    && (forall p :: p in s.netAB ==> NotAwaited(p, s.b.rx.next) && p.frame.epoch == s.a.myEpoch)
    && (forall p :: p in s.netBA ==> p.frame.ack == s.b.rx.next && p.frame.epoch == s.b.myEpoch)
  }

  // ---- a frame of another stream waits to be read ----

  lemma {:induction false} DrainGrows(r: RxHalf)
    requires |r.slots| == MAXWIN
    ensures r.queue <= Drain(r).queue
    decreases HeldSlots(r.slots)
  {
    if CanDeliver(r) { DrainGrows(Deliver(r)); }
  }

  /** The frame held for lack of room is read, though nothing was sent. */
  lemma StaleFrameRead(s: System)
    requires Restarting(s) && s.ab.accepted == [] && Holds(s.b.rx, s.b.rx.next)
    ensures !Good(s)
  {
    var e := Event(false, ReadOp(|s.b.rx.queue|));
    var s1 := Do(s, e);
    var r := AfterRead(s.b.rx, |s.b.rx.queue|);
    assert SlotProper(s.b.rx, s.b.rx.next % MAXWIN);
    assert CanDeliver(r);
    DrainGrows(Deliver(r));
    assert s1.b.rx == Drain(r) && s1.b.rx.queue != [];
    var f := Event(false, ReadOp(|s1.b.rx.queue|));
    var s2 := Do(s1, f);
    assert |s2.ab.read| > |s2.ab.stale| && s2.ab.accepted == [];
    hide Good, Drain, DrainCount, Restarting;
    if Good(s) {
      GoodStep(s, e);
      GoodStep(s1, f);
      GoodNow(s2);
    }
  }

  // ---- the receiver is deaf ----

  /** A byte written to a deaf end is never read. */
  lemma DeafIsBad(s: System)
    requires Restarting(s) && 1 <= Ahead(s.a.tx, s.b.rx) <= 239 && !Holds(s.b.rx, s.b.rx.next)
    ensures !Good(s)
  {
    var e := Event(true, WriteOp([0]));
    var z := Do(s, e);
    assert Deaf(s);
    SenderStep(s, WriteOp([0]));
    hide Good, Deaf, Restarting;
    WroteSome(s);
    if Good(s) {
      GoodStep(s, e);
      GoodNow(z);
      DeafNeverFinishes(z);
    }
  }

  /** After writing a byte something is accepted, if only what filled the ring before. */
  lemma WroteSome(s: System)
    requires Restarting(s)
    ensures DoA(s, WriteOp([0])).ab.accepted != []
    ensures |s.a.rx.slots| == |s.b.rx.slots| == MAXWIN && s.ab.read + s.b.rx.queue == s.ab.stale
  {
    if s.a.tx.queue == [] { assert [0][..1] == [0]; }
  }

  lemma DeafNeverFinishes(s: System)
    requires Deaf(s) && s.ab.accepted != [] && s.ab.read + s.b.rx.queue == s.ab.stale
    ensures !CanFinish(s)
  {
    forall es: seq<Event> | Run(s, es) ensures !Finished(After(s, es)) {
      DeafForever(s, es);
      var z := After(s, es);
      assert |z.ab.read| <= |z.ab.stale| < |z.ab.stale + z.ab.accepted|;
    }
  }

  // ---- an acknowledgement lies ----

  ghost predicate AllAre(h: seq<Bytes>, x: u8) { forall i :: 0 <= i < |h| ==> h[i] == [x] }

  /** Nothing has happened but a's writing and framing. */
  ghost predicate Filled(s: System, z: System) {
    && z == s.(a := z.a, ab := z.ab, netAB := z.netAB)
    && z.a == s.a.(tx := z.a.tx, ackPending := z.a.ackPending, ackSentTurn := z.a.ackSentTurn)
    && z.ab == s.ab.(hist := z.ab.hist, accepted := z.ab.accepted)
    && TxValid(z.a.tx) && z.a.tx.base == s.a.tx.base && z.a.tx.window == MAXWIN && |s.a.tx.win| <= |z.a.tx.win|
    && (NoneAcked(s.a.tx.win) ==> NoneAcked(z.a.tx.win))
  }

  /** The window holds m frames of one byte each, and nothing is queued. */
  ghost predicate Ours(s: System, m: nat, x: u8) {
    s.a.tx.queue == [] && |s.a.tx.win| == |s.ab.hist| == m && AllAre(s.ab.hist, x)
  }

  lemma WriteSome(s: System, x: u8)
    requires |s.a.rx.slots| == MAXWIN && s.a.txCap >= 1
    ensures var y := DoA(s, WriteOp([x]));
      && y == s.(a := y.a, ab := y.ab) && y.a == s.a.(tx := y.a.tx) && y.a.tx == s.a.tx.(queue := y.a.tx.queue)
      && y.ab == s.ab.(accepted := y.ab.accepted) && y.a.tx.queue != []
      && (s.a.tx.queue == [] ==> y.a.tx.queue == [x])
  {
    assert [x][..1] == [x];
  }

  /** A fill with room and something queued. */
  lemma FillMore(t: TxHalf)
    requires TxValid(t) && |t.win| < t.window == MAXWIN && t.queue != []
    ensures TxValid(Fill(t)) && Fill(t).base == t.base && Fill(t).window == MAXWIN && |t.win| < |Fill(t).win|
    ensures NoneAcked(t.win) ==> NoneAcked(Fill(t).win)
    ensures |t.queue| == 1 ==> Fill(t).queue == [] && |Fill(t).win| == |t.win| + 1 && Framed(t) == [t.queue]
  {
    FillShape(t);
    FillIdle(t);
    FillIdle(FillOne(t));
    if NoneAcked(t.win) { NewUnacked(t); }
    if |t.queue| == 1 {
      assert t.queue[..1] == t.queue;
      assert Framed(FillOne(t)) == [];
    }
  }

  lemma SameFramesValid(t: TxHalf, win: seq<TxFrame>)
    requires TxValid(t) && SameFrames(t.win, win)
    ensures TxValid(t.(win := win)) && (NoneAcked(t.win) ==> NoneAcked(win))
  {
  }

  /** One byte written and a call of the turn: the window gains a frame at least, and just one if nothing was queued. */
  lemma FillStep(s: System, m: nat, x: u8)
    requires |s.a.rx.slots| == |s.b.rx.slots| == MAXWIN && s.a.txCap >= 1
    requires TxValid(s.a.tx) && |s.a.tx.win| < s.a.tx.window == MAXWIN
    ensures
      var y := DoA(s, WriteOp([x]));
      var z := DoA(y, NextTxOp(0));
      && |y.a.rx.slots| == MAXWIN && y.b == s.b && Filled(s, z) && |z.a.tx.win| > |s.a.tx.win|
      && (Ours(s, m, x) ==> Ours(z, m + 1, x))
  {
    var y := DoA(s, WriteOp([x]));
    WriteSome(s, x);
    hide DoA, Fill, Framed, NextTx, TxValid, NoneAcked;
    assert TxValid(y.a.tx) by { SameFramesValid(s.a.tx, s.a.tx.win); TxValidQueue(s.a.tx, y.a.tx); }
    FillMore(y.a.tx);
    ArqSystem.NextTxShape(y.a, 0);
    SameFramesValid(Fill(y.a.tx), NextTx(y.a, 0).0.tx.win);
    SentIs(y, 0);
  }

  lemma TxValidQueue(t: TxHalf, z: TxHalf)
    requires TxValid(t) && z == t.(queue := z.queue)
    ensures TxValid(z)
  {
  }

  lemma SentIs(s: System, now: u32)
    requires |s.a.rx.slots| == MAXWIN
    ensures var z := DoA(s, NextTxOp(now));
      z == s.(a := NextTx(s.a, now).0, ab := s.ab.(hist := s.ab.hist + Framed(s.a.tx)), netAB := z.netAB)
  {
    hide NextTx, Framed, Labelled;
  }

  /** Writing and framing until there are m frames in the window. */
  lemma Filling(s: System, m: nat, x: u8) returns (es: seq<Event>)
    requires |s.a.rx.slots| == |s.b.rx.slots| == MAXWIN && s.a.txCap >= 1
    requires TxValid(s.a.tx) && s.a.tx.window == MAXWIN && m <= MAXWIN
    ensures Run(s, es) && Filled(s, After(s, es)) && |After(s, es).a.tx.win| >= m
    ensures |s.a.tx.win| <= m && Ours(s, |s.a.tx.win|, x) ==> Ours(After(s, es), m, x)
    decreases m - |s.a.tx.win|
  {
    if |s.a.tx.win| >= m {
      es := [];
    } else {
      var k := |s.a.tx.win|;
      FillStep(s, k, x);
      var y := DoA(s, WriteOp([x]));
      var z := DoA(y, NextTxOp(0));
      hide DoA, TxValid, NoneAcked, AllAre;
      var e, f := Event(true, WriteOp([x])), Event(true, NextTxOp(0));
      RunOne(s, e);
      RunOne(y, f);
      RunConcat(s, [e], [f]);
      var fs := Filling(z, m, x);
      RunConcat(s, [e] + [f], fs);
      es := [e] + [f] + fs;
    }
  }

  /** The peer's poll has been sent and nothing else of it has changed; the window has at least m frames. */
  ghost predicate Asked(s: System, y: System, m: nat, q: Packet) {
    && |y.a.rx.slots| == |y.b.rx.slots| == MAXWIN
    && q == Packet(Poll(y.b), 0, y.ab.rn) && q in y.netBA && y.b == s.b && y.ba == s.ba
    && y.ab == s.ab.(hist := y.ab.hist, accepted := y.ab.accepted)
    && TxValid(y.a.tx) && y.a.tx.base == s.a.tx.base && m <= |y.a.tx.win|
    && (NoneAcked(s.a.tx.win) ==> NoneAcked(y.a.tx.win))
    && Facing(y.a, y.b) && y.a.peerEpoch == y.b.myEpoch
  }

  lemma Asking(s: System, m: nat, x: u8) returns (es: seq<Event>, y: System, q: Packet)
    requires Restarting(s) && m <= MAXWIN
    ensures Run(s, es) && After(s, es) == y && Asked(s, y, m, q)
    ensures s.a.tx.win == [] && s.a.tx.queue == [] ==> Ours(y, m, x)
  {
    var e := Event(true, SetTimingOp(16, 0));
    var s1 := Do(s, e);
    RunOne(s, e);
    hide Run, After, DoA;
    Widened(s);
    var es1 := Filling(s1, m, x);
    var s2 := After(s1, es1);
    RunConcat(s, [e], es1);
    var f := Event(false, PollOp);
    RunOne(s2, f);
    RunConcat(s, [e] + es1, [f]);
    es, y, q := [e] + es1 + [f], Do(s2, f), Packet(Poll(s2.b), 0, s2.ab.rn);
    Polled(s2);
  }

  /** The window set to sixteen frames. */
  lemma Widened(s: System)
    requires Restarting(s)
    ensures var z := DoA(s, SetTimingOp(16, 0));
      && z == s.(a := s.a.(tx := s.a.tx.(window := MAXWIN, retransmitMs := 0))) && TxValid(z.a.tx)
      && (s.a.tx.win == [] && s.a.tx.queue == [] ==> forall x: u8 :: Ours(z, 0, x))
  {
  }

  lemma Polled(s: System)
    requires |s.a.rx.slots| == |s.b.rx.slots| == MAXWIN
    ensures Do(s, Event(false, PollOp)) == s.(netBA := s.netBA + {Packet(Poll(s.b), 0, s.ab.rn)})
  {
  }

  /** What hearing that poll does. */
  lemma PollTaken(s: System, y: System, m: nat, q: Packet)
    requires Restarting(s) && Asked(s, y, m, q)
    ensures Enabled(y, Event(true, RecvOp(q)))
    ensures var z := Do(y, Event(true, RecvOp(q)));
      && z.b == s.b && z.ab == y.ab.(base := Released(y.a.tx, s.b.rx.next, SackOf(s.b.rx)))
      && z.a.tx == TxAck(y.a.tx, s.b.rx.next, SackOf(s.b.rx))
  {
    hide TxAck, Released, SackOf, TxValid, NoneAcked;
  }

  /** Some one-byte frame is not this one. */
  function Other(b: Bytes): (x: u8)
    ensures [x] != b
  {
    if b == [0] then 1 else 0
  }

  /** If that poll makes the sender believe what is not so, things have gone wrong. */
  lemma LieIsBad(s: System, es: seq<Event>, y: System, m: nat, q: Packet)
    requires Restarting(s) && Run(s, es) && After(s, es) == y && Asked(s, y, m, q)
    requires
      var sack := SackOf(s.b.rx);
      !Truthful(TxAck(y.a.tx, s.b.rx.next, sack), s.b.rx, y.ab.(base := Released(y.a.tx, s.b.rx.next, sack)))
    ensures !Good(s)
  {
    PollTaken(s, y, m, q);
    var e := Event(true, RecvOp(q));
    hide Run, After, Good, Do, Truthful, SackOf, TxAck, Released, Restarting;
    if Good(s) {
      GoodAfter(s, es);
      GoodStep(y, e);
      GoodNow(Do(y, e));
    }
  }

  lemma NotArrived(t: TxHalf, r: RxHalf, f: Flow, n: nat)
    requires |r.slots| == MAXWIN && f.rn == 0 && n < MAXWIN
    requires n < f.base || (f.base <= n < f.base + |t.win| && t.win[n - f.base].acked)
    requires NoneHeld(r) || (n < |f.hist| && f.hist[n] != r.slots[n].buf)
    ensures !Truthful(t, r, f)
  {
    assert !Arrived(r.slots, f, n);
    if f.base <= n { assert f.base + (n - f.base) == n; }
  }

  /** The peer waits for a frame up to sixteen past the window's first: its poll acknowledges what it never had. */
  lemma UnsentAcked(s: System, d: nat)
    requires Restarting(s) && s.b.rx.next == Wrap8(s.a.tx.base + d) && 1 <= d <= MAXWIN
    requires NoneHeld(s.b.rx) || (s.a.tx.win == [] && s.a.tx.queue == [])
    ensures !Good(s)
  {
    RestartingSlots(s);
    hide Run, After, Good, Restarting, SackOf, TxAck, Released, NoneHeld, Truthful;
    var x := Other(s.b.rx.slots[0].buf);
    var es, y, q := Asking(s, d, x);
    CoversSome(y.a.tx, d, SackOf(s.b.rx));
    var n := Released(y.a.tx, s.b.rx.next, SackOf(s.b.rx));
    NotArrived(TxAck(y.a.tx, s.b.rx.next, SackOf(s.b.rx)), s.b.rx, y.ab.(base := n), 0);
    LieIsBad(s, es, y, d, q);
  }

  lemma CoversSome(t: TxHalf, d: nat, sack: Sack)
    requires TxValid(t) && 1 <= d <= |t.win|
    ensures Released(t, Wrap8(t.base + d), sack) >= 1
  {
    CoversAll(t, d);
    var m := MarkAcked(t, Wrap8(t.base + d), sack);
    hide Cum, Wrap8, SackHit;
    assert m[0].acked;
  }

  lemma CoversAll(t: TxHalf, d: nat)
    requires d <= |t.win| <= MAXWIN
    ensures Cum(t, Wrap8(t.base + d)) == d
  {
    WrapDiff(t.base + d, t.base);
  }

  /** The peer holds a frame of another stream ahead of the first: its poll acknowledges what was never sent. */
  lemma UnsentSacked(s: System, j: nat)
    requires Restarting(s) && s.b.rx.next == 0 && s.a.tx.base == 0 && s.a.tx.win == [] && s.a.tx.queue == []
    requires 1 <= j < MAXWIN && s.b.rx.slots[j].received
    ensures !Good(s)
  {
    RestartingSlots(s);
    SackOfHeld(s.b.rx, j);
    hide Run, After, Good, Restarting, SackOf, TxAck, Released, NoneHeld, Truthful, NoneAcked;
    var x := Other(s.b.rx.slots[j].buf);
    var es, y, q := Asking(s, j + 1, x);
    NothingMarked(s, y, j + 1, q);
    SacksOne(y.a.tx, j, SackOf(s.b.rx));
    NotArrived(TxAck(y.a.tx, 0, SackOf(s.b.rx)), s.b.rx, y.ab.(base := 0), j);
    LieIsBad(s, es, y, j + 1, q);
  }

  lemma NothingMarked(s: System, y: System, m: nat, q: Packet)
    requires Asked(s, y, m, q) && s.a.tx.win == []
    ensures NoneAcked(y.a.tx.win)
  {
  }

  lemma SackOfHeld(r: RxHalf, j: nat)
    requires SlotsProper(r) && r.next == 0 && 1 <= j < MAXWIN && r.slots[j].received
    ensures SackOf(r)[j - 1]
  {
    assert SlotProper(r, j);
    assert Holds(r, j);
  }

  lemma SacksOne(t: TxHalf, j: nat, sack: Sack)
    requires TxValid(t) && NoneAcked(t.win) && t.base == 0 && 1 <= j < |t.win| && sack[j - 1]
    ensures Released(t, 0, sack) == 0 && |TxAck(t, 0, sack).win| == |t.win| && TxAck(t, 0, sack).win[j].acked
  {
    var m := MarkAcked(t, 0, sack);
    assert t.win[0].num == 0 && t.win[j].num == j;
    assert !m[0].acked && m[j].acked;
  }

  // ---- so it has to be in sync ----

  /** What goes well starts with the frame the receiver waits for. */
  lemma GoodStartsTogether(s: System)
    requires Restarting(s) && Good(s)
    requires NoneHeld(s.b.rx) || (s.a.tx.win == [] && s.a.tx.queue == [])
    ensures s.a.tx.base == s.b.rx.next
  {
    hide Good, Restarting, NoneHeld;
    if s.a.tx.base != s.b.rx.next {
      var e := Ahead(s.a.tx, s.b.rx);
      assert |s.b.rx.slots| == MAXWIN by { RestartingSlots(s); }
      if e >= 240 {
        Behind(s.a.tx.base, s.b.rx.next);
        UnsentAcked(s, 256 - e);
      } else if Holds(s.b.rx, s.b.rx.next) {
        NothingWritten(s);
        StaleFrameRead(s);
      } else {
        DeafIsBad(s);
      }
    }
  }

  lemma RestartingSlots(s: System)
    requires Restarting(s)
    ensures |s.b.rx.slots| == MAXWIN && SlotsProper(s.b.rx) && s.ab.rn == 0
  {
  }

  lemma Behind(base: u8, next: u8)
    requires base != next
    ensures 1 <= Wrap8(base - next) && next == Wrap8(base + (256 - Wrap8(base - next)))
  {
  }

  lemma NothingWritten(s: System)
    requires Restarting(s) && Holds(s.b.rx, s.b.rx.next)
    requires NoneHeld(s.b.rx) || (s.a.tx.win == [] && s.a.tx.queue == [])
    ensures s.ab.accepted == []
  {
  }

  /** What goes well to a receiver that has not heard the sender starts with it holding nothing. */
  lemma GoodHoldsNothing(s: System)
    requires Restarting(s) && Good(s) && s.a.tx.win == [] && s.a.tx.queue == [] && s.a.tx.base == 0 == s.b.rx.next
    ensures NoneHeld(s.b.rx)
  {
    hide Good;
    if j :| 0 <= j < MAXWIN && s.b.rx.slots[j].received {
      assert SlotProper(s.b.rx, j);
      if j == 0 { StaleFrameRead(s); } else { UnsentSacked(s, j); }
    }
  }

  /** What goes well starts with nothing marked acknowledged that the receiver does not have. */
  lemma GoodMarksNothing(s: System)
    requires Restarting(s) && Good(s) && NoneHeld(s.b.rx)
    ensures NoneAcked(s.a.tx.win)
  {
    GoodNow(s);
    assert forall i: nat :: i < |s.a.tx.win| && s.a.tx.win[i].acked ==> !Arrived(s.b.rx.slots, s.ab, s.ab.base + i);
  }

  /** The peer polls and the restarted end hears it: now it knows the peer's epoch. */
  ghost function Greeted(a: Link, b: Link): System
    requires |a.rx.slots| == MAXWIN && |b.rx.slots| == MAXWIN
  {
    var s := Noticed(a, b);
    var q := Packet(Poll(s.b), 0, 0);
    s.(a := OnRx(a, q.frame), netBA := {q})
  }

  lemma Greeting(a: Link, b: Link)
    requires Restarted(a) && LinkValid(b) && Facing(a, b) && Resyncs(a, b)
    ensures Good(Greeted(a, b))
  {
    var s := Noticed(a, b);
    var q := Packet(Poll(s.b), 0, 0);
    var e, f := Event(false, PollOp), Event(true, RecvOp(q));
    var y := Do(s, e);
    Polled(s);
    GreetingHeard(y, q);
    hide Good, Do, OnRx, Restarted, TrackEpoch, LinkValid, WindowFlow;
    assert {} + {q} == {q};
    GoodStep(s, e);
    GoodStep(y, f);
  }

  lemma GreetingHeard(y: System, q: Packet)
    requires |y.a.rx.slots| == |y.b.rx.slots| == MAXWIN && y.a.tx.win == [] && Facing(y.a, y.b)
    requires q == Packet(Poll(y.b), 0, 0) && q in y.netBA && y.ab.base == 0 && y.ba.rn == 0
    ensures Enabled(y, Event(true, RecvOp(q))) && Do(y, Event(true, RecvOp(q))) == y.(a := OnRx(y.a, q.frame))
  {
    hide SackOf;
  }

  /** Both directions are then as a restart finds them. */
  lemma GreetedRestarting(a: Link, b: Link)
    requires Restarted(a) && Proper(b) && b.myEpoch != 0 && Facing(a, b)
    requires a.txCap >= 1 && b.txCap >= 1 && a.rx.cap >= MAXPAY && b.rx.cap >= MAXPAY
    ensures |a.rx.slots| == |b.rx.slots| == MAXWIN
    ensures var s := Greeted(a, b);
      && Restarting(s) && Restarting(Swap(s)) && s.b == TrackEpoch(b, a.myEpoch)
      && s.a.tx.win == [] && s.a.tx.queue == [] && s.a.tx.base == 0 && s.a.rx.next == 0 && NoneHeld(s.a.rx)
  {
    GreetedIsPair(a, b);
    hide GreetedPair, Restarting, Restarted, Proper;
    ThereRestarting(Greeted(a, b));
    BackRestarting(Greeted(a, b));
    GreetedClean(Greeted(a, b));
  }

  lemma GreetedClean(s: System)
    requires GreetedPair(s)
    ensures s.a.tx.win == [] && s.a.tx.queue == [] && s.a.tx.base == 0 && s.a.rx.next == 0 && NoneHeld(s.a.rx)
  {
  }

  lemma GreetedIsPair(a: Link, b: Link)
    requires Restarted(a) && Proper(b) && b.myEpoch != 0 && Facing(a, b)
    requires a.txCap >= 1 && b.txCap >= 1 && a.rx.cap >= MAXPAY && b.rx.cap >= MAXPAY
    ensures |a.rx.slots| == |b.rx.slots| == MAXWIN
    ensures GreetedPair(Greeted(a, b)) && Greeted(a, b).b == TrackEpoch(b, a.myEpoch)
  {
    RestartedShape(a);
    SlotsOfProper(b);
    hide OnRx, TrackEpoch, SackOf, WindowFlow, Restarted, Proper, NoneHeld;
    var z := TrackEpoch(b, a.myEpoch);
    TrackProper(b, a.myEpoch);
    TrackedSelf(b, a.myEpoch);
    GreetedSelf(a, Poll(z));
    RestartedStays(a, OnRx(a, Poll(z)));
    GreetedIs(a, b);
    hide Poll, Greeted;
  }

  lemma GreetedIs(a: Link, b: Link)
    requires |a.rx.slots| == MAXWIN && |b.rx.slots| == MAXWIN
    ensures var z := TrackEpoch(b, a.myEpoch);
      && |z.rx.slots| == MAXWIN
      && Greeted(a, b) == System(OnRx(a, Poll(z)), z, NoFlow.(stale := z.rx.queue), WindowFlow(z.tx), {},
                                 {Packet(Poll(z), 0, 0)})
  {
    hide OnRx, Poll;
  }

  lemma RestartedShape(a: Link)
    requires Restarted(a)
    ensures a.tx.win == [] && a.tx.queue == [] && |a.rx.slots| == MAXWIN && a.myEpoch != 0
  {
  }

  lemma SlotsOfProper(l: Link)
    requires Proper(l)
    ensures |l.rx.slots| == MAXWIN
  {
  }

  lemma RestartedStays(a: Link, z: Link)
    requires Restarted(a) && z.tx == a.tx && z.rx == a.rx && z.myEpoch == a.myEpoch && z.txCap == a.txCap
    ensures Restarted(z.(peerEpoch := 0)) && z.tx.win == [] && z.tx.queue == [] && z.tx.base == 0 && z.rx.next == 0
    ensures NoneHeld(z.rx)
  {
  }

  lemma TrackedSelf(b: Link, epoch: u8)
    ensures var z := TrackEpoch(b, epoch);
      && |z.rx.slots| == |b.rx.slots| && z.peerEpoch == epoch && z.myEpoch == b.myEpoch && z.addr == b.addr
         && z.peer == b.peer
      && z.txCap == b.txCap && z.rx.cap == b.rx.cap
  {
  }

  /** What a greeted pair is, one end at a time. */
  ghost predicate GreetedPair(s: System) {
    && Restarted(s.a.(peerEpoch := 0)) && Proper(s.b) && Facing(s.a, s.b) && s.b.myEpoch != 0
    && s.a.peerEpoch == s.b.myEpoch && s.b.peerEpoch == s.a.myEpoch
    && s.a.txCap >= 1 && s.b.txCap >= 1 && s.a.rx.cap >= MAXPAY && s.b.rx.cap >= MAXPAY
    && s.ab == NoFlow.(stale := s.b.rx.queue) && s.ba == WindowFlow(s.b.tx)
    && s.netAB == {} && s.netBA == {Packet(Poll(s.b), 0, 0)}
  }

  lemma ThereRestarting(s: System)
    requires GreetedPair(s)
    ensures Restarting(s)
  {
    NothingFramed(s.a.tx);
    hide TxValid, SlotsProper, CanDeliver, NoneHeld, FrontUnacked, WindowFlow, SackOf;
    assert FrontUnacked(s.a.tx.win) by { NoFront(s.a.tx.win); }
  }

  lemma NoFront(win: seq<TxFrame>)
    requires win == []
    ensures FrontUnacked(win)
  {
  }

  lemma BackRestarting(s: System)
    requires GreetedPair(s)
    ensures Restarting(Swap(s))
  {
    hide TxValid, FrontUnacked, SackOf, Raws;
  }

  lemma GreetedSelf(a: Link, f: Frame)
    requires Restarted(a) && ForMe(a, f) && !f.data
    ensures var z := OnRx(a, f);
      && z.tx == a.tx && z.rx == a.rx && z.peerEpoch == f.epoch
      && z.myEpoch == a.myEpoch && z.addr == a.addr && z.peer == a.peer && z.txCap == a.txCap
  {
    hide SackHit;
    assert EmptySlots(a.rx.slots) == a.rx.slots;
  }

  /**
   * For every restarted end and every peer, whatever it has been through, with room for a byte to
   * send and a frame to receive each way: all goes well, in every run after the peer has noticed,
   * if and only if the two are in sync.
   */
  lemma ResyncsIff(a: Link, b: Link)
    requires Restarted(a) && Proper(b) && b.myEpoch != 0 && Facing(a, b)
    requires a.txCap >= 1 && b.txCap >= 1 && a.rx.cap >= MAXPAY && b.rx.cap >= MAXPAY
    ensures Resyncs(a, b) <==> InSync(a, b)
  {
    if InSync(a, b) {
      InSyncResyncs(a, b);
    } else if Resyncs(a, b) {
      Greeting(a, b);
      GreetedRestarting(a, b);
      GoodMeansClean(Greeted(a, b));
      MistakenIsBad(a, b);
    }
  }

  /** From a greeting on which all goes well, the peer numbers from zero both ways. */
  lemma GoodMeansClean(s: System)
    requires Restarting(s) && Restarting(Swap(s)) && Good(s)
    requires s.a.tx.win == [] && s.a.tx.queue == [] && s.a.tx.base == 0 && s.a.rx.next == 0 && NoneHeld(s.a.rx)
    ensures s.b.rx.next == 0 && NoneHeld(s.b.rx) && s.b.tx.base == 0 && NoneAcked(s.b.tx.win)
  {
    hide Good, Restarting;
    GoodStartsTogether(s);
    GoodHoldsNothing(s);
    GoodSwap(s);
    GoodStartsTogether(Swap(s));
    GoodMarksNothing(Swap(s));
  }

  /** With everything else in sync, a mistaken end still loses a byte. */
  lemma MistakenIsBad(a: Link, b: Link)
    requires Restarted(a) && LinkValid(b) && Facing(a, b) && a.txCap >= 1 && b.rx.cap >= MAXPAY
    requires Noticed(a, b).b.rx.next == 0 && NoneHeld(Noticed(a, b).b.rx) && !KnowsPeer(a, b)
    ensures !Resyncs(a, b)
  {
    var es := MistakenEndLosesByte(a, b, 0, 1, 2);
    var z := After(Noticed(a, b), es);
    var q := b.rx.queue;
    assert (q + [0, 1, 2])[|q| + 1] == 1 && (q + [0, 2])[|q| + 1] == 2;
    hide Run, After, Noticed;
    assert !Exact(z);
  }
}
