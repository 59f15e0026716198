/**
 * Progress for the real turn composition: a turn in bytes, heard by a listener that stops at the
 * first frame with F_MORE clear, is the exchange of the frame level; so the round counts hold for
 * stations.
 */
module ModemProgress {
  import opened Base
  import opened Arq
  import opened ArqSafety
  import opened ArqTurn
  import opened Wire
  import opened Station
  import opened Modem
  import ArqSystem
  import ArqProgress
  import ArqTurnLength
  import Replay
  import Nonce

  /** Set up alike, and `to` has heard no counter that `from` has not used. */
  ghost predicate InStep(from: Station, to: Station) {
    && StationValid(from) && StationValid(to) && from.cfg == to.cfg && Compatible(from.cfg)
    && (Sealing(from.cfg) && to.guard.init ==> to.guard.max <= from.txCtr)
  }

  /** Hearing one emitted frame does what the frame does, and moves the replay window to its counter. */
  lemma ReceiveEmitted(to: Station, b: Bytes, f: Frame, ctr: nat)
    requires StationValid(to) && Compatible(to.cfg) && ForMe(to.link, f)
    requires f.ctrl % 16 == 0 && |f.payload| <= MAXPAY && Encode(to.cfg, MAXFRAME, f, ctr) == Some(b)
    requires ctr < Nonce.Pow256(8) && (Sealing(to.cfg) && to.guard.init ==> to.guard.max < ctr)
    ensures var (z, ended) := Receive(to, b);
      && z == to.(link := OnRx(to.link, f), guard := z.guard) && ended == !f.more
      && (Sealing(to.cfg) ==> z.guard.init && z.guard.max == ctr)
      && z.link.txCtrl == to.link.txCtrl
  {
    KeepsNibble(to.link, f);
    var g := TrackGuard(to, f.epoch);
    EncodedHeader(to.cfg, f, ctr);
    NewCounter(g, ctr);
    hide Encode, Decode, HeaderFrame, Nonce.Pow256, Inverse, Replay.Check, LinkValid, TrackEpoch, Accept;
    if Sealing(to.cfg) {
      SealedRoundTrip(to.cfg, g, f, ctr);
    } else {
      PlainRoundTrip(to.cfg, g, f, ctr);
    }
  }

  lemma KeepsNibble(l: Link, f: Frame)
    requires |l.rx.slots| == MAXWIN
    ensures OnRx(l, f).txCtrl == l.txCtrl
  {
    hide Drain, TxAck, Store;
  }

  lemma NewCounter(g: Replay.Guard, ctr: nat)
    ensures (g.init ==> g.max < ctr) ==>
      Replay.Check(g, ctr).1 && Replay.Check(g, ctr).0.init && Replay.Check(g, ctr).0.max == ctr
  {
    hide Replay.ShiftLeft;
  }

  /** What a call of the turn does to the sending station besides its link. */
  lemma TransmitCounts(s: Station, now: u32)
    requires StationValid(s)
    ensures var (z, b) := Transmit(s, MAXFRAME, now);
      && z.guard == s.guard && z.cfg == s.cfg
      && z.txCtr == s.txCtr + (if b.Some? && Sealing(s.cfg) then 1 else 0)
  {
    TransmitShape(s, now);
    hide Encode, NextTx, LinkValid, ConfigValid;
  }

  lemma {:induction false} SendAllCounts(s: Station, clock: nat -> u32, k: nat)
    requires StationValid(s)
    ensures var (z, air) := SendAll(s, clock, k);
      && StationValid(z) && z.guard == s.guard && z.cfg == s.cfg
      && z.txCtr == s.txCtr + (if Sealing(s.cfg) then |air| else 0)
    decreases |s.link.tx.queue|, Unsent(s.link.tx.win), if s.link.ackSentTurn then 0 else 1
  {
    TransmitValid(s, clock(k));
    TransmitCounts(s, clock(k));
    SendAllStep(s, clock, k);
    hide Transmit, NextTx, StationValid, SendAll, OnAir;
    if NextTx(s.link, clock(k)).1.Some? {
      NextTxDecreases(s.link, clock(k));
      SendAllCounts(Transmit(s, MAXFRAME, clock(k)).0, clock, k + 1);
    }
  }

  /** A frame-level system and the two stations whose links it is made of. */
  ghost predicate Twin(s: ArqSystem.System, from: Station, to: Station) {
    && ArqSystem.Inv(s) && ArqSystem.Facing(s.a, s.b) && ArqProgress.Tidy(s.a) && ArqProgress.Tidy(s.b)
    && s.a == from.link && s.b == to.link && InStep(from, to)
  }

  /** With nobody listening, the burst is the sender's alone. */
  lemma {:induction false} SilentBurst(s: ArqSystem.System, from: Station, clock: nat -> u32, k: nat, on: bool)
    requires ArqSystem.Inv(s) && ArqSystem.Facing(s.a, s.b) && ArqProgress.Tidy(s.a) && ArqProgress.Tidy(s.b)
    requires StationValid(from) && s.a == from.link
    ensures ArqProgress.Burst(s, clock, k, on).a == SendAll(from, clock, k).0.link
    decreases |s.a.tx.queue|, Unsent(s.a.tx.win), if s.a.ackSentTurn then 0 else 1
  {
    ArqProgress.BurstStepKeeps(s, clock(k), on);
    TransmitValid(from, clock(k));
    hide Transmit, NextTx, StationValid, OnAir, ArqProgress.BurstStep;
    var o := NextTx(s.a, clock(k)).1;
    if o.Some? {
      NextTxDecreases(s.a, clock(k));
      SilentBurst(ArqProgress.BurstStep(s, clock(k), on), Transmit(from, MAXFRAME, clock(k)).0, clock, k + 1,
        on && o.value.more);
    }
  }

  /** One call of a burst over bytes, to a listener. */
  lemma StepOverBytes(s: ArqSystem.System, from: Station, to: Station, now: u32)
    requires Twin(s, from, to) && NextTx(s.a, now).1.Some? && from.txCtr + 1 < Nonce.Pow256(8)
    ensures Transmit(from, MAXFRAME, now).1.Some?
    ensures
      var (f1, b) := Transmit(from, MAXFRAME, now);
      var (t1, ended) := Receive(to, b.value);
      && ended == !NextTx(s.a, now).1.value.more
      && Twin(ArqProgress.BurstStep(s, now, true), f1, t1)
      && t1 == to.(link := t1.link, guard := t1.guard)
  {
    hide Transmit, NextTx, Encode, Receive, Nonce.Pow256, OnRx, ForMe, Inverse, ArqSystem.Inv, ArqProgress.Tidy,
      LinkValid, ArqProgress.BurstStep;
    InvLinks(s);
    ArqProgress.BurstStepKeeps(s, now, true);
    InvLinks(ArqProgress.BurstStep(s, now, true));
    ArqProgress.FrameAddressed(s.a, s.b, now);
    TransmitShape(from, now);
    TransmitCounts(from, now);
    ReceiveEmitted(to, Transmit(from, MAXFRAME, now).1.value, NextTx(s.a, now).1.value, from.txCtr + 1);
    StepHearer(s, now);
  }

  lemma StepHearer(s: ArqSystem.System, now: u32)
    requires ArqSystem.Inv(s) && NextTx(s.a, now).1.Some?
    ensures ArqProgress.BurstStep(s, now, true).b == OnRx(s.b, NextTx(s.a, now).1.value)
  {
    ArqProgress.SendShape(s, now);
    hide NextTx, OnRx;
  }

  /** A whole burst over bytes, as far as the listener takes it in, is the burst of the frame level. */
  lemma {:induction false} BurstOverBytes(s: ArqSystem.System, from: Station, to: Station, clock: nat -> u32, k: nat)
    requires Twin(s, from, to) && from.txCtr + |SendAll(from, clock, k).1| < Nonce.Pow256(8)
    ensures
      var (from', air) := SendAll(from, clock, k);
      var to' := HearUntil(to, air).0;
      && Twin(ArqProgress.Burst(s, clock, k, true), from', to')
      && to' == to.(link := to'.link, guard := to'.guard)
    decreases |s.a.tx.queue|, Unsent(s.a.tx.win), if s.a.ackSentTurn then 0 else 1
  {
    var f1, b := Transmit(from, MAXFRAME, clock(k)).0, Transmit(from, MAXFRAME, clock(k)).1;
    BurstSender(s, from, clock, k);
    SendAllCounts(from, clock, k);
    SendAllStep(from, clock, k);
    TransmitValid(from, clock(k));
    BurstUnfold(s, clock, k);
    var o := NextTx(s.a, clock(k)).1;
    hide Transmit, NextTx, StationValid, OnAir, ArqProgress.BurstStep, ArqProgress.BurstInv, Receive, SendAll,
      ArqProgress.Burst, Nonce.Pow256, ArqSystem.Inv, ArqProgress.Tidy, Compatible, HearUntil;
    if o.Some? {
      StepOverBytes(s, from, to, clock(k));
      NextTxDecreases(s.a, clock(k));
      var y, t1 := ArqProgress.BurstStep(s, clock(k), true), Receive(to, b.value).0;
      SendAllCounts(f1, clock, k + 1);
      HearCons(to, b.value, SendAll(f1, clock, k + 1).1);
      if o.value.more { BurstOverBytes(y, f1, t1, clock, k + 1); }
    } else {
      HearNone(to);
    }
  }

  lemma HearCons(to: Station, b: Bytes, rest: seq<Bytes>)
    requires StationValid(to)
    ensures var (t1, ended) := Receive(to, b);
      && t1.cfg == to.cfg && |t1.link.rx.slots| == MAXWIN
      && HearUntil(to, [b] + rest) == (if ended then (t1, true) else HearUntil(t1, rest))
  {
    hide Receive;
    assert ([b] + rest)[1..] == rest;
  }

  lemma HearNone(to: Station)
    requires StationValid(to)
    ensures HearUntil(to, []) == (to, false)
  {
  }

  /** The sending side of a burst, over bytes and in frames. */
  lemma BurstSender(s: ArqSystem.System, from: Station, clock: nat -> u32, k: nat)
    requires ArqSystem.Inv(s) && ArqSystem.Facing(s.a, s.b) && ArqProgress.Tidy(s.a) && ArqProgress.Tidy(s.b)
    requires StationValid(from) && s.a == from.link
    ensures var z := ArqProgress.Burst(s, clock, k, true);
      && z.a == SendAll(from, clock, k).0.link
      && ArqSystem.Inv(z) && ArqSystem.Facing(z.a, z.b) && ArqProgress.Tidy(z.a) && ArqProgress.Tidy(z.b)
  {
    ArqProgress.BurstKeeps(s, clock, k, true);
    SilentBurst(s, from, clock, k, true);
    hide ArqProgress.Burst, SendAll;
  }

  /** A burst, by whether its first frame keeps the listener listening. */
  lemma BurstUnfold(s: ArqSystem.System, clock: nat -> u32, k: nat)
    requires ArqSystem.Inv(s) && ArqSystem.Facing(s.a, s.b) && ArqProgress.Tidy(s.a) && ArqProgress.Tidy(s.b)
    ensures
      var z, y, o := ArqProgress.Burst(s, clock, k, true), ArqProgress.BurstStep(s, clock(k), true),
        NextTx(s.a, clock(k)).1;
      && (o.None? ==> z.b == s.b)
      && (o.Some? ==> ArqProgress.BurstInv(s, y) && y.a == NextTx(s.a, clock(k)).0)
      && (o.Some? && o.value.more ==> z == ArqProgress.Burst(y, clock, k + 1, true))
      && (o.Some? && !o.value.more ==> z.b == y.b)
  {
    ArqProgress.BurstStepKeeps(s, clock(k), true);
    ArqProgress.SendShape(s, clock(k));
    var y, o := ArqProgress.BurstStep(s, clock(k), true), NextTx(s.a, clock(k)).1;
    if o.Some? {
      NextTxDecreases(s.a, clock(k));
      if !o.value.more { ArqProgress.BurstKeeps(y, clock, k + 1, false); }
    }
  }

  /**
   * A burst of two or more due resends and nothing else: the listener takes in its first bytes,
   * is told that the burst is over, and hears no more of it.
   */
  lemma StaleBytesHeardOnce(s: ArqSystem.System, from: Station, to: Station, clock: nat -> u32)
    requires Twin(s, from, to) && from.txCtr + 1 < Nonce.Pow256(8)
    requires Steady(from.link.tx, clock) && !HasFresh(Fill(from.link.tx).win) && TwoDue(Fill(from.link.tx), clock(0))
    ensures var air := SendAll(from, clock, 0).1;
      |air| >= 2 && HearUntil(to, air) == (Receive(to, air[0]).0, true)
  {
    hide SendAll, SendTurn, Transmit, NextTx, Receive, HearUntil, Fill, HasFresh, TwoDue, Steady, ArqSystem.Inv,
      Nonce.Pow256, OnAir;
    StaleTurn(from.link, clock);
    SendAllIsTurn(from, clock, 0);
    SendAllStep(from, clock, 0);
    TransmitValid(from, clock(0));
    ArqTurnLength.FirstFrame(from.link, clock);
    StepOverBytes(s, from, to, clock(0));
    var b := Transmit(from, MAXFRAME, clock(0)).1.value;
    HearCons(to, b, SendAll(from, clock, 0).1[1..]);
    assert SendAll(from, clock, 0).1 == [b] + SendAll(from, clock, 0).1[1..];
  }

  /** A poll over bytes is the poll of the frame level. */
  lemma PollOverBytes(s: ArqSystem.System, from: Station, to: Station)
    requires Twin(s, from, to) && from.txCtr + 1 < Nonce.Pow256(8)
    ensures Emit(from, MAXFRAME, Poll(from.link)).1.Some?
    ensures
      var (f1, b) := Emit(from, MAXFRAME, Poll(from.link));
      var (t1, ended) := Receive(to, b.value);
      && HearUntil(to, [b.value]) == (t1, true)
      && Twin(ArqProgress.PollHeard(s), f1, t1)
      && t1 == to.(link := t1.link, guard := t1.guard) && f1.txCtr <= from.txCtr + 1
  {
    hide Encode, Receive, Nonce.Pow256, OnRx, Emit, Poll, ForMe, Inverse, ArqSystem.Inv, ArqProgress.Tidy, LinkValid,
      ArqProgress.PollHeard;
    InvLinks(s);
    ArqProgress.PollKeeps(s);
    InvLinks(ArqProgress.PollHeard(s));
    var f := Poll(from.link);
    PollCounts(from);
    EncodeFits(from.cfg, f, from.txCtr + 1);
    EmitValid(from, f);
    PollForMe(s);
    var b := Emit(from, MAXFRAME, f).1;
    ReceiveEmitted(to, b.value, f, from.txCtr + 1);
    HearCons(to, b.value, []);
    assert [b.value] + [] == [b.value];
  }

  lemma InvLinks(s: ArqSystem.System)
    requires ArqSystem.Inv(s)
    ensures LinkValid(s.a) && LinkValid(s.b) && |s.a.rx.slots| == |s.b.rx.slots| == MAXWIN
  {
  }

  lemma PollCounts(s: Station)
    requires StationValid(s)
    ensures var f := Poll(s.link); var (z, b) := Emit(s, MAXFRAME, f);
      && b == Encode(s.cfg, MAXFRAME, f, s.txCtr + 1) && f.ctrl % 16 == 0 && f.payload == [] && !f.more
      && z.link == s.link && z.guard == s.guard && z.cfg == s.cfg
      && z.txCtr == s.txCtr + (if b.Some? && Sealing(s.cfg) then 1 else 0)
  {
    hide Encode, LinkValid, ConfigValid, SackOf;
  }

  lemma PollForMe(s: ArqSystem.System)
    requires ArqSystem.Inv(s) && ArqSystem.Facing(s.a, s.b)
    ensures ForMe(s.b, Poll(s.a)) && ArqProgress.PollHeard(s).b == OnRx(s.b, Poll(s.a))
  {
    hide OnRx, SackOf;
  }

  /** A turn over bytes, heard by a listener, is the exchange of the frame level. */
  lemma TurnOverBytes(s: ArqSystem.System, from: Station, to: Station, clock: nat -> u32)
    requires Twin(s, from, to) && from.txCtr + 18 < Nonce.Pow256(8)
    ensures
      var (from', air) := TurnBytes(from, clock);
      var to' := HearUntil(to, air).0;
      && Twin(ArqProgress.Exchange(s, clock), from', to')
      && to' == to.(link := to'.link, guard := to'.guard) && from'.guard == from.guard && from'.txCtr <= from.txCtr + 17
  {
    hide SendAll, SendTurn, ArqProgress.Burst, Transmit, Emit, Poll, HearUntil, ArqSystem.Inv, Nonce.Pow256, NextTx;
    ArqProgress.OpenTurn(s);
    OpenedValid(from);
    var s0, from0 := ArqSystem.DoA(s, ArqSystem.BeginTurnOp), Opened(from);
    assert Twin(s0, from0, to);
    SendAllIsTurn(from0, clock, 0);
    TurnAtMostWindow(from.link, clock);
    SendAllCounts(from0, clock, 0);
    BurstOverBytes(s0, from0, to, clock, 0);
    SendAllStep(from0, clock, 0);
    TransmitValid(from0, clock(0));
    var (z, air) := SendAll(from0, clock, 0);
    if air == [] {
      HearNone(to);
      PollOverBytes(ArqProgress.Burst(s0, clock, 0, true), z, to);
      PollCounts(z);
    }
  }

  // ---- rounds over bytes ----

  /** One turn: the sender's bytes, and the listener after what it takes in of them. */
  ghost function TurnOf(from: Station, to: Station, clock: nat -> u32): (Station, Station)
    requires StationValid(from) && StationValid(to)
  {
    var (from', air) := TurnBytes(from, clock);
    (from', HearUntil(to, air).0)
  }

  /** b's application takes everything delivered. */
  function TakeAll(s: Station): Station
    requires |s.link.rx.slots| == MAXWIN
  {
    s.(link := Read(s.link, |s.link.rx.queue|))
  }

  /** a's turn, b's turn, and b's application reads. The guard never fails on a twin of a system. */
  ghost function RoundBytes(a: Station, b: Station, ca: nat -> u32, cb: nat -> u32): (Station, Station) {
    if !(StationValid(a) && StationValid(b)) then (a, b)
    else
      var (a1, b1) := TurnOf(a, b, ca);
      if !(StationValid(a1) && StationValid(b1)) then (a1, b1)
      else
        var (b2, a2) := TurnOf(b1, a1, cb);
        (a2, if |b2.link.rx.slots| == MAXWIN then TakeAll(b2) else b2)
  }

  /** Twins whose counters have room for one more turn each. */
  ghost predicate Ready(s: ArqSystem.System, a: Station, b: Station, turns: nat) {
    && Twin(s, a, b) && InStep(b, a)
    && a.txCtr + 18 * turns < Nonce.Pow256(8) && b.txCtr + 18 * turns < Nonce.Pow256(8)
  }

  lemma SwapTwin(s: ArqSystem.System, a: Station, b: Station)
    requires Twin(s, a, b) && InStep(b, a)
    ensures Twin(ArqSystem.Swap(s), b, a)
  {
    hide ArqProgress.Tidy, LinkValid, ArqSafety.DirInv;
  }

  /** Taking turns in bytes keeps both directions in step. */
  lemma TurnKeepsBoth(s: ArqSystem.System, a: Station, b: Station, clock: nat -> u32)
    requires Twin(s, a, b) && InStep(b, a) && a.txCtr + 18 < Nonce.Pow256(8)
    ensures var (a1, b1) := TurnOf(a, b, clock);
      && Twin(ArqProgress.Exchange(s, clock), a1, b1) && Twin(ArqSystem.Swap(ArqProgress.Exchange(s, clock)), b1, a1)
      && a1.txCtr <= a.txCtr + 17 && b1.txCtr == b.txCtr
  {
    hide TurnBytes, HearUntil, ArqProgress.Exchange, ArqSystem.Inv, ArqProgress.Tidy, LinkValid, Nonce.Pow256,
      ArqSystem.Swap;
    TurnOverBytes(s, a, b, clock);
    var (a1, b1) := TurnOf(a, b, clock);
    SwapTwin(ArqProgress.Exchange(s, clock), a1, b1);
  }

  /** A round over bytes is the round of the frame level. */
  lemma RoundOverBytes(s: ArqSystem.System, a: Station, b: Station, ca: nat -> u32, cb: nat -> u32)
    requires ArqProgress.CanRound(s, ca) && Ready(s, a, b, 1)
    ensures var (a', b') := RoundBytes(a, b, ca, cb);
      && Twin(ArqProgress.Round(s, ca, cb), a', b') && InStep(b', a')
      && a'.txCtr <= a.txCtr + 17 && b'.txCtr <= b.txCtr + 17
  {
    hide TurnOf, ArqProgress.Exchange, ArqSystem.Inv, ArqProgress.Tidy, LinkValid, Nonce.Pow256, ArqSystem.Swap,
      ArqProgress.Ready, ArqProgress.Expired;
    TurnKeepsBoth(s, a, b, ca);
    var a1, b1 := TurnOf(a, b, ca).0, TurnOf(a, b, ca).1;
    var m := ArqSystem.Swap(ArqProgress.Exchange(s, ca));
    TurnKeepsBoth(m, b1, a1, cb);
    var b2, a2 := TurnOf(b1, a1, cb).0, TurnOf(b1, a1, cb).1;
    ReadOverBytes(s, a2, b2, ca, cb);
  }

  lemma ReadOverBytes(s: ArqSystem.System, a: Station, b: Station, ca: nat -> u32, cb: nat -> u32)
    requires ArqProgress.CanRound(s, ca)
    requires Twin(ArqProgress.Turns(s, ca, cb), a, b) && InStep(b, a)
    ensures |b.link.rx.slots| == MAXWIN
    ensures Twin(ArqProgress.Round(s, ca, cb), a, TakeAll(b)) && InStep(TakeAll(b), a)
  {
    hide ArqProgress.Turns, ArqSystem.Inv, ArqProgress.Tidy, LinkValid, ArqProgress.CanRound, ArqProgress.Exchange;
    InvLinks(ArqProgress.Turns(s, ca, cb));
    ArqProgress.RoundKeeps(s, ca, cb);
    InvLinks(ArqProgress.Round(s, ca, cb));
    RoundReads(s, ca, cb);
  }

  lemma RoundReads(s: ArqSystem.System, ca: nat -> u32, cb: nat -> u32)
    requires ArqProgress.CanRound(s, ca)
    ensures var z, y := ArqProgress.Turns(s, ca, cb), ArqProgress.Round(s, ca, cb);
      |z.b.rx.slots| == MAXWIN && y.a == z.a && y.b == Read(z.b, |z.b.rx.queue|)
  {
    hide ArqProgress.Turns, ArqSystem.Inv, Drain, ArqProgress.CanRound;
    ArqProgress.TurnsKeep(s, ca, cb);
    InvLinks(ArqProgress.Turns(s, ca, cb));
  }

  /** Rounds k, k+1, ..., n-1 over bytes. */
  ghost function RoundsBytes(a: Station, b: Station, ca: nat -> nat -> u32, cb: nat -> nat -> u32, k: nat,
      n: nat): (Station, Station)
    decreases n - k
  {
    if k >= n then (a, b)
    else
      var (a1, b1) := RoundBytes(a, b, ca(k), cb(k));
      RoundsBytes(a1, b1, ca, cb, k + 1, n)
  }

  /** Any number of rounds over bytes are those of the frame level. */
  lemma {:induction false} RoundsOverBytes(s: ArqSystem.System, a: Station, b: Station, ca: nat -> nat -> u32,
      cb: nat -> nat -> u32, k: nat, n: nat, spare: nat)
    requires k <= n && Ready(s, a, b, n - k + spare) && ArqProgress.RoundsOk(s, ca, cb, k, n)
    ensures var (a', b') := RoundsBytes(a, b, ca, cb, k, n);
      Ready(ArqProgress.Rounds(s, ca, cb, k, n), a', b', spare)
    decreases n - k
  {
    hide ArqProgress.Round, ArqProgress.CanRound, ArqProgress.Rounds, ArqProgress.RoundsOk, Twin, InStep, Nonce.Pow256,
      RoundBytes;
    if k < n {
      ArqProgress.FirstRoundOk(s, ca, cb, k, n);
      ArqProgress.RoundsStep(s, ca, cb, k, n);
      RoundOverBytes(s, a, b, ca(k), cb(k));
      var a1, b1 := RoundBytes(a, b, ca(k), cb(k)).0, RoundBytes(a, b, ca(k), cb(k)).1;
      RoundsOverBytes(ArqProgress.Round(s, ca(k), cb(k)), a1, b1, ca, cb, k + 1, n, spare);
    } else {
      ArqProgress.NoRounds(s, ca, cb, k);
    }
  }

  /**
   * Progress for two stations that take turns as the step loops do: after as many rounds with
   * expired timers as empty the sender's window, and ceil(q / (window * MAXPAY)) more for the q
   * bytes still queued by then, the sender has nothing left to send and the peer's application has
   * read every byte accepted.
   */
  lemma EverythingDeliveredOverBytes(s: ArqSystem.System, a: Station, b: Station,
                                     ca: nat -> nat -> u32, cb: nat -> nat -> u32, m: nat, n: nat)
    requires Ready(s, a, b, m + n) && ArqProgress.RoundsOk(s, ca, cb, 0, m) && m >= ArqProgress.RoundsToEmpty(a.link.tx)
    requires |ArqProgress.Rounds(s, ca, cb, 0, m).a.tx.queue| <= n * (a.link.tx.window * MAXPAY)
    ensures
      var y := ArqProgress.Rounds(s, ca, cb, 0, m);
      var z := ArqProgress.Rounds(y, ca, cb, m, m + n);
      var (a1, b1) := RoundsBytes(a, b, ca, cb, 0, m);
      var (a2, b2) := RoundsBytes(a1, b1, ca, cb, m, m + n);
      && a2.link == z.a && b2.link == z.b && a2.link.tx.win == [] && a2.link.tx.queue == []
      && z.ab.read == s.ab.stale + s.ab.accepted
  {
    hide ArqProgress.Rounds, ArqProgress.RoundsOk, ArqProgress.RoundsToEmpty, RoundsBytes, ArqSystem.Inv,
      ArqProgress.Tidy, InStep, Nonce.Pow256;
    var y := ArqProgress.Rounds(s, ca, cb, 0, m);
    ArqProgress.EverythingDelivered(s, y, ca, cb, m, n);
    RoundsOverBytes(s, a, b, ca, cb, 0, m, n);
    var a1, b1 := RoundsBytes(a, b, ca, cb, 0, m).0, RoundsBytes(a, b, ca, cb, 0, m).1;
    RoundsOverBytes(y, a1, b1, ca, cb, m, m + n, 0);
  }
}
