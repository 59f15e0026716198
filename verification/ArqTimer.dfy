/**
 * The retransmit timer over whole runs: when a frame goes out again. Sending it starts its timer,
 * in real milliseconds; until that has run out it is not sent again unless an ack that arrived
 * since shows it was skipped, and from then on every turn sends it.
 */
module ArqTimer {
  import opened Base
  import opened Arq
  import opened ArqSafety
  import opened ArqSystem
  import opened ArqTurn

  /** The 32-bit millisecond clock at time t. */
  function Clock(t: nat): u32 { t % 0x1_0000_0000 }

  /** The 32-bit difference of two readings is the time between them, up to 49 days. */
  lemma ElapsedIsTime(t0: nat, t: nat)
    requires t0 <= t < t0 + 0x1_0000_0000
    ensures Elapsed(Clock(t), Clock(t0)) == t - t0
  {
  }

  /** Frame n, counted from the start of the session, goes on the air. */
  ghost predicate Emits(s: System, e: Event, n: nat)
    requires |s.a.rx.slots| == MAXWIN
  {
    && e.atA && e.op.NextTxOp?
    && var out := NextTx(s.a, e.op.now).1;
       out.Some? && out.value.data && Labelled(s, e.op.now, out.value).absNum == n
  }

  /** Frame n is in the window, not acked. */
  ghost predicate InFlight(s: System, n: nat) {
    s.ab.base <= n < s.ab.base + |s.a.tx.win| && !s.a.tx.win[n - s.ab.base].acked
  }

  /** A frame behind frame n in the window has been acked. */
  ghost predicate SkippedNow(s: System, n: nat) {
    exists j :: 0 <= j < |s.a.tx.win| && n < s.ab.base + j && s.a.tx.win[j].acked
  }

  /** Somewhere in the run a frame is heard after which one behind frame n is acked. */
  ghost predicate Skipped(s: System, es: seq<Event>, n: nat)
    requires Run(s, es)
    decreases |es|
  {
    es != [] && (
      || (es[0].atA && es[0].op.RecvOp? && ForMe(s.a, es[0].op.p.frame) && SkippedNow(Do(s, es[0]), n))
      || Skipped(Do(s, es[0]), es[1..], n))
  }

  /** Nothing in the run sends frame n. */
  ghost predicate NotSent(s: System, es: seq<Event>, n: nat)
    requires Run(s, es)
    decreases |es|
  {
    es == [] || (!Emits(s, es[0], n) && NotSent(Do(s, es[0]), es[1..], n))
  }

  /** What the window holds about frame n: when it was last sent, and whether an ack has flagged it. */
  ghost predicate Stamped(s: System, n: nat, at: u32, flagged: bool) {
    InFlight(s, n) ==> StampIs(s.a.tx.win[n - s.ab.base], at, flagged)
  }

  /** Sending a frame stamps it. */
  lemma SendStamps(s: System, now: u32, n: nat)
    requires Inv(s) && Emits(s, Event(true, NextTxOp(now)), n)
    ensures Stamped(DoA(s, NextTxOp(now)), n, now, false)
  {
    FillIdle(s.a.tx);
    hide Fill, Framed, SackOf, MoreToSend;
  }

  /** A turn call that does not send frame n leaves its stamp. */
  lemma OtherSends(s: System, now: u32, n: nat, at: u32, flagged: bool)
    requires Inv(s) && !Emits(s, Event(true, NextTxOp(now)), n) && Stamped(s, n, at, flagged) && n < |s.ab.hist|
    ensures Stamped(DoA(s, NextTxOp(now)), n, at, flagged)
  {
    InWindow(s, n);
    FillIdle(s.a.tx);
    hide Fill, Framed, SackOf, MoreToSend, ArqSystem.Inv, StampIs, Eligible;
    assert InFlight(DoA(s, NextTxOp(now)), n) ==> InFlight(s, n);
  }

  lemma InWindow(s: System, n: nat)
    requires Inv(s)
    ensures s.ab.base + |s.a.tx.win| == |s.ab.hist|
    ensures |s.a.rx.slots| == |s.b.rx.slots| == MAXWIN
  {
  }

  ghost predicate StampIs(f: TxFrame, at: u32, flagged: bool) {
    f.everSent && f.sentAt == at && f.fastResend == flagged
  }

  ghost predicate AckedBehind(win: seq<TxFrame>, i: nat) { exists j :: 0 <= j < |win| && i < j && win[j].acked }

  /** An ack leaves the stamps of the window, and flags what it shows was skipped. */
  lemma AckStamps(t: TxHalf, ack: u8, sack: Sack, i: nat, at: u32, flagged: bool)
    requires i < |TxAck(t, ack, sack).win| && !TxAck(t, ack, sack).win[i].acked
    requires |t.win| == |TxAck(t, ack, sack).win| + Released(t, ack, sack)
    requires var f := t.win[Released(t, ack, sack) + i]; !f.acked ==> StampIs(f, at, flagged)
    ensures var z := TxAck(t, ack, sack); StampIs(z.win[i], at, flagged || AckedBehind(z.win, i))
  {
    hide SackHit, Cum;
    var m := MarkAcked(t, ack, sack);
    FlagsSkipped(m[Released(t, ack, sack)..], i, at, flagged);
  }

  lemma FlagsSkipped(w: seq<TxFrame>, i: nat, at: u32, flagged: bool)
    requires i < |w| && !w[i].acked && StampIs(w[i], at, flagged)
    ensures var z := FlagGaps(w); |z| == |w| && StampIs(z[i], at, flagged || AckedBehind(z, i))
  {
    var z := FlagGaps(w);
    if AckedAfter(w, i) {
      var j :| i < j < |w| && w[j].acked;
      assert z[j].acked;
    }
    if j :| 0 <= j < |z| && i < j && z[j].acked { assert w[j].acked; }
  }

  /** Hearing a frame flags frame n exactly if one behind it is then acked. */
  lemma HearingStamps(s: System, p: Packet, n: nat, at: u32, flagged: bool)
    requires Inv(s) && EnabledA(s, RecvOp(p)) && ForMe(s.a, p.frame) && Stamped(s, n, at, flagged)
    requires s.ab.base <= n < |s.ab.hist|
    ensures var z := DoA(s, RecvOp(p)); Stamped(z, n, at, flagged || SkippedNow(z, n))
  {
    hide DoA, ArqSystem.Inv, TxAck, Released, RxData, RxDataCount, MarkAcked, AckedBehind, SkippedNow, StampIs;
    RecvShape(s, p);
    InWindow(s, n);
    AckSlides(s.a.tx, p.frame.ack, p.frame.sack);
    var z := DoA(s, RecvOp(p));
    if InFlight(z, n) {
      var i := n - z.ab.base;
      AckStamps(s.a.tx, p.frame.ack, p.frame.sack, i, at, flagged);
      BehindIs(z, n, i);
    }
  }

  lemma BehindIs(z: System, n: nat, i: nat)
    requires n == z.ab.base + i
    ensures SkippedNow(z, n) <==> AckedBehind(z.a.tx.win, i)
  {
  }

  // ---- over a run ----

  /** Any step but sending frame n leaves its stamp, unless it shows that it was skipped. */
  lemma StepStamps(s: System, e: Event, n: nat, at: u32, flagged: bool)
    requires Inv(s) && Enabled(s, e) && |s.a.rx.slots| == |s.b.rx.slots| == MAXWIN
    requires !Emits(s, e, n) && Stamped(s, n, at, flagged) && s.ab.base <= n < |s.ab.hist|
    ensures var z := Do(s, e);
      Stamped(z, n, at, flagged || (e.atA && e.op.RecvOp? && ForMe(s.a, e.op.p.frame) && SkippedNow(z, n)))
  {
    hide ArqSystem.Inv, StampIs, SkippedNow, Labelled;
    if e.atA && e.op.NextTxOp? {
      OtherSends(s, e.op.now, n, at, flagged);
    } else if e.atA && e.op.RecvOp? && ForMe(s.a, e.op.p.frame) {
      HearingStamps(s, e.op.p, n, at, flagged);
    } else {
      QuietStamps(s, e, n, at, flagged);
    }
  }

  /** Every other step leaves the stamps alone. */
  lemma QuietStamps(s: System, e: Event, n: nat, at: u32, flagged: bool)
    requires |s.a.rx.slots| == |s.b.rx.slots| == MAXWIN && Stamped(s, n, at, flagged)
    requires !(e.atA && (e.op.NextTxOp? || (e.op.RecvOp? && ForMe(s.a, e.op.p.frame))))
    ensures Stamped(Do(s, e), n, at, flagged)
  {
    hide StampIs;
    if e.atA {
      QuietHere(s, e.op);
      BeginStamps(s.a.tx);
    } else {
      OtherEnd(Swap(s), e.op);
    }
    hide DoA, TxBeginTurn;
  }

  /** What such a step at this end does to its window: nothing, but that a turn may begin. */
  lemma QuietHere(s: System, op: Op)
    requires |s.a.rx.slots| == |s.b.rx.slots| == MAXWIN && !op.NextTxOp? && !(op.RecvOp? && ForMe(s.a, op.p.frame))
    ensures var z := DoA(s, op);
      z.ab.base == s.ab.base && z.a.tx.win == if op.BeginTurnOp? then TxBeginTurn(s.a.tx).win else s.a.tx.win
  {
    hide NextTx, OnRx, Released, RxDataCount, Framed, Labelled, Drain, DrainCount, SackOf, TxBeginTurn;
  }

  lemma OtherEnd(s: System, op: Op)
    requires |s.a.rx.slots| == |s.b.rx.slots| == MAXWIN
    ensures var z := DoA(s, op); z.b == s.b && z.ba.base == s.ba.base
  {
    hide NextTx, OnRx, Released, RxDataCount, Framed, Labelled, Drain, DrainCount, SackOf, TxBeginTurn;
  }

  lemma BeginStamps(t: TxHalf)
    ensures var z := TxBeginTurn(t);
      && |z.win| == |t.win|
      && (forall i, at, flagged {:trigger StampIs(z.win[i], at, flagged)} :: 0 <= i < |t.win| ==>
            z.win[i].acked == t.win[i].acked && (StampIs(t.win[i], at, flagged) ==> StampIs(z.win[i], at, flagged)))
  {
  }

  lemma StepGrows(s: System, e: Event)
    requires Inv(s) && Enabled(s, e) && |s.a.rx.slots| == |s.b.rx.slots| == MAXWIN
    ensures s.ab.base <= Do(s, e).ab.base && |s.ab.hist| <= |Do(s, e).ab.hist|
  {
    hide ArqSystem.Inv, Framed, Released, Labelled, RxDataCount, OnRx, NextTx;
  }

  /** Frames are framed and released for good. */
  lemma {:induction false} RunGrows(s: System, es: seq<Event>)
    requires Inv(s) && Run(s, es)
    ensures s.ab.base <= After(s, es).ab.base && |s.ab.hist| <= |After(s, es).ab.hist|
    decreases |es|
  {
    if es != [] {
      StepKeeps(s, es[0]);
      StepGrows(s, es[0]);
      hide ArqSystem.Inv, Do, Enabled;
      RunGrows(Do(s, es[0]), es[1..]);
    }
  }

  /** At the end of a run that does not send frame n again, if it is still in flight, its stamp tells what happened. */
  lemma {:induction false} RunStamps(s: System, es: seq<Event>, n: nat, at: u32, flagged: bool)
    requires Inv(s) && Run(s, es) && NotSent(s, es, n) && Stamped(s, n, at, flagged) && n < |s.ab.hist|
    requires InFlight(After(s, es), n)
    ensures Stamped(After(s, es), n, at, flagged || Skipped(s, es, n))
    ensures s.ab.base <= n
    decreases |es|
  {
    if es != [] {
      var z := Do(s, es[0]);
      StepKeeps(s, es[0]);
      StepGrows(s, es[0]);
      RunGrows(s, es);
      StepStamps(s, es[0], n, at, flagged);
      var now := es[0].atA && es[0].op.RecvOp? && ForMe(s.a, es[0].op.p.frame) && SkippedNow(z, n);
      hide ArqSystem.Inv, Do, Enabled, StampIs, SkippedNow, InFlight, Emits;
      RunStamps(z, es[1..], n, at, flagged || now);
    }
  }

  // ---- the next turn ----

  /** A call at a reading at which a frame may not be sent sends another, and leaves it as it is. */
  lemma NotDueStep(l: Link, now: u32, i: nat)
    requires |l.rx.slots| == MAXWIN && TxValid(l.tx) && Fill(l.tx) == l.tx && i < |l.tx.win|
    requires !Eligible(l.tx.win[i], now, l.tx.retransmitMs) && NextTx(l, now).1.Some?
    ensures var (z, o) := NextTx(l, now);
      && |z.rx.slots| == MAXWIN && TxValid(z.tx) && Fill(z.tx) == z.tx && z.tx.retransmitMs == l.tx.retransmitMs
      && i < |z.tx.win| && z.tx.win[i] == l.tx.win[i]
      && (o.value.data ==> o.value.num != l.tx.win[i].num)
  {
    NextTxValid(l, now);
    NextTxData(l, now);
    var p := Pick(l.tx.win, 0, now, l.tx.retransmitMs);
    hide NextTx, Fill, TxValid;
    if p < |l.tx.win| && l.tx.win[p].num == l.tx.win[i].num { ValidDistinct(l.tx, p, i); }
  }

  lemma ValidDistinct(t: TxHalf, p: nat, i: nat)
    requires TxValid(t) && p < |t.win| && i < |t.win| && t.win[p].num == t.win[i].num
    ensures p == i
  {
    DistinctNums(t.win, t.base, p, i);
  }

  /** A frame that may not be sent at any reading is not sent in this turn. */
  lemma {:induction false} NotDueNotEmitted(l: Link, clock: nat -> u32, k: nat, i: nat)
    requires |l.rx.slots| == MAXWIN && TxValid(l.tx) && Fill(l.tx) == l.tx && i < |l.tx.win|
    requires forall m: nat {:trigger clock(m)} :: !Eligible(l.tx.win[i], clock(m), l.tx.retransmitMs)
    ensures !Emitted(SendTurn(l, clock, k).1, l.tx.win[i])
    decreases |l.tx.queue|, Unsent(l.tx.win), if l.ackSentTurn then 0 else 1
  {
    hide NextTx, Fill, TxValid, Eligible;
    var z, o := NextTx(l, clock(k)).0, NextTx(l, clock(k)).1;
    if o.Some? {
      NextTxDecreases(l, clock(k));
      NotDueStep(l, clock(k), i);
      NotDueNotEmitted(z, clock, k + 1, i);
      NotFirstNotRest(o.value, SendTurn(z, clock, k + 1).1, l.tx.win[i]);
    }
  }

  lemma NotFirstNotRest(first: Frame, rest: seq<Frame>, f: TxFrame)
    requires (first.data ==> first.num != f.num) && !Emitted(rest, f)
    ensures !Emitted([first] + rest, f)
  {
    var out := [first] + rest;
    forall j | 0 <= j < |out| ensures !(out[j].data && out[j].num == f.num && out[j].payload == f.raw) {
      assert j > 0 ==> out[j] == rest[j - 1];
    }
  }

  /** A frame of the window before a turn, in the whole turn. */
  lemma TurnEmits(l: Link, clock: nat -> u32, i: nat)
    requires |l.rx.slots| == MAXWIN && TxValid(l.tx) && i < |l.tx.win|
    ensures var f := l.tx.win[i].(txThisTurn := false);
      && ((forall m: nat {:trigger clock(m)} :: Eligible(f, clock(m), l.tx.retransmitMs)) ==>
            Emitted(Turn(l, clock).1, l.tx.win[i]))
      && ((forall m: nat {:trigger clock(m)} :: !Eligible(f, clock(m), l.tx.retransmitMs)) ==>
            !Emitted(Turn(l, clock).1, l.tx.win[i]))
  {
    var b := BeginTurn(l);
    var z := b.(tx := Fill(b.tx));
    BeginValid(l.tx);
    FillValid(b.tx);
    FillIdle(b.tx);
    FillTwice(b.tx);
    FilledTurn(b, clock, 0);
    var f := l.tx.win[i].(txThisTurn := false);
    assert z.tx.win[i] == b.tx.win[i] == f;
    hide Fill, TxBeginTurn, TxValid, Eligible, SendTurn;
    if forall m: nat {:trigger clock(m)} :: Eligible(f, clock(m), l.tx.retransmitMs) { DueEmitted(z, clock, 0, i); }
    if forall m: nat {:trigger clock(m)} :: !Eligible(f, clock(m), l.tx.retransmitMs) {
      NotDueNotEmitted(z, clock, 0, i);
    }
    SameEmitted(Turn(l, clock).1, l.tx.win[i], f);
  }

  lemma SameEmitted(out: seq<Frame>, f: TxFrame, g: TxFrame)
    requires f.num == g.num && f.raw == g.raw
    ensures Emitted(out, f) <==> Emitted(out, g)
  {
  }

  /** The readings of a turn begun at time t, each some time later. */
  function Readings(t: nat -> nat): nat -> u32 { k => Clock(t(k)) }

  /**
   * When a frame is sent again. Frame n is sent at time t0; whatever happens then, as long as it is
   * not sent again and stays unacked: a turn whose every reading is before its timer runs out sends
   * it if and only if an ack has shown meanwhile that it was skipped, and a turn whose every reading
   * is after that, within the clock's 49 days, sends it in any case.
   */
  lemma ResentWhen(s: System, t0: nat, n: nat, es: seq<Event>, t: nat -> nat)
    requires Inv(s) && Emits(s, Event(true, NextTxOp(Clock(t0))), n)
    requires Run(DoA(s, NextTxOp(Clock(t0))), es) && NotSent(DoA(s, NextTxOp(Clock(t0))), es, n)
    requires InFlight(After(DoA(s, NextTxOp(Clock(t0))), es), n)
    requires forall k: nat :: t0 <= t(k) < t0 + 0x1_0000_0000
    ensures
      var s1 := DoA(s, NextTxOp(Clock(t0)));
      var z := After(s1, es);
      |z.a.rx.slots| == MAXWIN && z.ab.base <= n < z.ab.base + |z.a.tx.win|
    ensures
      var s1 := DoA(s, NextTxOp(Clock(t0)));
      var z := After(s1, es);
      var again := Emitted(Turn(z.a, Readings(t)).1, z.a.tx.win[n - z.ab.base]);
      && ((forall k: nat :: t(k) < t0 + z.a.tx.retransmitMs) ==> (again <==> Skipped(s1, es, n)))
      && ((forall k: nat :: t(k) >= t0 + z.a.tx.retransmitMs) ==> again)
  {
    var s1 := DoA(s, NextTxOp(Clock(t0)));
    var z := After(s1, es);
    StepKeepsA(s, NextTxOp(Clock(t0)));
    SendStamps(s, Clock(t0), n);
    EmittedFramed(s, Clock(t0), n);
    RunKeeps(s1, es);
    RunStamps(s1, es, n, Clock(t0), false);
    InWindow(z, n);
    ValidWindow(z);
    hide Run, After, DoA, ArqSystem.Inv, Skipped, NotSent, TxValid, Turn;
    var i := n - z.ab.base;
    TurnEmits(z.a, Readings(t), i);
    StampedDue(z.a.tx.win[i], z.a.tx.retransmitMs, t0, t, Skipped(s1, es, n));
  }

  lemma ValidWindow(z: System)
    requires Inv(z)
    ensures TxValid(z.a.tx)
  {
  }

  /** What is sent has been framed. */
  lemma EmittedFramed(s: System, now: u32, n: nat)
    requires Inv(s) && Emits(s, Event(true, NextTxOp(now)), n)
    ensures n < |DoA(s, NextTxOp(now)).ab.hist|
  {
    LabelTrue(s, now);
  }

  /** Which readings a stamped frame may be sent at. */
  lemma StampedDue(f: TxFrame, ms: u32, t0: nat, t: nat -> nat, flagged: bool)
    requires !f.acked && StampIs(f, Clock(t0), flagged) && forall k: nat :: t0 <= t(k) < t0 + 0x1_0000_0000
    ensures var g, clock := f.(txThisTurn := false), Readings(t);
      && (flagged || (forall k: nat :: t(k) >= t0 + ms) ==>
            forall k: nat {:trigger clock(k)} :: Eligible(g, clock(k), ms))
      && (!flagged && (forall k: nat :: t(k) < t0 + ms) ==>
            forall k: nat {:trigger clock(k)} :: !Eligible(g, clock(k), ms))
  {
    forall k: nat ensures Elapsed(Readings(t)(k), f.sentAt) == t(k) - t0 { ElapsedIsTime(t0, t(k)); }
    hide Elapsed, Clock;
  }

  /** Nor does any single call before that, however the readings of its turn lie. */
  lemma NotSentEarly(s: System, t0: nat, n: nat, es: seq<Event>, t: nat)
    requires Inv(s) && Emits(s, Event(true, NextTxOp(Clock(t0))), n)
    requires Run(DoA(s, NextTxOp(Clock(t0))), es) && NotSent(DoA(s, NextTxOp(Clock(t0))), es, n)
    requires !Skipped(DoA(s, NextTxOp(Clock(t0))), es, n)
    requires var z := After(DoA(s, NextTxOp(Clock(t0))), es); t0 <= t < t0 + z.a.tx.retransmitMs
    ensures
      var z := After(DoA(s, NextTxOp(Clock(t0))), es);
      |z.a.rx.slots| == MAXWIN && !Emits(z, Event(true, NextTxOp(Clock(t))), n)
  {
    var s1 := DoA(s, NextTxOp(Clock(t0)));
    var z := After(s1, es);
    StepKeepsA(s, NextTxOp(Clock(t0)));
    SendStamps(s, Clock(t0), n);
    EmittedFramed(s, Clock(t0), n);
    RunKeeps(s1, es);
    RunGrows(s1, es);
    InWindow(z, n);
    hide Run, After, DoA, ArqSystem.Inv, Skipped, NotSent, StampIs;
    if Emits(z, Event(true, NextTxOp(Clock(t))), n) {
      EmitsInFlight(z, Clock(t), n);
      RunStamps(s1, es, n, Clock(t0), false);
      ElapsedIsTime(t0, t);
      NotYetDue(z, Clock(t), n, Clock(t0));
    }
  }

  /** What a call sends, if it was framed before, is in the window and not acked. */
  lemma EmitsInFlight(z: System, now: u32, n: nat)
    requires |z.a.rx.slots| == MAXWIN && Emits(z, Event(true, NextTxOp(now)), n) && n < z.ab.base + |z.a.tx.win|
    ensures InFlight(z, n)
  {
    FillIdle(z.a.tx);
    hide Fill, SackOf, MoreToSend;
  }

  lemma NotYetDue(z: System, now: u32, n: nat, at: u32)
    requires |z.a.rx.slots| == MAXWIN && InFlight(z, n) && Stamped(z, n, at, false)
    requires Elapsed(now, at) < z.a.tx.retransmitMs
    ensures !Emits(z, Event(true, NextTxOp(now)), n)
  {
    FillIdle(z.a.tx);
    hide Fill, SackOf, MoreToSend, Elapsed;
  }

  // ---- which timer, which window ----

  datatype Timing = Timing(window: nat, ms: u32)

  /** The settings last made at end a in a run, starting from those before it. A window is 1 to 16 frames. */
  function LastTiming(es: seq<Event>, before: Timing): Timing
    decreases |es|
  {
    if es == [] then before
    else
      var e := es[0];
      var w := if e.op.SetTimingOp? then (if e.op.window == 0 then 1 else Min(e.op.window, 16)) else 0;
      LastTiming(es[1..], if e.atA && e.op.SetTimingOp? then Timing(w, e.op.retransmitMs) else before)
  }

  function TimingOf(s: System): Timing { Timing(s.a.tx.window, s.a.tx.retransmitMs) }

  /** The timer and the window in force are those last set, whatever else has happened since. */
  lemma {:induction false} TimingIsLastSet(s: System, es: seq<Event>)
    requires Run(s, es)
    ensures TimingOf(After(s, es)) == LastTiming(es, TimingOf(s))
    decreases |es|
  {
    if es != [] {
      TimingStep(s, es[0]);
      hide Do, Enabled;
      TimingIsLastSet(Do(s, es[0]), es[1..]);
    }
  }

  lemma TimingStep(s: System, e: Event)
    requires |s.a.rx.slots| == |s.b.rx.slots| == MAXWIN
    ensures TimingOf(Do(s, e)) == LastTiming([e], TimingOf(s))
  {
    hide NextTx, OnRx, Released, RxDataCount, Framed, Labelled, Drain, DrainCount, SackOf, Fill;
    assert [e][1..] == [];
    if e.atA {
      match e.op
      case NextTxOp(now) => FillIdle(s.a.tx); ArqSystem.NextTxShape(s.a, now);
      case RecvOp(p) => HearingKeepsTiming(s.a, p.frame);
      case _ =>
    }
  }

  lemma HearingKeepsTiming(l: Link, f: Frame)
    requires |l.rx.slots| == MAXWIN
    ensures OnRx(l, f).tx.window == l.tx.window && OnRx(l, f).tx.retransmitMs == l.tx.retransmitMs
  {
    hide RxData, CanDeliver, Store, MarkAcked, FlagGaps;
  }
}
