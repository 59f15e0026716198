/**
 * Turn discipline of the send half: what one transmit turn emits, whatever the clock does while
 * it runs.
 */
module ArqTurn {
  import opened Base
  import opened Arq
  import opened ArqSafety

  /** Window positions not yet sent this turn. */
  ghost function Unsent(win: seq<TxFrame>): set<nat> {
    set i | 0 <= i < |win| && !win[i].txThisTurn
  }

  /** A fill that moves no bytes changes nothing. */
  lemma {:induction false} FillIdle(t: TxHalf)
    ensures |Fill(t).queue| <= |t.queue|
    ensures |Fill(t).queue| == |t.queue| ==> Fill(t) == t
    ensures t.win <= Fill(t).win
    ensures Fill(t).retransmitMs == t.retransmitMs && Fill(t).window == t.window && Fill(t).base == t.base
    ensures |Fill(t).win| < t.window ==> Fill(t).queue == []
    decreases |t.queue|
  {
    if |t.win| < t.window && |t.queue| > 0 { FillIdle(FillOne(t)); }
  }

  lemma {:induction false} FillTwice(t: TxHalf)
    ensures Fill(Fill(t)) == Fill(t)
    decreases |t.queue|
  {
    if |t.win| < t.window && |t.queue| > 0 { FillTwice(FillOne(t)); }
  }

  /** Every frame a turn emits uses up queued bytes, a window position, or the one lone ack. */
  lemma NextTxDecreases(l: Link, now: u32)
    requires |l.rx.slots| == MAXWIN && NextTx(l, now).1.Some?
    ensures
      var l' := NextTx(l, now).0;
      || |l'.tx.queue| < |l.tx.queue|
      || (|l'.tx.queue| == |l.tx.queue| && Unsent(l'.tx.win) < Unsent(l.tx.win))
      || (|l'.tx.queue| == |l.tx.queue| && Unsent(l'.tx.win) == Unsent(l.tx.win) && !l.ackSentTurn && l'.ackSentTurn)
    ensures NextTx(l, now).0.rx == l.rx
  {
    FillIdle(l.tx);
    var t := Fill(l.tx);
    var p := Pick(t.win, 0, now, t.retransmitMs);
    if p < |t.win| && |t.queue| == |l.tx.queue| {
      assert p in Unsent(t.win);
      assert p !in Unsent(NextTx(l, now).0.tx.win);
    }
  }

  /** All frames of a turn from its k-th call on, reading the clock at each call. */
  ghost function SendTurn(l: Link, clock: nat -> u32, k: nat): (Link, seq<Frame>)
    requires |l.rx.slots| == MAXWIN
    decreases |l.tx.queue|, Unsent(l.tx.win), if l.ackSentTurn then 0 else 1
  {
    var (l', out) := NextTx(l, clock(k));
    if out.None? then (l', [])
    else
      NextTxDecreases(l, clock(k));
      var (z, rest) := SendTurn(l', clock, k + 1);
      (z, [out.value] + rest)
  }

  /** One whole transmit turn. */
  ghost function Turn(l: Link, clock: nat -> u32): (Link, seq<Frame>)
    requires |l.rx.slots| == MAXWIN
  {
    SendTurn(BeginTurn(l), clock, 0)
  }

  // ---- at most once ----

  /** A data frame of this turn comes from a window position not sent before in this turn. */
  ghost predicate FromUnsent(win: seq<TxFrame>, f: Frame) {
    exists i :: 0 <= i < |win| && !win[i].txThisTurn && win[i].num == f.num && win[i].raw == f.payload
  }

  lemma DistinctNums(win: seq<TxFrame>, base: u8, i: nat, j: nat)
    requires Consecutive(win, base) && |win| <= MAXWIN && i < |win| && j < |win| && win[i].num == win[j].num
    ensures i == j
  {
  }

  lemma {:induction false} FillValid(t: TxHalf)
    requires TxValid(t)
    ensures TxValid(Fill(t))
    decreases |t.queue|
  {
    if |t.win| < t.window && |t.queue| > 0 {
      FillOneValid(t);
      FillValid(FillOne(t));
    }
  }

  lemma FillOneValid(t: TxHalf)
    requires TxValid(t) && |t.win| < MAXWIN && t.queue != []
    ensures TxValid(FillOne(t))
  {
    WrapSum(t.base + |t.win|, 1);
  }

  lemma NextTxValid(l: Link, now: u32)
    requires |l.rx.slots| == MAXWIN && TxValid(l.tx) && Fill(l.tx) == l.tx
    ensures TxValid(NextTx(l, now).0.tx)
    ensures Fill(NextTx(l, now).0.tx) == NextTx(l, now).0.tx
  {
    hide MakeFrame, Poll, MoreToSend, Eligible;
    FillIdle(l.tx);
    var t' := NextTx(l, now).0.tx;
    assert |t'.win| < t'.window ==> t'.queue == [];
  }

  /** One call of a turn: it sends exactly the picked position, which it marks. */
  lemma NextTxData(l: Link, now: u32)
    requires |l.rx.slots| == MAXWIN && Fill(l.tx) == l.tx
    requires NextTx(l, now).1.Some?
    ensures
      var (l', o) := NextTx(l, now);
      var p := Pick(l.tx.win, 0, now, l.tx.retransmitMs);
      if o.value.data then
        && p < |l.tx.win| && !l.tx.win[p].txThisTurn
        && l'.tx == l.tx.(win := l.tx.win[p := Sent(l.tx.win[p], now)])
        && o.value.num == l.tx.win[p].num && o.value.payload == l.tx.win[p].raw
      else
        p == |l.tx.win| && l'.tx == l.tx && l'.ackSentTurn && !l'.ackPending && l.ackPending && !l.ackSentTurn
    ensures NextTx(l, now).0.rx == l.rx
    ensures NextTx(l, now).1.value.data ==> !NextTx(l, now).0.ackPending
  {
  }

  ghost predicate AllFromUnsent(win: seq<TxFrame>, out: seq<Frame>) {
    forall f :: f in out && f.data ==> FromUnsent(win, f)
  }

  ghost predicate NoRepeats(out: seq<Frame>) {
    forall i, j :: 0 <= i < j < |out| && out[i].data && out[j].data ==> out[i].num != out[j].num
  }

  /** Each data frame of a turn is a window frame not yet sent in it, and no number repeats. */
  lemma {:induction false} EachAtMostOnce(l: Link, clock: nat -> u32, k: nat)
    requires |l.rx.slots| == MAXWIN && TxValid(l.tx) && Fill(l.tx) == l.tx
    ensures AllFromUnsent(l.tx.win, SendTurn(l, clock, k).1)
    ensures NoRepeats(SendTurn(l, clock, k).1)
    decreases |l.tx.queue|, Unsent(l.tx.win), if l.ackSentTurn then 0 else 1
  {
    var (l', o) := NextTx(l, clock(k));
    if o.Some? {
      NextTxDecreases(l, clock(k));
      NextTxValid(l, clock(k));
      NextTxData(l, clock(k));
      EachAtMostOnce(l', clock, k + 1);
      OneMoreFrame(l.tx, l'.tx, Pick(l.tx.win, 0, clock(k), l.tx.retransmitMs), clock(k), o.value,
        SendTurn(l', clock, k + 1).1);
    }
  }

  lemma OneMoreFrame(t: TxHalf, t': TxHalf, p: nat, now: u32, first: Frame, rest: seq<Frame>)
    requires TxValid(t) && AllFromUnsent(t'.win, rest) && NoRepeats(rest)
    requires first.data ==> p < |t.win| && !t.win[p].txThisTurn && t'.win == t.win[p := Sent(t.win[p], now)]
    requires first.data ==> first.num == t.win[p].num && first.payload == t.win[p].raw
    requires !first.data ==> t'.win == t.win
    ensures AllFromUnsent(t.win, [first] + rest) && NoRepeats([first] + rest)
  {
    forall f | f in rest && f.data
      ensures FromUnsent(t.win, f) && (first.data ==> f.num != first.num)
    {
      LaterFrameDiffers(t, t', p, now, first, f);
    }
    if first.data { assert FromUnsent(t.win, first); }
  }

  lemma LaterFrameDiffers(t: TxHalf, t': TxHalf, p: nat, now: u32, first: Frame, later: Frame)
    requires TxValid(t) && later.data && FromUnsent(t'.win, later)
    requires first.data ==> p < |t.win| && t'.win == t.win[p := Sent(t.win[p], now)] && first.num == t.win[p].num
    requires !first.data ==> t'.win == t.win
    ensures FromUnsent(t.win, later)
    ensures first.data ==> later.num != first.num
  {
    var i :| 0 <= i < |t'.win| && !t'.win[i].txThisTurn && t'.win[i].num == later.num && t'.win[i].raw == later.payload;
    assert t.win[i].num == later.num;
    if first.data && later.num == first.num { DistinctNums(t.win, t.base, i, p); }
  }

  // ---- how many ----

  lemma {:induction false} UnsentBound(win: seq<TxFrame>)
    ensures |Unsent(win)| <= |win|
  {
    if win == [] {
      assert Unsent(win) == {};
    } else {
      var n := |win| - 1;
      var u := Unsent(win[..n]);
      UnsentBound(win[..n]);
      assert Unsent(win) <= u + {n};
      assert n !in u;
      SubsetSize(Unsent(win), u + {n});
    }
  }

  lemma SubsetSize(a: set<nat>, b: set<nat>)
    requires a <= b
    ensures |a| <= |b|
  {
    assert b == a + (b - a);
  }

  /** A turn sends each window position at most once, plus at most one lone ack. */
  lemma {:induction false} TurnLength(l: Link, clock: nat -> u32, k: nat)
    requires |l.rx.slots| == MAXWIN && Fill(l.tx) == l.tx
    ensures |SendTurn(l, clock, k).1| <= |Unsent(l.tx.win)| + (if !l.ackSentTurn && l.ackPending then 1 else 0)
    decreases |l.tx.queue|, Unsent(l.tx.win), if l.ackSentTurn then 0 else 1
  {
    var (l', o) := NextTx(l, clock(k));
    if o.Some? {
      NextTxDecreases(l, clock(k));
      NextTxData(l, clock(k));
      NextTxFilled(l, clock(k));
      var p := Pick(l.tx.win, 0, clock(k), l.tx.retransmitMs);
      if o.value.data {
        assert Unsent(l'.tx.win) == Unsent(l.tx.win) - {p};
        assert p in Unsent(l.tx.win);
      }
      TurnLength(l', clock, k + 1);
    }
  }

  lemma NextTxFilled(l: Link, now: u32)
    requires |l.rx.slots| == MAXWIN && Fill(l.tx) == l.tx
    ensures Fill(NextTx(l, now).0.tx) == NextTx(l, now).0.tx
  {
    FillIdle(l.tx);
  }

  /**
   * With the clock read once (the initiator's loop) a turn that owes an ack either piggybacks it
   * or sends it alone and nothing else.
   */
  lemma SteadyClockLength(l: Link, clock: nat -> u32)
    requires |l.rx.slots| == MAXWIN && Fill(l.tx) == l.tx && |l.tx.win| <= MAXWIN
    requires clock(0) == clock(1)
    ensures |SendTurn(l, clock, 0).1| <= MAXWIN
  {
    UnsentBound(l.tx.win);
    var (l', o) := NextTx(l, clock(0));
    if o.Some? {
      NextTxDecreases(l, clock(0));
      NextTxData(l, clock(0));
      NextTxFilled(l, clock(0));
      if o.value.data {
        var p := Pick(l.tx.win, 0, clock(0), l.tx.retransmitMs);
        assert Unsent(l'.tx.win) == Unsent(l.tx.win) - {p};
        assert p in Unsent(l.tx.win);
        TurnLength(l', clock, 1);
      } else {
        assert NextTx(l', clock(1)).1.None?;
      }
    }
  }

  /** A whole turn puts at most MAXWIN data frames on the air, and at most one frame more. */
  lemma TurnAtMostWindow(l: Link, clock: nat -> u32)
    requires |l.rx.slots| == MAXWIN && TxValid(l.tx)
    ensures |Turn(l, clock).1| <= MAXWIN + 1
    ensures clock(0) == clock(1) ==> |Turn(l, clock).1| <= MAXWIN
  {
    var b := BeginTurn(l);
    BeginValid(l.tx);
    FilledTurn(b, clock, 0);
    FillValid(b.tx);
    FillTwice(b.tx);
    UnsentBound(Fill(b.tx).win);
    TurnLength(b.(tx := Fill(b.tx)), clock, 0);
    if clock(0) == clock(1) { SteadyClockLength(b.(tx := Fill(b.tx)), clock); }
  }

  lemma BeginValid(t: TxHalf)
    requires TxValid(t)
    ensures TxValid(TxBeginTurn(t))
  {
  }

  /** The first call of a turn does all the framing of that turn. */
  lemma FilledTurn(l: Link, clock: nat -> u32, k: nat)
    requires |l.rx.slots| == MAXWIN
    ensures SendTurn(l, clock, k) == SendTurn(l.(tx := Fill(l.tx)), clock, k)
  {
    FillTwice(l.tx);
    FillIdle(l.tx);
    assert NextTx(l, clock(k)) == NextTx(l.(tx := Fill(l.tx)), clock(k));
  }

  // ---- gaps ----

  ghost predicate Emitted(out: seq<Frame>, f: TxFrame) {
    exists i :: 0 <= i < |out| && out[i].data && out[i].num == f.num && out[i].payload == f.raw
  }

  /** An unacked window frame that may be sent at every reading of the clock goes out in this turn. */
  lemma {:induction false} DueEmitted(l: Link, clock: nat -> u32, k: nat, i: nat)
    requires |l.rx.slots| == MAXWIN && i < |l.tx.win|
    requires forall m: nat {:trigger clock(m)} :: Eligible(l.tx.win[i], clock(m), l.tx.retransmitMs)
    ensures Emitted(SendTurn(l, clock, k).1, l.tx.win[i])
    decreases |l.tx.queue|, Unsent(l.tx.win), if l.ackSentTurn then 0 else 1
  {
    var (l', o) := NextTx(l, clock(k));
    FillIdle(l.tx);
    var w := Fill(l.tx).win;
    assert w[i] == l.tx.win[i];
    assert Eligible(w[i], clock(k), l.tx.retransmitMs);
    var p := Pick(w, 0, clock(k), l.tx.retransmitMs);
    assert p <= i;
    NextTxDecreases(l, clock(k));
    var out := SendTurn(l, clock, k).1;
    if p == i {
      assert out[0].data && out[0].num == w[i].num && out[0].payload == w[i].raw;
    } else {
      DueEmitted(l', clock, k + 1, i);
      var rest := SendTurn(l', clock, k + 1).1;
      var j :| 0 <= j < |rest| && rest[j].data && rest[j].num == w[i].num && rest[j].payload == w[i].raw;
      assert out[j + 1] == rest[j];
    }
  }

  /** A new or flagged frame that is not acked goes out in this turn, whatever the timer says. */
  lemma UrgentEmitted(l: Link, clock: nat -> u32, k: nat, i: nat)
    requires |l.rx.slots| == MAXWIN && i < |l.tx.win|
    requires var f := l.tx.win[i]; !f.acked && !f.txThisTurn && (!f.everSent || f.fastResend)
    ensures Emitted(SendTurn(l, clock, k).1, l.tx.win[i])
  {
    DueEmitted(l, clock, k, i);
  }

  /**
   * A sent frame that an ack shows was skipped (a later frame of the window is acked) is resent in
   * the very next turn, whatever the retransmit timer and the clock.
   */
  lemma GapResentNextTurn(l: Link, f: Frame, i: nat, j: nat, clock: nat -> u32)
    requires |l.rx.slots| == MAXWIN
    requires i < j < |Accept(l, f).tx.win|
    requires var w := Accept(l, f).tx.win; !w[i].acked && w[i].everSent && w[j].acked
    ensures |Accept(l, f).rx.slots| == MAXWIN
    ensures Emitted(Turn(Accept(l, f), clock).1, Accept(l, f).tx.win[i])
  {
    RxDataSlots(l.rx, f.num, f.payload);
    var z := Accept(l, f);
    var m := MarkAcked(l.tx, f.ack, f.sack);
    var n := LeadingAcked(m);
    assert z.tx.win == FlagGaps(m[n..]);
    assert m[n..][j].acked;
    assert z.tx.win[i].fastResend;
    UrgentEmitted(BeginTurn(z), clock, 0, i);
  }

  lemma {:induction false} DrainSlots(r: RxHalf)
    requires |r.slots| == MAXWIN
    ensures |Drain(r).slots| == MAXWIN && Drain(r).cap == r.cap
    ensures !CanDeliver(Drain(r))
    ensures |r.queue| <= r.cap ==> |Drain(r).queue| <= r.cap
    decreases HeldSlots(r.slots)
  {
    if CanDeliver(r) { DrainSlots(Deliver(r)); }
  }

  lemma RxDataSlots(r: RxHalf, num: u8, payload: Bytes)
    requires |r.slots| == MAXWIN
    ensures |RxData(r, num, payload).slots| == MAXWIN && RxData(r, num, payload).cap == r.cap
    ensures !CanDeliver(r) ==> !CanDeliver(RxData(r, num, payload))
  {
    DrainSlots(Store(r, num, payload));
  }

  /** F_MORE promises a data frame: the next call of the same turn yields one at any time. */
  lemma MoreMeansMore(l: Link, now: u32, later: u32)
    requires |l.rx.slots| == MAXWIN
    requires NextTx(l, now).1.Some? && NextTx(l, now).1.value.more
    ensures NextTx(NextTx(l, now).0, later).1.Some?
    ensures NextTx(NextTx(l, now).0, later).1.value.data
  {
    var l' := NextTx(l, now).0;
    FillIdle(l.tx);
    FillIdle(l'.tx);
    var p := Pick(Fill(l.tx).win, 0, now, l.tx.retransmitMs);
    var i :| 0 <= i < |l'.tx.win| && i != p && !l'.tx.win[i].acked && !l'.tx.win[i].txThisTurn
      && !l'.tx.win[i].everSent;
    assert Eligible(Fill(l'.tx).win[i], later, l'.tx.retransmitMs);
  }

  /**
   * F_MORE clear is not a promise: another data frame follows exactly when a frame sent before is
   * due again.
   */
  lemma LastUnlessResend(l: Link, now: u32, later: u32)
    requires |l.rx.slots| == MAXWIN && NextTx(l, now).1.Some?
    requires NextTx(l, now).1.value.data && !NextTx(l, now).1.value.more
    ensures
      var l' := NextTx(l, now).0;
      var o := NextTx(l', later).1;
      o.Some? && o.value.data <==>
        exists i :: 0 <= i < |l'.tx.win| && l'.tx.win[i].everSent && Eligible(l'.tx.win[i], later, l'.tx.retransmitMs)
  {
    var l' := NextTx(l, now).0;
    FillIdle(l.tx);
    FillTwice(l.tx);
    assert NextTx(l.(tx := Fill(l.tx)), now) == NextTx(l, now);
    NextTxFilled(l.(tx := Fill(l.tx)), now);
    var w := l'.tx.win;
    var p := Pick(w, 0, later, l'.tx.retransmitMs);
    assert forall i :: 0 <= i < |w| && !w[i].everSent ==> !Eligible(w[i], later, l'.tx.retransmitMs);
    assert p < |w| ==> w[p].everSent;
  }

  /** A turn that is heard to its end is known to be over: its last frame has F_MORE clear. */
  lemma {:induction false} TurnEndsClear(l: Link, clock: nat -> u32, k: nat)
    requires |l.rx.slots| == MAXWIN && SendTurn(l, clock, k).1 != []
    ensures var out := SendTurn(l, clock, k).1; !out[|out| - 1].more
    decreases |l.tx.queue|, Unsent(l.tx.win), if l.ackSentTurn then 0 else 1
  {
    var (z, o) := NextTx(l, clock(k));
    NextTxDecreases(l, clock(k));
    if NextTx(z, clock(k + 1)).1.Some? {
      TurnEndsClear(z, clock, k + 1);
    } else if o.value.more {
      MoreMeansMore(l, clock(k), clock(k + 1));
    }
  }

  // ---- what a listener that stops at F_MORE clear takes in ----

  /** A frame waits to be sent for the first time. */
  predicate HasFresh(win: seq<TxFrame>) { MoreToSend(win, |win|) }

  /**
   * The order a window is sent in: nothing behind an unacked never-sent frame has been sent, what
   * was sent this turn was sent, and the front is unacked.
   */
  ghost predicate Orderly(win: seq<TxFrame>) {
    && (forall i :: 0 <= i < |win| && win[i].txThisTurn ==> win[i].everSent)
    && (forall i, j :: 0 <= i < j < |win| && !win[i].acked && !win[i].everSent ==> !win[j].everSent)
    && (win != [] ==> !win[0].acked)
  }

  /** Every clock reading of the turn agrees on which frames sent in earlier turns have timed out. */
  ghost predicate Steady(t: TxHalf, clock: nat -> u32) {
    forall k: nat, i {:trigger clock(k), t.win[i].sentAt} ::
      0 <= i < |t.win| && t.win[i].everSent && !t.win[i].txThisTurn ==>
      (Elapsed(clock(k), t.win[i].sentAt) >= t.retransmitMs <==> Elapsed(clock(0), t.win[i].sentAt) >= t.retransmitMs)
  }

  /** No frame may be sent at any reading. */
  ghost predicate Quiet(t: TxHalf, clock: nat -> u32) {
    forall k: nat, i {:trigger clock(k), t.win[i].sentAt} :: 0 <= i < |t.win| ==>
      !Eligible(t.win[i], clock(k), t.retransmitMs)
  }

  /** A fill appends frames never sent and unacked, and touches no other. */
  lemma {:induction false} FillAppends(t: TxHalf)
    ensures t.win <= Fill(t).win
    ensures forall i :: |t.win| <= i < |Fill(t).win| ==>
      !Fill(t).win[i].txThisTurn && !Fill(t).win[i].everSent && !Fill(t).win[i].acked
    decreases |t.queue|
  {
    if |t.win| < t.window && |t.queue| > 0 {
      FillAppends(FillOne(t));
      assert FillOne(t).win[|t.win|] == Fill(t).win[|t.win|];
    }
  }

  lemma FillOrderly(t: TxHalf)
    requires Orderly(t.win)
    ensures Orderly(Fill(t).win)
  {
    FillAppends(t);
  }

  lemma FillSteady(t: TxHalf, clock: nat -> u32)
    requires Steady(t, clock)
    ensures Steady(Fill(t), clock)
  {
    FillAppends(t);
    FillIdle(t);
    var z := Fill(t);
    forall k: nat, i {:trigger clock(k), z.win[i].sentAt} | 0 <= i < |z.win| && z.win[i].everSent
      && !z.win[i].txThisTurn
      ensures Elapsed(clock(k), z.win[i].sentAt) >= z.retransmitMs
        <==> Elapsed(clock(0), z.win[i].sentAt) >= z.retransmitMs
    {
      assert z.win[i] == t.win[i];
      assert Elapsed(clock(k), t.win[i].sentAt) >= t.retransmitMs
        <==> Elapsed(clock(0), t.win[i].sentAt) >= t.retransmitMs;
    }
  }

  lemma NextTxOrderly(l: Link, now: u32)
    requires |l.rx.slots| == MAXWIN && Orderly(l.tx.win)
    ensures Orderly(NextTx(l, now).0.tx.win)
  {
    FillOrderly(l.tx);
    hide Fill, Orderly;
    var t := Fill(l.tx);
    var p := Pick(t.win, 0, now, t.retransmitMs);
    if p < |t.win| { SentOrderly(t.win, p, now, t.retransmitMs); }
  }

  /** The first eligible frame goes out in order. */
  lemma SentOrderly(win: seq<TxFrame>, p: nat, now: u32, retransmitMs: u32)
    requires Orderly(win) && p < |win| && Eligible(win[p], now, retransmitMs)
    requires forall k :: 0 <= k < p ==> !Eligible(win[k], now, retransmitMs)
    ensures Orderly(win[p := Sent(win[p], now)])
  {
  }

  /** While a fresh frame waits a turn goes on; the first frame that says no more is the last. */
  lemma FreshStep(l: Link, clock: nat -> u32, k: nat)
    requires |l.rx.slots| == MAXWIN && Orderly(l.tx.win) && Steady(l.tx, clock) && HasFresh(Fill(l.tx).win)
    ensures
      var (l', o) := NextTx(l, clock(k));
      && o.Some? && o.value.data && !l'.ackPending && Fill(l'.tx) == l'.tx
      && Orderly(l'.tx.win) && Steady(l'.tx, clock)
      && (if o.value.more then HasFresh(l'.tx.win) else Quiet(l'.tx, clock))
  {
    var t := Fill(l.tx);
    FillOrderly(l.tx);
    FillSteady(l.tx, clock);
    FillTwice(l.tx);
    NextTxFilled(l.(tx := t), clock(k));
    hide Fill, Elapsed;
    var p := Pick(t.win, 0, clock(k), t.retransmitMs);
    var i :| 0 <= i < |t.win| && !t.win[i].acked && !t.win[i].txThisTurn && !t.win[i].everSent;
    assert Eligible(t.win[i], clock(k), t.retransmitMs);
    SentSteady(t, clock, p, clock(k));
    if !MoreToSend(t.win[p := Sent(t.win[p], clock(k))], p) { LastIsQuiet(t, clock, k, p); }
  }

  lemma SentSteady(t: TxHalf, clock: nat -> u32, p: nat, now: u32)
    requires Steady(t, clock) && p < |t.win|
    ensures Steady(t.(win := t.win[p := Sent(t.win[p], now)]), clock)
  {
    var z := t.(win := t.win[p := Sent(t.win[p], now)]);
    forall k: nat, i {:trigger clock(k), z.win[i].sentAt} | 0 <= i < |z.win| && z.win[i].everSent
      && !z.win[i].txThisTurn
      ensures Elapsed(clock(k), z.win[i].sentAt) >= z.retransmitMs
        <==> Elapsed(clock(0), z.win[i].sentAt) >= z.retransmitMs
    {
      assert z.win[i] == t.win[i];
      assert Elapsed(clock(k), t.win[i].sentAt) >= t.retransmitMs
        <==> Elapsed(clock(0), t.win[i].sentAt) >= t.retransmitMs;
    }
  }

  /** A picked frame after which no fresh one waits, where one did: everything before it is done. */
  lemma LastIsQuiet(t: TxHalf, clock: nat -> u32, k: nat, p: nat)
    requires Orderly(t.win) && Steady(t, clock) && HasFresh(t.win)
    requires p == Pick(t.win, 0, clock(k), t.retransmitMs) && p < |t.win|
    requires !MoreToSend(t.win[p := Sent(t.win[p], clock(k))], p)
    ensures Quiet(t.(win := t.win[p := Sent(t.win[p], clock(k))]), clock)
  {
    var w := t.win[p := Sent(t.win[p], clock(k))];
    var i0 :| 0 <= i0 < |t.win| && !t.win[i0].acked && !t.win[i0].txThisTurn && !t.win[i0].everSent;
    assert w[i0].raw == t.win[i0].raw;
    forall m: nat, i {:trigger clock(m), w[i].sentAt} | 0 <= i < |w|
      ensures !Eligible(w[i], clock(m), t.retransmitMs)
    {
      if i < p {
        assert !Eligible(t.win[i], clock(k), t.retransmitMs);
        if t.win[i].everSent && !t.win[i].txThisTurn {
          assert Elapsed(clock(m), t.win[i].sentAt) >= t.retransmitMs
            <==> Elapsed(clock(0), t.win[i].sentAt) >= t.retransmitMs;
          assert Elapsed(clock(k), t.win[i].sentAt) >= t.retransmitMs
            <==> Elapsed(clock(0), t.win[i].sentAt) >= t.retransmitMs;
        }
      } else if i > p {
        assert w[i] == t.win[i];
      }
    }
  }

  /** Once nothing is due at any reading, only the lone acknowledgement can still go out. */
  lemma QuietStep(l: Link, clock: nat -> u32, k: nat)
    requires |l.rx.slots| == MAXWIN && Quiet(Fill(l.tx), clock)
    ensures
      var (l', o) := NextTx(l, clock(k));
      && l'.tx == Fill(l.tx) && Fill(l'.tx) == l'.tx
      && (o.Some? ==> !o.value.data && !o.value.more && l'.ackSentTurn)
      && (o.Some? <==> !l.ackSentTurn && l.ackPending)
  {
    FillTwice(l.tx);
    var t := Fill(l.tx);
    var p := Pick(t.win, 0, clock(k), t.retransmitMs);
    forall i | 0 <= i < |t.win| ensures !Eligible(t.win[i], clock(k), t.retransmitMs) { assert t.win[i].sentAt >= 0; }
  }

  /** Every frame but the last says that more follow. */
  ghost predicate HeardWhole(out: seq<Frame>) { forall i :: 0 <= i < |out| - 1 ==> out[i].more }

  lemma {:induction false} FreshTurnHeard(l: Link, clock: nat -> u32, k: nat)
    requires |l.rx.slots| == MAXWIN && Orderly(l.tx.win) && Steady(l.tx, clock) && HasFresh(Fill(l.tx).win)
    ensures HeardWhole(SendTurn(l, clock, k).1) && SendTurn(l, clock, k).1 != []
    decreases |l.tx.queue|, Unsent(l.tx.win), if l.ackSentTurn then 0 else 1
  {
    FreshStep(l, clock, k);
    NextTxDecreases(l, clock(k));
    var (l', o) := NextTx(l, clock(k));
    if o.value.more { FreshTurnHeard(l', clock, k + 1); } else { QuietStep(l', clock, k + 1); }
  }

  /** Two different window frames may be sent now. */
  ghost predicate TwoDue(t: TxHalf, now: u32) {
    exists i, j :: 0 <= i < j < |t.win| && Eligible(t.win[i], now, t.retransmitMs)
      && Eligible(t.win[j], now, t.retransmitMs)
  }

  /** A due resend is due at every reading of a steady clock. */
  lemma DueAtAll(t: TxHalf, clock: nat -> u32, k: nat, m: nat, i: nat)
    requires Steady(t, clock) && !HasFresh(t.win) && i < |t.win|
    requires Eligible(t.win[i], clock(k), t.retransmitMs)
    ensures Eligible(t.win[i], clock(m), t.retransmitMs)
  {
    assert t.win[i].everSent;
    assert Elapsed(clock(m), t.win[i].sentAt) >= t.retransmitMs
      <==> Elapsed(clock(0), t.win[i].sentAt) >= t.retransmitMs;
    assert Elapsed(clock(k), t.win[i].sentAt) >= t.retransmitMs
      <==> Elapsed(clock(0), t.win[i].sentAt) >= t.retransmitMs;
  }

  lemma NoneDueIsQuiet(t: TxHalf, clock: nat -> u32)
    requires Steady(t, clock) && !HasFresh(t.win)
    requires Pick(t.win, 0, clock(0), t.retransmitMs) == |t.win|
    ensures Quiet(t, clock)
  {
    forall k: nat, i {:trigger clock(k), t.win[i].sentAt} | 0 <= i < |t.win|
      ensures !Eligible(t.win[i], clock(k), t.retransmitMs)
    {
      if Eligible(t.win[i], clock(k), t.retransmitMs) { DueAtAll(t, clock, k, 0, i); }
    }
  }

  /** After the first resend, whether a second follows. */
  lemma StaleSecond(t: TxHalf, clock: nat -> u32, p: nat)
    requires Steady(t, clock) && !HasFresh(t.win)
    requires p == Pick(t.win, 0, clock(0), t.retransmitMs) && p < |t.win|
    ensures
      var w := t.win[p := Sent(t.win[p], clock(0))];
      Pick(w, 0, clock(1), t.retransmitMs) < |w| <==> TwoDue(t, clock(0))
  {
    var w := t.win[p := Sent(t.win[p], clock(0))];
    var q := Pick(w, 0, clock(1), t.retransmitMs);
    if q < |w| {
      assert w[q] == t.win[q];
      DueAtAll(t, clock, 1, 0, q);
      assert p < q;
    }
    var ms := t.retransmitMs;
    if i, j :| 0 <= i < j < |t.win| && Eligible(t.win[i], clock(0), ms) && Eligible(t.win[j], clock(0), ms) {
      assert p < j && w[j] == t.win[j];
      DueAtAll(t, clock, 0, 1, j);
    }
  }

  /** A turn of nothing but resends: its first frame says no more, whatever follows. */
  lemma StaleTurn(l: Link, clock: nat -> u32)
    requires |l.rx.slots| == MAXWIN && Steady(l.tx, clock) && !HasFresh(Fill(l.tx).win)
    ensures var out := SendTurn(l, clock, 0).1;
      && (out != [] ==> !out[0].more)
      && (|out| >= 2 <==> TwoDue(Fill(l.tx), clock(0)))
  {
    var t := Fill(l.tx);
    var l' := NextTx(l, clock(0)).0;
    FillSteady(l.tx, clock);
    hide NextTx, Fill, Eligible, HasFresh, Elapsed, Steady;
    if Pick(t.win, 0, clock(0), t.retransmitMs) < |t.win| {
      StaleFirst(l, clock(0), clock(1));
      StaleSecond(t, clock, Pick(t.win, 0, clock(0), t.retransmitMs));
      NextTxDecreases(l, clock(0));
    } else {
      NoneDueIsQuiet(t, clock);
      QuietStep(l, clock, 0);
      QuietStep(l', clock, 1);
      assert !TwoDue(t, clock(0));
      if NextTx(l, clock(0)).1.Some? { NextTxDecreases(l, clock(0)); }
    }
  }

  /** The first call of such a turn, and whether the second yields anything. */
  lemma StaleFirst(l: Link, now: u32, later: u32)
    requires |l.rx.slots| == MAXWIN && !HasFresh(Fill(l.tx).win)
    requires var t := Fill(l.tx); Pick(t.win, 0, now, t.retransmitMs) < |t.win|
    ensures
      var t, (l', o) := Fill(l.tx), NextTx(l, now);
      var p := Pick(t.win, 0, now, t.retransmitMs);
      var w := t.win[p := Sent(t.win[p], now)];
      && o.Some? && o.value.data && !o.value.more
      && (NextTx(l', later).1.Some? <==> Pick(w, 0, later, t.retransmitMs) < |w|)
  {
    var t := Fill(l.tx);
    FillTwice(l.tx);
    NextTxFilled(l.(tx := t), now);
    assert NextTx(l.(tx := t), now) == NextTx(l, now);
  }

  /**
   * When a listener that stops at the first frame with F_MORE clear takes in a whole burst, under
   * a clock on which every frame is steadily due or not: if and only if a never-sent frame goes
   * out in it, or at most one frame is due.
   */
  lemma WholeBurstHeard(l: Link, clock: nat -> u32)
    requires |l.rx.slots| == MAXWIN && Orderly(l.tx.win) && Steady(l.tx, clock)
    ensures HeardWhole(SendTurn(l, clock, 0).1) <==> HasFresh(Fill(l.tx).win) || !TwoDue(Fill(l.tx), clock(0))
  {
    if HasFresh(Fill(l.tx).win) {
      FreshTurnHeard(l, clock, 0);
    } else {
      StaleTurn(l, clock);
    }
  }
}
