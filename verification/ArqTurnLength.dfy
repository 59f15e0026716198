/**
 * When a turn exceeds the window cap: a lone ack goes out at a reading at which nothing is due,
 * and then all sixteen window frames become due while the turn lasts.
 */
module ArqTurnLength {
  import opened Base
  import opened Arq
  import opened ArqSafety
  import opened ArqTurn

  /** The window positions that may be sent at a reading, as they stand when the turn opens. */
  ghost function Due(t: TxHalf, now: u32): set<nat> {
    set i | 0 <= i < |t.win| && Eligible(t.win[i], now, t.retransmitMs)
  }

  /** What is due stays due for the turn; only a wrap of the clock can break this. */
  ghost predicate DueStays(t: TxHalf, clock: nat -> u32) {
    forall k: nat, m: nat {:trigger Due(t, clock(k)), Due(t, clock(m))} :: k <= m ==>
      Due(t, clock(k)) <= Due(t, clock(m))
  }

  /** By its k-th reading enough positions are due for k of them to have been sent. */
  ghost predicate Enough(t: TxHalf, clock: nat -> u32, k: nat) {
    forall m: nat {:trigger Due(t, clock(m))} :: k <= m <= MAXWIN ==> |Due(t, clock(m))| >= m
  }

  /** The window of t with the positions in sent marked. */
  ghost predicate MarkedOnly(t: TxHalf, w: seq<TxFrame>, sent: set<nat>) {
    && |w| == |t.win|
    && (forall i: nat :: i < |w| && i !in sent ==> w[i] == t.win[i])
    && (forall i: nat :: i < |w| && i in sent ==> w[i].txThisTurn)
  }

  lemma DueBound(t: TxHalf, now: u32)
    ensures |Due(t, now)| <= |t.win|
  {
    BelowSize(Due(t, now), |t.win|);
  }

  lemma {:induction false} BelowSize(s: set<nat>, n: nat)
    requires forall i :: i in s ==> i < n
    ensures |s| <= n
    decreases n
  {
    if n == 0 {
      assert s == {};
    } else {
      BelowSize(s - {n - 1}, n - 1);
      assert s <= (s - {n - 1}) + {n - 1};
      SubsetSize(s, (s - {n - 1}) + {n - 1});
    }
  }

  /** Something may be sent exactly when more is due than has been sent. */
  lemma DueLeft(t: TxHalf, w: seq<TxFrame>, sent: set<nat>, now: u32)
    requires MarkedOnly(t, w, sent) && sent <= Due(t, now)
    ensures var p := Pick(w, 0, now, t.retransmitMs);
      if p < |w| then p in Due(t, now) && p !in sent else Due(t, now) == sent
    ensures Pick(w, 0, now, t.retransmitMs) < |w| <==> |sent| < |Due(t, now)|
  {
    var p := Pick(w, 0, now, t.retransmitMs);
    if p < |w| {
      assert p !in sent;
      SubsetSize(sent + {p}, Due(t, now));
    } else {
      forall i | i in Due(t, now) ensures i in sent {
        assert !Eligible(w[i], now, t.retransmitMs);
      }
    }
  }

  lemma EnoughFrom(t: TxHalf, clock: nat -> u32, k: nat)
    requires k <= MAXWIN
    ensures Enough(t, clock, k) <==> |Due(t, clock(k))| >= k && Enough(t, clock, k + 1)
  {
    assert Enough(t, clock, k) ==> |Due(t, clock(k))| >= k;
  }

  /** After the lone ack, with k - 1 frames sent since: how many more follow. */
  lemma {:induction false} AfterAck(l: Link, t: TxHalf, clock: nat -> u32, k: nat, sent: set<nat>)
    requires |l.rx.slots| == MAXWIN && l.ackSentTurn && Fill(l.tx) == l.tx && |t.win| == MAXWIN
    requires l.tx.retransmitMs == t.retransmitMs && MarkedOnly(t, l.tx.win, sent) && DueStays(t, clock)
    requires 1 <= k <= MAXWIN + 1 && |sent| == k - 1 && sent <= Due(t, clock(k - 1))
    ensures |SendTurn(l, clock, k).1| <= MAXWIN + 1 - k
    ensures |SendTurn(l, clock, k).1| == MAXWIN + 1 - k <==> Enough(t, clock, k)
    decreases |l.tx.queue|, Unsent(l.tx.win), if l.ackSentTurn then 0 else 1
  {
    hide NextTx, SendTurn, Fill, Eligible, Enough, MarkedOnly, Unsent;
    var l' := NextTx(l, clock(k)).0;
    var p := Pick(l.tx.win, 0, clock(k), l.tx.retransmitMs);
    assert Due(t, clock(k - 1)) <= Due(t, clock(k));
    AckedStep(l, t, clock(k), sent);
    TurnCount(l, clock, k);
    DueBound(t, clock(k));
    if k <= MAXWIN { EnoughFrom(t, clock, k); } else { EnoughLast(t, clock); }
    if NextTx(l, clock(k)).1.Some? {
      NextTxDecreases(l, clock(k));
      AfterAck(l', t, clock, k + 1, sent + {p});
    }
  }

  lemma EnoughLast(t: TxHalf, clock: nat -> u32)
    ensures Enough(t, clock, MAXWIN + 1)
  {
  }

  /** One call after the lone ack. */
  lemma AckedStep(l: Link, t: TxHalf, now: u32, sent: set<nat>)
    requires |l.rx.slots| == MAXWIN && l.ackSentTurn && Fill(l.tx) == l.tx && l.tx.retransmitMs == t.retransmitMs
    requires MarkedOnly(t, l.tx.win, sent) && sent <= Due(t, now)
    ensures
      var (l', o) := NextTx(l, now);
      var p := Pick(l.tx.win, 0, now, l.tx.retransmitMs);
      && (o.Some? <==> |sent| < |Due(t, now)|)
      && (o.Some? ==> p !in sent && p in Due(t, now) && l'.ackSentTurn && Fill(l'.tx) == l'.tx
                      && l'.tx.retransmitMs == t.retransmitMs && MarkedOnly(t, l'.tx.win, sent + {p}))
  {
    DueLeft(t, l.tx.win, sent, now);
    if NextTx(l, now).1.Some? {
      NextTxFilled(l, now);
      NextTxData(l, now);
    }
    hide Fill, Eligible, Due, MoreToSend, SackOf;
  }

  lemma TurnCount(l: Link, clock: nat -> u32, k: nat)
    requires |l.rx.slots| == MAXWIN
    ensures var (l', o) := NextTx(l, clock(k));
      && |l'.rx.slots| == MAXWIN
      && |SendTurn(l, clock, k).1| == if o.Some? then 1 + |SendTurn(l', clock, k + 1).1| else 0
  {
    if NextTx(l, clock(k)).1.Some? { NextTxDecreases(l, clock(k)); }
  }

  /** For any clock: only a turn that opens with the lone ack can exceed the cap, by one. */
  lemma OverlongOpensWithAck(l: Link, clock: nat -> u32)
    requires |l.rx.slots| == MAXWIN && TxValid(l.tx)
    ensures var out := Turn(l, clock).1;
      |out| > MAXWIN <==> |out| == MAXWIN + 1 && !out[0].data
  {
    TurnAtMostWindow(l, clock);
    var b := BeginTurn(l);
    BeginValid(l.tx);
    FilledTurn(b, clock, 0);
    FillValid(b.tx);
    FillTwice(b.tx);
    var f := b.(tx := Fill(b.tx));
    FirstDataBound(f, clock);
  }

  lemma FirstDataBound(l: Link, clock: nat -> u32)
    requires |l.rx.slots| == MAXWIN && Fill(l.tx) == l.tx && |l.tx.win| <= MAXWIN
    ensures var out := SendTurn(l, clock, 0).1; out != [] && out[0].data ==> |out| <= MAXWIN
  {
    UnsentBound(l.tx.win);
    var (l', o) := NextTx(l, clock(0));
    if o.Some? && o.value.data {
      NextTxDecreases(l, clock(0));
      NextTxData(l, clock(0));
      NextTxFilled(l, clock(0));
      var p := Pick(l.tx.win, 0, clock(0), l.tx.retransmitMs);
      assert Unsent(l'.tx.win) == Unsent(l.tx.win) - {p};
      assert p in Unsent(l.tx.win);
      TurnLength(l', clock, 1);
    }
  }

  /**
   * A turn puts more than MAXWIN frames on the air if and only if an ack is owed, the window has
   * all sixteen frames, nothing is due at the first reading, and by the k-th reading after it at
   * least k frames are due, for every k up to sixteen.
   */
  lemma ExceedsWindowIff(l: Link, clock: nat -> u32)
    requires |l.rx.slots| == MAXWIN && TxValid(l.tx) && DueStays(Fill(TxBeginTurn(l.tx)), clock)
    ensures var t := Fill(TxBeginTurn(l.tx));
      |Turn(l, clock).1| > MAXWIN <==>
        l.ackPending && |t.win| == MAXWIN && Due(t, clock(0)) == {} && Enough(t, clock, 1)
  {
    var b := BeginTurn(l);
    BeginValid(l.tx);
    FilledTurn(b, clock, 0);
    FillValid(b.tx);
    FillTwice(b.tx);
    var f := b.(tx := Fill(b.tx));
    hide NextTx, SendTurn, Fill, Eligible, Enough, Unsent, TxBeginTurn;
    UnsentBound(f.tx.win);
    TurnLength(f, clock, 0);
    FirstDataBound(f, clock);
    FirstCall(f, clock(0));
    TurnCount(f, clock, 0);
    if SendTurn(f, clock, 0).1 != [] { FirstFrame(f, clock); }
    var f' := NextTx(f, clock(0)).0;
    if NextTx(f, clock(0)).1.Some? && Due(f.tx, clock(0)) == {} && |f.tx.win| == MAXWIN {
      NoneMarked(f.tx);
      AfterAck(f', f.tx, clock, 1, {});
    }
  }

  lemma NoneMarked(t: TxHalf)
    ensures MarkedOnly(t, t.win, {})
  {
  }

  lemma FirstFrame(l: Link, clock: nat -> u32)
    requires |l.rx.slots| == MAXWIN && SendTurn(l, clock, 0).1 != []
    ensures NextTx(l, clock(0)).1 == Some(SendTurn(l, clock, 0).1[0])
  {
    if NextTx(l, clock(0)).1.Some? { NextTxDecreases(l, clock(0)); }
  }

  /** The first call of a turn: data if anything is due, else the ack if one is owed. */
  lemma FirstCall(l: Link, now: u32)
    requires |l.rx.slots| == MAXWIN && Fill(l.tx) == l.tx && !l.ackSentTurn
    ensures var (l', o) := NextTx(l, now);
      && (o.Some? && o.value.data <==> Due(l.tx, now) != {})
      && (o.Some? && !o.value.data <==> Due(l.tx, now) == {} && l.ackPending)
      && (o.Some? && !o.value.data ==> l'.ackSentTurn && l'.tx == l.tx)
  {
    var p := Pick(l.tx.win, 0, now, l.tx.retransmitMs);
    assert p < |l.tx.win| ==> p in Due(l.tx, now);
  }

  /**
   * Such a turn exists: sixteen sent frames due from the second reading on but not at the first,
   * and an ack owed, make seventeen.
   */
  lemma SeventeenFrames(l: Link, clock: nat -> u32)
    requires |l.rx.slots| == MAXWIN && TxValid(l.tx) && |l.tx.win| == MAXWIN && l.ackPending
    requires forall i :: 0 <= i < MAXWIN ==> l.tx.win[i].everSent && !l.tx.win[i].acked && !l.tx.win[i].fastResend
    requires forall i :: 0 <= i < MAXWIN ==> Elapsed(clock(0), l.tx.win[i].sentAt) < l.tx.retransmitMs
    requires forall k: nat, i {:trigger clock(k), l.tx.win[i].sentAt} :: 1 <= k && 0 <= i < MAXWIN ==>
      Elapsed(clock(k), l.tx.win[i].sentAt) >= l.tx.retransmitMs
    ensures |Turn(l, clock).1| == MAXWIN + 1
  {
    hide Due, NextTx, SendTurn, Turn, TxValid, Elapsed, TxBeginTurn, Fill;
    var t := TxBeginTurn(l.tx);
    FullStays(l.tx);
    UpToSize(MAXWIN);
    AllDue(l.tx, clock(0), false);
    forall k: nat {:trigger clock(k)} | k >= 1 ensures Due(t, clock(k)) == UpTo(MAXWIN) {
      forall i | 0 <= i < MAXWIN ensures Elapsed(clock(k), l.tx.win[i].sentAt) >= l.tx.retransmitMs {
        assert l.tx.win[i].sentAt >= 0;
      }
      AllDue(l.tx, clock(k), true);
    }
    LateStays(t, clock);
    hide DueStays, Enough;
    TurnAtMostWindow(l, clock);
    ExceedsWindowIff(l, clock);
  }

  lemma LateStays(t: TxHalf, clock: nat -> u32)
    requires Due(t, clock(0)) == {} && forall k: nat {:trigger clock(k)} :: k >= 1 ==> Due(t, clock(k)) == UpTo(MAXWIN)
    ensures DueStays(t, clock) && Enough(t, clock, 1)
  {
    UpToSize(MAXWIN);
    hide Due, UpTo;
    forall k: nat, m: nat | k <= m ensures Due(t, clock(k)) <= Due(t, clock(m)) {
      assert k == 0 || Due(t, clock(k)) == Due(t, clock(m));
    }
    forall m: nat | 1 <= m <= MAXWIN ensures |Due(t, clock(m))| >= m {
      assert Due(t, clock(m)) == UpTo(MAXWIN);
    }
  }

  lemma FullStays(t: TxHalf)
    requires TxValid(t) && |t.win| == MAXWIN
    ensures Fill(TxBeginTurn(t)) == TxBeginTurn(t) && |TxBeginTurn(t).win| == MAXWIN
  {
  }

  /** Sixteen unacked, unflagged frames sent at one age are due together or not at all. */
  lemma AllDue(t: TxHalf, now: u32, due: bool)
    requires |t.win| == MAXWIN
    requires forall i :: 0 <= i < MAXWIN ==> t.win[i].everSent && !t.win[i].acked && !t.win[i].fastResend
    requires forall i :: 0 <= i < MAXWIN ==> (Elapsed(now, t.win[i].sentAt) >= t.retransmitMs <==> due)
    ensures Due(TxBeginTurn(t), now) == if due then UpTo(MAXWIN) else {}
  {
    hide Elapsed;
    UpToSize(MAXWIN);
    var z := TxBeginTurn(t);
    forall i: nat | i < MAXWIN ensures Eligible(z.win[i], now, z.retransmitMs) <==> due {
      assert z.win[i] == t.win[i].(txThisTurn := false);
    }
    assert due ==> Due(z, now) == UpTo(MAXWIN);
  }

  ghost function UpTo(n: nat): set<nat> { if n == 0 then {} else UpTo(n - 1) + {n - 1} }

  lemma {:induction false} UpToSize(n: nat)
    ensures |UpTo(n)| == n && forall i: nat :: i in UpTo(n) <==> i < n
  {
    if n > 0 { UpToSize(n - 1); }
  }
}
