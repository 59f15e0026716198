/** Half-duplex turn taking: each end sends its whole burst, then listens for the other's. */
module Modem {
  import opened Base
  import opened Arq
  import opened ArqTurn
  import opened Wire
  import opened Station
  import opened LinkLayers
  import opened Bits

  /** When the initiator's last turn began, and how long it now waits between empty turns. */
  datatype State = State(lastTurn: u32, idleGap: u32)

  const FIRST_GAP: u32 := 50

  // ---- one burst ----

  /** These bytes are that frame, encoded under some counter. */
  ghost predicate OnAir(c: Config, f: Frame, b: Bytes) {
    && ConfigValid(c) && f.ctrl % 16 == 0 && |f.payload| <= MAXPAY
    && exists ctr: nat :: Encode(c, MAXFRAME, f, ctr) == Some(b)
  }

  lemma TransmitValid(s: Station, now: u32)
    requires StationValid(s)
    ensures StationValid(Transmit(s, MAXFRAME, now).0) && Transmit(s, MAXFRAME, now).0.link == NextTx(s.link, now).0
    ensures Transmit(s, MAXFRAME, now).0.cfg == s.cfg
    ensures Transmit(s, MAXFRAME, now).1.Some? <==> NextTx(s.link, now).1.Some?
    ensures NextTx(s.link, now).1.Some? ==> OnAir(s.cfg, NextTx(s.link, now).1.value,
      Transmit(s, MAXFRAME, now).1.value)
  {
    hide Transmit, NextTx, Encode, LinkValid;
    TransmitShape(s, now);
  }

  /** The bytes of a turn from its k-th call on. */
  ghost function SendAll(s: Station, clock: nat -> u32, k: nat): (Station, seq<Bytes>)
    requires StationValid(s)
    decreases |s.link.tx.queue|, Unsent(s.link.tx.win), if s.link.ackSentTurn then 0 else 1
  {
    TransmitValid(s, clock(k));
    var (z, b) := Transmit(s, MAXFRAME, clock(k));
    if b.None? then (z, [])
    else
      NextTxDecreases(s.link, clock(k));
      var (y, rest) := SendAll(z, clock, k + 1);
      (y, [b.value] + rest)
  }

  lemma SendAllStep(s: Station, clock: nat -> u32, k: nat)
    requires StationValid(s)
    ensures var (z, b) := Transmit(s, MAXFRAME, clock(k));
      && StationValid(z)
      && (b.None? ==> SendAll(s, clock, k) == (z, []))
      && (b.Some? ==> SendAll(s, clock, k) == (SendAll(z, clock, k + 1).0, [b.value] + SendAll(z, clock, k + 1).1))
  {
    TransmitValid(s, clock(k));
    hide Transmit, StationValid;
  }

  /** The bytes are the frames, one by one. */
  ghost predicate AllOnAir(c: Config, fs: seq<Frame>, air: seq<Bytes>) {
    |air| == |fs| && forall i :: 0 <= i < |fs| ==> OnAir(c, fs[i], air[i])
  }

  /** Sending the bytes of a turn is sending its frames. */
  lemma {:induction false} SendAllIsTurn(s: Station, clock: nat -> u32, k: nat)
    requires StationValid(s)
    ensures SendAll(s, clock, k).0.link == SendTurn(s.link, clock, k).0
    ensures AllOnAir(s.cfg, SendTurn(s.link, clock, k).1, SendAll(s, clock, k).1)
    decreases |s.link.tx.queue|, Unsent(s.link.tx.win), if s.link.ackSentTurn then 0 else 1
  {
    TransmitValid(s, clock(k));
    hide Transmit, NextTx, OnAir, AllOnAir, StationValid;
    var z, b := Transmit(s, MAXFRAME, clock(k)).0, Transmit(s, MAXFRAME, clock(k)).1;
    var f := NextTx(s.link, clock(k)).1;
    if f.Some? {
      NextTxDecreases(s.link, clock(k));
      SendAllIsTurn(z, clock, k + 1);
      OnAirCons(s.cfg, f.value, b.value, SendTurn(z.link, clock, k + 1).1, SendAll(z, clock, k + 1).1);
    } else {
      OnAirNone(s.cfg);
    }
  }

  lemma OnAirCons(c: Config, f: Frame, b: Bytes, fs: seq<Frame>, air: seq<Bytes>)
    requires OnAir(c, f, b) && AllOnAir(c, fs, air)
    ensures AllOnAir(c, [f] + fs, [b] + air)
  {
    hide OnAir;
  }

  lemma OnAirNone(c: Config)
    ensures AllOnAir(c, [], [])
  {
  }

  function Opened(s: Station): Station { s.(link := BeginTurn(s.link)) }

  lemma OpenedValid(s: Station)
    requires StationValid(s)
    ensures StationValid(Opened(s))
  {
    BeginValid(s.link.tx);
  }

  /** One end's side of a turn: its burst, or a bare poll so that the other end gets its turn. */
  ghost function TurnBytes(s: Station, clock: nat -> u32): (Station, seq<Bytes>)
    requires StationValid(s)
  {
    OpenedValid(s);
    var (z, air) := SendAll(Opened(s), clock, 0);
    SendAllValid(Opened(s), clock, 0);
    if air != [] then (z, air) else (Emit(z, MAXFRAME, Poll(z.link)).0, [Emit(z, MAXFRAME, Poll(z.link)).1.value])
  }

  lemma {:induction false} SendAllValid(s: Station, clock: nat -> u32, k: nat)
    requires StationValid(s)
    ensures StationValid(SendAll(s, clock, k).0)
    ensures Emit(SendAll(s, clock, k).0, MAXFRAME, Poll(SendAll(s, clock, k).0.link)).1.Some?
    decreases |s.link.tx.queue|, Unsent(s.link.tx.win), if s.link.ackSentTurn then 0 else 1
  {
    TransmitValid(s, clock(k));
    hide Transmit, NextTx, OnAir, LinkValid, Encode;
    if NextTx(s.link, clock(k)).1.Some? {
      NextTxDecreases(s.link, clock(k));
      SendAllValid(Transmit(s, MAXFRAME, clock(k)).0, clock, k + 1);
    } else {
      var z := SendAll(s, clock, k).0;
      EncodeFits(z.cfg, Poll(z.link), z.txCtr + 1);
    }
  }

  /** A turn always hands over: at least one frame, and at most one more than the window cap. */
  lemma TurnHandsOver(s: Station, clock: nat -> u32)
    requires StationValid(s)
    ensures 1 <= |TurnBytes(s, clock).1| <= MAXWIN + 1
    ensures clock(0) == clock(1) ==> |TurnBytes(s, clock).1| <= MAXWIN
  {
    OpenedValid(s);
    SendAllIsTurn(Opened(s), clock, 0);
    TurnAtMostWindow(s.link, clock);
  }

  /** Listening: bytes are taken in until some end the burst or the radio has no more. */
  function HearUntil(s: Station, inbox: seq<Bytes>): (Station, bool)
    requires |s.link.rx.slots| == MAXWIN && (s.cfg.key.Some? ==> |s.cfg.key.value| == 16) && s.cfg.tagLen <= 16
    decreases |inbox|
  {
    if inbox == [] then (s, false)
    else
      var (z, ended) := Receive(s, inbox[0]);
      if ended then (z, true) else HearUntil(z, inbox[1..])
  }

  // ---- the steps ----

  /** The whole burst goes out, or a poll; `clock` gives the time at each call. */
  method SendBurst(lk: LinkLayer, clock: nat -> u32) returns (air: seq<Bytes>)
    requires lk.Valid()
    modifies lk, lk.win
    ensures lk.Valid() && StationValid(old(lk.Whole())) && (lk.Whole(), air) == TurnBytes(old(lk.Whole()), clock)
  {
    lk.ValidStation();
    ghost var s0 := lk.Whole();
    OpenedValid(s0);
    lk.BeginTurn();
    assert lk.Whole() == Opened(s0);
    SendAllValid(Opened(s0), clock, 0);
    air := SendFrames(lk, clock);
    if air == [] {
      var poll := lk.MakePoll(MAXFRAME);
      air := [poll.value];
    }
  }

  method SendFrames(lk: LinkLayer, clock: nat -> u32) returns (air: seq<Bytes>)
    requires lk.Valid()
    modifies lk, lk.win
    ensures lk.Valid() && StationValid(old(lk.Whole())) && (lk.Whole(), air) == SendAll(old(lk.Whole()), clock, 0)
  {
    hide Transmit, NextTx, StationValid, OnAir, SendAll;
    lk.ValidStation();
    ghost var s0 := lk.Whole();
    air := [];
    var k := 0;
    assert air + SendAll(s0, clock, 0).1 == SendAll(s0, clock, 0).1;
    while true
      invariant lk.Valid() && StationValid(lk.Whole())
      invariant SendAll(s0, clock, 0) == (SendAll(lk.Whole(), clock, k).0, air + SendAll(lk.Whole(), clock, k).1)
      decreases |lk.View().tx.queue|, Unsent(lk.View().tx.win), if lk.View().ackSentTurn then 0 else 1
    {
      ghost var s := lk.Whole();
      TransmitValid(s, clock(k));
      SendAllStep(s, clock, k);
      var b := lk.NextTx(MAXFRAME, clock(k));
      if b.None? {
        assert air + SendAll(s, clock, k).1 == air;
        break;
      }
      NextTxDecreases(s.link, clock(k));
      ghost var rest := SendAll(lk.Whole(), clock, k + 1).1;
      assert air + ([b.value] + rest) == (air + [b.value]) + rest;
      air := air + [b.value];
      k := k + 1;
    }
  }

  /** Take in what the radio hands over until the other end's burst is over. */
  method HearBurst(lk: LinkLayer, inbox: seq<Bytes>) returns (myTurn: bool)
    requires lk.Valid()
    modifies lk, lk.win, lk.rBuf, lk.rx
    ensures lk.Valid() && StationValid(old(lk.Whole())) && (lk.Whole(), myTurn) == HearUntil(old(lk.Whole()), inbox)
  {
    hide Receive, StationValid;
    lk.ValidStation();
    ghost var s0 := lk.Whole();
    myTurn := false;
    var i := 0;
    while !myTurn && i < |inbox|
      invariant i <= |inbox| && lk.Valid() && StationValid(lk.Whole())
      invariant if myTurn then HearUntil(s0, inbox) == (lk.Whole(), true)
                else HearUntil(s0, inbox) == HearUntil(lk.Whole(), inbox[i..])
      decreases |inbox| - i
    {
      myTurn := lk.OnRx(inbox[i]);
      lk.ValidStation();
      i := i + 1;
    }
  }

  lemma TurnValid(s: Station, clock: nat -> u32)
    requires StationValid(s)
    ensures StationValid(TurnBytes(s, clock).0)
  {
    OpenedValid(s);
    SendAllValid(Opened(s), clock, 0);
    var z := SendAll(Opened(s), clock, 0).0;
    hide SendAll, StationValid, Opened;
    EmitLink(z, z.link, MAXFRAME, Poll(z.link));
    EmitValid(z, Poll(z.link));
  }

  lemma EmitValid(s: Station, f: Frame)
    requires StationValid(s) && f.ctrl % 16 == 0 && |f.payload| <= MAXPAY
    ensures StationValid(Emit(s, MAXFRAME, f).0)
  {
    hide Encode, LinkValid, ConfigValid;
  }

  predicate Busy(l: Link) { l.tx.win != [] || l.tx.queue != [] || l.ackPending }

  /**
   * When a turn has nothing to send: no ack is owed, nothing can be framed, and no frame in flight
   * is due. An end without work is one of these, so waiting out the gap then holds nothing back.
   */
  lemma SilentTurnIff(l: Link, clock: nat -> u32)
    requires |l.rx.slots| == MAXWIN
    ensures Turn(l, clock).1 == [] <==>
            && !l.ackPending && (l.tx.queue == [] || |l.tx.win| >= l.tx.window)
            && (forall i :: 0 <= i < |l.tx.win| ==>
                  !Eligible(l.tx.win[i].(txThisTurn := false), clock(0), l.tx.retransmitMs))
    ensures !Busy(l) ==> Turn(l, clock).1 == []
  {
    var t := BeginTurn(l).tx;
    var w := Fill(t).win;
    assert forall i :: 0 <= i < |t.win| ==> t.win[i] == l.tx.win[i].(txThisTurn := false);
    FillIdle(t);
    FillFresh(t);
    if |t.win| < |w| { assert Eligible(w[|t.win|], clock(0), t.retransmitMs); }
    assert forall i :: 0 <= i < |t.win| ==> w[i] == t.win[i];
    hide Fill, Eligible, SackOf, MoreToSend;
  }

  /** Frames are made only where there is room and something queued, and each is new. */
  lemma {:induction false} FillFresh(t: TxHalf)
    ensures |t.win| <= |Fill(t).win| && (|t.win| < |Fill(t).win| <==> |t.win| < t.window && t.queue != [])
    ensures forall i, now: u32, ms: u32 :: |t.win| <= i < |Fill(t).win| ==> Eligible(Fill(t).win[i], now, ms)
    decreases |t.queue|
  {
    if |t.win| < t.window && |t.queue| > 0 {
      FillFresh(FillOne(t));
      FillIdle(FillOne(t));
      assert Fill(t).win[|t.win|] == FillOne(t).win[|t.win|];
    }
  }

  /** Twice a 32-bit value, in 32 bits. */
  function Doubled(gap: u32): u32 { (gap * 2) % 0x1_0000_0000 }

  /** The wait after a turn: short when anything moved, else doubled while below the cap. */
  function NextGap(gap: u32, active: bool, maxGap: u32): u32 {
    if active then FIRST_GAP else if gap < maxGap then Doubled(gap) else maxGap
  }

  /** A clock that is read once. */
  function Frozen(now: u32): nat -> u32 { _ => now }

  /** Is there work, or, failing that, was data delivered? Only then is that edge consumed. */
  method WasActive(lk: LinkLayer) returns (active: bool)
    requires lk.Valid()
    modifies lk`gotData
    ensures lk.Valid()
    ensures var z := old(lk.Whole());
      && active == (Busy(z.link) || z.link.gotData)
      && lk.Whole() == if Busy(z.link) then z else z.(link := z.link.(gotData := false))
  {
    active := lk.HasWork();
    if !active { active := lk.TakeGotData(); }
  }

  /**
   * One initiator turn, unless it is idle and too early for one. `inbox` is what the radio hands
   * over before it times out; `sent` is the end as its own burst leaves it.
   */
  method InitiatorStep(lk: LinkLayer, st: State, now: u32, inbox: seq<Bytes>, maxGap: u32)
    returns (st': State, air: seq<Bytes>, ghost sent: Station)
    requires lk.Valid()
    modifies lk, lk.win, lk.rBuf, lk.rx
    ensures lk.Valid() && StationValid(old(lk.Whole()))
    ensures var early := !Busy(old(lk.View())) && Elapsed(now, st.lastTurn) < st.idleGap;
      if early then air == [] && st' == st && lk.Whole() == old(lk.Whole())
      else
        && (sent, air) == TurnBytes(old(lk.Whole()), Frozen(now)) && StationValid(sent)
        && var z := HearUntil(sent, inbox).0;
           && lk.Whole() == (if Busy(z.link) then z else z.(link := z.link.(gotData := false)))
           && st' == State(now, NextGap(st.idleGap, Busy(z.link) || z.link.gotData, maxGap))
  {
    lk.ValidStation();
    hide TurnBytes, HearUntil, StationValid;
    sent := lk.Whole();
    var work := lk.HasWork();
    var gap := if work then 0 else st.idleGap;
    if Elapsed(now, st.lastTurn) < gap { return st, [], sent; }
    TurnValid(sent, Frozen(now));
    air := SendBurst(lk, Frozen(now));
    sent := lk.Whole();
    var myTurn := HearBurst(lk, inbox);
    var active := WasActive(lk);
    st' := State(now, NextGap(st.idleGap, active, maxGap));
  }

  /** One responder step: nothing until something is heard, then its own burst or a poll. */
  method ResponderStep(lk: LinkLayer, clock: nat -> u32, inbox: seq<Bytes>)
      returns (air: seq<Bytes>, ghost heard: Station)
    requires lk.Valid()
    modifies lk, lk.win, lk.rBuf, lk.rx
    ensures lk.Valid() && StationValid(old(lk.Whole())) && StationValid(heard)
    ensures heard == HearUntil(old(lk.Whole()), inbox).0
    ensures if inbox == [] then air == [] && lk.Whole() == heard else (lk.Whole(), air) == TurnBytes(heard, clock)
  {
    lk.ValidStation();
    hide TurnBytes, StationValid;
    var myTurn := HearBurst(lk, inbox);
    heard := lk.Whole();
    lk.ValidStation();
    air := [];
    if inbox != [] { air := SendBurst(lk, clock); }
  }

  // ---- the idle gap ----

  /** The gap after a run of turns, by whether each moved anything. */
  function GapAfter(turns: seq<bool>, maxGap: u32): u32 {
    if turns == [] then FIRST_GAP else NextGap(GapAfter(turns[..|turns| - 1], maxGap), turns[|turns| - 1], maxGap)
  }

  /** n idle turns in a row. */
  function Idle(n: nat): seq<bool> { if n == 0 then [] else Idle(n - 1) + [false] }

  /** The first gap doubled 26 times: once more does not fit 32 bits. */
  const TOP_GAP: u32 := 3_355_443_200

  lemma TopGap()
    ensures FIRST_GAP * Pow2(26) == TOP_GAP
  {
    assert Pow2(13) == 8192;
    PowersMultiply(13, 13);
  }

  lemma {:induction false} PowersMultiply(i: nat, j: nat)
    ensures Pow2(i + j) == Pow2(i) * Pow2(j)
    decreases i
  {
    if i > 0 { PowersMultiply(i - 1, j); }
  }

  lemma {:induction false} PowersGrow(j: nat, k: nat)
    requires j <= k
    ensures 1 <= Pow2(j) <= Pow2(k) && (j < k ==> Pow2(j) < Pow2(k))
    decreases k
  {
    if j < k { PowersGrow(j, k - 1); } else if k > 0 { PowersGrow(k - 1, k - 1); }
  }

  /** While doubling stays at or below the cap it goes on. */
  lemma {:induction false} GapIsPower(turns: seq<bool>, k: nat, maxGap: u32) returns (i: nat)
    requires maxGap == FIRST_GAP * Pow2(k)
    ensures i <= k && GapAfter(turns, maxGap) == FIRST_GAP * Pow2(i)
  {
    if turns == [] || turns[|turns| - 1] {
      i := 0;
    } else {
      var j := GapIsPower(turns[..|turns| - 1], k, maxGap);
      PowersGrow(j, k);
      if j < k { PowersGrow(j + 1, k); }
      i := if j < k then j + 1 else k;
    }
  }

  /** Idle turns double the gap up to the cap, which they must hit exactly if they never pass it. */
  lemma {:induction false} CapIsHit(maxGap: u32, n: nat) returns (k: nat)
    requires Capped(maxGap) && maxGap <= TOP_GAP
    requires GapAfter(Idle(n), maxGap) == FIRST_GAP * Pow2(n)
    ensures maxGap == FIRST_GAP * Pow2(k)
    decreases maxGap - GapAfter(Idle(n), maxGap)
  {
    if GapAfter(Idle(n), maxGap) == maxGap {
      k := n;
    } else {
      PowersGrow(n, n + 1);
      IdleDoubles(n, maxGap);
      k := CapIsHit(maxGap, n + 1);
    }
  }

  /** One more idle turn below the cap: twice the gap, which still fits 32 bits if the cap is no more than the top. */
  lemma IdleDoubles(n: nat, maxGap: u32)
    requires GapAfter(Idle(n), maxGap) == FIRST_GAP * Pow2(n) < maxGap <= TOP_GAP
    ensures GapAfter(Idle(n + 1), maxGap) == FIRST_GAP * Pow2(n + 1)
  {
    TopGap();
    if n >= 26 { PowersGrow(26, n); }
    PowersGrow(n + 1, 26);
    IdleMore(n, maxGap);
  }

  lemma IdleMore(n: nat, maxGap: u32)
    ensures GapAfter(Idle(n + 1), maxGap) == NextGap(GapAfter(Idle(n), maxGap), false, maxGap)
  {
    var turns := Idle(n + 1);
    assert turns == Idle(n) + [false] && turns[..|turns| - 1] == Idle(n);
  }

  /** No run of turns waits longer than the cap. */
  ghost predicate Capped(maxGap: u32) { forall turns: seq<bool> :: GapAfter(turns, maxGap) <= maxGap }

  lemma DoublingIsCapped(k: nat, maxGap: u32)
    requires maxGap == FIRST_GAP * Pow2(k)
    ensures Capped(maxGap)
  {
    forall turns: seq<bool> ensures GapAfter(turns, maxGap) <= maxGap {
      var i := GapIsPower(turns, k, maxGap);
      PowersGrow(i, k);
    }
  }

  /** What a gap can be while the cap is out of reach: doubled up to the top, or what wrapping leaves. */
  ghost predicate BelowTop(gap: u32) {
    || (exists i: nat :: i <= 26 && gap == FIRST_GAP * Pow2(i))
    || gap in {2_415_919_104, 0x2000_0000, 0x4000_0000, 0x8000_0000, 0}
  }

  lemma {:induction false} StaysBelowTop(turns: seq<bool>, maxGap: u32)
    requires maxGap > TOP_GAP
    ensures BelowTop(GapAfter(turns, maxGap))
  {
    if turns == [] || turns[|turns| - 1] {
      assert FIRST_GAP == FIRST_GAP * Pow2(0);
    } else {
      StaysBelowTop(turns[..|turns| - 1], maxGap);
      BelowTopDoubles(GapAfter(turns[..|turns| - 1], maxGap));
    }
  }

  lemma BelowTopDoubles(gap: u32)
    requires BelowTop(gap)
    ensures gap <= TOP_GAP && BelowTop(Doubled(gap))
  {
    hide Pow2;
    if i: nat :| i <= 26 && gap == FIRST_GAP * Pow2(i) {
      PowerDoubles(i);
      if i < 26 { assert Doubled(gap) == FIRST_GAP * Pow2(i + 1); }
    }
  }

  lemma PowerDoubles(i: nat)
    requires i <= 26
    ensures 0 < FIRST_GAP * Pow2(i) <= TOP_GAP && Pow2(i + 1) == 2 * Pow2(i)
    ensures if i < 26 then FIRST_GAP * Pow2(i + 1) <= TOP_GAP else FIRST_GAP * Pow2(i) == TOP_GAP
  {
    TopGap();
    PowersGrow(i, 26);
    if i < 26 { PowersGrow(i + 1, 26); }
  }

  /**
   * No run of turns waits longer than the cap if and only if the cap is the first gap doubled some
   * number of times, or so large that doubling wraps round before it gets there.
   */
  lemma GapCappedIff(maxGap: u32)
    ensures Capped(maxGap) <==> maxGap > TOP_GAP || exists k: nat :: FIRST_GAP * Pow2(k) == maxGap
  {
    if maxGap > TOP_GAP {
      forall turns: seq<bool> ensures GapAfter(turns, maxGap) <= maxGap {
        StaysBelowTop(turns, maxGap);
        BelowTopDoubles(GapAfter(turns, maxGap));
      }
    } else if Capped(maxGap) {
      assert GapAfter(Idle(0), maxGap) == FIRST_GAP * Pow2(0);
      var k := CapIsHit(maxGap, 0);
      assert FIRST_GAP * Pow2(k) == maxGap;
    }
    forall k: nat | FIRST_GAP * Pow2(k) == maxGap ensures Capped(maxGap) {
      DoublingIsCapped(k, maxGap);
    }
  }

  /** In any case twice the cap is a bound, once the cap is above half the first gap. */
  lemma {:induction false} GapBelowTwiceCap(turns: seq<bool>, maxGap: u32)
    ensures var gap := GapAfter(turns, maxGap);
      && (if maxGap > FIRST_GAP / 2 then gap < 2 * maxGap else gap == FIRST_GAP || gap == maxGap)
      && (0 < maxGap <= TOP_GAP ==> gap > 0)
  {
    if turns != [] { GapBelowTwiceCap(turns[..|turns| - 1], maxGap); }
    if maxGap <= TOP_GAP { var i := PowerOrCap(turns, maxGap); }
  }

  /** Under a cap no more than the top the gap is the cap, or has been doubled without wrapping. */
  lemma {:induction false} PowerOrCap(turns: seq<bool>, maxGap: u32) returns (i: nat)
    requires maxGap <= TOP_GAP
    ensures i <= 26 && (GapAfter(turns, maxGap) == maxGap || GapAfter(turns, maxGap) == FIRST_GAP * Pow2(i))
    ensures FIRST_GAP * Pow2(i) > 0
  {
    if turns == [] || turns[|turns| - 1] {
      i := 0;
    } else {
      i := PowerOrCap(turns[..|turns| - 1], maxGap);
      PowerDoubles(i);
      if GapAfter(turns[..|turns| - 1], maxGap) < maxGap { i := i + 1; }
    }
  }

  /** While each doubling starts below the cap and fits, n idle turns double the first gap n times. */
  lemma {:induction false} GapClimbs(n: nat, maxGap: u32)
    requires n <= 26 && (n == 0 || FIRST_GAP * Pow2(n - 1) < maxGap)
    ensures GapAfter(Idle(n), maxGap) == FIRST_GAP * Pow2(n)
  {
    if n > 0 {
      hide GapAfter, Idle, Pow2, NextGap;
      if n > 1 { PowersGrow(n - 2, n - 1); }
      GapClimbs(n - 1, maxGap);
      IdleMore(n - 1, maxGap);
      NextPower(n - 1, maxGap);
    }
  }

  lemma NextPower(i: nat, maxGap: u32)
    requires i < 26 && FIRST_GAP * Pow2(i) < maxGap
    ensures NextGap(FIRST_GAP * Pow2(i), false, maxGap) == FIRST_GAP * Pow2(i + 1)
  {
    hide Pow2;
    PowerDoubles(i);
  }

  /** Under a cap above the top the wait wraps to nothing: from the 31st idle turn on there is none. */
  lemma {:induction false} GapWrapsToNone(n: nat, maxGap: u32)
    requires maxGap > TOP_GAP && n >= 31
    ensures GapAfter(Idle(n), maxGap) == 0
    decreases n
  {
    hide GapAfter, Idle, Pow2;
    if n > 31 {
      GapWrapsToNone(n - 1, maxGap);
      IdleMore(n - 1, maxGap);
    } else {
      var m := n - 5;
      PowerDoubles(m - 1);
      PowerDoubles(m);
      GapClimbs(m, maxGap);
      FiveMore(m, maxGap);
    }
  }

  lemma FiveMore(m: nat, maxGap: u32)
    requires maxGap > TOP_GAP && GapAfter(Idle(m), maxGap) == TOP_GAP
    ensures GapAfter(Idle(m + 5), maxGap) == 0
  {
    hide GapAfter, Idle, NextGap, Doubled;
    TopWraps();
    IdleDoubled(m, maxGap);
    IdleDoubled(m + 1, maxGap);
    IdleDoubled(m + 2, maxGap);
    IdleDoubled(m + 3, maxGap);
    IdleDoubled(m + 4, maxGap);
  }

  lemma TopWraps()
    ensures Doubled(TOP_GAP) == 2_415_919_104 && Doubled(2_415_919_104) == 0x2000_0000
    ensures Doubled(0x2000_0000) == 0x4000_0000 && Doubled(0x4000_0000) == 0x8000_0000 && Doubled(0x8000_0000) == 0
  {
  }

  lemma IdleDoubled(n: nat, maxGap: u32)
    requires GapAfter(Idle(n), maxGap) < maxGap
    ensures GapAfter(Idle(n + 1), maxGap) == Doubled(GapAfter(Idle(n), maxGap))
  {
    hide GapAfter, Idle;
    IdleMore(n, maxGap);
  }

  /** A turn that moved anything starts the gap over: what came before it does not matter any more. */
  lemma {:induction false} GapStartsOver(turns: seq<bool>, n: nat, maxGap: u32)
    ensures GapAfter(turns + [true] + Idle(n), maxGap) == GapAfter(Idle(n), maxGap)
    ensures GapAfter(turns + [true], maxGap) == FIRST_GAP
  {
    GapSnoc(turns, true, maxGap);
    IdleSnoc(n);
    hide GapAfter, Idle;
    var active := turns + [true];
    if n == 0 {
      assert active + [] == active;
    } else {
      assert active + (Idle(n - 1) + [false]) == (active + Idle(n - 1)) + [false];
      GapSnoc(active + Idle(n - 1), false, maxGap);
      GapStartsOver(turns, n - 1, maxGap);
      IdleMore(n - 1, maxGap);
    }
  }

  lemma GapSnoc(turns: seq<bool>, last: bool, maxGap: u32)
    ensures GapAfter(turns + [last], maxGap) == NextGap(GapAfter(turns, maxGap), last, maxGap)
    ensures GapAfter([], maxGap) == FIRST_GAP
  {
    assert (turns + [last])[..|turns|] == turns;
  }

  lemma IdleSnoc(n: nat)
    ensures Idle(n) == if n == 0 then [] else Idle(n - 1) + [false]
  {
  }

  /** With the default cap of 2000, six idle turns in a row wait 3200. */
  /** n idle turns after traffic: doubled while the gap before was below the cap, and the cap from then on. */
  lemma {:induction false} IdleGapIs(n: nat, maxGap: u32)
    requires maxGap <= TOP_GAP
    ensures GapAfter(Idle(n), maxGap) ==
            if n == 0 || FIRST_GAP * Pow2(n - 1) < maxGap then FIRST_GAP * Pow2(n) else maxGap
  {
    assert Pow2(0) == 1;
    hide GapAfter, Idle, Pow2;
    if n == 0 {
      GapSnoc([], false, maxGap);
      IdleNone();
    } else {
      if n > 1 { PowersGrow(n - 2, n - 1); }
      IdleGapIs(n - 1, maxGap);
      IdleMore(n - 1, maxGap);
      if FIRST_GAP * Pow2(n - 1) < maxGap {
        PowerBelowTop(n - 1, maxGap);
        NextPower(n - 1, maxGap);
      }
    }
  }

  lemma IdleNone()
    ensures Idle(0) == []
  {
  }

  lemma PowerBelowTop(i: nat, maxGap: u32)
    requires FIRST_GAP * Pow2(i) < maxGap <= TOP_GAP
    ensures i < 26
  {
    TopGap();
    if i >= 26 { PowersGrow(26, i); }
  }

  lemma GapPassesCap()
    ensures GapAfter(Idle(6), 2000) == 3200
  {
    hide GapAfter, Idle;
    assert Pow2(5) == 32;
    GapClimbs(6, 2000);
  }
}
