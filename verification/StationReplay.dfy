/**
 * Replays over whole runs of a station: bytes once acted on are refused for exactly as long as no
 * other epoch of the peer is heard, whatever else it hears, sends and does. The epoch is taken
 * from the header before anything is authenticated.
 */
module StationReplay {
  import opened Base
  import opened Arq
  import opened Wire
  import opened Station
  import Ascon
  import Replay
  import Nonce

  /**
   * What a station does besides: hear other bytes, send, or anything that leaves the filter and the
   * peer's epoch alone.
   */
  datatype Act = Hear(b: Bytes) | Send(cap: nat, f: Frame) | Local(l: Link)

  /** Bytes for this end that name another epoch of its peer than the one on record. */
  ghost predicate OtherEpoch(s: Station, b: Bytes) {
    |b| >= HDR && ForMe(s.link, HeaderFrame(b)) && b[5] != s.link.peerEpoch
  }

  ghost predicate Possible(s: Station, act: Act) {
    match act
    case Hear(_) => true
    case Send(_, f) => f.ctrl % 16 == 0 && |f.payload| <= MAXPAY
    case Local(l) =>
      l.addr == s.link.addr && l.peer == s.link.peer && l.peerEpoch == s.link.peerEpoch && |l.rx.slots| == MAXWIN
  }

  ghost predicate KeepsEpoch(s: Station, act: Act) { act.Hear? ==> !OtherEpoch(s, act.b) }

  ghost predicate Able(s: Station) { |s.link.rx.slots| == MAXWIN && ConfigValid(s.cfg) }

  ghost function Do(s: Station, act: Act): Station
    requires Able(s) && Possible(s, act)
  {
    match act
    case Hear(b) => Receive(s, b).0
    case Send(cap, f) => Emit(s, cap, f).0
    case Local(l) => s.(link := l)
  }

  ghost predicate Acts(s: Station, acts: seq<Act>)
    decreases |acts|
  {
    Able(s) && (acts == [] || (Possible(s, acts[0]) && Acts(Do(s, acts[0]), acts[1..])))
  }

  ghost function AfterActs(s: Station, acts: seq<Act>): Station
    requires Acts(s, acts)
    decreases |acts|
  {
    if acts == [] then s else AfterActs(Do(s, acts[0]), acts[1..])
  }

  /** No other epoch of the peer is heard. */
  ghost predicate OneEpoch(s: Station, acts: seq<Act>)
    requires Acts(s, acts)
    decreases |acts|
  {
    acts == [] || (KeepsEpoch(s, acts[0]) && OneEpoch(Do(s, acts[0]), acts[1..]))
  }

  /** The station has acted on these bytes in this epoch of its peer. */
  ghost predicate Done(s: Station, b: Bytes) {
    && Able(s) && s.cfg.encrypt && |b| >= HDR + CTRW && b[5] == s.link.peerEpoch
    && Replay.Spent(s.guard, Nonce.FromBigEndian(b[HDR..HDR + CTRW]))
  }

  /** On an encrypting link, acting on bytes spends them. */
  lemma ActingSpends(s: Station, b: Bytes)
    requires Able(s) && s.cfg.encrypt && |b| >= HDR && ForMe(s.link, HeaderFrame(b))
    requires Decode(s.cfg, TrackGuard(s, b[5]), b).1.Accepted?
    ensures Done(Receive(s, b).0, b)
  {
    Replay.SpentForGood(TrackGuard(s, b[5]), Nonce.FromBigEndian(b[HDR..HDR + CTRW]), 0);
    AcceptKeepsIdentity(TrackEpoch(s.link, b[5]), Decode(s.cfg, TrackGuard(s, b[5]), b).1.frame);
    hide Accept, AcceptUnread, HeaderFrame, Replay.Check, Replay.Spent, Ascon.Open, Expand, Nonce.FromBigEndian,
      Inverse;
  }

  /** Spent bytes do nothing, and stay spent through anything that keeps the epoch. */
  lemma DoneStays(s: Station, b: Bytes, act: Act)
    requires Done(s, b) && Possible(s, act) && KeepsEpoch(s, act)
    ensures Able(Do(s, act)) && Done(Do(s, act), b)
  {
    var ctr := Nonce.FromBigEndian(b[HDR..HDR + CTRW]);
    match act
    case Hear(x) =>
      if |x| >= HDR && ForMe(s.link, HeaderFrame(x)) {
        SameEpoch(s);
        GuardMoves(s.cfg, s.guard, x, ctr);
        var out := Decode(s.cfg, s.guard, x).1;
        if out.Accepted? { AcceptKeepsIdentity(s.link, out.frame); }
      }
    case Send(_, _) =>
    case Local(_) =>
  }

  lemma GuardMoves(c: Config, g: Replay.Guard, x: Bytes, ctr: nat)
    requires ConfigValid(c) && Replay.Spent(g, ctr)
    ensures Replay.Spent(Decode(c, g, x).0, ctr)
  {
    if |x| >= HDR + CTRW { Replay.SpentForGood(g, ctr, Nonce.FromBigEndian(x[HDR..HDR + CTRW])); }
    hide Replay.Check, Replay.Spent, Ascon.Open, Nonce.FromBigEndian, HeaderFrame, Inverse;
  }

  lemma DoneRefused(s: Station, b: Bytes)
    requires Done(s, b)
    ensures Receive(s, b) == (s, false)
  {
    SameEpoch(s);
    Replay.SpentForGood(s.guard, Nonce.FromBigEndian(b[HDR..HDR + CTRW]), 0);
    SpentDecodes(s.cfg, s.guard, b);
    ReceiveRejected(s, b);
  }

  lemma SpentDecodes(c: Config, g: Replay.Guard, b: Bytes)
    requires ConfigValid(c) && c.encrypt && |b| >= HDR + CTRW
    requires Replay.Check(g, Nonce.FromBigEndian(b[HDR..HDR + CTRW])) == (g, false)
    ensures Decode(c, g, b) == (g, Rejected)
  {
    hide Replay.Check, Ascon.Open, Nonce.FromBigEndian, HeaderFrame, Inverse;
  }

  lemma {:induction false} DoneForGood(s: Station, b: Bytes, acts: seq<Act>)
    requires Done(s, b) && Acts(s, acts) && OneEpoch(s, acts)
    ensures Done(AfterActs(s, acts), b)
    decreases |acts|
  {
    if acts != [] {
      DoneStays(s, b, acts[0]);
      DoneForGood(Do(s, acts[0]), b, acts[1..]);
    }
  }

  /**
   * Sealed bytes once acted on are never acted on again, however much is heard, sent and done in
   * between, until another epoch of the peer is heard: heard again they change nothing at all.
   */
  lemma NeverActedOnTwice(s: Station, b: Bytes, acts: seq<Act>)
    requires Able(s) && s.cfg.encrypt && |b| >= HDR && ForMe(s.link, HeaderFrame(b))
    requires Decode(s.cfg, TrackGuard(s, b[5]), b).1.Accepted?
    requires Acts(Receive(s, b).0, acts) && OneEpoch(Receive(s, b).0, acts)
    ensures var z := AfterActs(Receive(s, b).0, acts); Able(z) && Receive(z, b) == (z, false)
  {
    ActingSpends(s, b);
    DoneForGood(Receive(s, b).0, b, acts);
    DoneRefused(AfterActs(Receive(s, b).0, acts), b);
  }

  // ---- until another epoch is heard ----

  /** Bytes the link would act on if they were heard now. */
  ghost predicate WouldAct(s: Station, b: Bytes)
    requires Able(s)
  {
    |b| >= HDR && ForMe(s.link, HeaderFrame(b)) && Decode(s.cfg, TrackGuard(s, b[5]), b).1.Accepted?
  }

  /** Bytes that decode, whatever the replay window. */
  ghost predicate Authentic(c: Config, b: Bytes)
    requires ConfigValid(c)
  {
    |b| >= HDR + CTRW && Decode(c, Replay.Unseeded, b).1.Accepted?
  }

  function Counter(b: Bytes): nat
    requires |b| >= HDR + CTRW
  {
    Nonce.FromBigEndian(b[HDR..HDR + CTRW])
  }

  /** On an encrypting link the replay window decides over authentic bytes, and over nothing else. */
  lemma AcceptedIff(c: Config, g: Replay.Guard, b: Bytes)
    requires ConfigValid(c) && c.encrypt
    ensures Decode(c, g, b).1.Accepted? <==> Authentic(c, b) && Replay.Check(g, Counter(b)).1
  {
    assert Replay.Check(Replay.Unseeded, 0).1;
    hide Ascon.Open, Expand, Nonce.FromBigEndian, HeaderFrame, Inverse;
  }

  /** What hearing bytes that name another epoch leaves: that epoch on record, and a window that starts over. */
  lemma OtherEpochHeard(s: Station, x: Bytes)
    requires Able(s) && OtherEpoch(s, x)
    ensures var z := Receive(s, x).0;
      && Able(z) && z.cfg == s.cfg && z.link.peerEpoch == x[5] && z.link.addr == s.link.addr
         && z.link.peer == s.link.peer
  {
    var out := Decode(s.cfg, TrackGuard(s, x[5]), x).1;
    hide Decode, HeaderFrame, Accept, AcceptUnread, TrackGuard, Inverse;
    if out.Accepted? { AcceptKeepsIdentity(TrackEpoch(s.link, x[5]), out.frame); }
  }

  /**
   * Whatever is heard, sealed bytes already acted on stay spent if and only if it did not name
   * another epoch of the peer; and if it did, authentic or not, they would be acted on again (an
   * epoch of 0, which no end uses, leaves that to the replay window).
   */
  lemma ReopenedIff(s: Station, b: Bytes, x: Bytes)
    requires Done(s, b) && ForMe(s.link, HeaderFrame(b)) && Authentic(s.cfg, b)
    ensures var z := Receive(s, x).0;
      && Able(z) && z.cfg == s.cfg && ForMe(z.link, HeaderFrame(b))
      && (Done(z, b) <==> !OtherEpoch(s, x))
      && (WouldAct(z, b) <==> OtherEpoch(s, x) && (x[5] != 0 || Replay.Check(z.guard, Counter(b)).1))
  {
    var z := Receive(s, x).0;
    if OtherEpoch(s, x) {
      OtherEpochHeard(s, x);
      AcceptedIff(z.cfg, TrackGuard(z, b[5]), b);
    } else {
      DoneStays(s, b, Hear(x));
      SameEpoch(z);
      Replay.SpentForGood(z.guard, Counter(b), 0);
      SpentDecodes(z.cfg, z.guard, b);
      SameFilter(s, x);
    }
    hide Decode, HeaderFrame, Inverse, Receive, Authentic, Nonce.FromBigEndian;
  }

  lemma SameFilter(s: Station, x: Bytes)
    requires Able(s) && !OtherEpoch(s, x)
    ensures var z := Receive(s, x).0; z.cfg == s.cfg && z.link.addr == s.link.addr && z.link.peer == s.link.peer
  {
    if |x| >= HDR && ForMe(s.link, HeaderFrame(x)) {
      SameEpoch(s);
      var out := Decode(s.cfg, s.guard, x).1;
      hide Decode, HeaderFrame, Accept, AcceptUnread, Inverse;
      if out.Accepted? { AcceptKeepsIdentity(s.link, out.frame); }
    }
  }

  /**
   * A header alone, unsealed, is enough: for every link there are ten bytes that reopen it, though
   * nothing accepts them.
   */
  lemma HeaderReopens(s: Station, b: Bytes) returns (x: Bytes)
    requires Done(s, b) && ForMe(s.link, HeaderFrame(b)) && Authentic(s.cfg, b)
    ensures |x| == HDR && forall g :: Decode(s.cfg, g, x) == (g, Rejected)
    ensures Able(Receive(s, x).0) && WouldAct(Receive(s, x).0, b)
  {
    var e := if b[5] == 1 then 2 else 1;
    x := [s.link.peer, s.link.addr, 0, 0, 0, e, 0, 0, 0, 0];
    assert HeaderFrame(x).src == s.link.peer && HeaderFrame(x).dst == s.link.addr;
    ReopenedIff(s, b, x);
    hide Receive, Decode, Authentic, Counter;
    HeaderRejected(s.cfg, x);
  }

  lemma HeaderRejected(c: Config, x: Bytes)
    requires ConfigValid(c) && c.encrypt && |x| == HDR && x[2] == 0
    ensures forall g :: Decode(c, g, x) == (g, Rejected)
  {
    hide OpenSealed;
    assert !FlagBit(x[2], 4);
  }

  // ---- whole runs ----

  /** At every moment of the run the bytes would be refused. */
  ghost predicate Refused(s: Station, b: Bytes, acts: seq<Act>)
    requires Acts(s, acts)
    decreases |acts|
  {
    !WouldAct(s, b) && (acts == [] || Refused(Do(s, acts[0]), b, acts[1..]))
  }

  /** All that is heard names an epoch an end can have. */
  ghost predicate EpochsUsed(acts: seq<Act>) {
    forall i :: 0 <= i < |acts| && acts[i].Hear? && |acts[i].b| >= HDR ==> acts[i].b[5] != 0
  }

  /**
   * Accepted exactly once: over every run since they were acted on, sealed bytes are refused at
   * every moment if and only if no other epoch of the peer is heard.
   */
  lemma RefusedIff(s: Station, b: Bytes, acts: seq<Act>)
    requires Able(s) && s.cfg.encrypt && WouldAct(s, b)
    requires Acts(Receive(s, b).0, acts) && EpochsUsed(acts)
    ensures Refused(Receive(s, b).0, b, acts) <==> OneEpoch(Receive(s, b).0, acts)
  {
    var z := Receive(s, b).0;
    ActingSpends(s, b);
    AcceptedIff(s.cfg, TrackGuard(s, b[5]), b);
    ActedFilter(s, b);
    hide Receive, Decode, HeaderFrame, Refused, OneEpoch, Done;
    RefusedFrom(z, b, acts);
  }

  lemma ActedFilter(s: Station, b: Bytes)
    requires Able(s) && WouldAct(s, b)
    ensures var z := Receive(s, b).0; z.cfg == s.cfg && ForMe(z.link, HeaderFrame(b))
  {
    AcceptKeepsIdentity(TrackEpoch(s.link, b[5]), Decode(s.cfg, TrackGuard(s, b[5]), b).1.frame);
    hide Decode, HeaderFrame, Accept, AcceptUnread, TrackGuard, Inverse;
  }

  lemma {:induction false} RefusedFrom(s: Station, b: Bytes, acts: seq<Act>)
    requires Done(s, b) && ForMe(s.link, HeaderFrame(b)) && Authentic(s.cfg, b) && Acts(s, acts) && EpochsUsed(acts)
    ensures Refused(s, b, acts) <==> OneEpoch(s, acts)
    decreases |acts|
  {
    AcceptedIff(s.cfg, s.guard, b);
    SameEpoch(s);
    Replay.SpentForGood(s.guard, Counter(b), 0);
    assert !WouldAct(s, b);
    if acts != [] {
      var z := Do(s, acts[0]);
      ActIff(s, b, acts[0]);
      assert EpochsUsed(acts[1..]);
      if KeepsEpoch(s, acts[0]) { RefusedFrom(z, b, acts[1..]); }
    }
    hide Receive, Decode, HeaderFrame, Authentic, Inverse, Nonce.FromBigEndian;
  }

  /** One act: the bytes stay spent, or would be acted on again. */
  lemma ActIff(s: Station, b: Bytes, act: Act)
    requires Done(s, b) && ForMe(s.link, HeaderFrame(b)) && Authentic(s.cfg, b) && Possible(s, act)
    requires act.Hear? && |act.b| >= HDR ==> act.b[5] != 0
    ensures var z := Do(s, act);
      && Able(z) && z.cfg == s.cfg && ForMe(z.link, HeaderFrame(b))
      && (if KeepsEpoch(s, act) then Done(z, b) else WouldAct(z, b))
  {
    hide Done, WouldAct, Receive, Authentic, HeaderFrame, Inverse;
    if act.Hear? { ReopenedIff(s, b, act.b); } else { DoneStays(s, b, act); }
  }
}
