/**
 * The dead-link rendezvous on top of the handshake: an end that hears nothing for long enough
 * falls back to a fixed home mode. Handshake restarts at any moment are allowed here, so the
 * ends can be stranded on different modes; the rendezvous brings them back.
 */
module Rendezvous {
  import opened ModeSwitching
  import opened ModeSwitchSystem

  /** An end with its silence clock and the time its rendezvous last fired. */
  datatype Node = Node(ms: Ms, lastRx: nat, lastRz: nat)

  datatype Pair = Pair(i: Node, r: Node)

  /** Home mode, per-mode silence timeout, whether modes are automatic, which modes are GFSK. */
  datatype Policy = Policy(home: nat, timeout: int -> nat, auto: bool, fsk: int -> bool)

  function EndsOf(p: Pair): Ends { Ends(p.i.ms, p.r.ms) }

  /** Fall back after silence, at most once per timeout; firing at home only restarts the limiter. */
  function MaybeRendezvous(n: Node, now: nat, pol: Policy): Node {
    var mode := n.ms.current;
    if !pol.auto && !pol.fsk(mode) then n
    else if now - n.lastRx < pol.timeout(mode) then n
    else if now - n.lastRz < pol.timeout(mode) then n
    else if mode != pol.home then Node(Begin(n.ms, pol.home), n.lastRx, now)
    else n.(lastRz := now)
  }

  /** What each loop does before its turn: probation tick, then the rendezvous check. */
  function Wake(n: Node, now: nat, pol: Policy): Node {
    MaybeRendezvous(n.(ms := Service(Poll(n.ms, now), now)), now, pol)
  }

  function WakeBoth(p: Pair, now: nat, pol: Policy): Pair { Pair(Wake(p.i, now, pol), Wake(p.r, now, pol)) }

  /** One exchange, each end noting when it hears. */
  function Turns(p: Pair, now: nat, dropOut: bool, dropBack: bool): Pair {
    var e := EndsOf(p);
    var z := Exchange(e, now, dropOut, dropBack);
    var hearR := !dropOut && e.i.current == e.r.current;
    var r1 := Service(if hearR then AfterRecv(e.r, TxCtrl(e.i), false) else e.r, now);
    var hearI := !dropBack && r1.current == e.i.current;
    Pair(Node(z.i, if hearI then now else p.i.lastRx, p.i.lastRz),
      Node(z.r, if hearR then now else p.r.lastRx, p.r.lastRz))
  }

  function FullRound(p: Pair, now: nat, dropOut: bool, dropBack: bool, pol: Policy): Pair {
    Turns(WakeBoth(p, now, pol), now, dropOut, dropBack)
  }

  // ---- what survives restarts ----

  /** Agreement can be lost to a restart; being in phase when both are unsettled cannot. */
  ghost predicate Weak(p: Pair) { Rested(EndsOf(p)) && InPhase(EndsOf(p)) }

  datatype Event =
    | RoundEv(now: nat, dropOut: bool, dropBack: bool)
    | RequestEv(mode: nat)
    | AbortEv(initiator: bool)
    | RestartEv(initiator: bool, mode: nat, now: nat)

  ghost predicate Possible(ev: Event) { ev.RequestEv? ==> ev.mode < MODES }

  function Step(p: Pair, ev: Event, pol: Policy): Pair {
    match ev
    case RoundEv(now, o, b) => FullRound(p, now, o, b, pol)
    case RequestEv(m) => p.(i := p.i.(ms := Request(p.i.ms, m)))
    case AbortEv(who) => if who then p.(i := p.i.(ms := Abort(p.i.ms))) else p.(r := p.r.(ms := Abort(p.r.ms)))
    case RestartEv(who, m, now) =>
      if who then p.(i := Node(Begin(p.i.ms, m), now, now)) else p.(r := Node(Begin(p.r.ms, m), now, now))
  }

  lemma WakeKeeps(p: Pair, now: nat, pol: Policy)
    requires Weak(p)
    ensures Weak(WakeBoth(p, now, pol))
    ensures WakeBoth(p, now, pol).i.lastRx == p.i.lastRx && WakeBoth(p, now, pol).r.lastRx == p.r.lastRx
  {
  }

  lemma ExchangeKeepsWeak(e: Ends, now: nat, dropOut: bool, dropBack: bool)
    requires Rested(e) && InPhase(e)
    ensures Rested(Exchange(e, now, dropOut, dropBack)) && InPhase(Exchange(e, now, dropOut, dropBack))
  {
    if e.i.target >= 0 {
      CtrlRoundTrip(e.i.target, false);
      CtrlRoundTrip(e.i.target, true);
    }
  }

  /** Losses, requests, aborts, restarts and rendezvous all keep unsettled ends in phase. */
  lemma StepKeepsWeak(p: Pair, ev: Event, pol: Policy)
    requires Weak(p) && Possible(ev)
    ensures Weak(Step(p, ev, pol))
  {
    if ev.RoundEv? {
      WakeKeeps(p, ev.now, pol);
      ExchangeKeepsWeak(EndsOf(WakeBoth(p, ev.now, pol)), ev.now, ev.dropOut, ev.dropBack);
    }
  }

  function Run(p: Pair, evs: seq<Event>, pol: Policy): Pair
    decreases |evs|
  {
    if evs == [] then p else Run(Step(p, evs[0], pol), evs[1..], pol)
  }

  lemma {:induction false} RunKeepsWeak(p: Pair, evs: seq<Event>, pol: Policy)
    requires Weak(p) && forall k :: 0 <= k < |evs| ==> Possible(evs[k])
    ensures Weak(Run(p, evs, pol))
    decreases |evs|
  {
    if evs != [] {
      StepKeepsWeak(p, evs[0], pol);
      RunKeepsWeak(Step(p, evs[0], pol), evs[1..], pol);
    }
  }

  // ---- recovery ----

  /** Lossless rounds at the given times. */
  function Heal(p: Pair, times: seq<nat>, pol: Policy): Pair
    decreases |times|
  {
    if times == [] then p else Heal(FullRound(p, times[0], false, false, pol), times[1..], pol)
  }

  /** Rounds come in order and more often than any silence timeout. */
  ghost predicate Paced(times: seq<nat>, pol: Policy) {
    && Ascending(times)
    && (forall k, m: int {:trigger times[k], pol.timeout(m)} :: 0 <= k < |times| - 1 ==>
       times[k + 1] - times[k] < pol.timeout(m))
  }

  lemma PacedTail(times: seq<nat>, pol: Policy)
    requires Paced(times, pol) && times != []
    ensures Paced(times[1..], pol)
    ensures |times| > 1 ==> forall m: int :: times[1] - times[0] < pol.timeout(m)
  {
    forall k, m: int {:trigger times[1..][k], pol.timeout(m)} | 0 <= k < |times[1..]| - 1
      ensures times[1..][k + 1] - times[1..][k] < pol.timeout(m)
    {
      assert times[k + 2] - times[k + 1] < pol.timeout(m);
    }
  }

  /** Both ends heard at t, and are quiet or have just switched together. */
  ghost predicate HeardAt(p: Pair, t: nat) {
    && p.i.lastRx == p.r.lastRx == t
    && (JustSwitched(EndsOf(p)) || (Inv(EndsOf(p)) && Quiescent(EndsOf(p))))
  }

  /** Ends that wake on one mode hear each other. */
  lemma MeetingHears(p: Pair, now: nat, pol: Policy)
    requires Weak(p) && WakeBoth(p, now, pol).i.ms.current == WakeBoth(p, now, pol).r.ms.current
    ensures HeardAt(FullRound(p, now, false, false, pol), now)
  {
    WakeKeeps(p, now, pol);
    HearingSettles(EndsOf(WakeBoth(p, now, pol)), now);
  }

  /** Ends on different modes hear nothing, and their turns change nothing. */
  lemma ApartDeaf(p: Pair, now: nat, pol: Policy)
    requires Weak(p) && WakeBoth(p, now, pol).i.ms.current != WakeBoth(p, now, pol).r.ms.current
    ensures FullRound(p, now, false, false, pol) == WakeBoth(p, now, pol)
  {
    WakeKeeps(p, now, pol);
  }

  /** Once both have heard, a paced lossless channel settles them in one more round, for good. */
  lemma {:induction false} HeardSettles(p: Pair, t: nat, times: seq<nat>, pol: Policy)
    requires HeardAt(p, t) && Paced(times, pol)
    requires times != [] ==> forall m: int :: times[0] - t < pol.timeout(m)
    requires times != [] || Quiescent(EndsOf(p))
    ensures Quiescent(EndsOf(Heal(p, times, pol)))
    decreases |times|
  {
    if times != [] {
      var e := EndsOf(p);
      var now := times[0];
      PollKeeps(e, now);
      assert EndsOf(WakeBoth(p, now, pol)) == PollBoth(e, now);
      OneMoreRound(e, now);
      MeetingHears(p, now, pol);
      assert EndsOf(FullRound(p, now, false, false, pol)) == Round(e, now, false, false);
      PacedTail(times, pol);
      HeardSettles(FullRound(p, now, false, false, pol), now, times[1..], pol);
    }
  }

  /** A silent end's limiter was last restarted before t0, or while its mode or fallback was home. */
  ghost predicate Silent(n: Node, t0: nat, pol: Policy) {
    && n.lastRx <= t0
    && (n.lastRz <= t0 || n.ms.current == pol.home || (n.ms.probation && n.ms.prev == pol.home))
  }

  /** A mode an end gets away from in silence, or has no need to. */
  predicate Leaves(mode: int, pol: Policy) { mode == pol.home || pol.auto || pol.fsk(mode) }

  /** An end whose modes are chosen automatically, or that is pinned to GFSK, or is where it would go. */
  predicate Mobile(n: Node, pol: Policy) { Leaves(n.ms.current, pol) && (n.ms.probation ==> Leaves(n.ms.prev, pol)) }

  lemma WakeMobile(n: Node, now: nat, pol: Policy)
    requires Mobile(n, pol) && n.ms.apply == -1
    ensures Mobile(Wake(n, now, pol), pol)
  {
  }

  lemma WakeSilent(n: Node, now: nat, t0: nat, pol: Policy)
    requires Silent(n, t0, pol) && n.ms.apply == -1 && n.ms.prev >= 0
    ensures Silent(Wake(n, now, pol), t0, pol)
    ensures Mobile(n, pol) && now - t0 >= pol.timeout(Service(Poll(n.ms, now), now).current) ==>
      Wake(n, now, pol).ms.current == pol.home
        || (Wake(n, now, pol).ms.probation && Wake(n, now, pol).ms.prev == pol.home)
  {
  }

  ghost predicate StartBy(n: Node, t: nat) { n.ms.probation ==> n.ms.start <= t }

  /** One end waits at home, settled; the other will flip there when its probation runs out. */
  ghost predicate OneHome(x: Node, y: Node, ta: nat, pol: Policy) {
    && x.ms.current == pol.home && !x.ms.probation
    && y.ms.probation && y.ms.prev == pol.home && y.ms.current != pol.home && y.ms.start <= ta
  }

  lemma {:induction false} OneHomeHeals(p: Pair, times: seq<nat>, ta: nat, b: nat, pol: Policy)
    requires Weak(p) && (OneHome(p.i, p.r, ta, pol) || OneHome(p.r, p.i, ta, pol))
    requires Paced(times, pol) && b + 1 < |times| && times[b] >= ta + p.i.ms.probationMs
    ensures Quiescent(EndsOf(Heal(p, times, pol)))
    decreases |times|
  {
    var now := times[0];
    var q := WakeBoth(p, now, pol);
    WakeKeeps(p, now, pol);
    PacedTail(times, pol);
    if q.i.ms.current == q.r.ms.current {
      MeetingHears(p, now, pol);
      HeardSettles(FullRound(p, now, false, false, pol), now, times[1..], pol);
    } else {
      ApartDeaf(p, now, pol);
      assert b > 0;
      OneHomeHeals(q, times[1..], ta, b - 1, pol);
    }
  }

  /** Once a silence timeout has passed, ends still apart have one of them waiting at home. */
  lemma ApartAtDeadline(p: Pair, now: nat, t0: nat, pol: Policy)
    requires Weak(p) && Mobile(p.i, pol) && Mobile(p.r, pol) && Silent(p.i, t0, pol) && Silent(p.r, t0, pol)
    requires forall m: int :: now - t0 >= pol.timeout(m)
    requires StartBy(p.i, now) && StartBy(p.r, now)
    requires WakeBoth(p, now, pol).i.ms.current != WakeBoth(p, now, pol).r.ms.current
    ensures
      var q := WakeBoth(p, now, pol);
      OneHome(q.i, q.r, now, pol) || OneHome(q.r, q.i, now, pol)
  {
    WakeKeeps(p, now, pol);
    WakeSilent(p.i, now, t0, pol);
    WakeSilent(p.r, now, t0, pol);
  }

  lemma WakeStart(n: Node, now: nat, pol: Policy)
    requires StartBy(n, now)
    ensures StartBy(Wake(n, now, pol), now)
    ensures Wake(n, now, pol).ms.probationMs == n.ms.probationMs
  {
  }

  /** Silence since t0: by the first round a timeout later, home is reached or one flip away. */
  lemma {:induction false} SilenceHeals(p: Pair, times: seq<nat>, t0: nat, a: nat, b: nat, rz: nat, pol: Policy)
    requires Weak(p) && Mobile(p.i, pol) && Mobile(p.r, pol) && Silent(p.i, t0, pol) && Silent(p.r, t0, pol)
    requires forall m: int :: pol.timeout(m) <= rz
    requires Paced(times, pol) && a < b && b + 1 < |times|
    requires StartBy(p.i, times[0]) && StartBy(p.r, times[0])
    requires times[a] >= t0 + rz && times[b] >= times[a] + p.i.ms.probationMs
    ensures Quiescent(EndsOf(Heal(p, times, pol)))
    decreases |times|
  {
    hide Wake, Turns, OneHome, Silent, HeardAt, Weak, Mobile;
    var now := times[0];
    var q := WakeBoth(p, now, pol);
    WakeKeeps(p, now, pol);
    PacedTail(times, pol);
    WakeStart(p.i, now, pol);
    WakeStart(p.r, now, pol);
    if q.i.ms.current == q.r.ms.current {
      MeetingHears(p, now, pol);
      HeardSettles(FullRound(p, now, false, false, pol), now, times[1..], pol);
    } else {
      ApartDeaf(p, now, pol);
      if a == 0 {
        ApartAtDeadline(p, now, t0, pol);
        OneHomeHeals(q, times[1..], now, b - 1, pol);
      } else {
        WakeBothSilent(p, now, t0, pol);
        SilenceHeals(q, times[1..], t0, a - 1, b - 1, rz, pol);
      }
    }
  }

  lemma WakeBothSilent(p: Pair, now: nat, t0: nat, pol: Policy)
    requires Weak(p) && Silent(p.i, t0, pol) && Silent(p.r, t0, pol) && Mobile(p.i, pol) && Mobile(p.r, pol)
    ensures Silent(WakeBoth(p, now, pol).i, t0, pol) && Silent(WakeBoth(p, now, pol).r, t0, pol)
    ensures Mobile(WakeBoth(p, now, pol).i, pol) && Mobile(WakeBoth(p, now, pol).r, pol)
  {
    WakeMobile(p.i, now, pol);
    WakeMobile(p.r, now, pol);
    WakeSilent(p.i, now, t0, pol);
    WakeSilent(p.r, now, t0, pol);
  }

  /**
   * Rendezvous recovers from restarts: from whatever a run with losses, requests, aborts and
   * restarts leaves, a lossless channel brings both ends quiescent onto one mode, if each can
   * leave the mode it is on: automatic, pinned to GFSK, or at home already. It takes a silence
   * timeout (rounds up to a), a probation period (rounds up to b) and one more round.
   */
  lemma RendezvousRecovers(p: Pair, evs: seq<Event>, times: seq<nat>, a: nat, b: nat, rz: nat, pol: Policy)
    requires Weak(p) && forall k :: 0 <= k < |evs| ==> Possible(evs[k])
    requires Mobile(Run(p, evs, pol).i, pol) && Mobile(Run(p, evs, pol).r, pol)
    requires forall m: int :: pol.timeout(m) <= rz
    requires Paced(times, pol) && a < b && b + 1 < |times|
    requires
      var s := Run(p, evs, pol);
      && s.i.lastRx <= times[0] && s.r.lastRx <= times[0] && s.i.lastRz <= times[0] && s.r.lastRz <= times[0]
      && StartBy(s.i, times[0]) && StartBy(s.r, times[0])
      && times[a] >= times[0] + rz && times[b] >= times[a] + s.i.ms.probationMs
    ensures Quiescent(EndsOf(Heal(Run(p, evs, pol), times, pol)))
  {
    RunKeepsWeak(p, evs, pol);
    SilenceHeals(Run(p, evs, pol), times, times[0], a, b, rz, pol);
  }

  /** An end that is settled on a mode it cannot leave. */
  predicate Pinned(n: Node, pol: Policy) { !n.ms.probation && n.ms.apply == -1 && !Leaves(n.ms.current, pol) }

  /** Two settled ends apart, one of them pinned: whatever the other does, they stay apart for ever. */
  lemma {:induction false} PinnedApart(p: Pair, times: seq<nat>, pol: Policy)
    requires Weak(p) && p.i.ms.current != p.r.ms.current && !p.i.ms.probation && !p.r.ms.probation
    requires Pinned(p.i, pol) || Pinned(p.r, pol)
    ensures var z := Heal(p, times, pol); z.i.ms.current != z.r.ms.current
    decreases |times|
  {
    if times != [] {
      var q := WakeBoth(p, times[0], pol);
      WakeKeeps(p, times[0], pol);
      StaysOrGoesHome(p.i, times[0], pol);
      StaysOrGoesHome(p.r, times[0], pol);
      hide Wake, Turns, Weak;
      ApartDeaf(p, times[0], pol);
      PinnedApart(q, times[1..], pol);
    }
  }

  lemma StaysOrGoesHome(n: Node, now: nat, pol: Policy)
    requires !n.ms.probation && n.ms.apply == -1
    ensures var z := Wake(n, now, pol);
      && !z.ms.probation && z.ms.apply == -1 && (z.ms.current == n.ms.current || z.ms.current == pol.home)
      && (Pinned(n, pol) ==> z.ms.current == n.ms.current)
  {
  }

  /**
   * Two ends stranded, settled on different modes: given time, a lossless channel brings them
   * together if and only if each can leave its mode. A pair pinned to GFSK meets at home; an end
   * pinned to any other LoRa mode is never met again.
   */
  lemma StrandedMeetIff(p: Pair, times: seq<nat>, a: nat, b: nat, rz: nat, pol: Policy)
    requires Weak(p) && p.i.ms.current != p.r.ms.current && !p.i.ms.probation && !p.r.ms.probation
    requires forall m: int :: pol.timeout(m) <= rz
    requires Paced(times, pol) && a < b && b + 1 < |times|
    requires p.i.lastRx <= times[0] && p.r.lastRx <= times[0] && p.i.lastRz <= times[0] && p.r.lastRz <= times[0]
    requires times[a] >= times[0] + rz && times[b] >= times[a] + p.i.ms.probationMs
    ensures Quiescent(EndsOf(Heal(p, times, pol))) <==> Leaves(p.i.ms.current, pol) && Leaves(p.r.ms.current, pol)
  {
    if Leaves(p.i.ms.current, pol) && Leaves(p.r.ms.current, pol) {
      SilenceHeals(p, times, times[0], a, b, rz, pol);
    } else {
      PinnedApart(p, times, pol);
    }
  }

  // ---- and it fires no oftener than it should ----

  /** What happens at one end: it hears something, or its loop comes round. */
  datatype Beat = Heard(now: nat) | Loop(now: nat)

  function Beaten(n: Node, b: Beat, pol: Policy): Node {
    if b.Heard? then n.(lastRx := b.now) else Wake(n, b.now, pol)
  }

  function Live(n: Node, bs: seq<Beat>, pol: Policy): Node
    decreases |bs|
  {
    if bs == [] then n else Live(Beaten(n, bs[0], pol), bs[1..], pol)
  }

  /** The same end without a rendezvous. */
  function Alone(ms: Ms, bs: seq<Beat>): Ms
    decreases |bs|
  {
    if bs == [] then ms else Alone(if bs[0].Heard? then ms else Service(Poll(ms, bs[0].now), bs[0].now), bs[1..])
  }

  /** The end's loop drops its mode for home. */
  predicate Drops(n: Node, now: nat, pol: Policy) { Wake(n, now, pol).ms != Service(Poll(n.ms, now), now) }

  /** It does so exactly in a mode it may leave, away from home, a timeout after it last heard or last fell back. */
  lemma DropsIff(n: Node, now: nat, pol: Policy)
    requires n.ms.apply == -1 && n.ms.prev >= 0
    ensures
      var mode := Service(Poll(n.ms, now), now).current;
      Drops(n, now, pol) <==>
        && mode != pol.home && (pol.auto || pol.fsk(mode))
        && now >= n.lastRx + pol.timeout(mode) && now >= n.lastRz + pol.timeout(mode)
  {
  }

  /** Every loop comes less than any timeout after the last time something was heard. */
  ghost predicate KeepsHearing(last: nat, bs: seq<Beat>, pol: Policy)
    decreases |bs|
  {
    bs == [] || (
      && (bs[0].Loop? ==> forall m: int :: bs[0].now < last + pol.timeout(m))
      && KeepsHearing(if bs[0].Heard? then bs[0].now else last, bs[1..], pol))
  }

  /** An end that keeps hearing its peer never falls back: it does what it would do alone. */
  lemma {:induction false} HearingStays(n: Node, bs: seq<Beat>, pol: Policy)
    requires KeepsHearing(n.lastRx, bs, pol)
    ensures Live(n, bs, pol).ms == Alone(n.ms, bs)
    decreases |bs|
  {
    if bs != [] {
      if bs[0].Loop? { assert bs[0].now < n.lastRx + pol.timeout(Service(Poll(n.ms, bs[0].now), bs[0].now).current); }
      HearingStays(Beaten(n, bs[0], pol), bs[1..], pol);
    }
  }

  /**
   * A loop that finds the link silent and the limiter run out restarts the limiter, at home or away:
   * whatever happens then, the next fallback is a full timeout later.
   */
  lemma FallbacksApart(n: Node, t1: nat, bs: seq<Beat>, t2: nat, pol: Policy)
    requires var mode := Service(Poll(n.ms, t1), t1).current;
      && (pol.auto || pol.fsk(mode)) && t1 >= n.lastRx + pol.timeout(mode) && t1 >= n.lastRz + pol.timeout(mode)
    requires t1 <= t2 && (forall i :: 0 <= i < |bs| ==> t1 <= bs[i].now)
    requires var z := Live(Wake(n, t1, pol), bs, pol); Drops(z, t2, pol)
    ensures
      var z := Live(Wake(n, t1, pol), bs, pol);
      t2 >= t1 + pol.timeout(Service(Poll(z.ms, t2), t2).current)
  {
    LimiterKept(Wake(n, t1, pol), bs, t1, pol);
  }

  lemma {:induction false} LimiterKept(n: Node, bs: seq<Beat>, t1: nat, pol: Policy)
    requires n.lastRz >= t1 && forall i :: 0 <= i < |bs| ==> t1 <= bs[i].now
    ensures Live(n, bs, pol).lastRz >= t1
    decreases |bs|
  {
    if bs != [] { LimiterKept(Beaten(n, bs[0], pol), bs[1..], t1, pol); }
  }

  // ---- why the backstop is needed, and why being in phase matters ----

  /** Without it a restart can strand two settled ends on different modes for ever. */
  lemma {:induction false} StrandedWithoutRendezvous(e: Ends, times: seq<nat>)
    requires e.i == Begin(e.i, 0) && e.r == Begin(e.r, 1)
    ensures ModeSwitchSystem.Heal(e, times) == e
    decreases |times|
  {
    if times != [] { StrandedWithoutRendezvous(e, times[1..]); }
  }
}
