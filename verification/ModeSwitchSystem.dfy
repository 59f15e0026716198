/**
 * Two ends of the mode-switch handshake over a channel that loses frames and is deaf across
 * modes. A round is one half-duplex exchange; between rounds the initiator may be asked to
 * switch or to give up, and the loss pattern is arbitrary.
 */
module ModeSwitchSystem {
  import opened ModeSwitching

  /** i is the initiator, r the responder. */
  datatype Ends = Ends(i: Ms, r: Ms)

  function PollBoth(e: Ends, now: nat): Ends {
    Ends(Service(Poll(e.i, now), now), Service(Poll(e.r, now), now))
  }

  /** One exchange: request out, reply on the old mode, then both apply what they agreed. */
  function Exchange(e: Ends, now: nat, dropOut: bool, dropBack: bool): Ends {
    var hearR := !dropOut && e.i.current == e.r.current;
    var r1 := Service(if hearR then AfterRecv(e.r, TxCtrl(e.i), false) else e.r, now);
    var hearI := !dropBack && r1.current == e.i.current;
    var i1 := if hearI then AfterRecv(e.i, TxCtrl(r1), true) else e.i;
    Ends(Service(i1, now), Service(AfterSend(r1), now))
  }

  /** One round without the rendezvous backstop. */
  function Round(e: Ends, now: nat, dropOut: bool, dropBack: bool): Ends {
    Exchange(PollBoth(e, now), now, dropOut, dropBack)
  }

  // ---- invariants ----

  /** Between rounds nothing is armed or due, only the initiator requests, and only while settled. */
  ghost predicate Rested(e: Ends) {
    && e.i.apply == e.i.armed == e.i.owe == -1
    && e.r.apply == e.r.armed == e.r.owe == e.r.target == -1
    && (e.i.target >= 0 ==> !e.i.probation && e.i.target != e.i.current && e.i.target < MODES)
    && -1 <= e.i.target
    && 0 <= e.i.current && 0 <= e.i.prev && 0 <= e.r.current && 0 <= e.r.prev
    && e.i.probationMs == e.r.probationMs
  }

  /** Two unsettled ends flip together: same mode, same fallback, same timer. */
  ghost predicate InPhase(e: Ends) {
    e.i.probation && e.r.probation ==> e.i.current == e.r.current && e.i.prev == e.r.prev && e.i.start == e.r.start
  }

  /**
   * The agreement invariant: an unsettled end still has the other's mode as its current one or
   * its fallback, and two settled ends are on one mode.
   */
  ghost predicate Agree(e: Ends) {
    && (e.i.probation && !e.r.probation ==> e.r.current == e.i.current || e.r.current == e.i.prev)
    && (e.r.probation && !e.i.probation ==> e.i.current == e.r.current || e.i.current == e.r.prev)
    && (!e.i.probation && !e.r.probation ==> e.i.current == e.r.current)
  }

  ghost predicate Inv(e: Ends) { Rested(e) && InPhase(e) && Agree(e) }

  /** Settled, nothing in flight, one mode. */
  ghost predicate Quiescent(e: Ends) { !Busy(e.i) && !Busy(e.r) && e.i.current == e.r.current }

  lemma PollKeeps(e: Ends, now: nat)
    requires Inv(e)
    ensures Inv(PollBoth(e, now))
    ensures PollBoth(e, now).i.target == e.i.target
  {
  }

  lemma ExchangeKeeps(e: Ends, now: nat, dropOut: bool, dropBack: bool)
    requires Inv(e)
    ensures Inv(Exchange(e, now, dropOut, dropBack))
  {
    if e.i.target >= 0 {
      CtrlRoundTrip(e.i.target, false);
      CtrlRoundTrip(e.i.target, true);
    }
  }

  // ---- runs with loss, requests and aborts ----

  datatype Event =
    | RoundEv(now: nat, dropOut: bool, dropBack: bool)
    | RequestEv(mode: nat)
    | AbortEv(initiator: bool)

  ghost predicate Possible(ev: Event) { ev.RequestEv? ==> ev.mode < MODES }

  function Step(e: Ends, ev: Event): Ends {
    match ev
    case RoundEv(now, o, b) => Round(e, now, o, b)
    case RequestEv(m) => e.(i := Request(e.i, m))
    case AbortEv(who) => if who then e.(i := Abort(e.i)) else e.(r := Abort(e.r))
  }

  function Run(e: Ends, evs: seq<Event>): Ends
    decreases |evs|
  {
    if evs == [] then e else Run(Step(e, evs[0]), evs[1..])
  }

  lemma StepKeeps(e: Ends, ev: Event)
    requires Inv(e) && Possible(ev)
    ensures Inv(Step(e, ev))
  {
    if ev.RoundEv? {
      PollKeeps(e, ev.now);
      ExchangeKeeps(PollBoth(e, ev.now), ev.now, ev.dropOut, ev.dropBack);
    }
  }

  lemma {:induction false} RunKeeps(e: Ends, evs: seq<Event>)
    requires Inv(e) && forall k :: 0 <= k < |evs| ==> Possible(evs[k])
    ensures Inv(Run(e, evs))
    decreases |evs|
  {
    if evs != [] {
      StepKeeps(e, evs[0]);
      RunKeeps(Step(e, evs[0]), evs[1..]);
    }
  }

  /** Both ends booted on one mode. */
  ghost predicate Booted(e: Ends) {
    exists m: nat :: e.i == Begin(e.i, m) && e.r == Begin(e.r, m) && e.i.probationMs == e.r.probationMs
  }

  /** In every run without restarts: whenever neither end is on probation, they are on one mode. */
  lemma ModeAgreement(e: Ends, evs: seq<Event>)
    requires Booted(e) && forall k :: 0 <= k < |evs| ==> Possible(evs[k])
    ensures
      var z := Run(e, evs);
      && z.i.apply < 0 && z.r.apply < 0
      && (!z.i.probation && !z.r.probation ==> z.i.current == z.r.current)
      && (z.i.probation && !z.r.probation ==> z.r.current == z.i.current || z.r.current == z.i.prev)
      && (z.r.probation && !z.i.probation ==> z.i.current == z.r.current || z.i.current == z.r.prev)
      && (z.i.probation && z.r.probation ==>
            z.i.current == z.r.current && z.i.prev == z.r.prev && z.i.start == z.r.start)
  {
    RunKeeps(e, evs);
  }

  // ---- healing ----

  /** Lossless rounds at the given times. */
  function Heal(e: Ends, times: seq<nat>): Ends
    decreases |times|
  {
    if times == [] then e else Heal(Round(e, times[0], false, false), times[1..])
  }

  ghost predicate Ascending(times: seq<nat>) {
    forall a, b :: 0 <= a < b < |times| ==> times[a] <= times[b]
  }

  /** Both have just switched together and only need to hear each other. */
  ghost predicate JustSwitched(e: Ends) {
    Inv(e) && e.i.probation && e.r.probation && e.i.target == -1
  }

  /** Ends on one mode hear each other; a pending request then moves both at once. */
  lemma HearingSettles(e: Ends, now: nat)
    requires Rested(e) && e.i.current == e.r.current
    ensures var z := Exchange(e, now, false, false);
      Inv(z) && (if e.i.target >= 0 then JustSwitched(z) else Quiescent(z) && z.i.target == -1)
  {
    if e.i.target >= 0 {
      CtrlRoundTrip(e.i.target, false);
      CtrlRoundTrip(e.i.target, true);
    }
  }

  /** Quiet ends stay quiet; ends that switched together settle in one lossless round. */
  lemma OneMoreRound(e: Ends, now: nat)
    requires JustSwitched(e) || (Inv(e) && Quiescent(e))
    ensures Inv(Round(e, now, false, false)) && Quiescent(Round(e, now, false, false))
  {
    PollKeeps(e, now);
    HearingSettles(PollBoth(e, now), now);
  }

  lemma {:induction false} StaysQuiescent(e: Ends, times: seq<nat>)
    requires (Inv(e) && Quiescent(e)) || (JustSwitched(e) && times != [])
    ensures Quiescent(Heal(e, times)) && Inv(Heal(e, times))
    decreases |times|
  {
    if times != [] {
      OneMoreRound(e, times[0]);
      StaysQuiescent(Round(e, times[0], false, false), times[1..]);
    }
  }

  /** The unsettled end's probation timer started no later than t. */
  ghost predicate StartedBy(e: Ends, t: nat) {
    (e.i.probation ==> e.i.start <= t) && (e.r.probation ==> e.r.start <= t)
  }

  /** Ends on different modes: a lossless round either brings them together or changes nothing. */
  lemma DeafRound(e: Ends, now: nat)
    requires Inv(e) && PollBoth(e, now).i.current != PollBoth(e, now).r.current
    ensures Round(e, now, false, false) == PollBoth(e, now)
  {
    PollKeeps(e, now);
  }

  /** Split ends come together no later than the round in which the probation timer runs out. */
  lemma {:induction false} SplitHeals(e: Ends, times: seq<nat>, t0: nat, j: nat)
    requires Inv(e) && e.i.current != e.r.current && StartedBy(e, t0)
    requires Ascending(times) && j + 1 < |times| && times[j] >= t0 + e.i.probationMs
    ensures Quiescent(Heal(e, times)) && Inv(Heal(e, times))
    decreases |times|
  {
    var now := times[0];
    var p := PollBoth(e, now);
    PollKeeps(e, now);
    if p.i.current == p.r.current {
      HearingSettles(p, now);
      StaysQuiescent(Round(e, now, false, false), times[1..]);
    } else {
      DeafRound(e, now);
      assert p == e;
      assert j > 0;
      SplitHeals(e, times[1..], t0, j - 1);
    }
  }

  /**
   * Probation alone re-converges: from any state a run without restarts can reach, once losses
   * stop both ends are quiescent on one mode one round after the first round that comes a
   * probation period later, and stay so.
   */
  lemma ProbationReconverges(e: Ends, times: seq<nat>, j: nat)
    requires Inv(e) && Ascending(times) && j + 1 < |times|
    requires e.i.probationMs > 0
    requires StartedBy(e, times[0]) && times[j] >= times[0] + e.i.probationMs
    ensures Quiescent(Heal(e, times))
  {
    var now := times[0];
    var p := PollBoth(e, now);
    PollKeeps(e, now);
    if p.i.current == p.r.current {
      HearingSettles(p, now);
      StaysQuiescent(Round(e, now, false, false), times[1..]);
    } else {
      DeafRound(e, now);
      assert j > 0;
      SplitHeals(p, times[1..], now, j - 1);
    }
  }

  // ---- a request is taken ----

  /** Of two requests heard before the answer goes out, the first is answered and carried out. */
  lemma FirstRequestWins(s: Ms, m: nat, n: nat, now: nat)
    requires m < MODES && n < MODES && m != s.current && s.armed < 0
    ensures
      var y := AfterRecv(AfterRecv(s, CtrlEncode(m, false), false), CtrlEncode(n, false), false);
      TxCtrl(y) == CtrlEncode(m, true) && Service(AfterSend(y), now).current == m
  {
    CtrlRoundTrip(m, false);
    CtrlRoundTrip(n, false);
    hide CtrlEncode;
  }

  /** A request is taken by an end with nothing in flight, for a mode it is not on; any other changes nothing. */
  lemma RequestTaken(e: Ends, m: nat)
    requires Inv(e)
    ensures var z := Step(e, RequestEv(m));
      if Busy(e.i) || e.i.current == m then z == e
      else z == e.(i := e.i.(target := m)) && TxCtrl(z.i) == CtrlEncode(m, false)
  {
  }

  /** Rounds in which the request is lost. */
  function Lost(e: Ends, times: seq<nat>, dropBack: seq<bool>): Ends
    requires |dropBack| == |times|
    decreases |times|
  {
    if times == [] then e else Lost(Round(e, times[0], true, dropBack[0]), times[1..], dropBack[1..])
  }

  /** A request survives any number of them, and giving up takes it back. */
  lemma {:induction false} RequestSurvivesLoss(e: Ends, m: nat, times: seq<nat>, dropBack: seq<bool>)
    requires Inv(e) && Quiescent(e) && m < MODES && m != e.i.current && |dropBack| == |times|
    ensures var asked := Step(e, RequestEv(m));
      && Lost(asked, times, dropBack) == asked
      && Step(Lost(asked, times, dropBack), AbortEv(true)) == e
    decreases |times|
  {
    var asked := Step(e, RequestEv(m));
    if times != [] {
      assert Round(asked, times[0], true, dropBack[0]) == asked;
      RequestSurvivesLoss(e, m, times[1..], dropBack[1..]);
    }
  }

  /**
   * A request is carried out: asked for at quiescent ends, and lost any number of times, the first
   * lossless round puts both ends on the new mode and the next leaves them quiescent there, if and
   * only if it comes before the probation runs out; later it finds them quiescent where they were.
   */
  lemma RequestSwitches(e: Ends, m: nat, times: seq<nat>, dropBack: seq<bool>, t1: nat, t2: nat)
    requires Inv(e) && Quiescent(e) && m < MODES && m != e.i.current && |dropBack| == |times| && t1 <= t2
    ensures
      var asked := Lost(Step(e, RequestEv(m)), times, dropBack);
      var z := Round(asked, t1, false, false);
      var y := Round(z, t2, false, false);
      && z.i.current == z.r.current == m && JustSwitched(z)
      && Quiescent(y) && (y.i.current == m <==> t2 - t1 < e.i.probationMs)
      && (y.i.current == m || y.i.current == e.i.current)
  {
    RequestSurvivesLoss(e, m, times, dropBack);
    CtrlRoundTrip(m, false);
    CtrlRoundTrip(m, true);
    var z := Round(Step(e, RequestEv(m)), t1, false, false);
    assert Inv(Step(e, RequestEv(m)));
    FirstRoundSwitches(e, m, t1);
    OneMoreRound(z, t2);
  }

  lemma FirstRoundSwitches(e: Ends, m: nat, now: nat)
    requires Inv(e) && Quiescent(e) && m < MODES && m != e.i.current
    ensures var z := Round(Step(e, RequestEv(m)), now, false, false);
      && z.i == e.i.(current := m, prev := e.i.current, probation := true, start := now)
      && z.r == e.r.(current := m, prev := e.i.current, probation := true, start := now)
  {
    CtrlRoundTrip(m, false);
    CtrlRoundTrip(m, true);
  }
}
