/**
 * Whole runs of the rate controller: what a fallback forbids, what a climb rests on, and that
 * under a constant signal the requests stop.
 */
module AdrRuns {
  import opened Adr

  datatype Event = Tick(x: Input) | Fell(now: nat, failed: int)

  function TimeOf(ev: Event): nat { if ev.Tick? then ev.x.now else ev.now }

  ghost predicate Fits(l: Ladder, ev: Event) {
    match ev
    case Tick(x) => x.cur < |l.fsk|
    case Fell(_, failed) => failed < |l.fsk|
  }

  ghost predicate AllFit(l: Ladder, evs: seq<Event>) { forall i :: 0 <= i < |evs| ==> Fits(l, evs[i]) }

  function Step(l: Ladder, c: Config, s: State, ev: Event): (State, Action)
    requires Shaped(l) && s.penalized < |l.fsk| && Fits(l, ev)
  {
    match ev
    case Tick(x) => Decide(l, c, s, x)
    case Fell(now, failed) => (Fallback(c, s, now, failed), Stay)
  }

  /** The controller after a history of events since Begin. */
  function After(l: Ladder, c: Config, evs: seq<Event>): (s: State)
    requires Shaped(l) && AllFit(l, evs)
    ensures s.penalized < |l.fsk|
  {
    if evs == [] then Initial
    else Step(l, c, After(l, c, evs[..|evs| - 1]), evs[|evs| - 1]).0
  }

  // ---- what a fallback forbids ----

  /** Under a penalty, what is climbed to is slower than the mode that failed. */
  lemma PenaltyCapsClimb(l: Ladder, c: Config, s: State, x: Input)
    requires Ordered(l) && s.penalized < |l.fsk| && x.cur < |l.fsk|
    requires Penalising(s, x.now)
    requires Decide(l, c, s, x).1.Request?
    ensures var m := Decide(l, c, s, x).1.mode;
      m < |l.fsk| && (Faster(l, m, x.cur) ==> Faster(l, s.penalized, m))
  {
    MoreRobustIsSlower(l, x.cur);
    MoreRobustIsSlower(l, s.penalized);
    hide PickBySnr, GfskOpen, LastLora;
  }

  ghost predicate InOrder(evs: seq<Event>) {
    forall i, j :: 0 <= i < j < |evs| ==> TimeOf(evs[i]) <= TimeOf(evs[j])
  }

  /** The latest fallback of a history. */
  ghost predicate IsLatest(evs: seq<Event>, k: nat) {
    k < |evs| && evs[k].Fell? && forall i :: k < i < |evs| ==> !evs[i].Fell?
  }

  /** The penalty in force is the latest fallback's, and no other's. */
  lemma {:induction false} PenaltyHeld(l: Ladder, c: Config, evs: seq<Event>, k: nat)
    requires Ordered(l) && AllFit(l, evs) && IsLatest(evs, k)
    ensures var s := After(l, c, evs);
      s.penalized == evs[k].failed && s.penalizedUntil == evs[k].now + c.penalty
    decreases |evs|
  {
    var n := |evs| - 1;
    if k < n { PenaltyHeld(l, c, evs[..n], k); }
    TickKeepsPenalty(l, c, After(l, c, evs[..n]), evs[n]);
    hide Decide, Rank;
  }

  lemma TickKeepsPenalty(l: Ladder, c: Config, s: State, ev: Event)
    requires Shaped(l) && s.penalized < |l.fsk| && Fits(l, ev)
    ensures var z := Step(l, c, s, ev).0;
      if ev.Tick? then z.penalized == s.penalized && z.penalizedUntil == s.penalizedUntil
      else z.penalized == ev.failed && z.penalizedUntil == ev.now + c.penalty
  {
    hide Target, First, MoreRobust;
  }

  /**
   * In every run, until a fallback's penalty expires nothing climbs to the mode that failed or
   * to a faster one, provided the latest fallback since was not from a faster mode still.
   */
  lemma NoClimbIntoPenalty(l: Ladder, c: Config, evs: seq<Event>, j: nat, k: nat, x: Input)
    requires Ordered(l) && AllFit(l, evs) && InOrder(evs + [Tick(x)]) && x.cur < |l.fsk|
    requires j <= k && IsLatest(evs, k) && evs[j].Fell?
    requires evs[k].failed >= 0 && !Faster(l, evs[k].failed, evs[j].failed)
    requires x.now < evs[j].now + c.penalty
    ensures var a := Decide(l, c, After(l, c, evs), x).1;
      a.Request? ==> a.mode < |l.fsk| && (Faster(l, a.mode, x.cur) ==> Faster(l, evs[j].failed, a.mode))
  {
    var all := evs + [Tick(x)];
    assert all[j] == evs[j] && all[k] == evs[k];
    assert j < k ==> TimeOf(all[j]) <= TimeOf(all[k]);
    PenaltyHeld(l, c, evs, k);
    var s := After(l, c, evs);
    hide After;
    if Decide(l, c, s, x).1.Request? { PenaltyCapsClimb(l, c, s, x); }
  }

  // ---- what a climb rests on ----

  /** What one event says about climbing to a mode. */
  datatype Verdict =
    | Counts(mode: int)  // an evaluation at low loss that picks a faster mode
    | Breaks             // an evaluation that picks otherwise, a request, an abort or a fallback
    | Silent             // no evaluation, or one whose loss or modulation leaves the signal unread

  function VerdictOf(l: Ladder, c: Config, s: State, ev: Event): Verdict
    requires Shaped(l) && s.penalized < |l.fsk| && Fits(l, ev)
  {
    if ev.Fell? then Breaks
    else
      var x := ev.x;
      if !Due(c, s, x) then Silent
      else if !Evaluates(c, s, x) then (if x.busy && x.now - s.switchAt > c.switchTimeout then Breaks else Silent)
      else if x.retx >= c.downRetx then (if MoreRobust(l, x.cur) != x.cur then Breaks else Silent)
      else if IsFsk(l, x.cur) then Silent
      else
        var m := Target(l, c, s, x);
        if Faster(l, m, x.cur) && x.retx <= c.upMaxRetx then Counts(m) else Breaks
  }

  /** How many of the latest events in a row, silent ones aside, counted for m since the last request. */
  function Streak(l: Ladder, c: Config, evs: seq<Event>, m: int): (n: nat)
    requires Shaped(l) && AllFit(l, evs)
    ensures n <= |evs|
  {
    if evs == [] then 0
    else
      var past := evs[..|evs| - 1];
      var s, ev := After(l, c, past), evs[|evs| - 1];
      match VerdictOf(l, c, s, ev)
      case Silent => Streak(l, c, past, m)
      case Breaks => 0
      case Counts(k) => if k != m || Step(l, c, s, ev).1.Request? then 0 else 1 + Streak(l, c, past, m)
  }

  lemma StepCounts(l: Ladder, c: Config, s: State, ev: Event, n: nat, m: int)
    requires Ordered(l) && s.penalized < |l.fsk| && Fits(l, ev)
    requires s.want == -1 ==> s.stable == 0
    requires m >= 0 && n == (if s.want == m then s.stable else 0)
    ensures var (z, a) := Step(l, c, s, ev);
      && (z.want == -1 ==> z.stable == 0)
      && match VerdictOf(l, c, s, ev)
         case Silent => z.want == s.want && z.stable == s.stable && a == Stay
         case Breaks => z.want == -1
         case Counts(k) =>
           k >= 0 && (k == m ==> (a == Request(m) <==> 1 + n >= c.upStable) && (a.Request? ==> z.want == -1)
                                 && (!a.Request? ==> a == Stay && z.want == m && z.stable == 1 + n))
           && (k != m ==> z.want != m)
  {
    hide PickBySnr, MoreRobust;
  }

  /** The controller's counter is the streak for the mode it is confirming. */
  lemma {:induction false} StableIsStreak(l: Ladder, c: Config, evs: seq<Event>, m: int)
    requires Ordered(l) && AllFit(l, evs) && m >= 0
    ensures var s := After(l, c, evs);
      && (s.want == -1 ==> s.stable == 0)
      && Streak(l, c, evs, m) == (if s.want == m then s.stable else 0)
    decreases |evs|
  {
    if evs != [] {
      var past := evs[..|evs| - 1];
      StableIsStreak(l, c, past, m);
      StepCounts(l, c, After(l, c, past), evs[|evs| - 1], Streak(l, c, past, m), m);
    }
  }

  /**
   * In every run, an evaluation that points up to m commits exactly when it makes the streak for m
   * long enough, and every climb comes from such an evaluation.
   */
  lemma ClimbIffBacked(l: Ladder, c: Config, evs: seq<Event>, x: Input, m: int)
    requires Ordered(l) && AllFit(l, evs) && 0 <= x.cur < |l.fsk| && 0 <= m < |l.fsk| && Faster(l, m, x.cur)
    ensures var s := After(l, c, evs);
      Decide(l, c, s, x).1 == Request(m) <==>
        VerdictOf(l, c, s, Tick(x)) == Counts(m) && 1 + Streak(l, c, evs, m) >= c.upStable
  {
    StableIsStreak(l, c, evs, m);
    var s := After(l, c, evs);
    hide After, Streak;
    StepCounts(l, c, s, Tick(x), if s.want == m then s.stable else 0, m);
    MoreRobustIsSlower(l, x.cur);
    if Decide(l, c, s, x).1 == Request(m) { VerdictCovers(l, c, s, x, m); }
  }

  /** A request to a faster mode only comes out of a counting evaluation. */
  lemma VerdictCovers(l: Ladder, c: Config, s: State, x: Input, m: int)
    requires Ordered(l) && s.penalized < |l.fsk| && 0 <= x.cur < |l.fsk| && m < |l.fsk| && Faster(l, m, x.cur)
    requires Decide(l, c, s, x).1 == Request(m)
    ensures VerdictOf(l, c, s, Tick(x)) == Counts(m)
  {
    MoreRobustIsSlower(l, x.cur);
  }

  // ---- requests stop ----

  /** A constant signal at a loss the controller neither flees nor distrusts. */
  datatype Signal = Signal(snr: real, rssi: real, retx: int)

  ghost predicate Calm(c: Config, g: Signal) { g.retx < c.downRetx && g.retx <= c.upMaxRetx }

  datatype Moment = Moment(now: nat, busy: bool, haveLink: bool)

  function At(g: Signal, cur: int, t: Moment): Input { Input(t.now, t.busy, t.haveLink, cur, g.snr, g.rssi, g.retx) }

  ghost predicate Ordering(ts: seq<Moment>) {
    forall i, j :: 0 <= i < j < |ts| ==> ts[i].now <= ts[j].now
  }

  /** The requests of a run in which each is granted before the next tick. */
  function Requests(l: Ladder, c: Config, s: State, g: Signal, cur: int, ts: seq<Moment>): nat
    requires Ordered(l) && s.penalized < |l.fsk| && 0 <= cur < |l.fsk| && FastestAutoLora(l) >= 0
    decreases |ts|
  {
    if ts == [] then 0
    else
      var (z, a) := Decide(l, c, s, At(g, cur, ts[0]));
      RequestsInTable(l, c, s, At(g, cur, ts[0]));
      if a.Request? then 1 + Requests(l, c, z, g, a.mode, ts[1..]) else Requests(l, c, z, g, cur, ts[1..])
  }

  lemma RequestsInTable(l: Ladder, c: Config, s: State, x: Input)
    requires Ordered(l) && s.penalized < |l.fsk| && 0 <= x.cur < |l.fsk| && FastestAutoLora(l) >= 0
    ensures Decide(l, c, s, x).0.penalized == s.penalized && Decide(l, c, s, x).0.penalizedUntil == s.penalizedUntil
    ensures Decide(l, c, s, x).1.Request? ==> 0 <= Decide(l, c, s, x).1.mode < |l.fsk|
  {
    PickIsFastestCleared(l, x.snr, FastestAutoLora(l));
  }

  /** Where a LoRa mode is sent by a constant signal, while `failed` is penalised or not. */
  function Next(l: Ladder, c: Config, g: Signal, failed: int, cur: int): int
    requires Shaped(l) && failed < |l.fsk|
  {
    Target(l, c, Initial.(penalized := failed, penalizedUntil := 1), At(g, cur, Moment(0, false, true)))
  }

  /** The penalty cap sends the fastest automatic rung up to a manual one, which the signal sends back. */
  ghost predicate Seesaw(l: Ladder, c: Config, g: Signal, failed: int)
    requires Shaped(l)
  {
    var e := FastestAutoLora(l);
    && 0 <= failed < e - 1 && PickBySnr(l, g.snr) == e
    && GfskOpen(l, c, At(g, e, Moment(0, false, true)))
  }

  /** How many requests are still possible from a mode. */
  function Left(l: Ladder, c: Config, g: Signal, failed: int, cur: int): (n: nat)
    requires Shaped(l) && failed < |l.fsk|
    ensures n <= 2
  {
    if IsFsk(l, cur) || Next(l, c, g, failed, cur) == cur then 0
    else
      var m := Next(l, c, g, failed, cur);
      if IsFsk(l, m) || Next(l, c, g, failed, m) == m then 1 else 2
  }

  /** Two steps reach a mode the signal leaves alone, unless the seesaw is on. */
  lemma TwoStepsSettle(l: Ladder, c: Config, g: Signal, failed: int, cur: nat)
    requires Ordered(l) && cur < |l.fsk| && failed < |l.fsk| && FastestAutoLora(l) >= 0 && !l.fsk[cur]
    requires !Seesaw(l, c, g, failed)
    ensures
      var m := Next(l, c, g, failed, cur);
      && 0 <= m < |l.fsk|
      && (!l.fsk[m] ==>
            var k := Next(l, c, g, failed, m);
            0 <= k < |l.fsk| && (l.fsk[k] || Next(l, c, g, failed, k) == k))
  {
    PickIsFastestCleared(l, g.snr, FastestAutoLora(l));
    if failed >= 0 { MoreRobustIsSlower(l, failed); }
  }

  /** The seesaw never settles: the two modes are each other's target. */
  lemma SeesawNeverSettles(l: Ladder, c: Config, g: Signal, failed: int)
    requires Ordered(l) && Seesaw(l, c, g, failed)
    ensures var e := FastestAutoLora(l);
      failed + 1 != e && Next(l, c, g, failed, e) == failed + 1 && Next(l, c, g, failed, failed + 1) == e
  {
    PickIsFastestCleared(l, g.snr, FastestAutoLora(l));
    MoreRobustIsSlower(l, failed);
  }

  /** One tick: a request uses up one of those left; anything else leaves the mode alone. */
  lemma TickTowards(l: Ladder, c: Config, s: State, g: Signal, cur: nat, t: Moment)
    requires Ordered(l) && s.penalized < |l.fsk| && cur < |l.fsk| && Calm(c, g) && FastestAutoLora(l) >= 0
    ensures
      var failed := if Penalising(s, t.now) then s.penalized else -1;
      var (z, a) := Decide(l, c, s, At(g, cur, t));
      a.Request? ==> !l.fsk[cur] && a.mode == Next(l, c, g, failed, cur) && a.mode != cur
  {
  }

  function Budget(l: Ladder, c: Config, g: Signal, s: State, now: nat, cur: int): nat
    requires Shaped(l) && s.penalized < |l.fsk|
  {
    if Penalising(s, now) then 2 + Left(l, c, g, s.penalized, cur) else Left(l, c, g, -1, cur)
  }

  lemma LeftDrops(l: Ladder, c: Config, g: Signal, failed: int, cur: nat)
    requires Ordered(l) && cur < |l.fsk| && failed < |l.fsk| && FastestAutoLora(l) >= 0 && !l.fsk[cur]
    requires !Seesaw(l, c, g, failed) && Next(l, c, g, failed, cur) != cur
    ensures Left(l, c, g, failed, Next(l, c, g, failed, cur)) < Left(l, c, g, failed, cur)
  {
    TwoStepsSettle(l, c, g, failed, cur);
  }

  /**
   * Under a constant signal without loss, with every request granted, at most four requests are
   * ever made, penalty or no penalty, from any controller state.
   */
  lemma {:induction false} RequestsStop(l: Ladder, c: Config, s: State, g: Signal, cur: nat, ts: seq<Moment>)
    requires Ordered(l) && s.penalized < |l.fsk| && cur < |l.fsk| && Calm(c, g) && FastestAutoLora(l) >= 0
    requires !Seesaw(l, c, g, s.penalized) && Ordering(ts)
    ensures Requests(l, c, s, g, cur, ts) <= 4
    ensures ts != [] ==> Requests(l, c, s, g, cur, ts) <= Budget(l, c, g, s, ts[0].now, cur)
    decreases |ts|
  {
    if ts != [] {
      var x := At(g, cur, ts[0]);
      var (z, a) := Decide(l, c, s, x);
      RequestsInTable(l, c, s, x);
      var cur' := if a.Request? then a.mode else cur;
      RequestsStop(l, c, z, g, cur', ts[1..]);
      TickTowards(l, c, s, g, cur, ts[0]);
      var failed := if Penalising(s, ts[0].now) then s.penalized else -1;
      if a.Request? { LeftDrops(l, c, g, failed, cur); }
      assert |ts| > 1 ==> ts[1..][0].now >= ts[0].now;
    }
  }

  /** Once no penalty is in force, at most two requests are left. */
  lemma {:induction false} RequestsAfterPenalty(l: Ladder, c: Config, s: State, g: Signal, cur: nat, ts: seq<Moment>)
    requires Ordered(l) && s.penalized < |l.fsk| && cur < |l.fsk| && Calm(c, g) && FastestAutoLora(l) >= 0
    requires Ordering(ts) && (ts != [] ==> !Penalising(s, ts[0].now))
    ensures Requests(l, c, s, g, cur, ts) <= Left(l, c, g, -1, cur) <= 2
    decreases |ts|
  {
    if ts != [] {
      var x := At(g, cur, ts[0]);
      var (z, a) := Decide(l, c, s, x);
      RequestsInTable(l, c, s, x);
      assert |ts| > 1 ==> ts[1..][0].now >= ts[0].now;
      RequestsAfterPenalty(l, c, z, g, if a.Request? then a.mode else cur, ts[1..]);
      TickTowards(l, c, s, g, cur, ts[0]);
      if a.Request? { LeftDrops(l, c, g, -1, cur); }
    }
  }

  /** The earliest moment of a run at which the controller may evaluate again. */
  function NextEvaluation(c: Config, s: State, ts: seq<Moment>): nat
    requires ts != []
  {
    if s.last + c.period > ts[0].now then s.last + c.period else ts[0].now
  }

  /**
   * Requests always stop. On any ladder, under any constant signal without loss and with every
   * request granted, a penalty has room for one request a period, and at most three more follow
   * its last; with no penalty in force there are at most two.
   */
  lemma {:induction false} RequestsBounded(l: Ladder, c: Config, s: State, g: Signal, cur: nat, ts: seq<Moment>)
    requires Ordered(l) && s.penalized < |l.fsk| && cur < |l.fsk| && Calm(c, g) && FastestAutoLora(l) >= 0
    requires Ordering(ts) && ts != []
    ensures var r := Requests(l, c, s, g, cur, ts);
      r <= 2 || (r - 3) * c.period < s.penalizedUntil - NextEvaluation(c, s, ts)
    decreases |ts|
  {
    if !Penalising(s, ts[0].now) {
      RequestsAfterPenalty(l, c, s, g, cur, ts);
    } else {
      var x := At(g, cur, ts[0]);
      var (z, a) := Decide(l, c, s, x);
      RequestsInTable(l, c, s, x);
      TickTimes(l, c, s, x);
      var cur' := if a.Request? then a.mode else cur;
      if |ts| > 1 {
        assert ts[1..][0].now >= ts[0].now;
        RequestsBounded(l, c, z, g, cur', ts[1..]);
        var r := Requests(l, c, z, g, cur', ts[1..]);
        hide Decide, Requests;
        OneMore(r, c.period, s.penalizedUntil - NextEvaluation(c, z, ts[1..]),
          s.penalizedUntil - NextEvaluation(c, s, ts));
      }
    }
  }

  /** What a tick does to the evaluation clock. */
  lemma TickTimes(l: Ladder, c: Config, s: State, x: Input)
    requires Ordered(l) && s.penalized < |l.fsk| && 0 <= x.cur < |l.fsk|
    ensures var (z, a) := Decide(l, c, s, x);
      && (z.last == s.last || z.last == x.now >= s.last + c.period)
      && (a.Request? ==> z.last == x.now >= s.last + c.period)
  {
  }

  /** One more request takes one more period off what a penalty has left. */
  lemma OneMore(r: nat, period: nat, left': int, left: int)
    requires left' <= left
    ensures r > 2 && (r - 3) * period < left' ==> (r - 3) * period < left
    ensures left > 0 && r > 2 && (r - 3) * period < left' <= left - period ==> (r + 1 - 3) * period < left
    ensures left > 0 && r == 2 ==> (r + 1 - 3) * period < left
  {
    assert (r + 1 - 3) * period == (r - 3) * period + period;
  }

  // ---- a ladder with no automatic preset ----

  /** Ticks that all evaluate. */
  ghost predicate AllEvaluate(c: Config, s: State, ts: seq<Moment>) {
    && (forall i :: 0 <= i < |ts| ==> !ts[i].busy && ts[i].haveLink && s.cooldownUntil <= ts[i].now)
    && (ts != [] ==> ts[0].now - s.last >= c.period)
    && (forall i :: 0 <= i < |ts| - 1 ==> ts[i + 1].now - ts[i].now >= c.period)
  }

  /** The requests of a run in which none can be granted. */
  function Refused(l: Ladder, c: Config, s: State, g: Signal, cur: nat, ts: seq<Moment>): nat
    requires Ordered(l) && s.penalized < |l.fsk| && cur < |l.fsk|
    decreases |ts|
  {
    if ts == [] then 0
    else
      var (z, a) := Decide(l, c, s, At(g, cur, ts[0]));
      KeepsPenalized(l, c, s, At(g, cur, ts[0]));
      (if a.Request? then 1 else 0) + Refused(l, c, z, g, cur, ts[1..])
  }

  lemma KeepsPenalized(l: Ladder, c: Config, s: State, x: Input)
    requires Shaped(l) && s.penalized < |l.fsk| && x.cur < |l.fsk|
    ensures Decide(l, c, s, x).0.penalized == s.penalized
  {
    hide Target, MoreRobust;
  }

  /**
   * With no preset that may be chosen automatically there is no target: every evaluation at a LoRa
   * mode, under any signal at a loss it does not flee, asks for mode -1, penalty or not.
   */
  lemma NoAutoAsksForNone(l: Ladder, c: Config, s: State, g: Signal, cur: nat, t: Moment)
    requires Ordered(l) && s.penalized < |l.fsk| && cur < |l.fsk| && Calm(c, g)
    requires FastestAutoLora(l) < 0 && !l.fsk[cur]
    ensures var (z, a) := Decide(l, c, s, At(g, cur, t));
      && (a.Request? <==> Evaluates(c, s, At(g, cur, t))) && (a.Request? ==> a.mode == -1)
      && (a.Request? ==> z.last == t.now && z.cooldownUntil == s.cooldownUntil)
  {
    assert PickBySnr(l, g.snr) == -1;
  }

  /** So the requests never stop: there is one for every evaluation. */
  lemma {:induction false} NoAutoNeverStops(l: Ladder, c: Config, s: State, g: Signal, cur: nat, ts: seq<Moment>)
    requires Ordered(l) && s.penalized < |l.fsk| && cur < |l.fsk| && Calm(c, g)
    requires FastestAutoLora(l) < 0 && !l.fsk[cur] && AllEvaluate(c, s, ts)
    ensures Refused(l, c, s, g, cur, ts) == |ts|
    decreases |ts|
  {
    if ts != [] {
      var z := Decide(l, c, s, At(g, cur, ts[0])).0;
      KeepsPenalized(l, c, s, At(g, cur, ts[0]));
      NoAutoAsksForNone(l, c, s, g, cur, ts[0]);
      assert |ts| > 1 ==> ts[1].now - ts[0].now >= c.period;
      NoAutoNeverStops(l, c, z, g, cur, ts[1..]);
    }
  }

  // ---- how often the seesaw asks ----

  /** Ticks that all evaluate, inside a penalty. */
  ghost predicate Brisk(c: Config, s: State, ts: seq<Moment>) {
    && (forall i :: 0 <= i < |ts| ==> !ts[i].busy && ts[i].haveLink && s.cooldownUntil <= ts[i].now < s.penalizedUntil)
    && (ts != [] ==> ts[0].now - s.last >= c.period)
    && (forall i :: 0 <= i < |ts| - 1 ==> ts[i + 1].now - ts[i].now >= c.period)
  }

  /** Requests in n evaluations of the seesaw, from the fastest automatic rung with j confirmations of the climb. */
  function Climbs(n: nat, j: int, upStable: int): nat {
    if n == 0 then 0 else if j + 1 >= upStable then 1 + Drops(n - 1, upStable) else Climbs(n - 1, j + 1, upStable)
  }

  /** The same from the rung above, which the signal leaves at once. */
  function Drops(n: nat, upStable: int): nat { if n == 0 then 0 else 1 + Climbs(n - 1, 0, upStable) }

  /** With the seesaw on, every climb's worth of evaluations in a penalty is a climb and a descent. */
  lemma {:induction false} SeesawRequests(l: Ladder, c: Config, s: State, g: Signal, cur: nat, ts: seq<Moment>)
    requires Ordered(l) && s.penalized < |l.fsk| && Calm(c, g) && Seesaw(l, c, g, s.penalized)
    requires cur == FastestAutoLora(l) || cur == s.penalized + 1
    requires Brisk(c, s, ts)
    ensures Requests(l, c, s, g, cur, ts) ==
      if cur == FastestAutoLora(l) then Climbs(|ts|, if s.want == s.penalized + 1 then s.stable else 0, c.upStable)
      else Drops(|ts|, c.upStable)
    decreases |ts|
  {
    if ts != [] {
      SeesawNeverSettles(l, c, g, s.penalized);
      var x := At(g, cur, ts[0]);
      assert Target(l, c, s, x) == Next(l, c, g, s.penalized, cur);
      var (z, a) := Decide(l, c, s, x);
      RequestsInTable(l, c, s, x);
      SeesawTick(l, c, s, g, cur, ts[0]);
      assert |ts| > 1 ==> ts[1].now - ts[0].now >= c.period;
      SeesawRequests(l, c, z, g, if a.Request? then a.mode else cur, ts[1..]);
    }
  }

  lemma SeesawTick(l: Ladder, c: Config, s: State, g: Signal, cur: nat, t: Moment)
    requires Ordered(l) && s.penalized < |l.fsk| && Calm(c, g) && Seesaw(l, c, g, s.penalized)
    requires cur == FastestAutoLora(l) || cur == s.penalized + 1
    requires !t.busy && t.haveLink && s.cooldownUntil <= t.now < s.penalizedUntil && t.now - s.last >= c.period
    ensures
      var e, up := FastestAutoLora(l), s.penalized + 1;
      var j := if s.want == up then s.stable else 0;
      var (z, a) := Decide(l, c, s, At(g, cur, t));
      && z.last == t.now && z.cooldownUntil == s.cooldownUntil
      && (if cur == e && j + 1 < c.upStable then a == Stay && z.want == up && z.stable == j + 1
          else a == Request(if cur == e then up else e) && z.want == -1)
  {
    SeesawNeverSettles(l, c, g, s.penalized);
    MoreRobustIsSlower(l, s.penalized);
    assert Target(l, c, s, At(g, cur, t)) == Next(l, c, g, s.penalized, cur);
  }

  /** Over q cycles of upStable + 1 evaluations each: two requests a cycle. */
  lemma {:induction false} TwoPerCycle(q: nat, upStable: nat)
    requires upStable > 0
    ensures Climbs(q * (upStable + 1), 0, upStable) == 2 * q
    decreases q
  {
    if q > 0 {
      var n := (q - 1) * (upStable + 1);
      assert q * (upStable + 1) == n + 1 + upStable;
      ClimbTakes(n + 1, 0, upStable);
      TwoPerCycle(q - 1, upStable);
    }
  }

  lemma {:induction false} ClimbTakes(n: nat, j: nat, upStable: nat)
    requires j < upStable
    ensures Climbs(n + (upStable - j), j, upStable) == 1 + Drops(n, upStable)
    decreases upStable - j
  {
    if j + 1 < upStable { ClimbTakes(n, j + 1, upStable); }
  }

  /** A ladder whose presets are all automatic, as the firmware builds it, has no seesaw. */
  lemma FirmwareLadderHasNoSeesaw(l: Ladder, c: Config, g: Signal, failed: int)
    requires Ordered(l) && |l.fsk| > 0 && !l.fsk[0] && (l.autoTable.None? || l.autoTable.value[0])
    ensures FastestAutoLora(l) == 0 && !Seesaw(l, c, g, failed)
  {
    assert Is(l, AutoLora, 0);
  }
}
