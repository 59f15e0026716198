/**
 * When a fallback's promise fails: a later fallback replaces the penalty, and the mode that failed
 * before, or a faster one, can be climbed to again inside its penalty. Exactly when that can
 * happen, for any state the later fallback finds the controller in.
 */
module AdrPenalty {
  import opened Base
  import opened Adr
  import opened AdrRuns

  /** Where an input points while `failed` is penalised. */
  function Pointed(l: Ladder, c: Config, failed: int, x: Input): (r: int)
    requires Shaped(l) && failed < |l.fsk|
    ensures r < |l.fsk|
  {
    Target(l, c, Initial.(penalized := failed, penalizedUntil := x.now + 1), x)
  }

  /** The input counts for a climb to `first` or to a faster mode. */
  ghost predicate ClimbsBack(l: Ladder, c: Config, failed: int, first: int, x: Input)
    requires Shaped(l) && failed < |l.fsk| && first < |l.fsk|
  {
    && 0 <= x.cur < |l.fsk| && !l.fsk[x.cur] && x.retx < c.downRetx && x.retx <= c.upMaxRetx
    && Faster(l, Pointed(l, c, failed, x), x.cur) && !Faster(l, first, Pointed(l, c, failed, x))
  }

  /** Some mode and signal do. */
  ghost predicate Loose(l: Ladder, c: Config, failed: int, first: int)
    requires Shaped(l) && failed < |l.fsk| && first < |l.fsk|
  {
    exists x: Input :: ClimbsBack(l, c, failed, first, x)
  }

  /** Ticks in time order within the table. */
  ghost predicate Ticks(l: Ladder, xs: seq<Input>) {
    && (forall i :: 0 <= i < |xs| ==> xs[i].cur < |l.fsk|)
    && (forall i, j :: 0 <= i < j < |xs| ==> xs[i].now <= xs[j].now)
  }

  /** The controller before the last of some ticks. */
  function Before(l: Ladder, c: Config, s: State, xs: seq<Input>): (z: State)
    requires Shaped(l) && s.penalized < |l.fsk| && (forall i :: 0 <= i < |xs| ==> xs[i].cur < |l.fsk|)
    ensures z.penalized == s.penalized && z.penalizedUntil == s.penalizedUntil
    decreases |xs|
  {
    if |xs| <= 1 then s
    else
      TickKeepsPenalty(l, c, Before(l, c, s, xs[..|xs| - 1]), Tick(xs[|xs| - 2]));
      Decide(l, c, Before(l, c, s, xs[..|xs| - 1]), xs[|xs| - 2]).0
  }

  /** The last of the ticks climbs to `first` or to a faster mode, before the deadline. */
  ghost predicate Returned(l: Ladder, c: Config, s: State, xs: seq<Input>, first: int, deadline: nat)
    requires Shaped(l) && s.penalized < |l.fsk| && first < |l.fsk|
  {
    && xs != [] && Ticks(l, xs)
    && var x := xs[|xs| - 1];
       var a := Decide(l, c, Before(l, c, s, xs), x).1;
       x.now < deadline && a.Request? && a.mode < |l.fsk| && Faster(l, a.mode, x.cur) && !Faster(l, first, a.mode)
  }

  /** The first moment an evaluation can happen after a fallback. */
  function Earliest(c: Config, s: State): nat {
    if s.cooldownUntil > s.last + c.period then s.cooldownUntil else s.last + c.period
  }

  /** Evaluations a climb takes. */
  function Needed(c: Config): nat { if c.upStable > 1 then c.upStable else 1 }

  /** The evaluation clock has room for the confirmations the controller holds. */
  ghost predicate Timed(c: Config, s0: State, s: State) {
    && s.stable >= 0 && s.last >= s0.last && s.cooldownUntil >= s0.cooldownUntil
    && (s.stable >= 1 ==> s.last >= Earliest(c, s0) + (s.stable - 1) * c.period)
  }

  lemma MoreTime(n: nat, period: nat)
    requires n >= 1
    ensures (n - 1) * period + period == n * period
  {
  }

  lemma TickTimed(l: Ladder, c: Config, s0: State, s: State, x: Input)
    requires Ordered(l) && s.penalized < |l.fsk| && x.cur < |l.fsk| && Timed(c, s0, s)
    requires s0.cooldownUntil <= x.now + c.cooldown
    ensures Timed(c, s0, Decide(l, c, s, x).0)
    ensures var a := Decide(l, c, s, x).1;
      a.Request? && Faster(l, a.mode, x.cur) ==> x.now >= Earliest(c, s0) + (Needed(c) - 1) * c.period
  {
    hide Decide, Faster, Ordered, Needed;
    TickMoves(l, c, s, x);
    NeedsOne(c);
    Longer(s.stable, Needed(c) - 1, c.period);
    if x.now >= Earliest(c, s) { OneMoreConfirmed(c, s0, s, x.now); }
  }

  lemma OneMoreConfirmed(c: Config, s0: State, s: State, now: nat)
    requires Timed(c, s0, s) && now >= Earliest(c, s)
    ensures now >= Earliest(c, s0) + s.stable * c.period
  {
    if s.stable >= 1 { MoreTime(s.stable, c.period); }
  }

  /** What a tick does to the confirmations and the evaluation clock. */
  lemma TickMoves(l: Ladder, c: Config, s: State, x: Input)
    requires Ordered(l) && s.penalized < |l.fsk| && x.cur < |l.fsk| && s.stable >= 0
    ensures var (z, a) := Decide(l, c, s, x);
      && (z.last == s.last || z.last == x.now >= s.last + c.period)
      && (z.cooldownUntil == s.cooldownUntil || z.cooldownUntil == x.now + c.cooldown)
      && (z.stable == 0 || z.stable == s.stable
          || ((z.stable == 1 || z.stable == s.stable + 1) && z.last == x.now >= Earliest(c, s)))
      && (a.Request? && Faster(l, a.mode, x.cur) ==> s.stable + 1 >= Needed(c) && x.now >= Earliest(c, s))
  {
    if x.cur >= 0 { MoreRobustIsSlower(l, x.cur); }
    hide Target, MoreRobust;
  }

  lemma Longer(a: int, b: nat, period: nat)
    requires a >= 0
    ensures a >= b ==> a * period >= b * period
  {
  }

  lemma {:induction false} BeforeTimed(l: Ladder, c: Config, s: State, xs: seq<Input>)
    requires Ordered(l) && s.penalized < |l.fsk| && xs != [] && Timed(c, s, s)
    requires forall i :: 0 <= i < |xs| ==> xs[i].cur < |l.fsk| && s.cooldownUntil <= xs[i].now + c.cooldown
    ensures Timed(c, s, Before(l, c, s, xs))
    decreases |xs|
  {
    if |xs| > 1 {
      BeforeTimed(l, c, s, xs[..|xs| - 1]);
      TickTimed(l, c, s, Before(l, c, s, xs[..|xs| - 1]), xs[|xs| - 2]);
    }
  }

  /** Whatever its time, an input points where its signal and the penalty in force say. */
  lemma PointsThere(l: Ladder, c: Config, s: State, x: Input)
    requires Shaped(l) && s.penalized < |l.fsk| && (s.penalized >= 0 ==> x.now < s.penalizedUntil)
    ensures Target(l, c, s, x) == Pointed(l, c, s.penalized, x)
  {
  }

  lemma PointedAnyTime(l: Ladder, c: Config, failed: int, x: Input, z: Input)
    requires Shaped(l) && failed < |l.fsk| && z == x.(now := z.now, busy := z.busy, haveLink := z.haveLink)
    ensures Pointed(l, c, failed, z) == Pointed(l, c, failed, x)
  {
  }

  /** A climb back takes an input that points there. */
  lemma ReturnNeedsLoose(l: Ladder, c: Config, s: State, x: Input, first: int)
    requires Ordered(l) && s.penalized < |l.fsk| && first < |l.fsk| && x.cur < |l.fsk|
    requires s.penalized >= 0 ==> x.now < s.penalizedUntil
    requires
      var a := Decide(l, c, s, x).1;
      a.Request? && a.mode < |l.fsk| && Faster(l, a.mode, x.cur) && !Faster(l, first, a.mode)
    ensures ClimbsBack(l, c, s.penalized, first, x)
  {
    PointsThere(l, c, s, x);
    PointsThere(l, c, s.(last := x.now), x);
    MoreRobustIsSlower(l, x.cur);
    hide Target, Pointed, MoreRobust;
  }

  /** The same input, evaluated n times a period apart from `start` on. */
  function Repeated(x: Input, start: nat, period: nat, n: nat): (xs: seq<Input>)
    ensures |xs| == n
  {
    if n == 0 then []
    else Repeated(x, start, period, n - 1) + [x.(now := start + (n - 1) * period, busy := false, haveLink := true)]
  }

  lemma {:induction false} RepeatedTicks(l: Ladder, x: Input, start: nat, period: nat, n: nat)
    requires x.cur < |l.fsk|
    ensures var xs := Repeated(x, start, period, n);
      && Ticks(l, xs) && (forall i :: 0 <= i < n ==> start <= xs[i].now)
      && (n > 0 ==> forall i :: 0 <= i < n ==> xs[i].now <= xs[n - 1].now)
  {
    if n > 1 {
      RepeatedTicks(l, x, start, period, n - 1);
      MoreTime(n - 1, period);
    }
  }

  /** So repeated, a pointing input is confirmed each time, until the climb. */
  lemma {:induction false} RepeatedConfirms(l: Ladder, c: Config, s: State, x: Input, first: int, n: nat)
    requires Ordered(l) && s.penalized < |l.fsk| && first < |l.fsk| && ClimbsBack(l, c, s.penalized, first, x)
    requires s.want == -1 && s.stable == 0 && 1 <= n <= Needed(c)
    requires s.penalized >= 0 ==> Earliest(c, s) + (n - 1) * c.period < s.penalizedUntil
    ensures var xs := Repeated(x, Earliest(c, s), c.period, n);
      && (forall i :: 0 <= i < n ==> xs[i].cur < |l.fsk|)
      && var z := Before(l, c, s, xs);
         var m := Pointed(l, c, s.penalized, x);
         && z == s.(last := z.last, want := z.want, stable := n - 1)
         && (n == 1 ==> z == s) && (n > 1 ==> z.want == m && z.last == Earliest(c, s) + (n - 2) * c.period)
         && Decide(l, c, z, xs[n - 1]).1 == (if n == Needed(c) then Request(m) else Stay)
    decreases n
  {
    hide Decide, Pointed, Needed, Repeated;
    var e := Earliest(c, s);
    var xs, m := Repeated(x, e, c.period, n), Pointed(l, c, s.penalized, x);
    RepeatedTicks(l, x, e, c.period, n);
    RepeatedSnoc(x, e, c.period, n);
    if n > 1 {
      Longer(n - 1, n - 2, c.period);
      MoreTime(n - 1, c.period);
      RepeatedConfirms(l, c, s, x, first, n - 1);
      var z := Before(l, c, s, xs[..n - 1]);
      Confirmed(l, c, s, z, x, xs[n - 2], first, n - 2);
    }
    var z := Before(l, c, s, xs);
    Confirmed(l, c, s, z, x, xs[n - 1], first, n - 1);
  }

  lemma RepeatedSnoc(x: Input, start: nat, period: nat, n: nat)
    requires n >= 1
    ensures var xs := Repeated(x, start, period, n);
      && xs[..n - 1] == Repeated(x, start, period, n - 1)
      && xs[n - 1] == x.(now := start + (n - 1) * period, busy := false, haveLink := true)
      && (n >= 2 ==>
            && xs[n - 2] == xs[..n - 1][n - 2]
            && xs[n - 2] == x.(now := start + (n - 2) * period, busy := false, haveLink := true))
  {
  }

  /** One more confirmation: the climb once there are enough, else the count goes on. */
  lemma Confirmed(l: Ladder, c: Config, s: State, z: State, x: Input, y: Input, first: int, k: nat)
    requires Ordered(l) && s.penalized < |l.fsk| && first < |l.fsk| && ClimbsBack(l, c, s.penalized, first, x)
    requires z == s.(last := z.last, want := z.want, stable := k) && k < Needed(c)
    requires y == x.(now := y.now, busy := false, haveLink := true)
    requires y.now >= s.cooldownUntil && y.now - z.last >= c.period && (s.penalized >= 0 ==> y.now < s.penalizedUntil)
    requires if k == 0 then z.want == -1 else z.want == Pointed(l, c, s.penalized, x)
    ensures var m := Pointed(l, c, s.penalized, x);
      && Decide(l, c, z, y).1 == (if k + 1 == Needed(c) then Request(m) else Stay)
      && (k + 1 < Needed(c) ==> Decide(l, c, z, y).0 == s.(last := y.now, want := m, stable := k + 1))
  {
    PointsThere(l, c, z.(last := y.now), y);
    PointedAnyTime(l, c, s.penalized, x, y);
    hide Target, Pointed, MoreRobust;
  }

  /**
   * For every earlier failed mode and every state a later fallback finds the controller in: some
   * run before the deadline climbs back to that mode, or to a faster one, if and only if some mode
   * and signal point there under the later penalty, and the deadline leaves time after the
   * cooldown for the evaluations a climb takes.
   */
  lemma FailedModeReturnsIff(l: Ladder, c: Config, s0: State, t: nat, failed: int, first: int, deadline: nat)
    requires Ordered(l) && failed < |l.fsk| && first < |l.fsk| && deadline <= t + c.penalty
    ensures var s := Fallback(c, s0, t, failed);
      (exists xs: seq<Input> ::
         (forall i :: 0 <= i < |xs| ==> t <= xs[i].now) && Returned(l, c, s, xs, first, deadline)) <==>
        Loose(l, c, failed, first) && Earliest(c, s) + (Needed(c) - 1) * c.period < deadline
  {
    var s := Fallback(c, s0, t, failed);
    hide Returned, Loose, Earliest, Needed;
    forall xs: seq<Input> | (forall i :: 0 <= i < |xs| ==> t <= xs[i].now) && Returned(l, c, s, xs, first, deadline)
      ensures Loose(l, c, failed, first) && Earliest(c, s) + (Needed(c) - 1) * c.period < deadline
    {
      ReturnedNeeds(l, c, s0, t, failed, first, deadline, xs);
    }
    if Loose(l, c, failed, first) && Earliest(c, s) + (Needed(c) - 1) * c.period < deadline {
      var xs := Returning(l, c, s0, t, failed, first, deadline);
    }
  }

  lemma ReturnedNeeds(l: Ladder, c: Config, s0: State, t: nat, failed: int, first: int, deadline: nat, xs: seq<Input>)
    requires Ordered(l) && failed < |l.fsk| && first < |l.fsk| && deadline <= t + c.penalty
    requires (forall i :: 0 <= i < |xs| ==> t <= xs[i].now)
      && Returned(l, c, Fallback(c, s0, t, failed), xs, first, deadline)
    ensures Loose(l, c, failed, first)
    ensures Earliest(c, Fallback(c, s0, t, failed)) + (Needed(c) - 1) * c.period < deadline
  {
    hide Decide, Needed, ClimbsBack, Before;
    var s := Fallback(c, s0, t, failed);
    var x, z := xs[|xs| - 1], Before(l, c, s, xs);
    BeforeTimed(l, c, s, xs);
    TickTimed(l, c, s, z, x);
    ReturnNeedsLoose(l, c, z, x, first);
  }

  lemma Returning(l: Ladder, c: Config, s0: State, t: nat, failed: int, first: int, deadline: nat)
      returns (xs: seq<Input>)
    requires Ordered(l) && failed < |l.fsk| && first < |l.fsk| && deadline <= t + c.penalty
    requires Loose(l, c, failed, first)
    requires Earliest(c, Fallback(c, s0, t, failed)) + (Needed(c) - 1) * c.period < deadline
    ensures (forall i :: 0 <= i < |xs| ==> t <= xs[i].now)
      && Returned(l, c, Fallback(c, s0, t, failed), xs, first, deadline)
  {
    hide Decide, Needed, Before, Repeated, Pointed;
    var s := Fallback(c, s0, t, failed);
    var x: Input :| ClimbsBack(l, c, failed, first, x);
    var n := Needed(c);
    NeedsOne(c);
    xs := Repeated(x, Earliest(c, s), c.period, n);
    RepeatedTicks(l, x, Earliest(c, s), c.period, n);
    RepeatedSnoc(x, Earliest(c, s), c.period, n);
    RepeatedConfirms(l, c, s, x, first, n);
    assert xs[n - 1].cur == x.cur && xs[n - 1].now < deadline;
  }

  lemma NeedsOne(c: Config)
    ensures Needed(c) >= 1
  {
  }

  /**
   * On a ladder whose presets are all automatic, as the firmware builds it: for an earlier failed
   * LoRa mode, the later fallback was from no known mode or from a faster one, and the rung its
   * penalty leaves open is not the most robust. Where nothing is penalised later the GFSK rung
   * opens too, and that is the only way back to a failed GFSK mode.
   */
  lemma LooseIff(l: Ladder, c: Config, failed: int, first: nat)
    requires Ordered(l) && failed < |l.fsk| && first < |l.fsk| && FastestAutoLora(l) == 0
    ensures Loose(l, c, failed, first) <==> GfskOpens(l, c, failed) || LoraOpens(l, failed, first)
  {
    hide Pointed, GfskOpens, LoraOpens, ClimbsBack;
    if GfskOpens(l, c, failed) { var _ := GfskWay(l, c, failed, first); }
    if LoraOpens(l, failed, first) { var _ := LoraWay(l, c, failed, first); }
    forall x: Input | ClimbsBack(l, c, failed, first, x)
      ensures GfskOpens(l, c, failed) || LoraOpens(l, failed, first)
    {
      NoOtherWay(l, c, failed, first, x);
    }
  }

  ghost predicate GfskOpens(l: Ladder, c: Config, failed: int)
    requires Shaped(l)
  {
    failed < 0 && c.gfsk && Ludicrous(l) >= 0
  }

  ghost predicate LoraOpens(l: Ladder, failed: int, first: nat)
    requires Shaped(l) && failed < |l.fsk| && first < |l.fsk|
  {
    !l.fsk[first] && (failed < 0 || Faster(l, failed, first)) && OpenRung(l, failed) < LastLora(l)
  }

  function HighestLoss(c: Config): int { if c.downRetx - 1 < c.upMaxRetx then c.downRetx - 1 else c.upMaxRetx }

  lemma GfskWay(l: Ladder, c: Config, failed: int, first: nat) returns (x: Input)
    requires Ordered(l) && failed < |l.fsk| && first < |l.fsk| && FastestAutoLora(l) == 0 && GfskOpens(l, c, failed)
    ensures ClimbsBack(l, c, failed, first, x)
  {
    x := Input(0, false, true, 0, 0.0, c.gfskRssi, HighestLoss(c));
  }

  lemma LoraWay(l: Ladder, c: Config, failed: int, first: nat) returns (x: Input)
    requires Ordered(l) && failed < |l.fsk| && first < |l.fsk| && FastestAutoLora(l) == 0 && LoraOpens(l, failed, first)
    ensures ClimbsBack(l, c, failed, first, x)
  {
    x := Input(0, false, true, LastLora(l), l.floors[0] + l.margin, 0.0, HighestLoss(c));
    assert PickBySnr(l, x.snr) == 0;
  }

  lemma NoOtherWay(l: Ladder, c: Config, failed: int, first: nat, x: Input)
    requires Ordered(l) && failed < |l.fsk| && first < |l.fsk| && FastestAutoLora(l) == 0
      && ClimbsBack(l, c, failed, first, x)
    ensures GfskOpens(l, c, failed) || LoraOpens(l, failed, first)
  {
    PickIsFastestCleared(l, x.snr, 0);
    if failed >= 0 { MoreRobustIsSlower(l, failed); }
    MoreRobustIsSlower(l, x.cur);
    hide First;
  }

  /** The rung a penalty caps the target to; the fastest one without a penalty. */
  function OpenRung(l: Ladder, failed: int): int
    requires Shaped(l)
  {
    if failed < 0 then 0 else MoreRobust(l, failed)
  }
}
