/**
 * When the rate controller may ask at all: never more often than its period, never without a link,
 * while a switch is in flight or while it cools down; a switch that cannot complete is given up;
 * and the GFSK rung is reached for only when the link is strong.
 */
module AdrSwitch {
  import opened Base
  import opened Adr
  import opened AdrRuns

  // ---- a switch in flight ----

  /** The controller after some ticks. */
  function Ticked(l: Ladder, c: Config, s: State, xs: seq<Input>): (z: State)
    requires Shaped(l) && s.penalized < |l.fsk| && (forall i :: 0 <= i < |xs| ==> xs[i].cur < |l.fsk|)
    ensures z.penalized == s.penalized
    decreases |xs|
  {
    if xs == [] then s
    else
      KeepsPenalized(l, c, s, xs[0]);
      Ticked(l, c, Decide(l, c, s, xs[0]).0, xs[1..])
  }

  /** Ticks in the order of time, all while a switch is in flight. */
  ghost predicate InFlight(l: Ladder, xs: seq<Input>, since: nat) {
    && (forall i :: 0 <= i < |xs| ==> xs[i].cur < |l.fsk| && xs[i].busy && since <= xs[i].now)
    && (forall i, j :: 0 <= i < j < |xs| ==> xs[i].now <= xs[j].now)
  }

  lemma {:induction false} InFlightWaits(l: Ladder, c: Config, s: State, xs: seq<Input>, since: nat)
    requires Ordered(l) && s.penalized < |l.fsk| && InFlight(l, xs, since)
    ensures Ticked(l, c, s, xs).switchAt == s.switchAt
    decreases |xs|
  {
    if xs != [] {
      KeepsPenalized(l, c, s, xs[0]);
      InFlightWaits(l, c, Decide(l, c, s, xs[0]).0, xs[1..], since);
    }
  }

  /**
   * A request is waited for: while the switch it began is in flight nothing is asked, and a due tick
   * gives it up if and only if it comes later than the timeout after the request. From then on, until
   * the cooldown is over, nothing is asked either, whatever the link looks like.
   */
  lemma SwitchGivenUp(l: Ladder, c: Config, s: State, x: Input, xs: seq<Input>, y: Input)
    requires Ordered(l) && s.penalized < |l.fsk| && x.cur < |l.fsk| && Decide(l, c, s, x).1.Request?
    requires InFlight(l, xs + [y], x.now) && y.cur < |l.fsk|
    ensures Decide(l, c, s, x).0.penalized < |l.fsk| && (forall i :: 0 <= i < |xs| ==> xs[i].cur < |l.fsk|)
    ensures
      var z := Ticked(l, c, Decide(l, c, s, x).0, xs);
      var (w, a) := Decide(l, c, z, y);
      && (a == AbandonSwitch <==> Due(c, z, y) && y.now - x.now > c.switchTimeout) && (a != AbandonSwitch ==> a == Stay)
      && (a == AbandonSwitch ==> w.cooldownUntil == y.now + c.cooldown && w.want == -1)
  {
    KeepsPenalized(l, c, s, x);
    assert forall i :: 0 <= i < |xs| ==> xs[i] == (xs + [y])[i];
    assert (xs + [y])[|xs|] == y;
    RequestStarts(l, c, s, x);
    InFlightWaits(l, c, Decide(l, c, s, x).0, xs, x.now);
  }

  lemma RequestStarts(l: Ladder, c: Config, s: State, x: Input)
    requires Shaped(l) && s.penalized < |l.fsk| && x.cur < |l.fsk| && Decide(l, c, s, x).1.Request?
    ensures Decide(l, c, s, x).0.switchAt == x.now
  {
  }

  // ---- when it asks ----

  /** Every cooldown outlasts the times before it: no run asks for anything before it is over. */
  lemma {:induction false} NothingInCooldown(l: Ladder, c: Config, s: State, evs: seq<Event>, x: Input, until: nat)
    requires Ordered(l) && s.penalized < |l.fsk| && s.cooldownUntil >= until && x.cur < |l.fsk| && x.now < until
    requires (forall i :: 0 <= i < |evs| ==> Fits(l, evs[i]) && until <= TimeOf(evs[i]) + c.cooldown)
    ensures FromTo(l, c, s, evs).penalized < |l.fsk|
    ensures !Decide(l, c, FromTo(l, c, s, evs), x).1.Request?
    decreases |evs|
  {
    if evs != [] {
      var z := Step(l, c, s, evs[0]).0;
      StepFits(l, c, s, evs[0]);
      CooldownHolds(l, c, s, evs[0], until);
      NothingInCooldown(l, c, z, evs[1..], x, until);
    }
  }

  /** The controller after some events. */
  function FromTo(l: Ladder, c: Config, s: State, evs: seq<Event>): (z: State)
    requires Shaped(l) && s.penalized < |l.fsk| && (forall i :: 0 <= i < |evs| ==> Fits(l, evs[i]))
    ensures z.penalized < |l.fsk|
    decreases |evs|
  {
    if evs == [] then s
    else
      StepFits(l, c, s, evs[0]);
      FromTo(l, c, Step(l, c, s, evs[0]).0, evs[1..])
  }

  lemma StepFits(l: Ladder, c: Config, s: State, ev: Event)
    requires Shaped(l) && s.penalized < |l.fsk| && Fits(l, ev)
    ensures Step(l, c, s, ev).0.penalized < |l.fsk|
  {
    TickKeepsPenalty(l, c, s, ev);
  }

  lemma CooldownHolds(l: Ladder, c: Config, s: State, ev: Event, until: nat)
    requires Shaped(l) && s.penalized < |l.fsk| && Fits(l, ev) && s.cooldownUntil >= until
      && until <= TimeOf(ev) + c.cooldown
    ensures Step(l, c, s, ev).0.cooldownUntil >= until
  {
    hide Target, MoreRobust;
  }

  /** Giving up a switch, and falling back, each start a full cooldown. */
  lemma CooldownStarts(l: Ladder, c: Config, s: State, ev: Event)
    requires Shaped(l) && s.penalized < |l.fsk| && Fits(l, ev)
    requires ev.Fell? || Step(l, c, s, ev).1 == AbandonSwitch
    ensures Step(l, c, s, ev).0.cooldownUntil == TimeOf(ev) + c.cooldown
  {
  }

  /**
   * A request needs a link with no switch in flight, in a known mode, out of the cooldown and a period
   * after the last look.
   */
  lemma AsksOnlyWhen(l: Ladder, c: Config, s: State, x: Input)
    requires Shaped(l) && s.penalized < |l.fsk| && x.cur < |l.fsk| && Decide(l, c, s, x).1.Request?
    ensures x.haveLink && !x.busy && x.cur >= 0 && x.now >= s.cooldownUntil && x.now - s.last >= c.period
    ensures Decide(l, c, s, x).0.last == x.now
  {
  }

  /** No fewer than a period lies between one request and the next, whatever happens in between. */
  lemma {:induction false} RequestsApart(l: Ladder, c: Config, s: State, evs: seq<Event>, x: Input, t: nat)
    requires Ordered(l) && s.penalized < |l.fsk| && s.last >= t && x.cur < |l.fsk|
    requires forall i :: 0 <= i < |evs| ==> Fits(l, evs[i]) && TimeOf(evs[i]) >= t
    requires Decide(l, c, FromTo(l, c, s, evs), x).1.Request?
    ensures x.now - t >= c.period
    decreases |evs|
  {
    if evs == [] {
      AsksOnlyWhen(l, c, s, x);
    } else {
      StepFits(l, c, s, evs[0]);
      LastGrows(l, c, s, evs[0], t);
      RequestsApart(l, c, Step(l, c, s, evs[0]).0, evs[1..], x, t);
    }
  }

  lemma LastGrows(l: Ladder, c: Config, s: State, ev: Event, t: nat)
    requires Shaped(l) && s.penalized < |l.fsk| && Fits(l, ev) && s.last >= t && TimeOf(ev) >= t
    ensures Step(l, c, s, ev).0.last >= t
  {
    hide Target, MoreRobust;
  }

  // ---- the GFSK rung ----

  /**
   * An evaluation counts for the GFSK rung if and only if that is enabled and there is one, the link
   * is on the fastest automatic LoRa preset, strong and with little loss, and nothing is penalised.
   */
  lemma GfskPointedIff(l: Ladder, c: Config, s: State, x: Input)
    requires Ordered(l) && s.penalized < |l.fsk| && 0 <= x.cur < |l.fsk| && !l.fsk[x.cur]
    requires Evaluates(c, s, x) && x.retx < c.downRetx
    ensures
      var v := VerdictOf(l, c, s, Tick(x));
      v.Counts? && IsFsk(l, v.mode) <==>
        && c.gfsk && (exists i :: 0 <= i < |l.fsk| && l.fsk[i]) && FastestAutomaticIs(l, x.cur)
        && x.rssi >= c.gfskRssi && x.retx <= c.upMaxRetx && !Penalising(s, x.now)
  {
    if FastestAutoLora(l) >= 0 { PickIsFastestCleared(l, x.snr, FastestAutoLora(l)); }
    if s.penalized >= 0 { MoreRobustIsSlower(l, s.penalized); }
    LudicrousIs(l);
    FastestIs(l, x.cur);
    PickNotFsk(l, x.snr);
    hide First, PickBySnr;
  }

  lemma LudicrousIs(l: Ladder)
    requires Shaped(l)
    ensures Ludicrous(l) >= 0 <==> exists i :: 0 <= i < |l.fsk| && l.fsk[i]
    ensures Ludicrous(l) >= 0 ==> IsFsk(l, Ludicrous(l))
  {
    assert forall i :: 0 <= i < |l.fsk| && l.fsk[i] ==> Is(l, Fsk, i);
  }

  lemma FastestIs(l: Ladder, i: nat)
    requires Shaped(l)
    ensures FastestAutomaticIs(l, i) <==> i == FastestAutoLora(l)
  {
  }

  lemma PickNotFsk(l: Ladder, snr: real)
    requires Shaped(l)
    ensures !IsFsk(l, PickBySnr(l, snr))
  {
  }

  ghost predicate FastestAutomaticIs(l: Ladder, i: nat)
    requires Shaped(l)
  {
    i < |l.fsk| && Is(l, AutoLora, i) && forall j :: 0 <= j < i ==> !Is(l, AutoLora, j)
  }

  /** On the GFSK rung only loss leads away from it. */
  lemma GfskHeld(l: Ladder, c: Config, s: State, x: Input)
    requires Shaped(l) && s.penalized < |l.fsk| && 0 <= x.cur < |l.fsk| && l.fsk[x.cur] && x.retx < c.downRetx
    ensures !Decide(l, c, s, x).1.Request?
  {
  }
}
