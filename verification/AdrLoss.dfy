/**
 * The rate controller under loss: every evaluation that sees too much of it steps down by exactly
 * one preset, whatever the signal says and whatever is penalised, until the most robust one.
 */
module AdrLoss {
  import opened Base
  import opened Adr
  import opened AdrRuns

  /** The fastest LoRa preset slower than preset i. */
  ghost predicate NextDown(l: Ladder, i: nat, m: int)
    requires Shaped(l) && i < |l.fsk|
  {
    && 0 <= m < |l.fsk| && !l.fsk[m] && Faster(l, i, m)
    && (forall j :: 0 <= j < |l.fsk| && !l.fsk[j] && Faster(l, i, j) ==> !Faster(l, j, m))
  }

  /** The fastest LoRa preset that may be chosen automatically, or -1 if there is none. */
  ghost predicate FastestAutomatic(l: Ladder, m: int)
    requires Shaped(l)
  {
    && (m == -1 || (0 <= m < |l.fsk| && Is(l, AutoLora, m)))
    && (forall j :: 0 <= j < |l.fsk| && Is(l, AutoLora, j) ==> m != -1 && !Faster(l, j, m))
  }

  /** The slowest LoRa preset. */
  ghost predicate MostRobust(l: Ladder, i: nat)
    requires Shaped(l) && i < |l.fsk|
  {
    !l.fsk[i] && forall j :: 0 <= j < |l.fsk| && !l.fsk[j] ==> !Faster(l, i, j)
  }

  /**
   * An evaluation at or above the loss limit asks for another mode if and only if it is not at the
   * most robust preset: from LoRa the next one down, from GFSK the fastest automatic one. What was
   * being confirmed is forgotten, and the switch is timed from now.
   */
  lemma LossStepsDown(l: Ladder, c: Config, s: State, x: Input)
    requires Ordered(l) && s.penalized < |l.fsk| && x.cur < |l.fsk| && Evaluates(c, s, x) && x.retx >= c.downRetx
    ensures var (z, a) := Decide(l, c, s, x);
      && (a.Request? <==> !MostRobust(l, x.cur)) && (!a.Request? ==> a == Stay)
      && (a.Request? ==>
            && (if l.fsk[x.cur] then FastestAutomatic(l, a.mode) else NextDown(l, x.cur, a.mode))
            && z == s.(last := x.now, switchAt := x.now, want := -1, stable := 0))
  {
    MoreRobustIsSlower(l, x.cur);
    if x.cur < LastLora(l) { assert Faster(l, x.cur, LastLora(l)); }
  }

  /** The mode and the number of requests after ticks that all see loss, every request granted. */
  function Driven(l: Ladder, c: Config, s: State, cur: nat, xs: seq<Input>): (r: (int, nat))
    requires Ordered(l) && s.penalized < |l.fsk| && cur < |l.fsk| && FastestAutoLora(l) >= 0
    decreases |xs|
  {
    if xs == [] then (cur, 0)
    else
      var x := xs[0].(cur := cur);
      var (z, a) := Decide(l, c, s, x);
      KeepsPenalized(l, c, s, x);
      if a.Request? && 0 <= a.mode < |l.fsk| then
        var (m, n) := Driven(l, c, z, a.mode, xs[1..]);
        (m, n + 1)
      else Driven(l, c, z, cur, xs[1..])
  }

  /** Ticks that all evaluate, each seeing loss, the signal being anything. */
  ghost predicate Lossy(c: Config, s: State, xs: seq<Input>) {
    && (forall i :: 0 <= i < |xs| ==>
          !xs[i].busy && xs[i].haveLink && s.cooldownUntil <= xs[i].now && xs[i].retx >= c.downRetx)
    && (xs != [] ==> xs[0].now - s.last >= c.period)
    && (forall i :: 0 <= i < |xs| - 1 ==> xs[i + 1].now - xs[i].now >= c.period)
  }

  /** How many presets down the most robust one is. */
  function StepsDown(l: Ladder, cur: nat): nat
    requires Ordered(l) && cur < |l.fsk| && FastestAutoLora(l) >= 0
  {
    if l.fsk[cur] then 1 + LastLora(l) - FastestAutoLora(l) else LastLora(l) - cur
  }

  /**
   * Lasting loss drives the link to the most robust preset and leaves it there: a request at every
   * evaluation until it is reached, no more than there are presets, and none after.
   */
  lemma {:induction false} LossReachesTheBottom(l: Ladder, c: Config, s: State, cur: nat, xs: seq<Input>)
    requires Ordered(l) && s.penalized < |l.fsk| && cur < |l.fsk| && FastestAutoLora(l) >= 0 && Lossy(c, s, xs)
    ensures StepsDown(l, cur) <= |l.fsk|
    ensures var (m, n) := Driven(l, c, s, cur, xs);
      && n == Min(|xs|, StepsDown(l, cur))
      && 0 <= m < |l.fsk| && (|xs| >= StepsDown(l, cur) ==> MostRobust(l, m))
    decreases |xs|
  {
    BottomIsLast(l, cur);
    if xs != [] {
      var x := xs[0].(cur := cur);
      var (z, a) := Decide(l, c, s, x);
      LossStepsDown(l, c, s, x);
      LossTick(l, c, s, x);
      KeepsPenalized(l, c, s, x);
      assert |xs| > 1 ==> xs[1].now - xs[0].now >= c.period;
      hide Decide, MostRobust, NextDown, FastestAutomatic;
      LossReachesTheBottom(l, c, z, if a.Request? then a.mode else cur, xs[1..]);
    }
  }

  /** One such tick, in steps down. */
  lemma LossTick(l: Ladder, c: Config, s: State, x: Input)
    requires Ordered(l) && s.penalized < |l.fsk| && x.cur < |l.fsk| && FastestAutoLora(l) >= 0
    requires Evaluates(c, s, x) && x.retx >= c.downRetx
    ensures var (z, a) := Decide(l, c, s, x);
      && (a.Request? <==> StepsDown(l, x.cur) > 0)
      && (a.Request? ==> 0 <= a.mode < |l.fsk| && StepsDown(l, a.mode) == StepsDown(l, x.cur) - 1)
      && z.last == x.now && z.cooldownUntil == s.cooldownUntil
  {
    MoreRobustIsSlower(l, x.cur);
    FastestBelowLast(l);
  }

  lemma FastestBelowLast(l: Ladder)
    requires Ordered(l)
    ensures FastestAutoLora(l) <= LastLora(l)
  {
  }

  lemma BottomIsLast(l: Ladder, cur: nat)
    requires Ordered(l) && cur < |l.fsk| && FastestAutoLora(l) >= 0
    ensures StepsDown(l, cur) <= |l.fsk| && (StepsDown(l, cur) == 0 ==> MostRobust(l, cur))
  {
    FastestBelowLast(l);
  }
}
