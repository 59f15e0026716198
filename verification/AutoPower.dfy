/**
 * Automatic transmit power: one feedback step, the loop on a fixed channel, and the loop coupled
 * with the rate controller, which the power target must leave room to climb.
 */
module AutoPower {
  import opened Base
  import opened Adr

  const MARGIN_HI: int := 12
  const MARGIN_LO: int := 6
  const STEP_DB: int := 2

  type i8 = x: int | -128 <= x < 128

  function Int8(x: int): i8 { if x % 256 < 128 then x % 256 else x % 256 - 256 }

  /** Round half away from zero, as lroundf does. */
  function Lround(x: real): int {
    if x >= 0.0 then (x + 0.5).Floor else -((-x + 0.5).Floor)
  }

  function Ceil(x: real): int { -((-x).Floor) }

  /** The next power: up when the peer has gone silent or hears us marginally, down when it hears us well. */
  function PowerStep(tx: i8, peerSnr: int, floor: int, lo: i8, hi: i8, silent: bool): i8 {
    if silent then
      var t := if tx < hi then Int8(tx + STEP_DB) else tx;
      if t > hi then hi else t
    else
      var margin := peerSnr - floor;
      if margin > MARGIN_HI && tx > lo then Int8(tx - STEP_DB)
      else if margin < MARGIN_LO && tx < hi then Int8(tx + STEP_DB)
      else tx
  }

  function TargetFloor(adr: bool, floor: int, nextFloor: int, hasFaster: bool): int {
    if adr && hasFaster then nextFloor else floor
  }

  /** A measured SNR as the telemetry byte, and back. */
  function SnrToAux(snr: real): u8 {
    Wrap8(Lround(if snr > 127.0 then 127.0 else if snr < -128.0 then -128.0 else snr))
  }

  /** What the peer reads back is the measurement rounded to a whole dB and clamped to the byte's range. */
  lemma AuxReadsBack(snr: real)
    ensures var r := Int8(SnrToAux(snr)) as real;
      if snr >= 127.0 then r == 127.0 else if snr <= -128.0 then r == -128.0 else -0.5 <= r - snr <= 0.5
  {
    var x := if snr > 127.0 then 127.0 else if snr < -128.0 then -128.0 else snr;
    LroundClose(x);
    assert -128 <= Lround(x) <= 127;
    Int8OfWrap(Lround(x));
  }

  lemma LroundClose(x: real)
    ensures -0.5 <= Lround(x) as real - x <= 0.5
  {
  }

  lemma Int8OfWrap(v: i8)
    ensures Int8(Wrap8(v)) == v
  {
  }

  /** A ceiling is the least whole number not below. */
  lemma CeilBounds(x: real, n: int)
    ensures x <= Ceil(x) as real < x + 1.0
    ensures n as real < x <==> n < Ceil(x)
  {
  }

  // ---- the power loop alone ----

  /** Power limits a 2 dB step from inside them cannot carry past the 8-bit range. */
  ghost predicate Limits(lo: i8, hi: i8) { -127 <= lo && hi <= 126 }

  /** How far the loop still has to go: 0 exactly when it holds. */
  function Distance(tx: i8, margin: int, lo: i8, hi: i8): nat {
    if margin > MARGIN_HI && tx > lo then Min(margin - MARGIN_HI, tx - lo)
    else if margin < MARGIN_LO && tx < hi then Min(MARGIN_LO - margin, hi - tx)
    else 0
  }

  /** On a channel where the peer hears us at tx - path. */
  lemma StepCloses(tx: i8, path: int, floor: int, lo: i8, hi: i8)
    requires Limits(lo, hi)
    ensures
      var t := PowerStep(tx, tx - path, floor, lo, hi, false);
      var d := Distance(tx, tx - path - floor, lo, hi);
      && (d == 0 <==> t == tx)
      && (d > 0 ==> Distance(t, t - path - floor, lo, hi) < d)
      && (lo - 1 <= tx <= hi + 1 ==> lo - 1 <= t <= hi + 1)
      && (t < tx ==> tx - path - floor > MARGIN_HI && t == tx - STEP_DB)
      && (t > tx ==> tx - path - floor < MARGIN_LO && t == tx + STEP_DB)
      && d <= 255
  {
    if tx > lo { InRange(tx - STEP_DB); }
    if tx < hi { InRange(tx + STEP_DB); }
    hide Int8;
  }

  /**
   * Inside its limits, a step leaves them exactly when it starts one dB from the one it moves to; a
   * silent one never.
   */
  lemma LeavesLimits(tx: i8, peerSnr: int, floor: int, lo: i8, hi: i8)
    requires Limits(lo, hi) && lo <= tx <= hi
    ensures
      var t := PowerStep(tx, peerSnr, floor, lo, hi, false);
      && (t < lo <==> tx == lo + 1 && peerSnr - floor > MARGIN_HI)
      && (t > hi <==> tx == hi - 1 && peerSnr - floor < MARGIN_LO)
    ensures tx <= PowerStep(tx, peerSnr, floor, lo, hi, true) <= hi
  {
    if tx > lo { InRange(tx - STEP_DB); }
    if tx < hi { InRange(tx + STEP_DB); }
    hide Int8;
  }

  lemma InRange(v: i8)
    ensures Int8(v) == v
  {
  }

  function Hold(tx: i8, path: int, floor: int, lo: i8, hi: i8, n: nat): i8
    decreases n
  {
    if n == 0 then tx else Hold(PowerStep(tx, tx - path, floor, lo, hi, false), path, floor, lo, hi, n - 1)
  }

  /**
   * On a fixed channel the loop reaches within 255 steps a power it never leaves. There the margin
   * is in the dead band, or the power is against the limit that stops it getting there.
   */
  lemma {:induction false} FixedChannelSettles(tx: i8, path: int, floor: int, lo: i8, hi: i8, n: nat)
    requires Limits(lo, hi) && n >= Distance(tx, tx - path - floor, lo, hi)
    ensures
      var t := Hold(tx, path, floor, lo, hi, n);
      && PowerStep(t, t - path, floor, lo, hi, false) == t
      && Hold(tx, path, floor, lo, hi, n + 1) == t
      && (MARGIN_LO <= t - path - floor <= MARGIN_HI
          || (t - path - floor > MARGIN_HI && t <= lo) || (t - path - floor < MARGIN_LO && t >= hi))
    decreases n
  {
    StepCloses(tx, path, floor, lo, hi);
    if n > 0 {
      FixedChannelSettles(PowerStep(tx, tx - path, floor, lo, hi, false), path, floor, lo, hi, n - 1);
    }
  }

  /**
   * What it settles for: in a mode that is chosen automatically and has a faster one, the margin is
   * over the next floor, so that there is room to climb; in a pinned mode, and in the fastest one, it
   * is over the mode's own.
   */
  lemma SettlesOverTarget(tx: i8, path: int, floor: int, nextFloor: int, adr: bool, faster: bool, lo: i8, hi: i8)
    requires Limits(lo, hi)
    ensures
      var t := Hold(tx, path, TargetFloor(adr, floor, nextFloor, faster), lo, hi, 255);
      var over := if adr && faster then t - path - nextFloor else t - path - floor;
      MARGIN_LO <= over <= MARGIN_HI || (over > MARGIN_HI && t <= lo) || (over < MARGIN_LO && t >= hi)
  {
    var target := TargetFloor(adr, floor, nextFloor, faster);
    StepCloses(tx, path, target, lo, hi);
    FixedChannelSettles(tx, path, target, lo, hi, 255);
  }

  /** n steps in which the peer is not heard. */
  function Unheard(tx: i8, floor: int, lo: i8, hi: i8, snrs: seq<int>): i8
    decreases |snrs|
  {
    if snrs == [] then tx else Unheard(PowerStep(tx, snrs[0], floor, lo, hi, true), floor, lo, hi, snrs[1..])
  }

  /** A silent peer drives the power up by two each step, whatever it last reported, to the ceiling and no further. */
  lemma {:induction false} SilenceRaises(tx: i8, floor: int, lo: i8, hi: i8, snrs: seq<int>)
    requires hi <= 126
    ensures snrs != [] || tx <= hi ==>
      Unheard(tx, floor, lo, hi, snrs) == if tx + STEP_DB * |snrs| < hi then tx + STEP_DB * |snrs| else hi
    decreases |snrs|
  {
    if snrs != [] {
      if tx < hi { InRange(tx + STEP_DB); }
      SilenceRaises(PowerStep(tx, snrs[0], floor, lo, hi, true), floor, lo, hi, snrs[1..]);
    }
  }

  /** With the ceiling at the top of the 8-bit range an even power wraps round and never settles. */
  lemma {:induction false} TopOfRangeNeverSettles(tx: i8, path: int, floor: int, lo: i8, n: nat)
    requires tx % 2 == 0 && 127 - path - floor < MARGIN_LO
    ensures
      var t := Hold(tx, path, floor, lo, 127, n);
      t % 2 == 0 && PowerStep(t, t - path, floor, lo, 127, false) != t
    decreases n
  {
    if n > 0 {
      TopOfRangeNeverSettles(PowerStep(tx, tx - path, floor, lo, 127, false), path, floor, lo, n - 1);
    }
  }

  // ---- the loop coupled with the rate controller ----

  /** LoRa presets with falling floors, all automatic, with the margin the power loop holds. */
  ghost predicate Stepped(l: Ladder) {
    && Ordered(l) && |l.fsk| > 0 && !l.fsk[0] && l.margin == 6.0
    && (forall i :: 0 <= i < |l.fsk| ==> AutoOk(l, i))
    && (forall i, j :: 0 <= i <= j < |l.fsk| && !l.fsk[j] ==> l.floors[i] >= l.floors[j])
  }

  /** The floor the power loop aims at in a LoRa mode: one rung ahead, rounded up. */
  function Aim(l: Ladder, mode: nat): int
    requires Shaped(l) && mode < |l.fsk|
  {
    TargetFloor(true, Lround(l.floors[mode]), if mode > 0 then Ceil(l.floors[mode - 1]) else 0, mode > 0)
  }

  datatype Plant = Plant(path: int, lo: i8, hi: i8, rssi: real, retx: int)

  datatype Loop = Loop(adr: State, mode: nat, tx: i8)

  /** A channel and limits on which the rate controller sees no loss and no GFSK rung. */
  ghost predicate Plain(c: Config, p: Plant) {
    Limits(p.lo, p.hi) && p.retx < c.downRetx && p.retx <= c.upMaxRetx && !c.gfsk
  }

  ghost predicate LoopValid(l: Ladder, s: Loop) {
    Stepped(l) && s.mode < |l.fsk| && !l.fsk[s.mode] && s.adr.penalized == -1 && s.adr.stable >= 0
  }

  function Sense(s: Loop, p: Plant, now: nat): Input {
    Input(now, false, true, s.mode, (s.tx - p.path) as real, p.rssi, p.retx)
  }

  /** One tick: the rate controller on the measured SNR, then the power step for the mode now in force. */
  function Both(l: Ladder, c: Config, s: Loop, p: Plant, now: nat): Loop
    requires LoopValid(l, s)
  {
    var (z, a) := Decide(l, c, s.adr, Sense(s, p, now));
    var mode := if a.Request? && 0 <= a.mode < |l.fsk| then a.mode else s.mode;
    Loop(z, mode, PowerStep(s.tx, s.tx - p.path, Aim(l, mode), p.lo, p.hi, false))
  }

  function Pick(l: Ladder, s: Loop, p: Plant): int
    requires Shaped(l)
  {
    PickBySnr(l, (s.tx - p.path) as real)
  }

  /** The signal clears the current mode, so the rate controller has no reason to step down. */
  ghost predicate Cleared(l: Ladder, mode: nat, snr: int)
    requires Shaped(l) && mode < |l.fsk|
  {
    Clears(l, mode, snr as real)
  }

  /** The pick on a stepped ladder: the smallest index that clears, else the last LoRa preset. */
  lemma PickIs(l: Ladder, snr: int, i: nat)
    requires Stepped(l) && i < |l.fsk| && !l.fsk[i]
    ensures var q := PickBySnr(l, snr as real);
      && 0 <= q < |l.fsk| && !l.fsk[q]
      && (Cleared(l, i, snr) ==> q <= i && Cleared(l, q, snr))
      && (q <= i && Cleared(l, q, snr) && l.floors[i] <= l.floors[q] ==> Cleared(l, i, snr))
      && (!Cleared(l, q, snr) ==> i <= q)
      && (i < q ==> !Cleared(l, i, snr))
  {
    PickIsFastestCleared(l, snr as real, i);
  }

  /** Due, out of cooldown, and able to keep being so. */
  ghost predicate Ready(c: Config, s: Loop, now: nat) { now - s.adr.last >= c.period && now >= s.adr.cooldownUntil }

  /** What the rate half of a ready tick does. */
  lemma RateHalf(l: Ladder, c: Config, s: Loop, p: Plant, now: nat)
    requires LoopValid(l, s) && Plain(c, p) && Ready(c, s, now)
    ensures
      var q, z := Pick(l, s, p), Both(l, c, s, p, now);
      && LoopValid(l, z) && z.adr.last == now && z.adr.cooldownUntil == s.adr.cooldownUntil
      && 0 <= q < |l.fsk| && !l.fsk[q]
      && (q == s.mode ==> z.mode == s.mode)
      && (q > s.mode ==> z.mode == q)
      && (q < s.mode ==> z.mode == q || (z.mode == s.mode && Waiting(c, z, q) < Waiting(c, s, q)))
  {
    PickIs(l, s.tx - p.path, 0);
  }

  /** Evaluations still wanted before a climb to q. */
  function Waiting(c: Config, s: Loop, q: int): nat {
    var need := if c.upStable > 0 then c.upStable else 0;
    if s.adr.want == q then (if need > s.adr.stable then need - s.adr.stable else 0) else need
  }

  /** The power step never gives up a cleared mode. */
  lemma PowerKeepsCleared(l: Ladder, mode: nat, tx: i8, p: Plant)
    requires Stepped(l) && mode < |l.fsk| && !l.fsk[mode] && Limits(p.lo, p.hi)
    requires Cleared(l, mode, tx - p.path)
    ensures Cleared(l, mode, PowerStep(tx, tx - p.path, Aim(l, mode), p.lo, p.hi, false) - p.path)
  {
    StepCloses(tx, p.path, Aim(l, mode), p.lo, p.hi);
    LroundClose(l.floors[mode]);
    if mode > 0 { CeilBounds(l.floors[mode - 1], 0); }
  }

  function Gap(l: Ladder, s: Loop, p: Plant): nat
    requires Shaped(l) && s.mode < |l.fsk|
  {
    Distance(s.tx, s.tx - p.path - Aim(l, s.mode), p.lo, p.hi)
  }

  /** Mode and power are where both loops leave them. */
  ghost predicate AtRest(l: Ladder, s: Loop, p: Plant)
    requires LoopValid(l, s)
  {
    Pick(l, s, p) == s.mode && Gap(l, s, p) == 0
  }

  /** Rest is kept for good, and means the fastest LoRa preset or full power. */
  lemma RestIsFinal(l: Ladder, c: Config, s: Loop, p: Plant, now: nat)
    requires LoopValid(l, s) && Plain(c, p) && Ready(c, s, now) && AtRest(l, s, p)
    ensures var z := Both(l, c, s, p, now); z.mode == s.mode && z.tx == s.tx && LoopValid(l, z) && AtRest(l, z, p)
  {
    RateHalf(l, c, s, p, now);
    StepCloses(s.tx, p.path, Aim(l, s.mode), p.lo, p.hi);
  }

  /** No preset but the fastest is a resting place unless the power is at its limit. */
  lemma NoRestBelowTheTop(l: Ladder, s: Loop, p: Plant)
    requires LoopValid(l, s) && Limits(p.lo, p.hi) && AtRest(l, s, p)
    ensures s.mode == 0 || s.tx >= p.hi
  {
    if s.mode > 0 {
      PickIs(l, s.tx - p.path, s.mode - 1);
      CeilBounds(l.floors[s.mode - 1] + 6.0, s.tx - p.path);
      CeilBounds(l.floors[s.mode - 1], s.tx - p.path - 6);
    }
  }

  /** Rounding the next floor to nearest instead lets the loops rest on a slower preset with power to spare. */
  lemma NearestRoundingParks(tx: i8, lo: i8, hi: i8)
    requires lo < tx < hi
    ensures
      var l := Ladder([-5.0, -7.5, -7.5, -12.5, -20.0], [false, false, false, false, false], None, 6.0);
      && Stepped(l) && PickBySnr(l, -2.0) == 3
      && PowerStep(tx, -2, TargetFloor(true, Lround(l.floors[3]), Lround(l.floors[2]), true), lo, hi, false) == tx
      && PowerStep(tx, -2, Aim(l, 3), lo, hi, false) != tx
  {
    var l := Ladder([-5.0, -7.5, -7.5, -12.5, -20.0], [false, false, false, false, false], None, 6.0);
    PickIs(l, -2, 2);
    PickIs(l, -2, 3);
    CeilBounds(-7.5, -8);
    CeilBounds(-7.5, -7);
  }

  // ---- every coupled run comes to rest ----

  function Weigh(m: nat, g: nat, w: nat, v: nat): nat { Product(m * 256 + g, v) + w }

  function Product(a: nat, v: nat): nat { if a == 0 then 0 else Product(a - 1, v) + v }

  lemma {:induction false} ProductGrows(a: nat, b: nat, v: nat)
    requires a < b
    ensures Product(a, v) + v <= Product(b, v)
    decreases b
  {
    if a < b - 1 { ProductGrows(a, b - 1, v); }
  }

  /** The weight orders triples lexicographically, as long as the parts stay in range. */
  lemma Lower(m: nat, g: nat, w: nat, m': nat, g': nat, w': nat, v: nat)
    requires g' <= 255 && w' < v
    requires m' < m || (m' == m && (g' < g || (g' == g && w' < w)))
    ensures Weigh(m', g', w', v) < Weigh(m, g, w, v)
  {
    if m' * 256 + g' < m * 256 + g { ProductGrows(m' * 256 + g', m * 256 + g, v); }
  }

  function Evaluations(c: Config): nat { if c.upStable > 0 then c.upStable else 0 }

  function StillWaiting(l: Ladder, c: Config, s: Loop, p: Plant): (w: nat)
    requires LoopValid(l, s)
    ensures w <= Evaluations(c)
  {
    if Pick(l, s, p) == s.mode then 0 else Waiting(c, s, Pick(l, s, p))
  }

  /** Ticks still needed: rungs to climb, then dB to move, then evaluations to wait. */
  function Left(l: Ladder, c: Config, s: Loop, p: Plant): nat
    requires LoopValid(l, s)
  {
    Weigh(s.mode, Gap(l, s, p), StillWaiting(l, c, s, p), Evaluations(c) + 1)
  }

  /** Where the loop can be after its first tick: on a cleared preset, or on the last one. */
  ghost predicate Seated(l: Ladder, s: Loop, p: Plant)
    requires LoopValid(l, s)
  {
    Cleared(l, s.mode, s.tx - p.path) || s.mode == LastLora(l)
  }

  lemma TickSeats(l: Ladder, c: Config, s: Loop, p: Plant, now: nat)
    requires LoopValid(l, s) && Plain(c, p) && Ready(c, s, now)
    ensures LoopValid(l, Both(l, c, s, p, now)) && Seated(l, Both(l, c, s, p, now), p)
  {
    RateHalf(l, c, s, p, now);
    var z := Both(l, c, s, p, now);
    PickIs(l, s.tx - p.path, s.mode);
    PickIs(l, s.tx - p.path, LastLora(l));
    if Cleared(l, z.mode, s.tx - p.path) { PowerKeepsCleared(l, z.mode, s.tx, p); }
  }

  /** A seated loop not at rest gets closer to it with every tick. */
  lemma TickCloses(l: Ladder, c: Config, s: Loop, p: Plant, now: nat)
    requires LoopValid(l, s) && Plain(c, p) && Ready(c, s, now) && Seated(l, s, p) && !AtRest(l, s, p)
    ensures LoopValid(l, Both(l, c, s, p, now)) && Left(l, c, Both(l, c, s, p, now), p) < Left(l, c, s, p)
  {
    hide Aim, Decide, Distance, PickBySnr, Weigh, PowerStep, LastLora, Clears;
    RateHalf(l, c, s, p, now);
    var z := Both(l, c, s, p, now);
    SeatedPick(l, s, p);
    StepCloses(s.tx, p.path, Aim(l, z.mode), p.lo, p.hi);
    StepCloses(z.tx, p.path, Aim(l, z.mode), p.lo, p.hi);
    assert z.tx == PowerStep(s.tx, s.tx - p.path, Aim(l, z.mode), p.lo, p.hi, false);
    hide Both;
    Lower(s.mode, Gap(l, s, p), StillWaiting(l, c, s, p), z.mode, Gap(l, z, p), StillWaiting(l, c, z, p),
      Evaluations(c) + 1);
  }

  lemma SeatedPick(l: Ladder, s: Loop, p: Plant)
    requires LoopValid(l, s) && Seated(l, s, p)
    ensures Pick(l, s, p) <= s.mode
  {
    PickIs(l, s.tx - p.path, s.mode);
  }

  /** Each tick is due, and none falls in a cooldown. */
  ghost predicate Spaced(c: Config, s: Loop, times: seq<nat>) {
    && (times != [] ==> Ready(c, s, times[0]))
    && (forall k {:trigger times[k]} :: 0 < k < |times| ==> times[k] >= times[k - 1] + c.period)
  }

  lemma SpacedTail(l: Ladder, c: Config, s: Loop, p: Plant, times: seq<nat>)
    requires LoopValid(l, s) && Plain(c, p) && Spaced(c, s, times) && times != []
    ensures var z := Both(l, c, s, p, times[0]); LoopValid(l, z) && Spaced(c, z, times[1..])
  {
    RateHalf(l, c, s, p, times[0]);
    hide Both, Decide;
    forall k | 0 < k < |times[1..]| ensures times[1..][k] >= times[1..][k - 1] + c.period {
      assert times[k + 1] >= times[k] + c.period;
    }
    assert |times| > 1 ==> times[1] >= times[0] + c.period;
  }

  function Run(l: Ladder, c: Config, s: Loop, p: Plant, times: seq<nat>): (z: Loop)
    requires LoopValid(l, s) && Plain(c, p) && Spaced(c, s, times)
    ensures LoopValid(l, z)
    decreases |times|
  {
    if times == [] then s
    else
      SpacedTail(l, c, s, p, times);
      Run(l, c, Both(l, c, s, p, times[0]), p, times[1..])
  }

  lemma SpacedPrefix(c: Config, s: Loop, times: seq<nat>, n: nat)
    requires Spaced(c, s, times) && n <= |times|
    ensures Spaced(c, s, times[..n])
  {
    forall k | 0 < k < |times[..n]| ensures times[..n][k] >= times[..n][k - 1] + c.period {
      assert times[k] >= times[k - 1] + c.period;
    }
  }

  lemma {:induction false} RunSplit(l: Ladder, c: Config, s: Loop, p: Plant, times: seq<nat>, n: nat)
    requires LoopValid(l, s) && Plain(c, p) && Spaced(c, s, times) && n <= |times|
    ensures Spaced(c, s, times[..n]) && Spaced(c, Run(l, c, s, p, times[..n]), times[n..])
    ensures Run(l, c, s, p, times) == Run(l, c, Run(l, c, s, p, times[..n]), p, times[n..])
    decreases |times|
  {
    hide Both, LoopValid, Plain, Ready, Spaced;
    SpacedPrefix(c, s, times, n);
    if n == 0 {
      assert times[..0] == [] && times[0..] == times;
    } else {
      SpacedTail(l, c, s, p, times);
      SpacedTail(l, c, s, p, times[..n]);
      RunSplit(l, c, Both(l, c, s, p, times[0]), p, times[1..], n - 1);
      assert times[..n][1..] == times[1..][..n - 1] && times[n..] == times[1..][n - 1..];
    }
  }

  lemma {:induction false} SeatedSettles(l: Ladder, c: Config, s: Loop, p: Plant, times: seq<nat>)
    requires LoopValid(l, s) && Plain(c, p) && Spaced(c, s, times) && Seated(l, s, p)
    requires AtRest(l, s, p) || Left(l, c, s, p) <= |times|
    ensures var z := Run(l, c, s, p, times);
      && AtRest(l, z, p) && Seated(l, z, p)
      && (AtRest(l, s, p) ==> z.mode == s.mode && z.tx == s.tx)
    decreases |times|
  {
    hide Both, AtRest, Seated, Left;
    if times != [] {
      SpacedTail(l, c, s, p, times);
      TickSeats(l, c, s, p, times[0]);
      if AtRest(l, s, p) { RestIsFinal(l, c, s, p, times[0]); } else { TickCloses(l, c, s, p, times[0]); }
      SeatedSettles(l, c, Both(l, c, s, p, times[0]), p, times[1..]);
    } else if !AtRest(l, s, p) {
      NothingLeft(l, c, s, p);
    }
  }

  lemma NothingLeft(l: Ladder, c: Config, s: Loop, p: Plant)
    requires LoopValid(l, s) && Seated(l, s, p) && Left(l, c, s, p) == 0
    ensures AtRest(l, s, p)
  {
    PickIs(l, s.tx - p.path, s.mode);
  }

  /** A bound on the ticks needed, from the size of the ladder and the confirmations a climb takes. */
  function Bound(l: Ladder, c: Config): nat { 1 + Weigh(|l.fsk|, 0, 0, Evaluations(c) + 1) }

  /**
   * The coordinated ratchet: from any mode and power the coupled loops reach, within a bounded
   * number of ticks, a mode and a power they never leave, and that is the fastest LoRa preset
   * unless the power is at its limit.
   */
  lemma RatchetReachesTop(l: Ladder, c: Config, s: Loop, p: Plant, times: seq<nat>, n: nat)
    requires LoopValid(l, s) && Plain(c, p) && Spaced(c, s, times) && Bound(l, c) <= n <= |times|
    ensures Spaced(c, s, times[..n])
    ensures
      var a, z := Run(l, c, s, p, times[..n]), Run(l, c, s, p, times);
      a.mode == z.mode && a.tx == z.tx && (a.mode == 0 || a.tx >= p.hi)
  {
    hide Both, AtRest, Seated, Run, Weigh, Left;
    RunSplit(l, c, s, p, times, n);
    RunSettles(l, c, s, p, times[..n]);
    var a := Run(l, c, s, p, times[..n]);
    SeatedSettles(l, c, a, p, times[n..]);
    NoRestBelowTheTop(l, a, p);
  }

  lemma RunSettles(l: Ladder, c: Config, s: Loop, p: Plant, times: seq<nat>)
    requires LoopValid(l, s) && Plain(c, p) && Spaced(c, s, times) && Bound(l, c) <= |times|
    ensures AtRest(l, Run(l, c, s, p, times), p) && Seated(l, Run(l, c, s, p, times), p)
  {
    var s1 := Both(l, c, s, p, times[0]);
    SpacedTail(l, c, s, p, times);
    TickSeats(l, c, s, p, times[0]);
    StepCloses(s1.tx, p.path, Aim(l, s1.mode), p.lo, p.hi);
    hide Both, AtRest, Seated, Weigh, Distance, StillWaiting;
    Lower(|l.fsk|, 0, 0, s1.mode, Gap(l, s1, p), StillWaiting(l, c, s1, p), Evaluations(c) + 1);
    SeatedSettles(l, c, s1, p, times[1..]);
  }
}
