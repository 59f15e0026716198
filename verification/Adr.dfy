/** Adaptive data rate: the mode ladder and the controller that climbs and descends it. */
module Adr {
  import opened Base

  // ---- the ladder ----

  /** Presets as parallel tables; a missing eligibility table makes every preset eligible. */
  datatype Ladder = Ladder(floors: seq<real>, fsk: seq<bool>, autoTable: Option<seq<bool>>, margin: real)

  ghost predicate Shaped(l: Ladder) {
    |l.floors| == |l.fsk| && (l.autoTable.Some? ==> |l.autoTable.value| == |l.fsk|)
  }

  /** LoRa presets fastest first, GFSK last, few enough for the rank sentinels. */
  ghost predicate Ordered(l: Ladder) {
    && Shaped(l) && |l.fsk| < 1000
    && (forall i, j :: 0 <= i < j < |l.fsk| && l.fsk[i] ==> l.fsk[j])
  }

  predicate IsFsk(l: Ladder, i: int) { 0 <= i < |l.fsk| && l.fsk[i] }

  predicate AutoOk(l: Ladder, i: int)
    requires Shaped(l)
  {
    0 <= i < |l.fsk| && (l.autoTable.None? || l.autoTable.value[i])
  }

  /** Speed rank: GFSK on top, then LoRa by falling index. */
  function Rank(l: Ladder, i: int): int
    requires i < |l.fsk|
  {
    if i < 0 then -1000 else if l.fsk[i] then 1000 else -i
  }

  predicate Faster(l: Ladder, a: int, b: int)
    requires a < |l.fsk| && b < |l.fsk|
  {
    Rank(l, a) > Rank(l, b)
  }

  datatype Kind = Fsk | AutoLora

  predicate Is(l: Ladder, k: Kind, i: nat)
    requires Shaped(l) && i < |l.fsk|
  {
    match k
    case Fsk => l.fsk[i]
    case AutoLora => !l.fsk[i] && AutoOk(l, i)
  }

  /** The first preset of a kind at or after i, or -1. */
  function First(l: Ladder, k: Kind, i: nat): (r: int)
    requires Shaped(l) && i <= |l.fsk|
    ensures r == -1 || (i <= r < |l.fsk| && Is(l, k, r))
    ensures forall j :: i <= j < (if r == -1 then |l.fsk| else r) ==> !Is(l, k, j)
    decreases |l.fsk| - i
  {
    if i == |l.fsk| then -1 else if Is(l, k, i) then i else First(l, k, i + 1)
  }

  function Ludicrous(l: Ladder): int
    requires Shaped(l)
  {
    First(l, Fsk, 0)
  }

  function FastestAutoLora(l: Ladder): int
    requires Shaped(l)
  {
    First(l, AutoLora, 0)
  }

  /** The last LoRa preset among the first n, or -1. */
  function LastLoraOf(l: Ladder, n: nat): (r: int)
    requires Shaped(l) && n <= |l.fsk|
    ensures r == -1 || (0 <= r < n && !l.fsk[r])
    ensures forall j :: 0 <= j < n && r < j ==> l.fsk[j]
  {
    if n == 0 then -1 else if !l.fsk[n - 1] then n - 1 else LastLoraOf(l, n - 1)
  }

  function LastLora(l: Ladder): int
    requires Shaped(l)
  {
    LastLoraOf(l, |l.fsk|)
  }

  predicate Clears(l: Ladder, i: nat, snr: real)
    requires Shaped(l) && i < |l.fsk|
  {
    snr >= l.floors[i] + l.margin
  }

  /** From i on: the first eligible preset the signal clears, else the last eligible one, else `last`. */
  function PickFrom(l: Ladder, snr: real, i: nat, last: int): (r: int)
    requires Shaped(l) && i <= |l.fsk| && (last == -1 || (0 <= last < |l.fsk| && Is(l, AutoLora, last)))
    ensures r == -1 || (0 <= r < |l.fsk| && Is(l, AutoLora, r))
    ensures r == last || r >= i
    ensures forall j :: i <= j < |l.fsk| && Is(l, AutoLora, j) && (j < r || r < i) ==> !Clears(l, j, snr)
    ensures r >= 0 && (r < i || !Clears(l, r, snr)) ==> forall j :: i <= j < |l.fsk| && Is(l, AutoLora, j) ==> j <= r
    ensures r == -1 ==> last == -1 && forall j :: i <= j < |l.fsk| ==> !Is(l, AutoLora, j)
    decreases |l.fsk| - i
  {
    if i == |l.fsk| then last
    else if !Is(l, AutoLora, i) then PickFrom(l, snr, i + 1, last)
    else if Clears(l, i, snr) then i
    else PickFrom(l, snr, i + 1, i)
  }

  function PickBySnr(l: Ladder, snr: real): int
    requires Shaped(l)
  {
    PickFrom(l, snr, 0, FastestAutoLora(l))
  }

  function MoreRobust(l: Ladder, i: int): int
    requires Shaped(l)
  {
    if IsFsk(l, i) then FastestAutoLora(l) else if i < LastLora(l) then i + 1 else i
  }

  /** The signal's preset is the fastest eligible one it clears, or the most robust eligible one. */
  lemma PickIsFastestCleared(l: Ladder, snr: real, j: nat)
    requires Ordered(l) && j < |l.fsk| && Is(l, AutoLora, j)
    ensures var p := PickBySnr(l, snr);
      && 0 <= p < |l.fsk| && Is(l, AutoLora, p) && FastestAutoLora(l) <= p
      && (Clears(l, j, snr) ==> Clears(l, p, snr) && !Faster(l, j, p))
      && (!Clears(l, p, snr) ==> !Faster(l, p, j))
  {
    var e := FastestAutoLora(l);
    if e == 0 { assert Is(l, AutoLora, 0); }
  }

  /** One step of robustness is strictly slower, except for the most robust preset itself. */
  lemma MoreRobustIsSlower(l: Ladder, i: int)
    requires Ordered(l) && 0 <= i < |l.fsk|
    ensures MoreRobust(l, i) < |l.fsk|
    ensures MoreRobust(l, i) == i <==> i == LastLora(l)
    ensures MoreRobust(l, i) != i ==> Faster(l, i, MoreRobust(l, i))
    ensures !l.fsk[i] ==> i <= LastLora(l) && !IsFsk(l, MoreRobust(l, i))
  {
  }

  method SearchFirst(l: Ladder, k: Kind) returns (r: int)
    requires Shaped(l)
    ensures r == First(l, k, 0)
  {
    for i := 0 to |l.fsk|
      invariant First(l, k, 0) == First(l, k, i)
    {
      if Is(l, k, i) { return i; }
    }
    return -1;
  }

  method SearchLastLora(l: Ladder) returns (last: int)
    requires Shaped(l)
    ensures last == LastLora(l)
  {
    last := -1;
    for i := 0 to |l.fsk|
      invariant last == LastLoraOf(l, i)
    {
      if !l.fsk[i] { last := i; }
    }
  }

  method SearchBySnr(l: Ladder, snr: real) returns (r: int)
    requires Shaped(l)
    ensures r == PickBySnr(l, snr)
  {
    r := SearchFirst(l, AutoLora);
    for i := 0 to |l.fsk|
      invariant r == -1 || (0 <= r < |l.fsk| && Is(l, AutoLora, r))
      invariant PickBySnr(l, snr) == PickFrom(l, snr, i, r)
    {
      if IsFsk(l, i) || !AutoOk(l, i) { continue; }
      r := i;
      if Clears(l, i, snr) { return; }
    }
  }

  method StepRobust(l: Ladder, i: int) returns (r: int)
    requires Shaped(l)
    ensures r == MoreRobust(l, i)
  {
    if IsFsk(l, i) {
      r := SearchFirst(l, AutoLora);
    } else {
      var last := SearchLastLora(l);
      r := if i < last then i + 1 else i;
    }
  }

  // ---- the controller ----

  datatype Config = Config(period: nat, upStable: int, downRetx: int, upMaxRetx: int, gfskRssi: real,
                           switchTimeout: nat, cooldown: nat, gfsk: bool, penalty: nat)

  datatype Input = Input(now: nat, busy: bool, haveLink: bool, cur: int, snr: real, rssi: real, retx: int)

  datatype Action = Stay | Request(mode: int) | AbandonSwitch

  datatype State = State(last: nat, switchAt: nat, cooldownUntil: nat, want: int, stable: int,
                         penalized: int, penalizedUntil: nat)

  const Initial: State := State(0, 0, 0, -1, 0, -1, 0)

  predicate Penalising(s: State, now: nat) { s.penalized >= 0 && now < s.penalizedUntil }

  predicate GfskOpen(l: Ladder, c: Config, x: Input)
    requires Shaped(l)
  {
    && c.gfsk && Ludicrous(l) >= 0 && x.cur == FastestAutoLora(l)
    && x.rssi >= c.gfskRssi && x.retx <= c.upMaxRetx
  }

  /** Where the signal points, capped below a penalised mode. */
  function Target(l: Ladder, c: Config, s: State, x: Input): (r: int)
    requires Shaped(l) && s.penalized < |l.fsk|
    ensures r < |l.fsk|
  {
    var pick := if GfskOpen(l, c, x) then Ludicrous(l) else PickBySnr(l, x.snr);
    if Penalising(s, x.now) && Rank(l, pick) >= Rank(l, s.penalized) then MoreRobust(l, s.penalized) else pick
  }

  function Settled(s: State): State { s.(want := -1, stable := 0) }

  function Commit(s: State, now: nat, mode: int): (State, Action) {
    (Settled(s).(switchAt := now), Request(mode))
  }

  /** Past the cadence, the switch in flight and the cooldown: step down on loss, else follow the signal. */
  function Evaluate(l: Ladder, c: Config, s: State, x: Input): (State, Action)
    requires Shaped(l) && s.penalized < |l.fsk| && 0 <= x.cur < |l.fsk|
  {
    if x.retx >= c.downRetx then
      var robust := MoreRobust(l, x.cur);
      if robust != x.cur then Commit(s, x.now, robust) else (s, Stay)
    else if IsFsk(l, x.cur) then (s, Stay)
    else
      var pick := Target(l, c, s, x);
      if pick == x.cur then (Settled(s), Stay)
      else if !Faster(l, pick, x.cur) then Commit(s, x.now, pick)
      else if x.retx > c.upMaxRetx then (Settled(s), Stay)
      else
        var s1 := if pick == s.want then s.(stable := s.stable + 1) else s.(want := pick, stable := 1);
        if s1.stable >= c.upStable then Commit(s1, x.now, pick) else (s1, Stay)
  }

  predicate Due(c: Config, s: State, x: Input) { x.now - s.last >= c.period }

  /** Whether this tick gets as far as evaluating. */
  predicate Evaluates(c: Config, s: State, x: Input) {
    Due(c, s, x) && !x.busy && x.now >= s.cooldownUntil && x.haveLink && x.cur >= 0
  }

  function Decide(l: Ladder, c: Config, s: State, x: Input): (State, Action)
    requires Shaped(l) && s.penalized < |l.fsk| && x.cur < |l.fsk|
  {
    var s1 := s.(last := x.now);
    if !Due(c, s, x) then (s, Stay)
    else if x.busy && x.now - s.switchAt > c.switchTimeout then
      (Settled(s1).(cooldownUntil := x.now + c.cooldown), AbandonSwitch)
    else if !Evaluates(c, s, x) then (s1, Stay)
    else Evaluate(l, c, s1, x)
  }

  function Fallback(c: Config, s: State, now: nat, failed: int): State {
    Settled(s).(cooldownUntil := now + c.cooldown, penalized := failed, penalizedUntil := now + c.penalty)
  }

  class Controller {
    var ladder: Ladder
    var cfg: Config
    var last: nat
    var switchAt: nat
    var cooldownUntil: nat
    var want: int
    var stable: int
    var penalized: int
    var penalizedUntil: nat

    ghost function View(): State
      reads this
    {
      State(last, switchAt, cooldownUntil, want, stable, penalized, penalizedUntil)
    }

    constructor (l: Ladder, c: Config)
      ensures ladder == l && cfg == c && View() == Initial
    {
      ladder, cfg := l, c;
      last, switchAt, cooldownUntil, want, stable := 0, 0, 0, -1, 0;
      penalized, penalizedUntil := -1, 0;
    }

    method Begin()
      modifies this
      ensures ladder == old(ladder) && cfg == old(cfg) && View() == Initial
    {
      last, switchAt, cooldownUntil, want, stable := 0, 0, 0, -1, 0;
      penalized, penalizedUntil := -1, 0;
    }

    method CommitTo(now: nat, mode: int) returns (a: Action)
      modifies this`switchAt, this`want, this`stable
      ensures (View(), a) == Commit(old(View()), now, mode)
    {
      switchAt := now;
      want := -1;
      stable := 0;
      a := Request(mode);
    }

    method OnFallback(now: nat, failed: int)
      modifies this
      ensures ladder == old(ladder) && cfg == old(cfg) && View() == Fallback(cfg, old(View()), now, failed)
    {
      cooldownUntil := now + cfg.cooldown;
      penalized := failed;
      penalizedUntil := now + cfg.penalty;
      want := -1;
      stable := 0;
    }

    method FindTarget(x: Input) returns (pick: int)
      requires Shaped(ladder) && penalized < |ladder.fsk|
      ensures pick == Target(ladder, cfg, View(), x)
    {
      pick := SearchBySnr(ladder, x.snr);
      var lud := SearchFirst(ladder, Fsk);
      var fastest := SearchFirst(ladder, AutoLora);
      if cfg.gfsk && lud >= 0 && x.cur == fastest && x.rssi >= cfg.gfskRssi && x.retx <= cfg.upMaxRetx {
        pick := lud;
      }
      if penalized >= 0 && x.now < penalizedUntil && Rank(ladder, pick) >= Rank(ladder, penalized) {
        pick := StepRobust(ladder, penalized);
      }
    }

    method Follow(x: Input) returns (a: Action)
      requires Shaped(ladder) && penalized < |ladder.fsk| && 0 <= x.cur < |ladder.fsk|
      modifies this`switchAt, this`want, this`stable
      ensures (View(), a) == Evaluate(ladder, cfg, old(View()), x)
    {
      if x.retx >= cfg.downRetx {
        var robust := StepRobust(ladder, x.cur);
        if robust != x.cur { a := CommitTo(x.now, robust); return; }
        return Stay;
      }
      if IsFsk(ladder, x.cur) { return Stay; }
      var pick := FindTarget(x);
      if pick == x.cur { want := -1; stable := 0; return Stay; }
      if Faster(ladder, pick, x.cur) {
        if x.retx > cfg.upMaxRetx { want := -1; stable := 0; return Stay; }
        if pick == want { stable := stable + 1; } else { want := pick; stable := 1; }
        if stable >= cfg.upStable { a := CommitTo(x.now, pick); return; }
        return Stay;
      }
      a := CommitTo(x.now, pick);
    }

    method Tick(x: Input) returns (a: Action)
      requires Shaped(ladder) && penalized < |ladder.fsk| && x.cur < |ladder.fsk|
      modifies this
      ensures ladder == old(ladder) && cfg == old(cfg)
      ensures (View(), a) == Decide(ladder, cfg, old(View()), x)
    {
      if x.now - last < cfg.period { return Stay; }
      last := x.now;
      if x.busy {
        if x.now - switchAt > cfg.switchTimeout {
          cooldownUntil := x.now + cfg.cooldown;
          want := -1;
          stable := 0;
          return AbandonSwitch;
        }
        return Stay;
      }
      if x.now < cooldownUntil || !x.haveLink { return Stay; }
      if x.cur < 0 { return Stay; }
      a := Follow(x);
    }
  }
}
