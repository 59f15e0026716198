/**
 * The frame counter of a station over whole runs: each frame put on the air sealed uses up exactly
 * one value, and nothing else uses any. A link that does not seal leaves the counter, and flash,
 * as they were.
 */
module StationCounter {
  import opened Base
  import opened Arq
  import opened Wire
  import opened Station
  import opened StationSystem
  import opened StationHeader
  import ArqSystem

  /** How many byte strings end a puts on the air in a run. */
  ghost function Emissions(s: Pair, es: seq<Event>): nat
    requires Inv(s) && Run(s, es)
    decreases |es|
  {
    if es == [] then 0
    else
      StepRefines(s, es[0]);
      (if Emitting(s, es[0]) then 1 else 0) + Emissions(Do(s, es[0]), es[1..])
  }

  ghost predicate Emitting(s: Pair, e: Event)
    requires StationValid(s.a)
  {
    e.atA && e.op.Local? && exists b: Bytes :: Sends(s, e.op.op, b)
  }

  lemma {:induction false} CounterCountsSealed(s: Pair, es: seq<Event>)
    requires Inv(s) && Run(s, es)
    ensures
      var z := After(s, es).a;
      && Sealing(z.cfg) == Sealing(s.a.cfg)
      && z.txCtr == s.a.txCtr + (if Sealing(s.a.cfg) then Emissions(s, es) else 0)
      && (!Sealing(s.a.cfg) ==> z.flash == s.a.flash && z.lastPersist == s.a.lastPersist)
    decreases |es|
  {
    if es != [] {
      StepRefines(s, es[0]);
      StepCounts(s, es[0]);
      hide StationSystem.Inv, Do, Enabled, Emitting;
      CounterCountsSealed(Do(s, es[0]), es[1..]);
    }
  }

  lemma StepCounts(s: Pair, e: Event)
    requires Inv(s) && Enabled(s, e)
    ensures
      var z := Do(s, e).a;
      && z.cfg == s.a.cfg
      && z.txCtr == s.a.txCtr + (if Sealing(s.a.cfg) && Emitting(s, e) then 1 else 0)
      && (!Sealing(s.a.cfg) ==> z.flash == s.a.flash && z.lastPersist == s.a.lastPersist)
  {
    if e.atA {
      match e.op
      case Hear(x) => KeepsCounter(s.a, x.bytes);
      case Local(o) => LocalCounts(s, o);
    }
  }

  lemma KeepsCounter(s: Station, b: Bytes)
    requires StationValid(s)
    ensures var z := Receive(s, b).0;
      z.cfg == s.cfg && z.txCtr == s.txCtr && z.flash == s.flash && z.lastPersist == s.lastPersist
  {
  }

  lemma LocalCounts(s: Pair, o: ArqSystem.Op)
    requires Inv(s) && EnabledA(s, Local(o))
    ensures
      var z, sent := DoA(s, Local(o)).a, exists b: Bytes :: Sends(s, o, b);
      && z.cfg == s.a.cfg && z.txCtr == s.a.txCtr + (if Sealing(s.a.cfg) && sent then 1 else 0)
      && (!Sealing(s.a.cfg) ==> z.flash == s.a.flash && z.lastPersist == s.a.lastPersist)
  {
    hide Encode, ArqSystem.DoA, NextTx;
    match o
    case NextTxOp(now) =>
      var b := Transmit(s.a, MAXFRAME, now).1;
      if b.Some? { assert Sends(s, o, b.value); }
    case PollOp =>
      var b := Emit(s.a, MAXFRAME, Poll(s.a.link)).1;
      if b.Some? { assert Sends(s, o, b.value); }
    case _ =>
  }
}
