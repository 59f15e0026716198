/**
 * The anti-replay window: a highest counter and a 64-bit mask of those just below it, against
 * the set of counters it has accepted.
 */
module Replay {
  const REPLAY_BITS: nat := 64

  /** The 64-bit mask by its bits; bit d stands for the counter d below the highest. */
  type Mask = m: seq<bool> | |m| == 64 witness seq(64, _ => false)

  datatype Guard = Guard(init: bool, max: nat, seen: Mask)

  function NoBits(): Mask { seq(64, _ => false) }

  function ShiftLeft(m: Mask, d: nat): Mask {
    seq(64, k requires 0 <= k < 64 => k >= d && m[k - d])
  }

  /** Whether the counter is accepted, and the window afterwards. */
  function Check(g: Guard, ctr: nat): (Guard, bool) {
    if !g.init then (Guard(true, ctr, NoBits()[0 := true]), true)
    else if ctr > g.max then
      var d := ctr - g.max;
      var w := if d >= 64 then NoBits() else ShiftLeft(g.seen, d);
      (Guard(true, ctr, w[0 := true]), true)
    else
      var d := g.max - ctr;
      if d >= 64 || g.seen[d] then (g, false) else (g.(seen := g.seen[d := true]), true)
  }

  // ---- the reference: a set of accepted counters ----

  /** Never accepted before, and no accepted counter is 64 or more above it. */
  predicate IsFresh(accepted: set<nat>, ctr: nat) {
    ctr !in accepted && forall a :: a in accepted ==> a - ctr < REPLAY_BITS
  }

  /** The counters accepted out of a history by the reference rule. */
  function Accepted(cs: seq<nat>): set<nat> {
    if cs == [] then {}
    else
      var before := Accepted(cs[..|cs| - 1]);
      var c := cs[|cs| - 1];
      if IsFresh(before, c) then before + {c} else before
  }

  const Unseeded: Guard := Guard(false, 0, NoBits())

  /** The window after a history of counters. */
  function After(cs: seq<nat>): Guard {
    if cs == [] then Unseeded else Check(After(cs[..|cs| - 1]), cs[|cs| - 1]).0
  }

  /** The mask says exactly which of the newest 64 counters were accepted. */
  ghost predicate Describes(g: Guard, accepted: set<nat>) {
    && (g.init <==> accepted != {})
    && (g.init ==>
      && g.max in accepted
      && (forall a :: a in accepted ==> a <= g.max)
      && (forall d: nat {:trigger g.seen[d]} :: d < 64 ==> (g.seen[d] <==> g.max - d in accepted)))
  }

  lemma CheckRefines(g: Guard, accepted: set<nat>, ctr: nat)
    requires Describes(g, accepted)
    ensures Check(g, ctr).1 <==> IsFresh(accepted, ctr)
    ensures Describes(Check(g, ctr).0, if IsFresh(accepted, ctr) then accepted + {ctr} else accepted)
  {
    if g.init && ctr <= g.max {
      var d := g.max - ctr;
      if d < 64 { assert g.seen[d] <==> g.max - d in accepted; }
    }
  }

  /** After any history the window accepts a counter exactly when the set rule does. */
  lemma {:induction false} WindowRefinesSet(cs: seq<nat>, ctr: nat)
    ensures Describes(After(cs), Accepted(cs))
    ensures Check(After(cs), ctr).1 <==> IsFresh(Accepted(cs), ctr)
  {
    if cs != [] {
      WindowRefinesSet(cs[..|cs| - 1], cs[|cs| - 1]);
      CheckRefines(After(cs[..|cs| - 1]), Accepted(cs[..|cs| - 1]), cs[|cs| - 1]);
    }
    CheckRefines(After(cs), Accepted(cs), ctr);
  }

  /** The answer the window gives to the i-th counter of a history. */
  predicate Takes(cs: seq<nat>, i: nat)
    requires i < |cs|
  {
    Check(After(cs[..i]), cs[i]).1
  }

  lemma {:induction false} AcceptedGrows(cs: seq<nat>, i: nat)
    requires i <= |cs|
    ensures Accepted(cs[..i]) <= Accepted(cs)
    decreases |cs|
  {
    if i < |cs| {
      AcceptedGrows(cs[..|cs| - 1], i);
      assert cs[..|cs| - 1][..i] == cs[..i];
    } else {
      assert cs[..i] == cs;
    }
  }

  /** No counter is ever accepted twice. */
  lemma NoCounterTwice(cs: seq<nat>, i: nat, j: nat)
    requires i < j < |cs| && cs[i] == cs[j] && Takes(cs, i)
    ensures !Takes(cs, j)
  {
    WindowRefinesSet(cs[..i], cs[i]);
    WindowRefinesSet(cs[..j], cs[j]);
    assert cs[..i + 1][..i] == cs[..i];
    assert cs[i] in Accepted(cs[..i + 1]);
    AcceptedGrows(cs[..j], i + 1);
    assert cs[..j][..i + 1] == cs[..i + 1];
  }

  /** The window will never take this counter again. */
  predicate Spent(g: Guard, ctr: nat) { g.init && ctr <= g.max && (g.max - ctr < REPLAY_BITS ==> g.seen[g.max - ctr]) }

  /** A counter once taken is spent, stays spent whatever else is checked, and is refused without effect. */
  lemma SpentForGood(g: Guard, ctr: nat, other: nat)
    ensures Check(g, ctr).1 ==> Spent(Check(g, ctr).0, ctr)
    ensures Spent(g, ctr) ==> Spent(Check(g, other).0, ctr)
    ensures Spent(g, ctr) ==> Check(g, ctr) == (g, false)
  {
  }
}
