/**
 * The lock-free single-producer single-consumer frame ring, one load, copy or publish at a time.
 * A load of the other side's index may return any value it has had since this side last looked.
 */
module FrameRing {
  import opened Base

  datatype Slot = Slot(buf: Bytes, len: nat)

  /** Where Push is: before it, about to look at the tail, copying byte k, length set. */
  datatype Producer =
    | PIdle
    | PHasHead(d: Bytes)
    | PCopying(d: Bytes, k: nat)
    | PReady(d: Bytes)

  /** Where Pop is: before it, about to look at the head, length not yet read, copying, copied. */
  datatype Consumer =
    | CIdle
    | CHasTail(max: nat)
    | CNonEmpty(max: nat)
    | CCopying(max: nat, n: nat, out: Bytes)
    | CCopied(max: nat, out: Bytes)

  /** A frame handed to the consumer, and the room the consumer offered for it. */
  datatype Taken = Taken(out: Bytes, max: nat)

  /**
   * Ring memory and the two threads. `head` and `tail` are the slot indices the code holds; h and t
   * count all publishes and releases; seenT and seenH are the newest counts each side has observed;
   * `pushes` are the frames accepted and `pops` the frames taken, in order.
   */
  datatype Ring = Ring(frameMax: nat, slots: seq<Slot>, head: nat, tail: nat, prod: Producer, cons: Consumer,
                       h: nat, t: nat, seenT: nat, seenH: nat, pushes: seq<Bytes>, pops: seq<Taken>)

  datatype Event =
    | PushStart(d: Bytes)
    | LoadTail(v: nat)
    | CopyIn
    | SetLen
    | PublishHead
    | PopStart(max: nat)
    | LoadHead(v: nat)
    | ReadLen
    | CopyOut
    | PublishTail

  function Inc(i: nat, n: nat): nat
    requires n > 0
  {
    (i + 1) % n
  }

  predicate Enabled(r: Ring, e: Event) {
    match e
    case PushStart(_) => r.prod.PIdle?
    case LoadTail(v) => r.prod.PHasHead? && r.seenT <= v <= r.t
    case CopyIn => r.prod.PCopying? && r.prod.k < |r.prod.d|
    case SetLen => r.prod.PCopying? && r.prod.k == |r.prod.d|
    case PublishHead => r.prod.PReady?
    case PopStart(_) => r.cons.CIdle?
    case LoadHead(v) => r.cons.CHasTail? && r.seenH <= v <= r.h
    case ReadLen => r.cons.CNonEmpty?
    case CopyOut => r.cons.CCopying? && |r.cons.out| < r.cons.n
    case PublishTail => r.cons.CCopied? || (r.cons.CCopying? && |r.cons.out| == r.cons.n)
  }

  ghost predicate Shape(r: Ring) {
    && |r.slots| > 0 && r.head < |r.slots| && r.tail < |r.slots|
    && (forall i :: 0 <= i < |r.slots| ==> |r.slots[i].buf| == r.frameMax && r.slots[i].len <= r.frameMax)
    && (r.prod.PCopying? ==> r.prod.k <= |r.prod.d| <= r.frameMax)
    && (r.prod.PHasHead? ==> |r.prod.d| <= r.frameMax)
    && (r.prod.PReady? ==> |r.prod.d| <= r.frameMax)
    && (r.cons.CCopying? ==> |r.cons.out| <= r.cons.n <= r.frameMax)
  }

  /** One atomic action of either thread. */
  function Do(r: Ring, e: Event): Ring
    requires Shape(r) && Enabled(r, e)
  {
    var n := |r.slots|;
    match e
    case PushStart(d) => if |d| > r.frameMax then r else r.(prod := PHasHead(d))
    case LoadTail(v) =>
      var r1 := r.(seenT := v);
      if Inc(r.head, n) == v % n then r1.(prod := PIdle) else r1.(prod := PCopying(r.prod.d, 0))
    case CopyIn =>
      var s := r.slots[r.head];
      r.(slots := r.slots[r.head := s.(buf := s.buf[r.prod.k := r.prod.d[r.prod.k]])],
        prod := r.prod.(k := r.prod.k + 1))
    case SetLen => r.(slots := r.slots[r.head := r.slots[r.head].(len := |r.prod.d|)], prod := PReady(r.prod.d))
    case PublishHead => r.(head := Inc(r.head, n), h := r.h + 1, pushes := r.pushes + [r.prod.d], prod := PIdle)
    case PopStart(max) => r.(cons := CHasTail(max))
    case LoadHead(v) =>
      var r1 := r.(seenH := v);
      if r.tail == v % n then r1.(cons := CIdle) else r1.(cons := CNonEmpty(r.cons.max))
    case ReadLen => r.(cons := CCopying(r.cons.max, Min(r.slots[r.tail].len, r.cons.max), []))
    case CopyOut => r.(cons := CCopying(r.cons.max, r.cons.n, r.cons.out + [r.slots[r.tail].buf[|r.cons.out|]]))
    case PublishTail =>
      r.(tail := Inc(r.tail, n), t := r.t + 1, pops := r.pops + [Taken(r.cons.out, r.cons.max)], cons := CIdle)
  }

  // ---- the invariant ----

  /** The producer owns its slot: it has seen room for one more. */
  predicate Writing(p: Producer) { p.PCopying? || p.PReady? }

  predicate Reading(c: Consumer) { c.CNonEmpty? || c.CCopying? || c.CCopied? }

  ghost predicate Counts(r: Ring)
    requires |r.slots| > 0
  {
    && r.head == r.h % |r.slots| && r.tail == r.t % |r.slots|
    && r.seenT <= r.t <= r.seenH <= r.h == |r.pushes|
    && |r.pops| == r.t
    && r.h - r.seenT <= |r.slots| - 1
    && (Writing(r.prod) ==> r.h - r.seenT <= |r.slots| - 2)
    && (Reading(r.cons) ==> r.t < r.seenH)
  }

  /** Slot a holds published frame a in full. */
  ghost predicate Holds(slots: seq<Slot>, pushes: seq<Bytes>, a: nat)
    requires |slots| > 0 && a < |pushes|
  {
    var s := slots[a % |slots|];
    s.len == |pushes[a]| <= |s.buf| && s.buf[..s.len] == pushes[a]
  }

  ghost predicate Contents(r: Ring)
    requires |r.slots| > 0 && r.h == |r.pushes|
  {
    forall a {:trigger Holds(r.slots, r.pushes, a)} :: r.t <= a < r.h ==> Holds(r.slots, r.pushes, a)
  }

  ghost predicate InHand(r: Ring)
    requires Shape(r) && r.h == |r.pushes|
  {
    && (r.prod.PCopying? ==> r.slots[r.head].buf[..r.prod.k] == r.prod.d[..r.prod.k])
    && (r.prod.PReady? ==> r.slots[r.head].len == |r.prod.d| && r.slots[r.head].buf[..|r.prod.d|] == r.prod.d)
    && (r.cons.CCopying? && r.t < r.h ==>
          r.cons.n == Min(|r.pushes[r.t]|, r.cons.max) && r.cons.out == r.pushes[r.t][..|r.cons.out|])
    && (r.cons.CCopied? && r.t < r.h ==> r.cons.out == Clip(r.pushes[r.t], r.cons.max))
  }

  function Clip(d: Bytes, max: nat): Bytes { d[..Min(|d|, max)] }

  /** Frames come out in the order they went in, cut only by the room the consumer offers. */
  ghost predicate InOrder(pushes: seq<Bytes>, pops: seq<Taken>) {
    && |pops| <= |pushes|
    && (forall i :: 0 <= i < |pops| ==> pops[i].out == Clip(pushes[i], pops[i].max))
  }

  ghost predicate Inv(r: Ring) {
    && Shape(r) && Counts(r) && Contents(r) && InHand(r) && InOrder(r.pushes, r.pops)
  }

  lemma IncCounts(x: nat, n: nat)
    requires n > 0
    ensures Inc(x % n, n) == (x + 1) % n
  {
    var q := x / n;
    assert x == q * n + x % n;
    if x % n + 1 < n {
      Residue(x + 1, n, q, x % n + 1);
      Residue(x % n + 1, n, 0, x % n + 1);
    } else {
      assert (q + 1) * n == q * n + n;
      Residue(x + 1, n, q + 1, 0);
      Residue(n, n, 1, 0);
    }
  }

  lemma Residue(x: nat, n: nat, q: nat, r: nat)
    requires n > 0 && r < n && x == q * n + r
    ensures x % n == r
  {
    var d := x / n - q;
    assert x == (x / n) * n + x % n;
    assert d * n == r - x % n;
    assert d >= 1 ==> d * n >= n;
    assert d <= -1 ==> d * n + n <= 0;
  }

  /** Two counts less than a ring apart use one slot only if they are equal. */
  lemma SlotsDiffer(a: nat, b: nat, n: nat)
    requires n > 0 && a <= b < a + n && a % n == b % n
    ensures a == b
  {
    var q := a / n;
    assert a == q * n + a % n;
    var p := b / n;
    assert b == p * n + b % n;
    assert b - a == (p - q) * n;
    var d := p - q;
    assert d >= 1 ==> d * n >= n;
    assert d <= -1 ==> d * n + n <= 0;
  }

  /** While a frame is being written, its slot holds none that is published and not released. */
  lemma WriterAlone(r: Ring, a: nat)
    requires Shape(r) && Counts(r) && Writing(r.prod) && r.t <= a < r.h
    ensures a % |r.slots| != r.head
  {
    if a % |r.slots| == r.head { SlotsDiffer(a, r.h, |r.slots|); }
  }

  /** So the consumer never reads the slot the producer is writing. */
  lemma NoOverlap(r: Ring)
    requires Inv(r) && Writing(r.prod) && Reading(r.cons)
    ensures r.head != r.tail
  {
    WriterAlone(r, r.t);
  }

  // ---- every action keeps it ----

  lemma SlotWriteKeeps(r: Ring, s: Slot, p: Producer)
    requires Inv(r) && Writing(r.prod) && Writing(p)
    requires |s.buf| == r.frameMax && s.len <= r.frameMax
    requires var r' := r.(slots := r.slots[r.head := s], prod := p);
      Shape(r') && (p.PCopying? ==> s.buf[..p.k] == p.d[..p.k])
        && (p.PReady? ==> s.len == |p.d| && s.buf[..|p.d|] == p.d)
    ensures Inv(r.(slots := r.slots[r.head := s], prod := p))
  {
    var r' := r.(slots := r.slots[r.head := s], prod := p);
    forall a | r'.t <= a < r'.h
      ensures Holds(r'.slots, r'.pushes, a)
    {
      WriterAlone(r, a);
      assert Holds(r.slots, r.pushes, a);
    }
  }

  lemma ProducerKeeps(r: Ring, e: Event)
    requires Inv(r) && Enabled(r, e) && (e.PushStart? || e.LoadTail? || e.CopyIn? || e.SetLen?)
    ensures Inv(Do(r, e))
  {
    match e
    case PushStart(_) =>
      assert Contents(Do(r, e));
    case LoadTail(v) =>
      NextMeets(r.h, v, |r.slots|);
      assert Contents(Do(r, e));
    case CopyIn =>
      var s := r.slots[r.head];
      var k := r.prod.k;
      var b := s.buf[k := r.prod.d[k]];
      assert b[..k + 1] == b[..k] + [r.prod.d[k]] && b[..k] == s.buf[..k];
      assert r.prod.d[..k + 1] == r.prod.d[..k] + [r.prod.d[k]];
      SlotWriteKeeps(r, s.(buf := b), r.prod.(k := k + 1));
    case SetLen =>
      assert r.prod.d[..|r.prod.d|] == r.prod.d;
      SlotWriteKeeps(r, r.slots[r.head].(len := |r.prod.d|), PReady(r.prod.d));
  }

  lemma Residue2(v: nat, n: nat)
    requires n > 0
    ensures (v + n) % n == v % n
  {
    assert v == (v / n) * n + v % n;
    assert (v / n + 1) * n == (v / n) * n + n;
    Residue(v + n, n, v / n + 1, v % n);
  }

  lemma PublishHeadKeeps(r: Ring)
    requires Inv(r) && r.prod.PReady?
    ensures Inv(Do(r, PublishHead))
  {
    PublishHeld(r);
    PublishCounts(r);
    hide Counts, Contents, Do, Shape, InOrder, InHand;
  }

  lemma PublishCounts(r: Ring)
    requires Inv(r) && r.prod.PReady?
    ensures var z := Do(r, PublishHead); Shape(z) && Counts(z) && InHand(z) && InOrder(z.pushes, z.pops)
  {
    IncCounts(r.h, |r.slots|);
    hide Contents;
  }

  /** The frame just published is in its slot, and the others still are. */
  lemma PublishHeld(r: Ring)
    requires Inv(r) && r.prod.PReady?
    ensures var z := Do(r, PublishHead); |z.slots| > 0 && z.h == |z.pushes| && Contents(z)
  {
    var z := Do(r, PublishHead);
    hide Inc, InOrder;
    forall a | z.t <= a < z.h
      ensures Holds(z.slots, z.pushes, a)
    {
      if a < r.h { assert Holds(r.slots, r.pushes, a); }
    }
  }

  lemma ConsumerKeeps(r: Ring, e: Event)
    requires Inv(r) && Enabled(r, e) && (e.PopStart? || e.LoadHead? || e.ReadLen? || e.CopyOut?)
    ensures Inv(Do(r, e))
  {
    match e
    case PopStart(_) =>
      assert Contents(Do(r, e));
    case LoadHead(v) =>
      assert Contents(Do(r, e));
    case ReadLen =>
      assert Holds(r.slots, r.pushes, r.t);
      assert r.pushes[r.t][..0] == [];
      assert Contents(Do(r, e));
    case CopyOut =>
      assert Holds(r.slots, r.pushes, r.t);
      var s := r.slots[r.tail];
      var i := |r.cons.out|;
      assert s.buf[i] == s.buf[..s.len][i];
      assert r.pushes[r.t][..i + 1] == r.pushes[r.t][..i] + [r.pushes[r.t][i]];
      assert Contents(Do(r, e));
  }

  lemma PublishTailKeeps(r: Ring)
    requires Inv(r) && Enabled(r, PublishTail)
    ensures Inv(Do(r, PublishTail))
  {
    var r' := Do(r, PublishTail);
    IncCounts(r.t, |r.slots|);
    forall a | r'.t <= a < r'.h
      ensures Holds(r'.slots, r'.pushes, a)
    {
      assert Holds(r.slots, r.pushes, a);
    }
    assert r.cons.out == Clip(r.pushes[r.t], r.cons.max);
  }

  lemma StepKeeps(r: Ring, e: Event)
    requires Inv(r) && Enabled(r, e)
    ensures Inv(Do(r, e))
  {
    match e
    case PublishHead => PublishHeadKeeps(r);
    case PublishTail => PublishTailKeeps(r);
    case PushStart(_) => ProducerKeeps(r, e);
    case LoadTail(_) => ProducerKeeps(r, e);
    case CopyIn => ProducerKeeps(r, e);
    case SetLen => ProducerKeeps(r, e);
    case _ => ConsumerKeeps(r, e);
  }

  // ---- whole interleavings ----

  /** An empty ring of n slots. */
  ghost predicate Start(r: Ring) {
    && Shape(r) && r.head == 0 && r.tail == 0 && r.prod.PIdle? && r.cons.CIdle?
    && r.h == 0 && r.t == 0 && r.seenT == 0 && r.seenH == 0 && r.pushes == [] && r.pops == []
  }

  ghost predicate Possible(r: Ring, es: seq<Event>)
    decreases |es|
  {
    es == [] || (Shape(r) && Enabled(r, es[0]) && Possible(Do(r, es[0]), es[1..]))
  }

  ghost function After(r: Ring, es: seq<Event>): Ring
    requires Possible(r, es)
    decreases |es|
  {
    if es == [] then r else After(Do(r, es[0]), es[1..])
  }

  lemma {:induction false} RunKeeps(r: Ring, es: seq<Event>)
    requires Inv(r) && Possible(r, es)
    ensures Inv(After(r, es))
    decreases |es|
  {
    if es != [] {
      StepKeeps(r, es[0]);
      RunKeeps(Do(r, es[0]), es[1..]);
    }
  }

  /**
   * Linearizability: under every interleaving and every stale index read, the frames taken are
   * exactly the frames accepted, in order and whole (with room for a full frame); the consumer
   * never reads a slot being written; and never more than SLOTS-1 frames are held.
   */
  lemma Linearizable(r: Ring, es: seq<Event>)
    requires Start(r) && Possible(r, es)
    ensures
      var z := After(r, es);
      && |z.pops| <= |z.pushes| <= |z.pops| + |z.slots| - 1
      && (forall i :: 0 <= i < |z.pops| ==> z.pops[i].out == Clip(z.pushes[i], z.pops[i].max))
      && (forall i :: 0 <= i < |z.pops| && |z.pushes[i]| <= z.pops[i].max ==> z.pops[i].out == z.pushes[i])
      && (Writing(z.prod) && Reading(z.cons) ==> z.head != z.tail)
  {
    RunKeeps(r, es);
    var z := After(r, es);
    if Writing(z.prod) && Reading(z.cons) { NoOverlap(z); }
  }

  lemma NextMeets(h: nat, v: nat, n: nat)
    requires n > 0 && v <= h <= v + n - 1
    ensures Inc(h % n, n) == v % n <==> h - v == n - 1
  {
    IncCounts(h, n);
    Residue2(v, n);
    if (h + 1) % n == v % n { SlotsDiffer(h + 1, v + n, n); }
  }

  // ---- a push left alone ----

  function Copies(n: nat): seq<Event> { seq(n, _ => CopyIn) }

  /** The steps of one push whose load of the tail is fresh. */
  function PushSteps(r: Ring, d: Bytes): seq<Event> {
    [PushStart(d), LoadTail(r.t)] + (Copies(|d|) + [SetLen, PublishHead])
  }

  lemma {:induction false} CopiesPublish(r: Ring)
    requires Shape(r) && r.prod.PCopying?
    ensures
      var es := Copies(|r.prod.d| - r.prod.k) + [SetLen, PublishHead];
      && Possible(r, es) && After(r, es).pushes == r.pushes + [r.prod.d] && After(r, es).prod.PIdle?
      && After(r, es).h == r.h + 1
    decreases |r.prod.d| - r.prod.k
  {
    var n := |r.prod.d| - r.prod.k;
    var es := Copies(n) + [SetLen, PublishHead];
    var y := Do(r, es[0]);
    if n == 0 {
      assert es[1..] == [PublishHead] && es[1..][1..] == [];
      var z := Do(y, PublishHead);
      assert Possible(z, []) && After(z, []) == z;
      assert Possible(y, es[1..]) && After(y, es[1..]) == z;
    } else {
      assert es[1..] == Copies(n - 1) + [SetLen, PublishHead];
      CopiesPublish(y);
    }
  }

  /** A push that fits a slot and finds room is taken whole; one that does not fit does nothing. */
  lemma PushTakes(r: Ring, d: Bytes)
    requires Inv(r) && r.prod.PIdle?
    ensures |d| > r.frameMax ==> Do(r, PushStart(d)) == r
    ensures |d| <= r.frameMax && r.h - r.t < |r.slots| - 1 ==>
              && Possible(r, PushSteps(r, d))
              && After(r, PushSteps(r, d)).pushes == r.pushes + [d] && After(r, PushSteps(r, d)).prod.PIdle?
  {
    if |d| <= r.frameMax && r.h - r.t < |r.slots| - 1 {
      var y := Do(r, PushStart(d));
      StepKeeps(r, PushStart(d));
      RefusedMeansFull(y, r.t);
      StepKeeps(y, LoadTail(r.t));
      var es := PushSteps(r, d);
      assert es[1..][0] == LoadTail(r.t) && es[1..][1..] == Copies(|d|) + [SetLen, PublishHead];
      CopiesPublish(Do(y, LoadTail(r.t)));
    }
  }

  /** A push is refused only when the observed tail leaves SLOTS-1 frames between it and the head. */
  lemma RefusedMeansFull(r: Ring, v: nat)
    requires Inv(r) && Enabled(r, LoadTail(v))
    ensures Do(r, LoadTail(v)).prod.PIdle? <==> r.h - v == |r.slots| - 1
  {
    NextMeets(r.h, v, |r.slots|);
  }

  /** A pop reports empty exactly when every frame published at the observed head was taken. */
  lemma EmptyMeansEmpty(r: Ring, v: nat)
    requires Inv(r) && Enabled(r, LoadHead(v))
    ensures Do(r, LoadHead(v)).cons.CIdle? <==> v == r.t
  {
    if r.tail == v % |r.slots| { SlotsDiffer(r.t, v, |r.slots|); }
  }
}
