/** The transmit queue: a circular byte buffer over caller-owned storage with a retention policy. */
module ByteRings {
  import opened Base

  datatype Policy = KeepAll | KeepLatest

  /** The bytes between tail and head of a circular buffer, oldest first. */
  function RingSeq(s: Bytes, head: nat, tail: nat): Bytes
    requires head < |s| && tail < |s|
  {
    if head >= tail then s[tail..head] else s[tail..] + s[..head]
  }

  function Last(q: Bytes, k: nat): Bytes { if |q| <= k then q else q[|q| - k..] }

  /** What a push leaves queued: under KeepLatest the freshest bytes, under KeepAll what fits. */
  function Pushed(p: Policy, keep: nat, cap: nat, q: Bytes, s: Bytes): Bytes
    requires cap > 0 && |q| < cap
  {
    if s == [] then q
    else if p.KeepLatest? then Last(q + s, Min(keep, cap - 1))
    else q + s[..Min(|s|, cap - 1 - |q|)]
  }

  lemma CountIs(s: Bytes, head: nat, tail: nat)
    requires head < |s| && tail < |s|
    ensures |RingSeq(s, head, tail)| == (head - tail + |s|) % |s|
  {
    ModWrap(head - tail + |s|, |s|);
  }

  /** Below twice the modulus, reduction subtracts it at most once. */
  lemma ModWrap(x: nat, m: nat)
    requires 0 < m && x < 2 * m
    ensures x % m == if x < m then x else x - m
  {
    if x >= m { assert x == 1 * m + (x - m); ModUnique(x, m, 1, x - m); } else { ModUnique(x, m, 0, x); }
  }

  lemma ModUnique(x: nat, m: nat, q: nat, r: nat)
    requires 0 < m && r < m && x == q * m + r
    ensures x % m == r
  {
    var d := x / m - q;
    assert x == (x / m) * m + x % m;
    assert d * m == r - x % m;
    assert d >= 1 ==> d * m >= m;
    assert d <= -1 ==> d * m + m <= 0;
  }

  /** s' is s with x written at position head. */
  ghost predicate Wrote(s: Bytes, s': Bytes, head: nat, x: Bytes) {
    && |s'| == |s| && head + |x| <= |s|
    && (forall i :: 0 <= i < |s| && !(head <= i < head + |x|) ==> s'[i] == s[i])
    && (forall i :: 0 <= i < |x| ==> s'[head + i] == x[i])
  }

  lemma AppendHigh(s: Bytes, s': Bytes, head: nat, tail: nat, x: Bytes)
    requires Wrote(s, s', head, x) && tail <= head < |s|
    ensures s'[tail..head + |x|] == s[tail..head] + x
  {
  }

  lemma AppendLow(s: Bytes, s': Bytes, head: nat, tail: nat, x: Bytes)
    requires Wrote(s, s', head, x) && head + |x| < tail < |s|
    ensures s'[tail..] + s'[..head + |x|] == (s[tail..] + s[..head]) + x
  {
    assert s'[tail..] == s[tail..];
    assert s'[..head + |x|] == s[..head] + x;
  }

  /** Writing a contiguous run at the head appends it. */
  lemma AppendRun(s: Bytes, s': Bytes, head: nat, tail: nat, x: Bytes)
    requires head < |s| && tail < |s| && Wrote(s, s', head, x)
    requires |RingSeq(s, head, tail)| + |x| < |s|
    ensures (head + |x|) % |s| < |s|
    ensures RingSeq(s', (head + |x|) % |s|, tail) == RingSeq(s, head, tail) + x
  {
    ModWrap(head + |x|, |s|);
    if head >= tail {
      AppendHigh(s, s', head, tail, x);
      if head + |x| == |s| { assert s'[tail..] + s'[..0] == s'[tail..head + |x|]; }
    } else {
      AppendLow(s, s', head, tail, x);
    }
  }

  lemma EmptyRing(s: Bytes, head: nat)
    requires head < |s|
    ensures RingSeq(s, head, head) == []
  {
  }

  /** Taking c more bytes off the front of what is left after n. */
  lemma TakeMore(q: Bytes, n: nat, c: nat)
    requires n + c <= |q|
    ensures q[..n] + q[n..][..c] == q[..n + c]
    ensures q[n..][c..] == q[n + c..]
  {
  }

  /** Moving the tail on by n drops the n oldest bytes. */
  lemma DropRun(s: Bytes, head: nat, tail: nat, n: nat)
    requires head < |s| && tail < |s| && n <= |RingSeq(s, head, tail)|
    ensures (tail + n) % |s| < |s|
    ensures RingSeq(s, head, (tail + n) % |s|) == RingSeq(s, head, tail)[n..]
  {
    ModWrap(tail + n, |s|);
  }

  /** The freshest k bytes of q + s, by how much of s alone fills the window. */
  lemma LastParts(q: Bytes, s: Bytes, k: nat)
    ensures |s| >= k ==> Last(q + s, k) == s[|s| - k..]
    ensures |s| < k < |q| + |s| ==> Last(q + s, k) == q[|q| + |s| - k..] + s
    ensures |q| + |s| <= k ==> Last(q + s, k) == q + s
  {
  }

  class ByteRing {
    var buf: array?<u8>
    var cap: nat
    var head: nat
    var tail: nat
    var keep: nat
    var policy: Policy

    ghost predicate Valid()
      reads this
    {
      buf != null && 0 < cap <= buf.Length && head < cap && tail < cap
    }

    /** The queued bytes, oldest first. */
    ghost function Contents(): (q: Bytes)
      requires Valid()
      reads this, buf
      ensures |q| < cap
    {
      CountIs(buf[..cap], head, tail);
      RingSeq(buf[..cap], head, tail)
    }

    /** Unbound, as constructed. */
    constructor ()
      ensures buf == null && cap == 0 && policy == KeepAll && keep == 0
    {
      buf := null;
      cap, head, tail, keep := 0, 0, 0, 0;
      policy := KeepAll;
    }

    method Init(storage: array<u8>, size: nat)
      requires 0 < size <= storage.Length
      modifies this
      ensures Valid() && buf == storage && cap == size && Contents() == []
      ensures policy == old(policy) && keep == old(keep)
    {
      buf := storage;
      cap := size;
      head, tail := 0, 0;
    }

    method SetPolicy(p: Policy, window: nat)
      modifies this`policy, this`keep
      ensures policy == p && keep == window
      ensures old(Valid()) ==> Valid() && Contents() == old(Contents())
    {
      policy := p;
      keep := window;
    }

    method Count() returns (n: nat)
      requires Valid()
      ensures n == |Contents()|
    {
      CountIs(buf[..cap], head, tail);
      n := (head - tail + cap) % cap;
    }

    method Free() returns (n: nat)
      requires cap == 0 || Valid()
      ensures n == if cap == 0 then 0 else cap - 1 - |Contents()|
    {
      if cap == 0 { return 0; }
      var c := Count();
      n := cap - 1 - c;
    }

    /** Copy one contiguous run in at the head. */
    method CopyIn(s: Bytes)
      requires Valid() && |Contents()| + |s| < cap && head + |s| <= cap
      modifies this`head, buf
      ensures Valid() && Contents() == old(Contents()) + s
    {
      ghost var before := buf[..cap];
      forall k | head <= k < head + |s| { buf[k] := s[k - head]; }
      hide RingSeq;
      assert Wrote(before, buf[..cap], head, s);
      AppendRun(before, buf[..cap], head, tail, s);
      ModWrap(head + |s|, cap);
      head := (head + |s|) % cap;
    }

    /** Copy bytes in at the head, in at most two contiguous runs. */
    method Write(s: Bytes)
      requires Valid() && |Contents()| + |s| < cap
      modifies this`head, buf
      ensures Valid() && Contents() == old(Contents()) + s
    {
      var acc := 0;
      assert s[..0] == [];
      while acc < |s|
        invariant Valid() && 0 <= acc <= |s|
        invariant Contents() == old(Contents()) + s[..acc]
      {
        var contig := cap - head;
        var c := if |s| - acc < contig then |s| - acc else contig;
        assert s[..acc] + s[acc..acc + c] == s[..acc + c];
        CopyIn(s[acc..acc + c]);
        acc := acc + c;
      }
      assert s[..acc] == s;
    }

    /** Enqueue under the retention policy; returns how many bytes were dropped, old or new. */
    method Push(s: Bytes) returns (dropped: nat)
      requires cap == 0 || Valid()
      modifies this`head, this`tail, buf
      ensures cap == 0 ==> dropped == 0
      ensures cap > 0 ==> Valid() && Contents() == Pushed(policy, keep, cap, old(Contents()), s)
      ensures cap > 0 ==> dropped == |old(Contents())| + |s| - |Contents()|
    {
      if cap == 0 || |s| == 0 { return 0; }
      if policy == KeepLatest {
        dropped := PushLatest(s);
        return;
      }
      var fr := Free();
      dropped := if |s| > fr then |s| - fr else 0;
      Write(s[..|s| - dropped]);
    }

    method Clear()
      requires Valid()
      modifies this`tail
      ensures Valid() && Contents() == []
    {
      tail := head;
      EmptyRing(buf[..cap], head);
    }

    /** Evict the oldest so that what remains with s fits the keep window. */
    method PushLatest(s: Bytes) returns (dropped: nat)
      requires Valid() && s != []
      modifies this`head, this`tail, buf
      ensures Valid() && Contents() == Last(old(Contents()) + s, Min(keep, cap - 1))
      ensures dropped == |old(Contents())| + |s| - |Contents()|
    {
      hide RingSeq, Last, Contents;
      var limit := keep;
      if limit > cap - 1 { limit := cap - 1; }
      if |s| >= limit { dropped := KeepTail(s, limit); } else { dropped := Crowd(s, limit); }
    }

    /** Of new bytes that do not all fit the last are kept, and nothing else. */
    method KeepTail(s: Bytes, limit: nat) returns (dropped: nat)
      requires Valid() && limit <= |s| && limit < cap
      modifies this`head, this`tail, buf
      ensures Valid() && Contents() == Last(old(Contents()) + s, limit)
      ensures dropped == |old(Contents())| + |s| - |Contents()|
    {
      LastParts(Contents(), s, limit);
      hide RingSeq, Last, Contents;
      var gone := Replace(s[|s| - limit..]);
      dropped := gone + (|s| - limit);
    }

    /** The oldest bytes make room for new ones that fit. */
    method Crowd(s: Bytes, limit: nat) returns (dropped: nat)
      requires Valid() && |s| < limit < cap
      modifies this`head, this`tail, buf
      ensures Valid() && Contents() == Last(old(Contents()) + s, limit)
      ensures dropped == |old(Contents())| + |s| - |Contents()|
    {
      LastParts(Contents(), s, limit);
      hide RingSeq, Last, Contents;
      ghost var q := Contents();
      dropped := MakeRoom(|s|, limit);
      Write(s);
      assert q[0..] == q;
    }


    /** Throw everything queued away and queue s instead; returns how much was thrown away. */
    method Replace(s: Bytes) returns (gone: nat)
      requires Valid() && |s| < cap
      modifies this`head, this`tail, buf
      ensures Valid() && Contents() == s && gone == |old(Contents())|
    {
      hide RingSeq;
      gone := Count();
      Clear();
      Write(s);
    }

    /** Evict the oldest so that n more bytes stay within the limit. */
    method MakeRoom(n: nat, limit: nat) returns (gone: nat)
      requires Valid() && n <= limit < cap
      modifies this`tail
      ensures Valid() && gone <= |old(Contents())| && Contents() == old(Contents())[gone..]
      ensures gone == if |old(Contents())| + n > limit then |old(Contents())| + n - limit else 0
    {
      hide RingSeq;
      var count := Count();
      gone := 0;
      if count + n > limit {
        gone := count + n - limit;
        Drop(gone);
      }
    }

    /** The contiguous run of oldest bytes, as far as it reaches before the storage wraps. */
    method Peek() returns (run: Bytes)
      requires Valid()
      ensures run <= Contents() && (run == Contents() || tail + |run| == cap)
      ensures run == [] <==> Contents() == []
    {
      run := buf[tail..if head >= tail then head else cap];
    }

    /** Consume the n oldest bytes. */
    method Drop(n: nat)
      requires Valid() && n <= |Contents()|
      modifies this`tail
      ensures Valid()
      ensures Contents() == old(Contents())[n..]
    {
      DropRun(buf[..cap], head, tail, n);
      tail := (tail + n) % cap;
    }

    /** Copy out and consume up to n bytes of the oldest run. */
    method TakeRun(n: nat) returns (piece: Bytes)
      requires Valid()
      modifies this`tail
      ensures Valid() && |piece| <= n && (n > 0 && old(Contents()) != [] ==> piece != [])
      ensures piece <= old(Contents()) && Contents() == old(Contents())[|piece|..]
    {
      hide RingSeq;
      var run := Peek();
      piece := run[..if n < |run| then n else |run|];
      assert piece <= run <= Contents();
      Drop(|piece|);
    }

    /** Copy out and consume up to n oldest bytes, run by run. */
    method Read(n: nat) returns (out: Bytes)
      requires Valid()
      modifies this`tail
      ensures Valid()
      ensures out == old(Contents())[..Min(n, |old(Contents())|)]
      ensures Contents() == old(Contents())[Min(n, |old(Contents())|)..]
    {
      hide RingSeq;
      out := [];
      var count := Count();
      ghost var q := Contents();
      while |out| < n && count > 0
        invariant Valid() && count == |Contents()|
        invariant |out| <= n && |out| <= |q|
        invariant out == q[..|out|] && Contents() == q[|out|..]
        decreases count
      {
        var piece := TakeRun(n - |out|);
        TakeMore(q, |out|, |piece|);
        out := out + piece;
        count := Count();
      }
    }
  }

  /** What is lost in a push: the end of the new bytes under one policy, the oldest of all under the other. */
  lemma PushedIs(p: Policy, keep: nat, cap: nat, q: Bytes, s: Bytes)
    requires cap > 0 && |q| < cap
    ensures var z := Pushed(p, keep, cap, q, s);
      && (p.KeepAll? ==> q <= z <= q + s && |z| == Min(|q| + |s|, cap - 1))
      && (p.KeepLatest? && s != [] ==>
            |z| == Min(|q| + |s|, Min(keep, cap - 1)) && z == (q + s)[|q| + |s| - |z|..])
      && (s == [] ==> z == q)
  {
    if p.KeepAll? && s != [] { assert s == s[..Min(|s|, cap - 1 - |q|)] + s[Min(|s|, cap - 1 - |q|)..]; }
  }

  // ---- whole runs ----

  datatype Op = PushOp(s: Bytes) | ReadOp(n: nat) | SetPolicyOp(p: Policy, keep: nat)

  /** The ring as a value with what has gone through it: read bytes in order, dropped and pushed counts. */
  datatype Log = Log(policy: Policy, keep: nat, queue: Bytes, read: Bytes, dropped: nat, pushed: nat)

  function Do(cap: nat, l: Log, op: Op): Log
    requires cap > 0 && |l.queue| < cap
  {
    match op
    case PushOp(s) =>
      var q := Pushed(l.policy, l.keep, cap, l.queue, s);
      PushedSize(l.policy, l.keep, cap, l.queue, s);
      l.(queue := q, dropped := l.dropped + (|l.queue| + |s| - |q|), pushed := l.pushed + |s|)
    case ReadOp(n) =>
      var k := Min(n, |l.queue|);
      l.(queue := l.queue[k..], read := l.read + l.queue[..k])
    case SetPolicyOp(p, keep) => l.(policy := p, keep := keep)
  }

  lemma PushedSize(p: Policy, keep: nat, cap: nat, q: Bytes, s: Bytes)
    requires cap > 0 && |q| < cap
    ensures |Pushed(p, keep, cap, q, s)| < cap && |Pushed(p, keep, cap, q, s)| <= |q| + |s|
  {
  }

  function Run(cap: nat, l: Log, ops: seq<Op>): (z: Log)
    requires cap > 0 && |l.queue| < cap
    decreases |ops|
  {
    if ops == [] then l
    else
      if ops[0].PushOp? then PushedSize(l.policy, l.keep, cap, l.queue, ops[0].s);
        Run(cap, Do(cap, l, ops[0]), ops[1..])
      else Run(cap, Do(cap, l, ops[0]), ops[1..])
  }

  /** In every run, whatever the policies in between: pushed = read + dropped + queued. */
  lemma {:induction false} Conservation(cap: nat, l: Log, ops: seq<Op>)
    requires cap > 0 && |l.queue| < cap
    requires l.pushed == |l.read| + l.dropped + |l.queue|
    ensures var z := Run(cap, l, ops); z.pushed == |z.read| + z.dropped + |z.queue| && |z.queue| < cap
    decreases |ops|
  {
    if ops != [] {
      if ops[0].PushOp? { PushedSize(l.policy, l.keep, cap, l.queue, ops[0].s); }
      Conservation(cap, Do(cap, l, ops[0]), ops[1..]);
    }
  }

  /** Everything offered by a run of operations, in order. */
  function Offered(ops: seq<Op>): Bytes
    decreases |ops|
  {
    if ops == [] then [] else (if ops[0].PushOp? then ops[0].s else []) + Offered(ops[1..])
  }

  ghost predicate KeepsAll(ops: seq<Op>) {
    forall i :: 0 <= i < |ops| && ops[i].SetPolicyOp? ==> ops[i].p.KeepAll?
  }

  /** While everything is kept and nothing has been dropped, the stream through the ring is exact. */
  lemma {:induction false} KeepAllExact(cap: nat, l: Log, ops: seq<Op>)
    requires cap > 0 && |l.queue| < cap && l.policy.KeepAll? && KeepsAll(ops)
    ensures var z := Run(cap, l, ops);
      l.dropped <= z.dropped && (z.dropped == l.dropped ==> z.read + z.queue == l.read + l.queue + Offered(ops))
    decreases |ops|
  {
    if ops != [] {
      if ops[0].PushOp? { PushedSize(l.policy, l.keep, cap, l.queue, ops[0].s); }
      var m := Do(cap, l, ops[0]);
      var y := if ops[0].PushOp? then ops[0].s else [];
      KeepAllStep(cap, l, ops[0]);
      KeepAllExact(cap, m, ops[1..]);
      assert (l.read + l.queue + y) + Offered(ops[1..]) == l.read + l.queue + (y + Offered(ops[1..]));
    }
  }

  lemma KeepAllStep(cap: nat, l: Log, op: Op)
    requires cap > 0 && |l.queue| < cap && l.policy.KeepAll? && (op.SetPolicyOp? ==> op.p.KeepAll?)
    ensures var m := Do(cap, l, op);
      && m.policy.KeepAll? && l.dropped <= m.dropped
      && (m.dropped == l.dropped ==> m.read + m.queue == l.read + l.queue + (if op.PushOp? then op.s else []))
  {
    var m := Do(cap, l, op);
    if op.PushOp? {
      PushedSize(l.policy, l.keep, cap, l.queue, op.s);
      if m.dropped == l.dropped {
        assert m.queue == l.queue + op.s;
        assert l.read + (l.queue + op.s) == l.read + l.queue + op.s;
      }
    } else if op.ReadOp? {
      var k := Min(op.n, |l.queue|);
      assert l.queue == l.queue[..k] + l.queue[k..];
      assert (l.read + l.queue[..k]) + l.queue[k..] == l.read + l.queue + [];
    }
  }
}
