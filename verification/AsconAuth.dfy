/**
 * What the tag depends on. The mode is described once more, as the sponge it is: every input,
 * associated data or message, is a row of padded blocks, all taken in by one rule, with one bit
 * between the two rows. From that it follows that the tag rests on every bit of the key, the
 * nonce, the associated data and the message: for any two different inputs there are permutations
 * under which they get different tags.
 */
module AsconAuth {
  import opened Base
  import opened Bits
  import opened Ascon

  // ---- the mode as rows of blocks ----

  /** One block for the sponge: what is added, whether the message begins here, how many bytes come out. */
  datatype Block = Block(w: Word, sep: bool, out: nat)

  function Padded(b: Bytes): Bytes { b + [0x80] + Zeros(7 - |b| % 8) }

  /** Block i of padded bytes. */
  function Row(b: Bytes, i: nat): Word
    requires i <= |b| / 8
  {
    Padded(b)[8 * i..8 * i + 8]
  }

  /** The blocks of the associated data. */
  function DataRow(ad: Bytes): (r: seq<Block>)
    ensures r != []
  {
    seq(|ad| / 8 + 1, i requires 0 <= i <= |ad| / 8 => Block(Row(ad, i), false, 0))
  }

  /** The blocks of a message, or of what is left of it; a message starts with the separating bit. */
  function MessageRow(m: Bytes, first: bool): (r: seq<Block>)
    ensures r != []
  {
    seq(|m| / 8 + 1, i requires 0 <= i <= |m| / 8 =>
      Block(Row(m, i), first && i == 0, if i < |m| / 8 then 8 else |m| % 8))
  }

  /** The associated data, if there is any, then the message, which always has a last, partial block. */
  function Blocks(ad: Bytes, m: Bytes): (r: seq<Block>)
    ensures r != []
  {
    (if ad == [] then [] else DataRow(ad)) + MessageRow(m, true)
  }

  const One: Word := [0, 0, 0, 0, 0, 0, 0, 1]

  /** Adding a block; the bit that separates the message goes into the last word. */
  function Mix(s: State, r: Block): State {
    s.(x0 := XorW(s.x0, r.w), x4 := if r.sep then XorW(s.x4, One) else s.x4)
  }

  /** All blocks, with the short permutation between one and the next. */
  function Feed(p: Perm, s: State, rs: seq<Block>): (State, Bytes)
    requires rs != []
    decreases |rs|
  {
    var y := Mix(s, rs[0]);
    var c := y.x0[..Min(8, rs[0].out)];
    if |rs| == 1 then (y, c) else var (z, rest) := Feed(p, p.p6(y), rs[1..]); (z, c + rest)
  }

  function Keys(key: Bytes): (Word, Word)
    requires |key| == 16
  {
    (key[..8], key[8..])
  }

  function Front(key: Bytes, nonce: Bytes): State
    requires |key| == 16 && |nonce| == 16
  {
    State([0x80, 0x40, 0x0c, 0x06, 0, 0, 0, 0], key[..8], key[8..], nonce[..8], nonce[8..])
  }

  /** The key added to the last two words. */
  function Low(s: State, key: Bytes): State
    requires |key| == 16
  {
    s.(x3 := XorW(s.x3, key[..8]), x4 := XorW(s.x4, key[8..]))
  }

  /** The key added to the second and third word. */
  function High(s: State, key: Bytes): State
    requires |key| == 16
  {
    s.(x1 := XorW(s.x1, key[..8]), x2 := XorW(s.x2, key[8..]))
  }

  /** Ciphertext and tag of rows of blocks. */
  function Duplex(p: Perm, key: Bytes, nonce: Bytes, rs: seq<Block>): (Bytes, Bytes)
    requires |key| == 16 && |nonce| == 16 && rs != []
  {
    var (y, c) := Feed(p, Low(p.p12(Front(key, nonce)), key), rs);
    var z := Low(p.p12(High(y, key)), key);
    (c, z.x3 + z.x4)
  }

  // ---- the code computes that ----

  lemma PadIs(b: Bytes)
    ensures |Padded(b)| == 8 * (|b| / 8 + 1)
    ensures |b| < 8 ==> Row(b, 0) == Pad(b)
    ensures |b| >= 8 ==> Row(b, 0) == LoadBe(b[..8])
    ensures forall i :: 0 <= i < |b| / 8 ==> |b| >= 8 && Row(b, i + 1) == Row(b[8..], i)
  {
    if |b| >= 8 { assert Padded(b)[8..] == Padded(b[8..]); }
  }

  /** The separating bit, added ahead of the block it comes with. */
  function Parted(s: State, sep: bool): State { if sep then s.(x4 := XorW(s.x4, One)) else s }

  lemma {:induction false} BodyIsRow(p: Perm, s: State, m: Bytes, sep: bool)
    ensures EncBody(p, Parted(s, sep), m) == Feed(p, s, MessageRow(m, sep))
    decreases |m|
  {
    PadIs(m);
    var rs := MessageRow(m, sep);
    if |m| >= 8 {
      assert rs[1..] == MessageRow(m[8..], false);
      var y := Mix(s, rs[0]);
      BodyIsRow(p, p.p6(y), m[8..], false);
      assert EncBlock(p, Parted(s, sep), m[..8]) == (p.p6(y), y.x0[..8]);
    }
  }

  lemma {:induction false} DataIsRow(p: Perm, s: State, ad: Bytes, ms: seq<Block>)
    requires ms != []
    ensures Feed(p, AbsorbBlocks(p, s, ad), ms) == Feed(p, s, DataRow(ad) + ms)
    decreases |ad|
  {
    PadIs(ad);
    var rs := DataRow(ad) + ms;
    var y := Mix(s, rs[0]);
    assert y.x0[..0] == [];
    if |ad| >= 8 {
      assert rs[1..] == DataRow(ad[8..]) + ms;
      DataIsRow(p, p.p6(y), ad[8..], ms);
      assert [] + Feed(p, p.p6(y), rs[1..]).1 == Feed(p, p.p6(y), rs[1..]).1;
    } else {
      assert rs[1..] == ms;
      assert [] + Feed(p, p.p6(y), ms).1 == Feed(p, p.p6(y), ms).1;
    }
  }

  lemma TagIs(p: Perm, y: State, key: Bytes)
    requires |key| == 16
    ensures var z := Low(p.p12(High(y, key)), key); Tag(p, y, key) == z.x3 + z.x4
  {
    assert LoadBe(key[..8]) == key[..8] && LoadBe(key[8..]) == key[8..];
    var z := Low(p.p12(High(y, key)), key);
    assert z.x3[..8] == z.x3 && z.x4[..8] == z.x4;
  }

  /** The drivers are the sponge over those rows, whatever the permutations. */
  lemma SealIsDuplex(p: Perm, key: Bytes, nonce: Bytes, ad: Bytes, m: Bytes)
    requires |key| == 16 && |nonce| == 16
    ensures Seal(p, key, nonce, ad, m) == Duplex(p, key, nonce, Blocks(ad, m))
  {
    assert LoadBe(key[..8]) == key[..8] && LoadBe(key[8..]) == key[8..];
    assert LoadBe(nonce[..8]) == nonce[..8] && LoadBe(nonce[8..]) == nonce[8..];
    var s := Low(p.p12(Front(key, nonce)), key);
    assert InitState(p, key, nonce) == s;
    var s1 := if |ad| > 0 then AbsorbBlocks(p, s, ad) else s;
    var ms := MessageRow(m, true);
    BodyIsRow(p, s1, m, true);
    if ad == [] { assert Blocks(ad, m) == ms; } else { DataIsRow(p, s, ad, ms); }
    assert Feed(p, s1, ms) == Feed(p, s, Blocks(ad, m));
    hide Feed, EncBody, AbsorbBlocks, Blocks, MessageRow;
    assert AbsorbAd(p, s, ad) == Parted(s1, true);
    TagIs(p, EncBody(p, Parted(s1, true), m).0, key);
  }

  // ---- the rows determine what they are made of ----

  /** The padding byte stands behind the bytes, and nothing behind it. */
  lemma PadEnd(b: Bytes, n: nat)
    requires |b| <= n < |Padded(b)|
    ensures Padded(b)[n] == if n == |b| then 0x80 else 0
  {
  }

  lemma PaddedInjective(a: Bytes, b: Bytes)
    requires Padded(a) == Padded(b)
    ensures a == b
  {
    assert |a| < |Padded(b)| && |b| < |Padded(a)|;
    if |a| <= |b| { PadEnd(a, |b|); } else { PadEnd(b, |a|); }
    PadEnd(a, |a|);
    PadEnd(b, |b|);
    assert a == Padded(a)[..|a|] && b == Padded(b)[..|b|];
  }

  lemma RowsInjective(a: Bytes, b: Bytes)
    requires |a| / 8 == |b| / 8 && forall i :: 0 <= i <= |a| / 8 ==> Row(a, i) == Row(b, i)
    ensures a == b
  {
    PadIs(a);
    PadIs(b);
    forall j | 0 <= j < |Padded(a)| ensures Padded(a)[j] == Padded(b)[j] {
      assert Row(a, j / 8)[j % 8] == Padded(a)[j] && Row(b, j / 8)[j % 8] == Padded(b)[j];
    }
    PaddedInjective(a, b);
  }

  /** The same words with the separating bit in the same places. */
  ghost predicate Alike(rs: seq<Block>, qs: seq<Block>) {
    |rs| == |qs| && forall i :: 0 <= i < |rs| ==> rs[i].w == qs[i].w && rs[i].sep == qs[i].sep
  }

  function Lead(ad: Bytes): nat { if ad == [] then 0 else |ad| / 8 + 1 }

  lemma BlockAt(ad: Bytes, m: Bytes, i: nat)
    requires i < Lead(ad) + |m| / 8 + 1
    ensures var rs := Blocks(ad, m);
      && |rs| == Lead(ad) + |m| / 8 + 1 && rs[i].sep == (i == Lead(ad))
      && rs[i].w == if i < Lead(ad) then Row(ad, i) else Row(m, i - Lead(ad))
  {
  }

  lemma BlocksInjective(ad: Bytes, m: Bytes, ad': Bytes, m': Bytes)
    requires Alike(Blocks(ad, m), Blocks(ad', m'))
    ensures ad == ad' && m == m'
  {
    hide Blocks, Row;
    var k, k' := Lead(ad), Lead(ad');
    BlockAt(ad, m, 0);
    BlockAt(ad', m', 0);
    BlockAt(ad, m, k);
    BlockAt(ad', m', k);
    assert k == k';
    if k > 0 {
      forall i | 0 <= i < k ensures Row(ad, i) == Row(ad', i) {
        BlockAt(ad, m, i);
        BlockAt(ad', m', i);
      }
      RowsInjective(ad, ad');
    }
    forall i | 0 <= i <= |m| / 8 ensures Row(m, i) == Row(m', i) {
      BlockAt(ad, m, k + i);
      BlockAt(ad', m', k + i);
    }
    RowsInjective(m, m');
  }

  // ---- permutations that tell inputs apart ----

  lemma {:induction false} XorNSwap(a: nat, b: nat, c: nat, n: nat)
    ensures XorN(XorN(a, b, n), c, n) == XorN(XorN(a, c, n), b, n)
  {
    hide XorN;
    if n > 0 {
      XorDigits(a, b, n);
      XorDigits(a, c, n);
      XorDigits(XorN(a, b, n), c, n);
      XorDigits(XorN(a, c, n), b, n);
      XorNSwap(a / 2, b / 2, c / 2, n - 1);
      ThreeSums(a % 2, b % 2, c % 2);
      SameDigits(XorN(XorN(a, b, n), c, n), XorN(XorN(a, c, n), b, n));
    } else {
      NoDigits(a, b, c);
    }
  }

  lemma ThreeSums(x: nat, y: nat, z: nat)
    ensures ((x + y) % 2 + z) % 2 == ((x + z) % 2 + y) % 2
  {
  }

  lemma NoDigits(a: nat, b: nat, c: nat)
    ensures XorN(XorN(a, b, 0), c, 0) == XorN(XorN(a, c, 0), b, 0)
  {
  }

  /** A bit of the fourth word, turned over. Nothing but the tag ever shows that word. */
  function Flip(s: State, b: u8): State { s.(x3 := s.x3[0 := Xor(s.x3[0], b)]) }

  function FlipIf(s: State, b: u8, f: bool): State { if f then Flip(s, b) else s }

  function Count(s: State): int { s.x1[0] }

  /** Counts in the second word. */
  function Tick(s: State): State { s.(x1 := s.x1[0 := Wrap8(Count(s) + 1)]) }

  /** Turns over bits v of the last word. */
  function Spin(s: State, v: u8): State { s.(x4 := s.x4[0 := Xor(s.x4[0], v)]) }

  /** Where, if anywhere, the bit is turned over: at one input of the short or the long permutation. */
  datatype Trap = NoTrap | Six(t: State) | Twelve(t: State)

  function Sprung(s: State, t: State, b: u8): State { if s == t || s == Flip(t, b) then Flip(s, b) else s }

  function Trapped(v: u8, b: u8, trap: Trap): Perm {
    Perm(s => Spin(if trap.Twelve? then Sprung(s, trap.t, b) else s, v),
         s => Tick(if trap.Six? then Sprung(s, trap.t, b) else s))
  }

  ghost predicate Invertible(p: Perm) {
    && (forall x, y {:trigger p.p6(x), p.p6(y)} :: p.p6(x) == p.p6(y) ==> x == y)
    && (forall x, y {:trigger p.p12(x), p.p12(y)} :: p.p12(x) == p.p12(y) ==> x == y)
  }

  lemma FlipTwice(s: State, b: u8)
    ensures Flip(Flip(s, b), b) == s
  {
    XorByte(s.x3[0], b);
    assert s.x3[0 := s.x3[0]] == s.x3;
    assert s.x3[0 := Xor(s.x3[0], b)][0 := s.x3[0]] == s.x3[0 := s.x3[0]];
  }

  lemma TickInjective(x: State, y: State)
    requires Tick(x) == Tick(y)
    ensures x == y
  {
    assert Tick(x).x1[0] == Tick(y).x1[0];
    forall i | 0 <= i < 8 ensures x.x1[i] == y.x1[i] { assert i > 0 ==> Tick(x).x1[i] == Tick(y).x1[i]; }
  }

  lemma SpinInjective(x: State, y: State, v: u8)
    requires Spin(x, v) == Spin(y, v)
    ensures x == y
  {
    assert Spin(x, v).x4[0] == Spin(y, v).x4[0];
    XorByte(x.x4[0], v);
    XorByte(y.x4[0], v);
    forall i | 0 <= i < 8 ensures x.x4[i] == y.x4[i] { assert i > 0 ==> Spin(x, v).x4[i] == Spin(y, v).x4[i]; }
  }

  lemma SprungInjective(x: State, y: State, t: State, b: u8)
    requires Sprung(x, t, b) == Sprung(y, t, b)
    ensures x == y
  {
    FlipTwice(x, b);
    FlipTwice(y, b);
    FlipTwice(t, b);
  }

  lemma TrappedInvertible(v: u8, b: u8, trap: Trap)
    ensures Invertible(Trapped(v, b, trap))
  {
    var p := Trapped(v, b, trap);
    hide Tick, Spin, Sprung;
    forall x, y | p.p6(x) == p.p6(y) ensures x == y {
      TickInjective(if trap.Six? then Sprung(x, trap.t, b) else x, if trap.Six? then Sprung(y, trap.t, b) else y);
      if trap.Six? { SprungInjective(x, y, trap.t, b); }
    }
    forall x, y | p.p12(x) == p.p12(y) ensures x == y {
      SpinInjective(if trap.Twelve? then Sprung(x, trap.t, b) else x,
                    if trap.Twelve? then Sprung(y, trap.t, b) else y, v);
      if trap.Twelve? { SprungInjective(x, y, trap.t, b); }
    }
  }

  // ---- a turned-over bit goes through untouched ----

  lemma FlipKeys(s: State, key: Bytes, b: u8, f: bool)
    requires |key| == 16
    ensures Low(FlipIf(s, b, f), key) == FlipIf(Low(s, key), b, f)
    ensures High(FlipIf(s, b, f), key) == FlipIf(High(s, key), b, f)
  {
    XorNSwap(s.x3[0], b, key[0], 8);
    assert Low(Flip(s, b), key).x3 == Flip(Low(s, key), b).x3;
  }

  /** The permutations carry the bit along, away from the trap. */
  lemma FlipPerm(v: u8, b: u8, trap: Trap, s: State, f: bool)
    ensures var p, q := Trapped(v, b, trap), Trapped(v, b, NoTrap);
      && ((trap.Six? ==> s != trap.t && s != Flip(trap.t, b)) ==> p.p6(FlipIf(s, b, f)) == FlipIf(q.p6(s), b, f))
      && ((trap.Twelve? ==> s != trap.t && s != Flip(trap.t, b)) ==> p.p12(FlipIf(s, b, f)) == FlipIf(q.p12(s), b, f))
  {
    if !trap.NoTrap? { FlipMissed(s, trap.t, b); }
    FlipMoves(s, v, b);
    hide Flip, Tick, Spin;
  }

  lemma FlipMissed(s: State, t: State, b: u8)
    ensures s != t && s != Flip(t, b) ==> Sprung(s, t, b) == s && Sprung(Flip(s, b), t, b) == Flip(s, b)
  {
    FlipTwice(s, b);
    FlipTwice(t, b);
    hide Flip;
  }

  lemma FlipMoves(s: State, v: u8, b: u8)
    ensures Tick(Flip(s, b)) == Flip(Tick(s), b) && Spin(Flip(s, b), v) == Flip(Spin(s, v), b)
  {
  }

  /** At the trap the bit is turned over. */
  lemma TrapSprings(v: u8, b: u8, t: State)
    ensures Trapped(v, b, Six(t)).p6(t) == Flip(Trapped(v, b, NoTrap).p6(t), b)
    ensures Trapped(v, b, Twelve(t)).p12(t) == Flip(Trapped(v, b, NoTrap).p12(t), b)
  {
  }

  /** The trap is not in the way of n steps of the counter from u. */
  ghost predicate Clear(trap: Trap, u: int, n: int) {
    trap.Six? ==> forall i {:trigger Wrap8(i)} :: u <= i < u + n ==> Count(trap.t) != Wrap8(i)
  }

  /** A block taken in away from the trap, and the permutation after it. */
  lemma FlipBlock(v: u8, b: u8, trap: Trap, s: State, f: bool, r: Block)
    requires trap.Six? ==> Count(trap.t) != Count(s)
    ensures var y := Mix(s, r);
      && Mix(FlipIf(s, b, f), r) == FlipIf(y, b, f) && Count(y) == Count(s)
      && Trapped(v, b, trap).p6(FlipIf(y, b, f)) == FlipIf(Trapped(v, b, NoTrap).p6(y), b, f)
      && Count(Trapped(v, b, NoTrap).p6(y)) == Wrap8(Count(s) + 1)
  {
    var y := Mix(s, r);
    FlipMix(s, f, b, r);
    FlipPerm(v, b, trap, y, f);
    CountsOn(v, b, y);
    assert trap.Six? ==> Count(trap.t) == Count(Flip(trap.t, b));
    hide Trapped, Mix, FlipIf, Flip;
  }

  lemma CountsOn(v: u8, b: u8, y: State)
    ensures Count(Trapped(v, b, NoTrap).p6(y)) == Wrap8(Count(y) + 1)
  {
  }

  /** Rows of blocks carry the bit along, and the ciphertext does not show it. */
  lemma {:induction false} FlipFeed(v: u8, b: u8, trap: Trap, s: State, f: bool, rs: seq<Block>, u: int)
    requires rs != [] && Count(s) == Wrap8(u) && Clear(trap, u, |rs| - 1)
    ensures var (z, c) := Feed(Trapped(v, b, NoTrap), s, rs);
      Feed(Trapped(v, b, trap), FlipIf(s, b, f), rs) == (FlipIf(z, b, f), c)
    decreases |rs|
  {
    hide Trapped, Mix, FlipIf;
    if |rs| == 1 {
      FlipMix(s, f, b, rs[0]);
    } else {
      assert trap.Six? ==> Count(trap.t) != Wrap8(u);
      FlipMix(s, f, b, rs[0]);
      FlipBlock(v, b, trap, s, f, rs[0]);
      WrapSum(u, 1);
      FlipFeed(v, b, trap, Trapped(v, b, NoTrap).p6(Mix(s, rs[0])), f, rs[1..], u + 1);
    }
  }

  lemma FlipMix(s: State, f: bool, b: u8, r: Block)
    ensures Mix(FlipIf(s, b, f), r) == FlipIf(Mix(s, r), b, f) && FlipIf(Mix(s, r), b, f).x0 == Mix(s, r).x0
    ensures Count(Mix(s, r)) == Count(s)
  {
  }

  // ---- two different rows of blocks ----

  /** The first of several blocks, and the rest. */
  lemma FeedStep(p: Perm, s: State, rs: seq<Block>)
    requires |rs| > 1
    ensures var (z, c) := Feed(p, p.p6(Mix(s, rs[0])), rs[1..]);
      Feed(p, s, rs) == (z, Mix(s, rs[0]).x0[..Min(8, rs[0].out)] + c)
  {
  }

  /** The first block springs the trap: everything after carries the bit. */
  lemma FeedSprings(v: u8, b: u8, s: State, rs: seq<Block>, u: int)
    requires 1 < |rs| <= 256 && Count(s) == Wrap8(u)
    ensures var trap := Six(Mix(s, rs[0])); var (z, c) := Feed(Trapped(v, b, NoTrap), s, rs);
      Feed(Trapped(v, b, trap), s, rs) == (Flip(z, b), c)
  {
    hide Trapped, Mix, Flip, Feed;
    var y := Mix(s, rs[0]);
    var trap := Six(y);
    TrapSprings(v, b, y);
    CountsOn(v, b, y);
    WrapSum(u, 1);
    FlipMix(s, false, b, rs[0]);
    ClearAhead(y, u, |rs| - 2);
    FeedStep(Trapped(v, b, NoTrap), s, rs);
    FeedStep(Trapped(v, b, trap), s, rs);
    FlipFeed(v, b, trap, Trapped(v, b, NoTrap).p6(y), true, rs[1..], u + 1);
  }

  lemma ClearAhead(y: State, u: int, n: int)
    requires Count(y) == Wrap8(u) && n <= 254
    ensures Clear(Six(y), u + 1, n)
  {
  }

  /** The first block does not, and nothing after it can. */
  lemma FeedPasses(v: u8, b: u8, trap: Trap, s: State, rs: seq<Block>, u: int)
    requires rs != [] && Count(s) == Wrap8(u) && Clear(trap, u + 1, |rs| - 2)
    requires trap.Six? && |rs| > 1 ==> Mix(s, rs[0]) != trap.t && Mix(s, rs[0]) != Flip(trap.t, b)
    ensures Feed(Trapped(v, b, trap), s, rs) == Feed(Trapped(v, b, NoTrap), s, rs)
  {
    hide Trapped, Mix, Flip, Feed;
    if |rs| > 1 {
      var y := Mix(s, rs[0]);
      FlipPerm(v, b, trap, y, false);
      CountsOn(v, b, y);
      WrapSum(u, 1);
      FlipMix(s, false, b, rs[0]);
      FeedStep(Trapped(v, b, NoTrap), s, rs);
      FeedStep(Trapped(v, b, trap), s, rs);
      FlipFeed(v, b, trap, Trapped(v, b, NoTrap).p6(y), false, rs[1..], u + 1);
    } else {
      FeedLast(Trapped(v, b, trap), Trapped(v, b, NoTrap), s, rs);
    }
  }

  lemma FeedLast(p: Perm, q: Perm, s: State, rs: seq<Block>)
    requires |rs| == 1
    ensures Feed(p, s, rs) == Feed(q, s, rs)
  {
  }

  /** Different blocks make different states, and the bit is not in what differs. */
  lemma MixDiffers(s: State, r: Block, q: Block, b: u8)
    requires r.w != q.w || r.sep != q.sep
    requires b != 0
    ensures Mix(s, r) != Mix(s, q) && Mix(s, r) != Flip(Mix(s, q), b)
  {
    if r.w != q.w && XorW(s.x0, r.w) == XorW(s.x0, q.w) { XorWordSelf(s.x0, r.w); XorWordSelf(s.x0, q.w); }
    if r.sep != q.sep { OneShows(s.x4); }
    XorByte(s.x3[0], b);
    XorByte(s.x3[0], s.x3[0]);
    assert Flip(Mix(s, q), b).x3[0] == Xor(s.x3[0], b);
  }

  lemma OneShows(w: Word)
    ensures XorW(w, One) != w
  {
    XorByte(w[7], 1);
    assert XorW(w, One)[7] == Xor(w[7], 1);
  }

  /** The state the tag is read from, and the ciphertext. */
  function Final(p: Perm, key: Bytes, s: State, rs: seq<Block>): (State, Bytes)
    requires |key| == 16 && rs != []
  {
    var (y, c) := Feed(p, s, rs);
    (Low(p.p12(High(y, key)), key), c)
  }

  /** Under the trap the run ends with the bit turned over or not, and is the same otherwise. */
  ghost predicate EndsWith(v: u8, b: u8, trap: Trap, key: Bytes, s: State, rs: seq<Block>, f: bool)
    requires |key| == 16 && rs != []
  {
    var (z, c) := Final(Trapped(v, b, NoTrap), key, s, rs);
    Final(Trapped(v, b, trap), key, s, rs) == (FlipIf(z, b, f), c)
  }

  lemma FinishCarries(v: u8, b: u8, trap: Trap, key: Bytes, y: State, f: bool)
    requires |key| == 16 && (trap.Twelve? ==> High(y, key) != trap.t && High(y, key) != Flip(trap.t, b))
    ensures Low(Trapped(v, b, trap).p12(High(FlipIf(y, b, f), key)), key) ==
      FlipIf(Low(Trapped(v, b, NoTrap).p12(High(y, key)), key), b, f)
  {
    FlipKeys(y, key, b, f);
    FlipPerm(v, b, trap, High(y, key), f);
    FlipKeys(Trapped(v, b, NoTrap).p12(High(y, key)), key, b, f);
    hide Trapped, Low, High, FlipIf;
  }

  /** With the trap in the short permutation: what the rows end with. */
  lemma SixEnds(v: u8, b: u8, t: State, key: Bytes, s: State, rs: seq<Block>, f: bool)
    requires |key| == 16 && rs != []
    requires var (z, c) := Feed(Trapped(v, b, NoTrap), s, rs);
      Feed(Trapped(v, b, Six(t)), s, rs) == (FlipIf(z, b, f), c)
    ensures EndsWith(v, b, Six(t), key, s, rs, f)
  {
    FinishCarries(v, b, Six(t), key, Feed(Trapped(v, b, NoTrap), s, rs).0, f);
    hide Trapped, Low, High, FlipIf, Feed;
  }

  /** A trap set for a run from state s: at a count it comes by, or at what it may end with. */
  ghost predicate Placed(trap: Trap, s: State, u: int, n: nat) {
    && !trap.NoTrap?
    && (trap.Six? ==> exists i {:trigger Wrap8(i)} :: u <= i < u + n && Count(trap.t) == Wrap8(i))
    && (trap.Twelve? ==> trap.t.x4[0] == s.x4[0])
  }

  /** Two last blocks that differ: the trap is at the input of the last permutation. */
  lemma LastApart(v: u8, b: u8, key: Bytes, s: State, r: Block, q: Block)
    requires |key| == 16 && b != 0 && (r.w != q.w || r.sep != q.sep)
    ensures var t := High(Mix(s, r), key);
      EndsWith(v, b, Twelve(t), key, s, [r], true) && EndsWith(v, b, Twelve(t), key, s, [q], false)
  {
    var t, y := High(Mix(s, r), key), High(Mix(s, q), key);
    MixDiffers(s, q, r, b);
    FlipKeys(Mix(s, r), key, b, true);
    if y == t { HighInjective(Mix(s, q), Mix(s, r), key); }
    if y == Flip(t, b) { HighInjective(Mix(s, q), Flip(Mix(s, r), b), key); }
    FinishCarries(v, b, Twelve(t), key, Mix(s, q), false);
    TrapSprings(v, b, t);
    FlipKeys(Trapped(v, b, NoTrap).p12(t), key, b, true);
    hide Trapped, Low, High, Flip, Mix;
  }

  lemma HighInjective(y: State, z: State, key: Bytes)
    requires |key| == 16 && High(y, key) == High(z, key)
    ensures y == z
  {
    WordBack(y.x1, z.x1, key[..8]);
    WordBack(y.x2, z.x2, key[8..]);
  }

  lemma WordBack(a: Word, b: Word, k: Word)
    requires XorW(a, k) == XorW(b, k)
    ensures a == b
  {
    forall i | 0 <= i < 8 ensures a[i] == b[i] {
      XorByte(a[i], k[i]);
      XorByte(b[i], k[i]);
      assert XorW(a, k)[i] == XorW(b, k)[i];
    }
  }

  /** The last word's first byte is the same all along. */
  lemma MixKeeps(v: u8, b: u8, s: State, r: Block, key: Bytes)
    requires |key| == 16
    ensures Mix(s, r).x4[0] == s.x4[0] && High(Mix(s, r), key).x4[0] == s.x4[0]
    ensures Trapped(v, b, NoTrap).p6(Mix(s, r)).x4[0] == s.x4[0]
  {
    XorByte(s.x4[0], 0);
  }

  /** A first block that does not spring the trap: the rows end as the rest does. */
  lemma EndsLift(v: u8, b: u8, trap: Trap, key: Bytes, s: State, rs: seq<Block>, f: bool)
    requires |key| == 16 && |rs| > 1
    requires trap.Six? ==> Count(trap.t) != Count(s)
    requires EndsWith(v, b, trap, key, Trapped(v, b, NoTrap).p6(Mix(s, rs[0])), rs[1..], f)
    ensures EndsWith(v, b, trap, key, s, rs, f)
  {
    FlipBlock(v, b, trap, s, false, rs[0]);
    FeedStep(Trapped(v, b, NoTrap), s, rs);
    FeedStep(Trapped(v, b, trap), s, rs);
    hide Trapped, Mix, Feed, Low, High, Flip;
  }

  /** Only the shorter of two rows ends here: the trap is at the input of the permutation the other goes through. */
  lemma LongerApart(v: u8, b: u8, key: Bytes, s: State, r: Block, qs: seq<Block>, u: int)
    requires |key| == 16 && 1 < |qs| <= 250 && Count(s) == Wrap8(u)
    ensures var trap := Six(Mix(s, qs[0]));
      EndsWith(v, b, trap, key, s, [r], false) && EndsWith(v, b, trap, key, s, qs, true)
  {
    var t := Mix(s, qs[0]);
    FeedSprings(v, b, s, qs, u);
    FeedLast(Trapped(v, b, Six(t)), Trapped(v, b, NoTrap), s, [r]);
    hide Trapped, Mix, Feed, Flip;
    SixEnds(v, b, t, key, s, qs, true);
    SixEnds(v, b, t, key, s, [r], false);
  }

  /** Both go on, from different states. */
  lemma BothApart(v: u8, b: u8, key: Bytes, s: State, rs: seq<Block>, qs: seq<Block>, u: int)
    requires |key| == 16 && b != 0 && 1 < |rs| <= 250 && 1 < |qs| <= 250 && Count(s) == Wrap8(u)
    requires rs[0].w != qs[0].w || rs[0].sep != qs[0].sep
    ensures var trap := Six(Mix(s, rs[0]));
      EndsWith(v, b, trap, key, s, rs, true) && EndsWith(v, b, trap, key, s, qs, false)
  {
    var t := Mix(s, rs[0]);
    MixDiffers(s, qs[0], rs[0], b);
    FeedSprings(v, b, s, rs, u);
    FlipMix(s, false, b, rs[0]);
    ClearAhead(t, u, |qs| - 2);
    FeedPasses(v, b, Six(t), s, qs, u);
    hide Trapped, Mix, Feed, Flip;
    SixEnds(v, b, t, key, s, rs, true);
    SixEnds(v, b, t, key, s, qs, false);
  }

  /** Rows that differ in the first block, or of which only one goes on after it. */
  lemma ApartHere(v: u8, b: u8, key: Bytes, s: State, rs: seq<Block>, qs: seq<Block>, u: int)
    returns (trap: Trap, f: bool)
    requires |key| == 16 && b != 0 && rs != [] && qs != [] && |rs| + |qs| <= 250 && Count(s) == Wrap8(u)
    requires rs[0].w != qs[0].w || rs[0].sep != qs[0].sep || ((|rs| == 1) != (|qs| == 1))
    ensures Placed(trap, s, u, 1) && EndsWith(v, b, trap, key, s, rs, f) && EndsWith(v, b, trap, key, s, qs, !f)
  {
    var r, q := rs[0], qs[0];
    PlacedHere(v, b, s, r, key, u);
    PlacedHere(v, b, s, q, key, u);
    hide Trapped, Mix, High, EndsWith, Placed, Count;
    if |rs| == 1 && |qs| == 1 {
      assert rs == [r] && qs == [q];
      LastApart(v, b, key, s, r, q);
      trap, f := Twelve(High(Mix(s, r), key)), true;
    } else if |rs| == 1 {
      assert rs == [r];
      LongerApart(v, b, key, s, r, qs, u);
      trap, f := Six(Mix(s, q)), false;
    } else if |qs| == 1 {
      assert qs == [q];
      LongerApart(v, b, key, s, q, rs, u);
      trap, f := Six(Mix(s, r)), true;
    } else {
      BothApart(v, b, key, s, rs, qs, u);
      trap, f := Six(Mix(s, r)), true;
    }
  }

  lemma PlacedHere(v: u8, b: u8, s: State, r: Block, key: Bytes, u: int)
    requires |key| == 16 && Count(s) == Wrap8(u)
    ensures Placed(Six(Mix(s, r)), s, u, 1) && Placed(Twelve(High(Mix(s, r), key)), s, u, 1)
  {
    FlipMix(s, false, b, r);
    MixKeeps(v, b, s, r, key);
    hide Mix, High;
  }

  lemma PlacedWider(trap: Trap, s: State, u: int, n: nat)
    requires Placed(trap, s, u, 1) && n >= 1
    ensures Placed(trap, s, u, n)
  {
  }

  /** For any two different rows there is a trap that just one of them springs. */
  lemma {:induction false} Apart(v: u8, b: u8, key: Bytes, s: State, rs: seq<Block>, qs: seq<Block>, u: int)
    returns (trap: Trap, f: bool)
    requires |key| == 16 && b != 0 && rs != [] && qs != [] && |rs| + |qs| <= 250 && Count(s) == Wrap8(u)
    requires !Alike(rs, qs)
    ensures Placed(trap, s, u, |rs| + |qs|)
    ensures EndsWith(v, b, trap, key, s, rs, f) && EndsWith(v, b, trap, key, s, qs, !f)
    decreases |rs|
  {
    hide Trapped, Mix, High, EndsWith, Placed, Count, Alike;
    var r, q := rs[0], qs[0];
    if r.w != q.w || r.sep != q.sep || ((|rs| == 1) != (|qs| == 1)) {
      trap, f := ApartHere(v, b, key, s, rs, qs, u);
      PlacedWider(trap, s, u, |rs| + |qs|);
    } else {
      TailsDiffer(rs, qs);
      SameMix(s, r, q);
      FlipMix(s, false, b, r);
      var z := Trapped(v, b, NoTrap).p6(Mix(s, r));
      CountsOn(v, b, Mix(s, r));
      MixKeeps(v, b, s, r, key);
      WrapSum(u, 1);
      trap, f := Apart(v, b, key, z, rs[1..], qs[1..], u + 1);
      NotHere(trap, z, s, u, |rs| + |qs| - 2);
      EndsLift(v, b, trap, key, s, rs, f);
      EndsLift(v, b, trap, key, s, qs, !f);
    }
  }

  lemma SameMix(s: State, r: Block, q: Block)
    requires r.w == q.w && r.sep == q.sep
    ensures Mix(s, r) == Mix(s, q)
  {
  }

  lemma TailsDiffer(rs: seq<Block>, qs: seq<Block>)
    requires rs != [] && qs != [] && !Alike(rs, qs) && rs[0].w == qs[0].w && rs[0].sep == qs[0].sep
    requires |rs| == 1 <==> |qs| == 1
    ensures |rs| > 1 && |qs| > 1 && !Alike(rs[1..], qs[1..])
  {
    if Alike(rs[1..], qs[1..]) {
      forall i | 0 <= i < |rs| ensures rs[i].w == qs[i].w && rs[i].sep == qs[i].sep {
        assert i > 0 ==> rs[i] == rs[1..][i - 1] && qs[i] == qs[1..][i - 1];
      }
    }
  }

  /** A trap placed for later is not at this count. */
  lemma NotHere(trap: Trap, z: State, s: State, u: int, n: nat)
    requires Placed(trap, z, u + 1, n) && Count(s) == Wrap8(u) && z.x4[0] == s.x4[0] && n <= 250
    ensures Placed(trap, s, u, n + 2) && (trap.Six? ==> Count(trap.t) != Count(s))
  {
  }

  // ---- the tag depends on everything ----

  /** Ciphertext the same, and the tag's first byte turned over by b or not. */
  ghost predicate Turned(x: (Bytes, Bytes), z: (Bytes, Bytes), b: u8, f: bool) {
    && x.0 == z.0 && |x.1| == |z.1| > 0
    && x.1[0] == if f then Xor(z.1[0], b) else z.1[0]
  }

  lemma EndShows(v: u8, b: u8, trap: Trap, key: Bytes, nonce: Bytes, rs: seq<Block>, f: bool)
    requires |key| == 16 && |nonce| == 16 && rs != []
    requires Trapped(v, b, trap).p12(Front(key, nonce)) == Trapped(v, b, NoTrap).p12(Front(key, nonce))
    requires EndsWith(v, b, trap, key, Low(Trapped(v, b, NoTrap).p12(Front(key, nonce)), key), rs, f)
    ensures Turned(Duplex(Trapped(v, b, trap), key, nonce, rs), Duplex(Trapped(v, b, NoTrap), key, nonce, rs), b, f)
  {
    hide Trapped, Low, High, Feed, Front;
  }

  /** What the first permutation leaves in the last word's first byte. */
  function After12(key: Bytes, nonce: Bytes, v: u8): u8
    requires |key| == 16 && |nonce| == 16
  {
    Xor(Xor(nonce[8], v), key[8])
  }

  lemma StartByte(key: Bytes, nonce: Bytes, v: u8, b: u8)
    requires |key| == 16 && |nonce| == 16
    ensures Low(Trapped(v, b, NoTrap).p12(Front(key, nonce)), key).x4[0] == After12(key, nonce, v)
    ensures Front(key, nonce).x4[0] == nonce[8]
  {
  }

  lemma SpinMoves(n: u8, v: u8, k: u8, n': u8)
    requires Xor(Xor(n, v), k) == n'
    ensures v == Xor(Xor(n, k), n')
  {
    XorNSwap(n, v, k, 8);
    hide XorN;
    var a := Xor(n, k);
    assert Xor(a, v) == n';
    XorByte(a, v);
    XorSym(a, n');
  }

  /** Bits for the last word that keep the two uses of the long permutation apart, in both runs. */
  function Bits12(key: Bytes, nonce: Bytes, key': Bytes, nonce': Bytes): (v: u8)
    requires |key| == |nonce| == |key'| == |nonce'| == 16
    ensures After12(key, nonce, v) != nonce[8] && After12(key', nonce', v) != nonce[8]
  {
    var a, c := Xor(Xor(nonce[8], key[8]), nonce[8]), Xor(Xor(nonce'[8], key'[8]), nonce[8]);
    var v: u8 := if a != 0 && c != 0 then 0 else if a != 1 && c != 1 then 1 else 2;
    if After12(key, nonce, v) == nonce[8] then SpinMoves(nonce[8], v, key[8], nonce[8]); v
    else if After12(key', nonce', v) == nonce[8] then SpinMoves(nonce'[8], v, key'[8], nonce[8]); v
    else v
  }

  /** Away from the trap the long permutation is what it is without. */
  lemma LongMissed(v: u8, b: u8, trap: Trap, s: State)
    requires trap.Twelve? ==> s != trap.t && s != Flip(trap.t, b)
    ensures Trapped(v, b, trap).p12(s) == Trapped(v, b, NoTrap).p12(s)
  {
    FlipPerm(v, b, trap, s, false);
  }

  lemma FlipElsewhere(s: State, t: State, b: u8)
    requires s.x4[0] != t.x4[0]
    ensures s != t && s != Flip(t, b)
  {
  }

  /** One key and nonce: different associated data or messages. */
  lemma RowsApart(v: u8, b: u8, key: Bytes, nonce: Bytes, rs: seq<Block>, qs: seq<Block>) returns (trap: Trap, f: bool)
    requires b != 0 && |key| == 16 && |nonce| == 16 && rs != [] && qs != [] && |rs| + |qs| <= 250 && !Alike(rs, qs)
    requires After12(key, nonce, v) != nonce[8]
    ensures Turned(Duplex(Trapped(v, b, trap), key, nonce, rs), Duplex(Trapped(v, b, NoTrap), key, nonce, rs), b, f)
    ensures Turned(Duplex(Trapped(v, b, trap), key, nonce, qs), Duplex(Trapped(v, b, NoTrap), key, nonce, qs), b, !f)
  {
    hide Trapped, Low, Front, After12, Alike, Duplex, EndsWith;
    var s := Low(Trapped(v, b, NoTrap).p12(Front(key, nonce)), key);
    StartByte(key, nonce, v, b);
    var u := Count(s);
    trap, f := Apart(v, b, key, s, rs, qs, u);
    if trap.Twelve? { FlipElsewhere(Front(key, nonce), trap.t, b); }
    LongMissed(v, b, trap, Front(key, nonce));
    EndShows(v, b, trap, key, nonce, rs, f);
    EndShows(v, b, trap, key, nonce, qs, !f);
  }

  lemma {:induction false} FeedKeeps(v: u8, b: u8, s: State, rs: seq<Block>)
    requires rs != []
    ensures Feed(Trapped(v, b, NoTrap), s, rs).0.x4[0] == s.x4[0]
    decreases |rs|
  {
    MixKeeps(v, b, s, rs[0], Zeros(16));
    hide Trapped, Mix;
    if |rs| > 1 { FeedKeeps(v, b, Trapped(v, b, NoTrap).p6(Mix(s, rs[0])), rs[1..]); }
  }

  /** A run that springs a trap at its very start, or does not, and comes by nothing like it later. */
  lemma StartEnds(v: u8, b: u8, t: State, key: Bytes, nonce: Bytes, rs: seq<Block>, f: bool)
    requires |key| == 16 && |nonce| == 16 && rs != [] && After12(key, nonce, v) != t.x4[0]
    requires if f then t == Front(key, nonce) else Front(key, nonce) != t && Front(key, nonce) != Flip(t, b)
    ensures Turned(Duplex(Trapped(v, b, Twelve(t)), key, nonce, rs),
                   Duplex(Trapped(v, b, NoTrap), key, nonce, rs), b, f)
  {
    hide Trapped, Low, High, Feed, Front, Flip, FlipIf, After12;
    var p, q := Trapped(v, b, Twelve(t)), Trapped(v, b, NoTrap);
    var s0 := Front(key, nonce);
    StartTurned(v, b, t, s0, f);
    var s := Low(q.p12(s0), key);
    FlipKeys(q.p12(s0), key, b, f);
    WrapCount(s);
    FlipFeed(v, b, Twelve(t), s, f, rs, Count(s));
    StartByte(key, nonce, v, b);
    FeedKeeps(v, b, s, rs);
    var y := Feed(q, s, rs).0;
    HighKeeps(y, key);
    FlipElsewhere(High(y, key), t, b);
    FinishCarries(v, b, Twelve(t), key, y, f);
    TurnedTag(Low(q.p12(High(y, key)), key), b, f);
  }

  lemma StartTurned(v: u8, b: u8, t: State, s0: State, f: bool)
    requires if f then t == s0 else s0 != t && s0 != Flip(t, b)
    ensures Trapped(v, b, Twelve(t)).p12(s0) == FlipIf(Trapped(v, b, NoTrap).p12(s0), b, f)
  {
    if f { TrapSprings(v, b, t); } else { LongMissed(v, b, Twelve(t), s0); }
    hide Trapped;
  }

  lemma HighKeeps(y: State, key: Bytes)
    requires |key| == 16
    ensures High(y, key).x4 == y.x4
  {
  }

  lemma TurnedTag(z: State, b: u8, f: bool)
    ensures var x := FlipIf(z, b, f);
      && |x.x3 + x.x4| == |z.x3 + z.x4| == 16
      && (x.x3 + x.x4)[0] == if f then Xor((z.x3 + z.x4)[0], b) else (z.x3 + z.x4)[0]
  {
  }

  lemma WrapCount(s: State)
    ensures Count(s) == Wrap8(Count(s))
  {
  }

  /** A bit whose turning does not lead from one start to the other. */
  function OtherBit(s: State, t: State): (b: u8)
    ensures b != 0 && s != Flip(t, b)
  {
    if s != Flip(t, 1) then 1
    else
      XorByte(t.x3[0], 1);
      XorByte(t.x3[0], 2);
      assert Flip(t, 1).x3[0] == Xor(t.x3[0], 1) && Flip(t, 2).x3[0] == Xor(t.x3[0], 2);
      2
  }

  /** What is put into sealing. */
  datatype Input = Input(key: Bytes, nonce: Bytes, ad: Bytes, m: Bytes)

  /** Keys and nonces of their sizes, and no more data than a frame has. */
  predicate Sized(x: Input) { |x.key| == 16 && |x.nonce| == 16 && |x.ad| <= 255 && |x.m| <= 255 }

  function Sealed(p: Perm, x: Input): (r: (Bytes, Bytes))
    requires Sized(x)
    ensures |r.0| == |x.m| && |r.1| == 16
  {
    SealOpen(p, x.key, x.nonce, x.ad, x.m, 0);
    Seal(p, x.key, x.nonce, x.ad, x.m)
  }

  function BitFor(x: Input, y: Input): (b: u8)
    requires Sized(x) && Sized(y)
    ensures b != 0
  {
    OtherBit(Front(y.key, y.nonce), Front(x.key, x.nonce))
  }

  /** The pair of permutations for two inputs, with a trap or without. */
  function PermFor(x: Input, y: Input, trap: Trap): Perm
    requires Sized(x) && Sized(y)
  {
    Trapped(Bits12(x.key, x.nonce, y.key, y.nonce), BitFor(x, y), trap)
  }

  lemma BlockCount(ad: Bytes, m: Bytes)
    requires |ad| <= 255 && |m| <= 255
    ensures |Blocks(ad, m)| <= 64
  {
    BlockAt(ad, m, 0);
  }

  lemma FrontInjective(key: Bytes, nonce: Bytes, key': Bytes, nonce': Bytes)
    requires |key| == |nonce| == |key'| == |nonce'| == 16 && Front(key, nonce) == Front(key', nonce')
    ensures key == key' && nonce == nonce'
  {
    assert key == key[..8] + key[8..] && key' == key'[..8] + key'[8..];
    assert nonce == nonce[..8] + nonce[8..] && nonce' == nonce'[..8] + nonce'[8..];
  }

  /** For any two different inputs there is a trap that turns over a bit in the tag of one and not of the other. */
  lemma TagTurns(x: Input, y: Input) returns (trap: Trap, f: bool)
    requires Sized(x) && Sized(y) && x != y
    ensures Turned(Sealed(PermFor(x, y, trap), x), Sealed(PermFor(x, y, NoTrap), x), BitFor(x, y), f)
    ensures Turned(Sealed(PermFor(x, y, trap), y), Sealed(PermFor(x, y, NoTrap), y), BitFor(x, y), !f)
  {
    hide Trapped, Front, Turned, Duplex, Blocks, Seal, After12, Alike, OtherBit;
    var v, b := Bits12(x.key, x.nonce, y.key, y.nonce), BitFor(x, y);
    var rs, qs := Blocks(x.ad, x.m), Blocks(y.ad, y.m);
    BlockCount(x.ad, x.m);
    BlockCount(y.ad, y.m);
    if x.key == y.key && x.nonce == y.nonce {
      if Alike(rs, qs) { BlocksInjective(x.ad, x.m, y.ad, y.m); }
      trap, f := RowsApart(v, b, x.key, x.nonce, rs, qs);
    } else {
      var t := Front(x.key, x.nonce);
      if t == Front(y.key, y.nonce) { FrontInjective(x.key, x.nonce, y.key, y.nonce); }
      StartByte(x.key, x.nonce, v, b);
      trap, f := Twelve(t), true;
      StartEnds(v, b, t, x.key, x.nonce, rs, true);
      StartEnds(v, b, t, y.key, y.nonce, qs, false);
    }
    SealIsDuplex(PermFor(x, y, trap), x.key, x.nonce, x.ad, x.m);
    SealIsDuplex(PermFor(x, y, trap), y.key, y.nonce, y.ad, y.m);
    SealIsDuplex(PermFor(x, y, NoTrap), x.key, x.nonce, x.ad, x.m);
    SealIsDuplex(PermFor(x, y, NoTrap), y.key, y.nonce, y.ad, y.m);
  }

  /**
   * The tag rests on all of the input: for any two that differ in key, nonce, associated data or
   * message, or only in where one ends and the other begins, there are invertible permutations
   * under which their tags differ in the very first byte.
   */
  lemma TagsDiffer(x: Input, y: Input) returns (p: Perm)
    requires Sized(x) && Sized(y) && x != y
    ensures Invertible(p) && Sealed(p, x).1[0] != Sealed(p, y).1[0]
    ensures Sealed(p, x).0 == Sealed(PermFor(x, y, NoTrap), x).0 && Sealed(p, y).0 == Sealed(PermFor(x, y, NoTrap), y).0
  {
    var trap, f := TagTurns(x, y);
    TrappedInvertible(Bits12(x.key, x.nonce, y.key, y.nonce), BitFor(x, y), trap);
    TrappedInvertible(Bits12(x.key, x.nonce, y.key, y.nonce), BitFor(x, y), NoTrap);
    hide Trapped, Sealed, BitFor, Bits12, Invertible;
    var q := PermFor(x, y, NoTrap);
    p := if Sealed(q, x).1[0] != Sealed(q, y).1[0] then q else PermFor(x, y, trap);
    OtherByte(Sealed(q, x).1[0], BitFor(x, y));
  }

  lemma OtherByte(a: u8, b: u8)
    requires b != 0
    ensures Xor(a, b) != a
  {
    XorByte(a, b);
    XorByte(a, a);
  }

  /**
   * Nothing but what was sealed opens: what was sealed under one key, nonce and associated data does
   * not open under another, whichever of the three differs and wherever, with a tag of any length,
   * under some invertible permutations.
   */
  lemma OthersRejected(x: Input, key: Bytes, nonce: Bytes, ad: Bytes, taglen: nat) returns (p: Perm)
    requires Sized(x) && |key| == 16 && |nonce| == 16 && |ad| <= 255 && 1 <= taglen <= 16
    requires (key, nonce, ad) != (x.key, x.nonce, x.ad)
    ensures Invertible(p) && Open(p, key, nonce, ad, Sealed(p, x).0, Sealed(p, x).1[..taglen]) == None
  {
    var q := PermFor(x, Input(key, nonce, ad, []), NoTrap);
    var c := Sealed(q, x).0;
    var m := DecBody(q, AbsorbAd(q, InitState(q, key, nonce), ad), c).1;
    BodyInverse'(q, AbsorbAd(q, InitState(q, key, nonce), ad), c);
    BodyInverse(q, AbsorbAd(q, InitState(q, key, nonce), ad), m);
    var y := Input(key, nonce, ad, m);
    assert Sealed(q, y).0 == c;
    hide Seal, Trapped, DecBody, EncBody, AbsorbAd, InitState, Invertible;
    p := TagsDiffer(x, y);
    OnlyOne(p, y, c, Sealed(p, x).1[..taglen]);
  }

  /** A ciphertext opens to one message only, and only with a prefix of its tag. */
  lemma OnlyOne(p: Perm, y: Input, c: Bytes, tag: Bytes)
    requires Sized(y) && Sealed(p, y).0 == c && |tag| <= 16 && !(tag <= Sealed(p, y).1)
    ensures Open(p, y.key, y.nonce, y.ad, c, tag) == None
  {
    SealOpen(p, y.key, y.nonce, y.ad, y.m, 0);
    OpensOnlySealed(p, y.key, y.nonce, y.ad, c, tag, y.m);
    hide DecBody, AbsorbAd, InitState, Tag, EncBody;
  }

  // ---- whatever the permutations, as long as they can be undone ----

  /** One block of associated data. */
  function Take(p: Perm, s: State, w: Word): State { p.p6(s.(x0 := XorW(s.x0, w))) }

  function First(b: Bytes): Word { if |b| >= 8 then LoadBe(b[..8]) else Pad(b) }

  lemma TakeStep(p: Perm, s: State, b: Bytes)
    ensures AbsorbBlocks(p, s, b) ==
      if |b| >= 8 then AbsorbBlocks(p, Take(p, s, First(b)), b[8..]) else Take(p, s, First(b))
  {
  }

  /** Different states stay different under one block, and different blocks make them so. */
  lemma TakeDiffers(p: Perm, s: State, z: State, v: Word, w: Word)
    requires Invertible(p) && (if s == z then v != w else v == w)
    ensures Take(p, s, v) != Take(p, z, w)
  {
    var x, y := s.(x0 := XorW(s.x0, v)), z.(x0 := XorW(z.x0, w));
    if s == z {
      XorWordSelf(s.x0, v);
      XorWordSelf(s.x0, w);
    } else if s.x0 != z.x0 && XorW(s.x0, v) == XorW(z.x0, v) {
      WordBack(s.x0, z.x0, v);
    }
    hide XorW;
    assert x != y;
    assert p.p6(x) == p.p6(y) ==> x == y;
  }

  lemma {:induction false} DifferentStatesStay(p: Perm, s: State, z: State, ad: Bytes)
    requires Invertible(p) && s != z
    ensures AbsorbBlocks(p, s, ad) != AbsorbBlocks(p, z, ad)
    decreases |ad|
  {
    hide Take, AbsorbBlocks, Invertible, First;
    TakeStep(p, s, ad);
    TakeStep(p, z, ad);
    TakeDiffers(p, s, z, First(ad), First(ad));
    if |ad| >= 8 { DifferentStatesStay(p, Take(p, s, First(ad)), Take(p, z, First(ad)), ad[8..]); }
  }

  /** Bytes of one length that differ in block j and nowhere else. */
  ghost predicate InBlock(a: Bytes, b: Bytes, j: nat) {
    |a| == |b| && a != b && forall i :: 0 <= i < |a| && i / 8 != j ==> a[i] == b[i]
  }

  lemma InBlockStep(a: Bytes, b: Bytes, j: nat)
    requires InBlock(a, b, j)
    ensures |a| < 8 ==> First(a) != First(b)
    ensures |a| >= 8 && j == 0 ==> First(a) != First(b) && a[8..] == b[8..]
    ensures |a| >= 8 && j > 0 ==> First(a) == First(b) && InBlock(a[8..], b[8..], j - 1)
  {
    if |a| < 8 {
      assert forall i :: 0 <= i < |a| ==> First(a)[i] == a[i] && First(b)[i] == b[i];
    } else {
      assert LoadBe(a[..8]) == a[..8] && LoadBe(b[..8]) == b[..8];
      assert a == a[..8] + a[8..] && b == b[..8] + b[8..];
      assert j > 0 ==> a[..8] == b[..8];
      assert j == 0 ==> a[8..] == b[8..];
    }
  }

  lemma {:induction false} OneBlockIn(p: Perm, s: State, a: Bytes, b: Bytes, j: nat)
    requires Invertible(p) && InBlock(a, b, j)
    ensures AbsorbBlocks(p, s, a) != AbsorbBlocks(p, s, b)
    decreases |a|
  {
    InBlockStep(a, b, j);
    hide Take, AbsorbBlocks, Invertible, First, InBlock;
    TakeStep(p, s, a);
    TakeStep(p, s, b);
    var x, y := Take(p, s, First(a)), Take(p, s, First(b));
    if |a| < 8 || j == 0 { TakeDiffers(p, s, s, First(a), First(b)); }
    if |a| >= 8 {
      if j == 0 { DifferentStatesStay(p, x, y, a[8..]); } else { OneBlockIn(p, x, a[8..], b[8..], j - 1); }
    }
  }

  /**
   * Associated data of one length that differ in one block only leave different states before the
   * message, under any permutations that can be undone and from any state.
   */
  lemma OneBlockShows(p: Perm, s: State, a: Bytes, b: Bytes, j: nat)
    requires Invertible(p) && InBlock(a, b, j)
    ensures AbsorbAd(p, s, a) != AbsorbAd(p, s, b)
  {
    OneBlockIn(p, s, a, b, j);
    var x, y := AbsorbBlocks(p, s, a), AbsorbBlocks(p, s, b);
    hide AbsorbBlocks, Invertible;
    if x.x4 != y.x4 && XorW(x.x4, One) == XorW(y.x4, One) { WordBack(x.x4, y.x4, One); }
  }
}
