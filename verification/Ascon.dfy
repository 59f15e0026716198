/**
 * Ascon-128 authenticated encryption (section 2.4 of the Ascon v1.2 specification) as the sponge
 * drivers use it. A 64-bit word is its eight bytes, most significant first. The permutations are
 * parameters: everything here holds whatever they are.
 */
module Ascon {
  import opened Base
  import opened Bits

  type Word = w: seq<u8> | |w| == 8 witness [0, 0, 0, 0, 0, 0, 0, 0]

  datatype State = State(x0: Word, x1: Word, x2: Word, x3: Word, x4: Word)

  /** The 12-round and the 6-round permutation. */
  datatype Perm = Perm(p12: State -> State, p6: State -> State)

  function XorW(a: Word, b: Word): Word { seq(8, i requires 0 <= i < 8 => Xor(a[i], b[i])) }

  function AndW(a: Word, b: Word): Word { seq(8, i requires 0 <= i < 8 => And(a[i], b[i])) }

  function OrW(a: Word, b: Word): Word { seq(8, i requires 0 <= i < 8 => Or(a[i], b[i])) }

  function Zeros(n: nat): Bytes { seq(n, _ => 0) }

  /** Load up to eight bytes into the top of a word. */
  function LoadBe(b: Bytes): Word
    requires |b| <= 8
  {
    b + Zeros(8 - |b|)
  }

  /** The top n bytes of a word. */
  function StoreBe(n: nat, w: Word): Bytes
    requires n <= 8
  {
    w[..n]
  }

  function InitState(p: Perm, key: Bytes, nonce: Bytes): State
    requires |key| == 16 && |nonce| == 16
  {
    var k0, k1 := LoadBe(key[..8]), LoadBe(key[8..]);
    var s := p.p12(State([0x80, 0x40, 0x0c, 0x06, 0, 0, 0, 0], k0, k1, LoadBe(nonce[..8]), LoadBe(nonce[8..])));
    s.(x3 := XorW(s.x3, k0), x4 := XorW(s.x4, k1))
  }

  /** The last, partial block with its padding byte. */
  function Pad(b: Bytes): Word
    requires |b| < 8
  {
    b + [0x80] + Zeros(7 - |b|)
  }

  function AbsorbBlocks(p: Perm, s: State, ad: Bytes): State
    decreases |ad|
  {
    if |ad| >= 8 then AbsorbBlocks(p, p.p6(s.(x0 := XorW(s.x0, LoadBe(ad[..8])))), ad[8..])
    else p.p6(s.(x0 := XorW(s.x0, Pad(ad))))
  }

  function AbsorbAd(p: Perm, s: State, ad: Bytes): State {
    var s1 := if |ad| > 0 then AbsorbBlocks(p, s, ad) else s;
    s1.(x4 := XorW(s1.x4, [0, 0, 0, 0, 0, 0, 0, 1]))
  }

  function Tag(p: Perm, s: State, key: Bytes): Bytes
    requires |key| == 16
  {
    var k0, k1 := LoadBe(key[..8]), LoadBe(key[8..]);
    var z := p.p12(s.(x1 := XorW(s.x1, k0), x2 := XorW(s.x2, k1)));
    StoreBe(8, XorW(z.x3, k0)) + StoreBe(8, XorW(z.x4, k1))
  }

  /** One full block: absorb plaintext, emit ciphertext. */
  function EncBlock(p: Perm, s: State, m: Bytes): (State, Bytes)
    requires |m| == 8
  {
    var x := XorW(s.x0, LoadBe(m));
    (p.p6(s.(x0 := x)), StoreBe(8, x))
  }

  function EncTail(s: State, m: Bytes): (State, Bytes)
    requires |m| < 8
  {
    var x := XorW(s.x0, Pad(m));
    (s.(x0 := x), StoreBe(|m|, x))
  }

  function EncBody(p: Perm, s: State, m: Bytes): (State, Bytes)
    decreases |m|
  {
    if |m| < 8 then EncTail(s, m)
    else
      var (s1, c) := EncBlock(p, s, m[..8]);
      var (z, rest) := EncBody(p, s1, m[8..]);
      (z, c + rest)
  }

  function DecBlock(p: Perm, s: State, c: Bytes): (State, Bytes)
    requires |c| == 8
  {
    var w := LoadBe(c);
    (p.p6(s.(x0 := w)), StoreBe(8, XorW(s.x0, w)))
  }

  /** Ones in the top n bytes. */
  function TopMask(n: nat): Word { seq(8, i => if i < n then 255 else 0) }

  function NotTopMask(n: nat): Word { seq(8, i => if i < n then 0 else 255) }

  function PadBit(n: nat): Word { seq(8, i => if i == n then 0x80 else 0) }

  function DecTail(s: State, c: Bytes): (State, Bytes)
    requires |c| < 8
  {
    var w := LoadBe(c);
    var x := OrW(AndW(s.x0, NotTopMask(|c|)), AndW(w, TopMask(|c|)));
    (s.(x0 := XorW(x, PadBit(|c|))), StoreBe(|c|, XorW(s.x0, w)))
  }

  function DecBody(p: Perm, s: State, c: Bytes): (State, Bytes)
    decreases |c|
  {
    if |c| < 8 then DecTail(s, c)
    else
      var (s1, m) := DecBlock(p, s, c[..8]);
      var (z, rest) := DecBody(p, s1, c[8..]);
      (z, m + rest)
  }

  /** Ciphertext and 16-byte tag. */
  function Seal(p: Perm, key: Bytes, nonce: Bytes, ad: Bytes, m: Bytes): (Bytes, Bytes)
    requires |key| == 16 && |nonce| == 16
  {
    var (s, c) := EncBody(p, AbsorbAd(p, InitState(p, key, nonce), ad), m);
    (c, Tag(p, s, key))
  }

  /** The plaintext, if the given tag is a prefix of the one the ciphertext calls for. */
  function Open(p: Perm, key: Bytes, nonce: Bytes, ad: Bytes, c: Bytes, tag: Bytes): Option<Bytes>
    requires |key| == 16 && |nonce| == 16 && |tag| <= 16
  {
    var (s, m) := DecBody(p, AbsorbAd(p, InitState(p, key, nonce), ad), c);
    if tag <= Tag(p, s, key) then Some(m) else None
  }

  // ---- encryption and decryption are inverse, state by state ----

  lemma XorWordSelf(a: Word, b: Word)
    ensures XorW(a, XorW(a, b)) == b
  {
    forall i | 0 <= i < 8 ensures Xor(a[i], Xor(a[i], b[i])) == b[i] {
      XorByte(a[i], b[i]);
      XorSym(a[i], Xor(a[i], b[i]));
    }
  }

  /** A full block decrypts back, and both sides hold the same state after it. */
  lemma BlockInverse(p: Perm, s: State, m: Bytes)
    requires |m| == 8
    ensures DecBlock(p, s, EncBlock(p, s, m).1) == (EncBlock(p, s, m).0, m)
  {
    XorWordSelf(s.x0, LoadBe(m));
    assert LoadBe(m) == m;
    assert LoadBe(EncBlock(p, s, m).1) == XorW(s.x0, LoadBe(m));
  }

  /** One byte position of the tail: masks, pad bit and exclusive or agree on both sides. */
  lemma TailByte(x: u8, c: u8, m: u8, i: nat, n: nat)
    requires i < n ==> c == Xor(x, m)
    requires i == n ==> m == 0x80
    requires i > n ==> m == 0
    requires i >= n ==> c == 0
    ensures var kept, drop := if i < n then 0 else 255, if i < n then 255 else 0;
      Xor(Or(And(x, kept), And(c, drop)), if i == n then 0x80 else 0) == Xor(x, m)
    ensures i < n ==> Xor(x, c) == m
  {
    MaskByte(x);
    MaskByte(c);
    XorByte(x, m);
    XorByte(Xor(x, m), 0);
    XorByte(x, c);
    if i < n { XorCommute(x, c, m); }
  }

  lemma XorCommute(x: u8, c: u8, m: u8)
    requires c == Xor(x, m)
    ensures Xor(x, c) == m
  {
    XorByte(x, m);
    XorByte(x, c);
    XorSym(x, c);
  }

  lemma XorSym(a: u8, b: u8)
    ensures Xor(a, b) == Xor(b, a)
  {
    XorNSym(a, b, 8);
  }

  /** The padded tail decrypts back, and both sides hold the same state after it. */
  lemma TailInverse(s: State, m: Bytes)
    requires |m| < 8
    ensures DecTail(s, EncTail(s, m).1) == (EncTail(s, m).0, m)
  {
    var n := |m|;
    var c := EncTail(s, m).1;
    var w := LoadBe(c);
    forall i | 0 <= i < 8
      ensures DecTail(s, c).0.x0[i] == EncTail(s, m).0.x0[i]
      ensures i < n ==> Xor(s.x0[i], w[i]) == m[i]
    {
      assert i < n ==> Pad(m)[i] == m[i];
      assert i == n ==> Pad(m)[i] == 0x80;
      assert i > n ==> Pad(m)[i] == 0;
      TailByte(s.x0[i], w[i], Pad(m)[i], i, n);
    }
    assert DecTail(s, c).0.x0 == EncTail(s, m).0.x0;
    assert DecTail(s, c).1 == m;
  }

  /** Whole messages decrypt back, ending in the same state. */
  lemma {:induction false} BodyInverse(p: Perm, s: State, m: Bytes)
    ensures DecBody(p, s, EncBody(p, s, m).1) == (EncBody(p, s, m).0, m)
    ensures |EncBody(p, s, m).1| == |m|
    decreases |m|
  {
    if |m| < 8 {
      TailInverse(s, m);
    } else {
      var (s1, c) := EncBlock(p, s, m[..8]);
      var (z, rest) := EncBody(p, s1, m[8..]);
      BlockInverse(p, s, m[..8]);
      BodyInverse(p, s1, m[8..]);
      assert (c + rest)[..8] == c && (c + rest)[8..] == rest;
      assert m == m[..8] + m[8..];
    }
  }

  /** What was sealed opens to the same plaintext, with any prefix of the tag. */
  lemma SealOpen(p: Perm, key: Bytes, nonce: Bytes, ad: Bytes, m: Bytes, taglen: nat)
    requires |key| == 16 && |nonce| == 16 && taglen <= 16
    ensures |Seal(p, key, nonce, ad, m).0| == |m| && |Seal(p, key, nonce, ad, m).1| == 16
    ensures Open(p, key, nonce, ad, Seal(p, key, nonce, ad, m).0, Seal(p, key, nonce, ad, m).1[..taglen]) == Some(m)
  {
    BodyInverse(p, AbsorbAd(p, InitState(p, key, nonce), ad), m);
  }

  // ---- the other way round: only sealed messages open ----

  lemma BlockInverse'(p: Perm, s: State, c: Bytes)
    requires |c| == 8
    ensures EncBlock(p, s, DecBlock(p, s, c).1) == (DecBlock(p, s, c).0, c)
  {
    var w := LoadBe(c);
    XorWordSelf(s.x0, w);
    assert LoadBe(XorW(s.x0, w)) == XorW(s.x0, w);
    assert c == w;
  }

  lemma TailInverse'(s: State, c: Bytes)
    requires |c| < 8
    ensures EncTail(s, DecTail(s, c).1) == (DecTail(s, c).0, c)
  {
    var n := |c|;
    var m := DecTail(s, c).1;
    var w := LoadBe(c);
    forall i | 0 <= i < n ensures Xor(s.x0[i], m[i]) == c[i] {
      XorByte(s.x0[i], w[i]);
      XorSym(s.x0[i], Xor(s.x0[i], w[i]));
    }
    assert EncTail(s, m).1 == c;
    TailInverse(s, m);
  }

  lemma {:induction false} BodyInverse'(p: Perm, s: State, c: Bytes)
    ensures EncBody(p, s, DecBody(p, s, c).1) == (DecBody(p, s, c).0, c)
    decreases |c|
  {
    if |c| < 8 {
      TailInverse'(s, c);
    } else {
      var (s1, m) := DecBlock(p, s, c[..8]);
      var (z, rest) := DecBody(p, s1, c[8..]);
      BlockInverse'(p, s, c[..8]);
      BodyInverse'(p, s1, c[8..]);
      assert (m + rest)[..8] == m && (m + rest)[8..] == rest;
      assert c == c[..8] + c[8..];
    }
  }

  /** A ciphertext opens under a tag exactly when it and the tag are what sealing its plaintext gives. */
  lemma OpensOnlySealed(p: Perm, key: Bytes, nonce: Bytes, ad: Bytes, c: Bytes, tag: Bytes, m: Bytes)
    requires |key| == 16 && |nonce| == 16 && |tag| <= 16
    ensures Open(p, key, nonce, ad, c, tag) == Some(m) <==>
      Seal(p, key, nonce, ad, m).0 == c && tag <= Seal(p, key, nonce, ad, m).1
  {
    var s := AbsorbAd(p, InitState(p, key, nonce), ad);
    BodyInverse(p, s, m);
    BodyInverse'(p, s, c);
  }

  // ---- the drivers as the code runs them ----

  /** The encryption loop: full blocks in place, then the padded tail and the tag. */
  method Encrypt(p: Perm, key: Bytes, nonce: Bytes, ad: Bytes, pt: Bytes) returns (ct: Bytes, tag: Bytes)
    requires |key| == 16 && |nonce| == 16
    ensures (ct, tag) == Seal(p, key, nonce, ad, pt)
  {
    var s := Absorb(p, InitState(p, key, nonce), ad);
    ghost var s0 := s;
    var m := pt;
    ct := [];
    assert ct + EncBody(p, s, m).1 == EncBody(p, s, m).1;
    while |m| >= 8
      invariant EncBody(p, s0, pt) == (EncBody(p, s, m).0, ct + EncBody(p, s, m).1)
      decreases |m|
    {
      var x := XorW(s.x0, LoadBe(m[..8]));
      s := s.(x0 := x);
      ghost var done := ct;
      ct := ct + StoreBe(8, x);
      s := p.p6(s);
      assert forall rest: Bytes :: done + (StoreBe(8, x) + rest) == (done + StoreBe(8, x)) + rest;
      m := m[8..];
    }
    s := s.(x0 := XorW(s.x0, Pad(m)));
    ct := ct + StoreBe(|m|, s.x0);
    tag := Tag(p, s, key);
  }

  /** The decryption loop, then the tag comparison over all given tag bytes. */
  method Decrypt(p: Perm, key: Bytes, nonce: Bytes, ad: Bytes, ct: Bytes, tag: Bytes) returns (ok: bool, pt: Bytes)
    requires |key| == 16 && |nonce| == 16 && |tag| <= 16
    ensures ok == Open(p, key, nonce, ad, ct, tag).Some?
    ensures ok ==> Open(p, key, nonce, ad, ct, tag) == Some(pt)
  {
    var s := Absorb(p, InitState(p, key, nonce), ad);
    ghost var s0 := s;
    var c := ct;
    pt := [];
    assert pt + DecBody(p, s, c).1 == DecBody(p, s, c).1;
    while |c| >= 8
      invariant DecBody(p, s0, ct) == (DecBody(p, s, c).0, pt + DecBody(p, s, c).1)
      decreases |c|
    {
      var w := LoadBe(c[..8]);
      ghost var done := pt;
      pt := pt + StoreBe(8, XorW(s.x0, w));
      s := p.p6(s.(x0 := w));
      assert forall rest: Bytes :: done + (pt[|done|..] + rest) == pt + rest;
      c := c[8..];
    }
    var w := LoadBe(c);
    pt := pt + StoreBe(|c|, XorW(s.x0, w));
    var x := OrW(AndW(s.x0, NotTopMask(|c|)), AndW(w, TopMask(|c|)));
    s := s.(x0 := XorW(x, PadBit(|c|)));
    ok := StartsWith(Tag(p, s, key), tag);
  }

  /** Compared without stopping at the first difference. */
  method StartsWith(computed: Bytes, tag: Bytes) returns (ok: bool)
    requires |tag| <= |computed|
    ensures ok == (tag == computed[..|tag|])
  {
    var acc: u8 := 0;
    for i := 0 to |tag|
      invariant acc == 0 <==> tag[..i] == computed[..i]
    {
      XorByte(computed[i], tag[i]);
      OrByte(acc, Xor(computed[i], tag[i]));
      assert tag[..i + 1] == tag[..i] + [tag[i]] && computed[..i + 1] == computed[..i] + [computed[i]];
      acc := Or(acc, Xor(computed[i], tag[i]));
    }
    assert tag[..|tag|] == tag;
    ok := acc == 0;
  }

  method Absorb(p: Perm, init: State, ad: Bytes) returns (s: State)
    ensures s == AbsorbAd(p, init, ad)
  {
    s := init;
    if |ad| > 0 {
      var a := ad;
      while |a| >= 8
        invariant AbsorbBlocks(p, init, ad) == AbsorbBlocks(p, s, a)
        decreases |a|
      {
        s := p.p6(s.(x0 := XorW(s.x0, LoadBe(a[..8]))));
        a := a[8..];
      }
      s := p.p6(s.(x0 := XorW(s.x0, Pad(a))));
    }
    s := s.(x4 := XorW(s.x4, [0, 0, 0, 0, 0, 0, 0, 1]));
  }
}
