/** Machine-width types and the small arithmetic facts the link layer's wrap-around rests on. */
module Base {

  /** An 8-bit unsigned value. */
  type u8 = x: int | 0 <= x < 256

  /** A 32-bit unsigned value (the platform's millisecond clock). */
  type u32 = x: int | 0 <= x < 0x1_0000_0000

  type Bytes = seq<u8>

  datatype Option<+T> = None | Some(value: T)

  /** The `uint8_t` truncation of any integer. */
  function Wrap8(x: int): u8 { x % 256 }

  /** The unsigned 32-bit difference `now - since`. */
  function Elapsed(now: u32, since: u32): u32 { (now - since) % 0x1_0000_0000 }

  function Min(a: int, b: int): int { if a <= b then a else b }

  /** The 8-bit difference of two truncated counters is the truncated difference. */
  lemma WrapDiff(a: int, b: int)
    ensures Wrap8(Wrap8(a) - Wrap8(b)) == Wrap8(a - b)
  {
  }

  /** Going back d steps round the 256 numbers. */
  lemma NegWrap(d: nat)
    ensures Wrap8(0 - d) == if d % 256 == 0 then 0 else 256 - d % 256
  {
  }

  lemma WrapSum(a: int, b: int)
    ensures Wrap8(Wrap8(a) + b) == Wrap8(a + b)
  {
  }

  /** Truncation to 8 bits keeps the receive slot of a frame number. */
  lemma WrapSlot(a: int)
    ensures Wrap8(a) % 16 == a % 16
  {
  }

  /** Concatenation of a sequence of byte strings. */
  function Flat(h: seq<Bytes>): Bytes {
    if h == [] then [] else Flat(h[..|h| - 1]) + h[|h| - 1]
  }

  lemma FlatSnoc(h: seq<Bytes>, x: Bytes)
    ensures Flat(h + [x]) == Flat(h) + x
  {
    assert (h + [x])[..|h|] == h;
  }

  lemma {:induction false} FlatConcat(a: seq<Bytes>, b: seq<Bytes>)
    ensures Flat(a + b) == Flat(a) + Flat(b)
  {
    if b == [] {
      assert a + b == a;
    } else {
      var n := |b| - 1;
      FlatConcat(a, b[..n]);
      assert (a + b)[..|a + b| - 1] == a + b[..n];
      assert Flat(a) + (Flat(b[..n]) + b[n]) == (Flat(a) + Flat(b[..n])) + b[n];
    }
  }

  /** A prefix of the pieces flattens to a prefix of the whole. */
  lemma FlatPrefix(h: seq<Bytes>, n: nat)
    requires n <= |h|
    ensures Flat(h[..n]) <= Flat(h)
  {
    assert h == h[..n] + h[n..];
    FlatConcat(h[..n], h[n..]);
  }
}
