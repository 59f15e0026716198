/**
 * The wire format: header, optional compression, optional sealing, and its inverse on the
 * receiving side. Compression and the sponge permutations are parameters.
 */
module Wire {
  import opened Base
  import opened Arq
  import opened Nonce
  import opened Bits
  import Ascon
  import Replay

  const HDR: nat := 10
  const CTRW: nat := 8
  const MAXFRAME: nat := 255

  /** Compression may decline; decompression may fail. */
  datatype Codec = Codec(compress: Bytes -> Option<Bytes>, decompress: Bytes -> Option<Bytes>)

  /** Whatever is compressed comes back. */
  ghost predicate Inverse(c: Codec) {
    forall m: Bytes :: c.compress(m).Some? ==> c.decompress(c.compress(m).value) == Some(m)
  }

  datatype Config = Config(compress: bool, encrypt: bool, key: Option<Bytes>, tagLen: nat, codec: Codec,
    perm: Ascon.Perm)

  ghost predicate ConfigValid(c: Config) {
    && (c.key.Some? ==> |c.key.value| == 16)
    && 1 <= c.tagLen <= 16
    && Inverse(c.codec)
  }

  // ---- flags and bitmaps ----

  function Bit(b: bool): nat { if b then 1 else 0 }

  function Flags(data: bool, comp: bool, enc: bool, more: bool, ctrl: u8): nat {
    Bit(data) + 2 * Bit(comp) + 4 * Bit(enc) + 8 * Bit(more) + ctrl
  }

  predicate FlagBit(flags: nat, k: nat)
    requires k > 0
  {
    (flags / k) % 2 == 1
  }

  lemma FlagDigits(d: nat, c: nat, e: nat, m: nat, q: nat)
    requires d < 2 && c < 2 && e < 2 && m < 2
    ensures
      var f := d + 2 * c + 4 * e + 8 * m + 16 * q;
      f % 2 == d && (f / 2) % 2 == c && (f / 4) % 2 == e && (f / 8) % 2 == m && f - f % 16 == 16 * q
  {
    var f8 := m + 2 * q;
    var f4 := e + 2 * f8;
    var f2 := c + 2 * f4;
    var f := d + 2 * f2;
    LowDigit(q, m);
    LowDigit(f8, e);
    LowDigit(f4, c);
    LowDigit(f2, d);
    assert f / 2 == f2;
    assert f / 4 == f2 / 2;
    assert f / 8 == f4 / 2;
    assert f == 16 * q + (8 * m + 4 * e + 2 * c + d);
  }

  lemma FlagsRoundTrip(data: bool, comp: bool, enc: bool, more: bool, ctrl: u8)
    requires ctrl % 16 == 0
    ensures
      var f := Flags(data, comp, enc, more, ctrl);
      && f < 256
      && FlagBit(f, 1) == data && FlagBit(f, 2) == comp && FlagBit(f, 4) == enc && FlagBit(f, 8) == more
      && f - f % 16 == ctrl
  {
    FlagDigits(Bit(data), Bit(comp), Bit(enc), Bit(more), ctrl / 16);
  }

  /** The number whose binary digits, lowest first, are the given bits. */
  function Pack(bits: seq<bool>): nat {
    if bits == [] then 0 else Bit(bits[0]) + 2 * Pack(bits[1..])
  }

  function Unpack(x: nat, n: nat): (bits: seq<bool>)
    ensures |bits| == n
  {
    if n == 0 then [] else [x % 2 == 1] + Unpack(x / 2, n - 1)
  }

  lemma {:induction false} PackRoundTrip(bits: seq<bool>)
    ensures Unpack(Pack(bits), |bits|) == bits
  {
    if bits != [] { PackRoundTrip(bits[1..]); }
  }

  lemma PackByte(bits: seq<bool>)
    requires |bits| == 8
    ensures Pack(bits) < 256
  {
    PackBound(bits, 256);
  }

  lemma {:induction false} PackBound(bits: seq<bool>, top: nat)
    requires top == Pow2(|bits|)
    ensures Pack(bits) < top
  {
    if bits != [] { PackBound(bits[1..], Pow2(|bits| - 1)); }
  }

  // ---- encoding ----

  /** The payload as sent: compressed if that is on and makes it smaller. */
  function Squeeze(c: Config, raw: Bytes): (Bytes, bool) {
    if |raw| > 0 && c.compress then
      var z := c.codec.compress(raw);
      if z.Some? && 0 < |z.value| < |raw| then (z.value, true) else (raw, false)
    else (raw, false)
  }

  function Header(f: Frame, comp: bool, enc: bool, plen: u8): (h: Bytes)
    requires f.ctrl % 16 == 0
    ensures |h| == HDR
  {
    FlagsRoundTrip(f.data, comp, enc, f.more, f.ctrl);
    PackByte(f.sack[8..]);
    PackByte(f.sack[..8]);
    [f.src, f.dst, Flags(f.data, comp, enc, f.more, f.ctrl), f.num, f.ack, f.epoch,
     Pack(f.sack[8..]), Pack(f.sack[..8]), plen, f.aux]
  }

  predicate Sealing(c: Config) { c.encrypt && c.key.Some? }

  /** The bytes of a frame under frame counter ctr, or None if they would not fit. */
  function Encode(c: Config, cap: nat, f: Frame, ctr: nat): Option<Bytes>
    requires f.ctrl % 16 == 0 && |f.payload| <= MAXPAY
    requires c.key.Some? ==> |c.key.value| == 16
    requires c.tagLen <= 16
  {
    var (p, comp) := Squeeze(c, f.payload);
    if Sealing(c) then
      if HDR + CTRW + |p| + c.tagLen > cap then None
      else
        var ad := Header(f, comp, true, |p|) + BigEndian(ctr, CTRW);
        var (ct, tag) := Ascon.Seal(c.perm, c.key.value, BuildNonce(f.src, f.epoch, ctr), ad, p);
        if c.tagLen <= |tag| then Some(ad + ct + tag[..c.tagLen]) else None
    else
      if HDR + |p| > cap then None else Some(Header(f, comp, false, |p|) + p)
  }

  // ---- decoding ----

  /** What the receive path makes of the bytes; an unsealed payload may still fail to decompress. */
  datatype Outcome = Rejected | Accepted(frame: Frame, readable: bool)

  function HeaderFrame(b: Bytes): Frame
    requires |b| >= HDR
  {
    Frame(b[0], b[1], FlagBit(b[2], 1), FlagBit(b[2], 8), b[2] - b[2] % 16, b[3], b[4], b[5],
          Unpack(b[7], 8) + Unpack(b[6], 8), b[9], [])
  }

  function Expand(c: Config, comp: bool, p: Bytes): Option<Bytes> {
    if comp then c.codec.decompress(p) else Some(p)
  }

  /** Authenticate, check for replay, decode. The replay window moves only for authentic frames. */
  function OpenSealed(c: Config, g: Replay.Guard, b: Bytes): (Replay.Guard, Outcome)
    requires c.key.Some? ==> |c.key.value| == 16
    requires c.tagLen <= 16 && |b| >= HDR
  {
    var h, plen := HeaderFrame(b), b[8];
    if |b| < HDR + CTRW || HDR + CTRW + plen + c.tagLen > |b| || c.key.None? then (g, Rejected)
    else
      var off := HDR + CTRW;
      var ctr := FromBigEndian(b[HDR..off]);
      var m := Ascon.Open(c.perm, c.key.value, BuildNonce(h.src, h.epoch, ctr), b[..off],
                          b[off..off + plen], b[off + plen..off + plen + c.tagLen]);
      if m.None? then (g, Rejected)
      else
        var (g', isNew) := Replay.Check(g, ctr);
        var x := Expand(c, FlagBit(b[2], 2), m.value);
        if !isNew || x.None? then (g', Rejected) else (g', Accepted(h.(payload := x.value), true))
  }

  function ReadPlain(c: Config, b: Bytes): Outcome
    requires |b| >= HDR
  {
    var n := Min(b[8], |b| - HDR);
    var x := Expand(c, FlagBit(b[2], 2), b[HDR..HDR + n]);
    if x.Some? then Accepted(HeaderFrame(b).(payload := x.value), true) else Accepted(HeaderFrame(b), false)
  }

  /** The receive path from the bytes to a frame; an encrypting link takes no unsealed frame. */
  function Decode(c: Config, g: Replay.Guard, b: Bytes): (Replay.Guard, Outcome)
    requires c.key.Some? ==> |c.key.value| == 16
    requires c.tagLen <= 16
  {
    if |b| < HDR then (g, Rejected)
    else if FlagBit(b[2], 4) then OpenSealed(c, g, b)
    else if c.encrypt then (g, Rejected)
    else (g, ReadPlain(c, b))
  }

  // ---- round trip ----

  /** A header is read back field by field. */
  lemma HeaderRoundTrip(f: Frame, comp: bool, enc: bool, plen: u8, rest: Bytes)
    requires f.ctrl % 16 == 0
    ensures
      var b := Header(f, comp, enc, plen) + rest;
      && |b| >= HDR && HeaderFrame(b) == f.(payload := [])
      && FlagBit(b[2], 4) == enc && FlagBit(b[2], 2) == comp && b[8] == plen
  {
    FlagsRoundTrip(f.data, comp, enc, f.more, f.ctrl);
    PackRoundTrip(f.sack[..8]);
    PackRoundTrip(f.sack[8..]);
    assert f.sack == f.sack[..8] + f.sack[8..];
  }

  /** Squeezing never lengthens a payload and is undone by expanding. */
  lemma SqueezeUndone(c: Config, raw: Bytes)
    requires Inverse(c.codec)
    ensures |Squeeze(c, raw).0| <= |raw|
    ensures Expand(c, Squeeze(c, raw).1, Squeeze(c, raw).0) == Some(raw)
  {
  }

  /** Compression is on and makes this payload shorter, though not empty. */
  predicate Shrinks(c: Config, raw: Bytes) {
    c.compress && c.codec.compress(raw).Some? && 0 < |c.codec.compress(raw).value| < |raw|
  }

  /** What every frame has besides its payload. */
  function Overhead(c: Config): nat { if Sealing(c) then HDR + CTRW + c.tagLen else HDR }

  /**
   * What goes on the air is as short as compression can make it: a payload that shrinks goes out
   * compressed and marked so, any other as it is, and nothing else is added but the header, and the
   * counter and tag on an encrypting link.
   */
  lemma AirLength(c: Config, f: Frame, ctr: nat)
    requires ConfigValid(c) && f.ctrl % 16 == 0 && |f.payload| <= MAXPAY
    requires Encode(c, MAXFRAME, f, ctr).Some?
    ensures var b := Encode(c, MAXFRAME, f, ctr).value;
      && |b| == Overhead(c) + (if Shrinks(c, f.payload) then |c.codec.compress(f.payload).value| else |f.payload|)
      && FlagBit(b[2], 2) == Shrinks(c, f.payload) && FlagBit(b[2], 4) == Sealing(c)
  {
    SqueezeUndone(c, f.payload);
    var (p, comp) := Squeeze(c, f.payload);
    hide Header, BigEndian, BuildNonce, FlagBit, Ascon.Seal, Inverse;
    if Sealing(c) {
      var ad := Header(f, comp, true, |p|) + BigEndian(ctr, CTRW);
      Ascon.SealOpen(c.perm, c.key.value, BuildNonce(f.src, f.epoch, ctr), ad, p, c.tagLen);
      var b := Encode(c, MAXFRAME, f, ctr).value;
      HeaderRoundTrip(f, comp, true, |p|, b[HDR..]);
      assert b == Header(f, comp, true, |p|) + b[HDR..];
    } else {
      HeaderRoundTrip(f, comp, false, |p|, p);
    }
  }

  /** Every frame of at most MAXPAY payload bytes fits the 255-byte air frame. */
  lemma EncodeFits(c: Config, f: Frame, ctr: nat)
    requires ConfigValid(c) && f.ctrl % 16 == 0 && |f.payload| <= MAXPAY
    ensures Encode(c, MAXFRAME, f, ctr).Some? && HDR <= |Encode(c, MAXFRAME, f, ctr).value| <= MAXFRAME
  {
    SqueezeUndone(c, f.payload);
    var (p, comp) := Squeeze(c, f.payload);
    if Sealing(c) {
      var ad := Header(f, comp, true, |p|) + BigEndian(ctr, CTRW);
      Ascon.SealOpen(c.perm, c.key.value, BuildNonce(f.src, f.epoch, ctr), ad, p, c.tagLen);
    }
  }

  /** The four parts of a sealed frame are where the decoder looks for them. */
  lemma Cut(h: Bytes, n: Bytes, ct: Bytes, tag: Bytes, b: Bytes)
    requires |h| == HDR && |n| == CTRW && b == h + n + ct + tag
    ensures b[HDR..HDR + CTRW] == n && b[..HDR + CTRW] == h + n
    ensures b[HDR + CTRW..HDR + CTRW + |ct|] == ct
    ensures b[HDR + CTRW + |ct|..HDR + CTRW + |ct| + |tag|] == tag
    ensures b == h + (n + ct + tag)
  {
  }

  /** The receive path on bytes laid out as a sealed frame. */
  lemma DecodeSealed(c: Config, g: Replay.Guard, f: Frame, comp: bool, ctr: nat, ct: Bytes, tag: Bytes)
    requires ConfigValid(c) && Sealing(c) && f.ctrl % 16 == 0 && |ct| < 256 && |tag| == c.tagLen
    requires ctr < Pow256(8)
    ensures
      var h := Header(f, comp, true, |ct|);
      var n := BigEndian(ctr, CTRW);
      var m := Ascon.Open(c.perm, c.key.value, BuildNonce(f.src, f.epoch, ctr), h + n, ct, tag);
      m.Some? && Expand(c, comp, m.value).Some? ==>
        Decode(c, g, h + n + ct + tag) == Judged(g, ctr, f.(payload := Expand(c, comp, m.value).value))
  {
    hide Header, BigEndian, HeaderFrame, FlagBit, FromBigEndian, BuildNonce, Ascon.Open, Replay.Check, Expand,
      ReadPlain, Inverse;
    var h, n := Header(f, comp, true, |ct|), BigEndian(ctr, CTRW);
    var b := h + n + ct + tag;
    Cut(h, n, ct, tag, b);
    HeaderRoundTrip(f, comp, true, |ct|, n + ct + tag);
    BigEndianRoundTrip(ctr, CTRW);
    assert |b| == HDR + CTRW + |ct| + |tag|;
  }

  /** An authentic frame is taken if its counter is new, and dropped otherwise. */
  function Judged(g: Replay.Guard, ctr: nat, f: Frame): (Replay.Guard, Outcome) {
    var (g', isNew) := Replay.Check(g, ctr);
    (g', if isNew then Accepted(f, true) else Rejected)
  }

  lemma SealedRoundTrip(c: Config, g: Replay.Guard, f: Frame, ctr: nat)
    requires ConfigValid(c) && Sealing(c) && f.ctrl % 16 == 0 && |f.payload| <= MAXPAY
    requires ctr < Pow256(8)
    ensures Encode(c, MAXFRAME, f, ctr).Some?
    ensures Decode(c, g, Encode(c, MAXFRAME, f, ctr).value) == Judged(g, ctr, f)
  {
    EncodeFits(c, f, ctr);
    SqueezeUndone(c, f.payload);
    var (p, comp) := Squeeze(c, f.payload);
    hide Header, BigEndian, BuildNonce, Ascon.Seal, Ascon.Open, Decode, Squeeze, Replay.Check, Judged;
    var ad := Header(f, comp, true, |p|) + BigEndian(ctr, CTRW);
    Ascon.SealOpen(c.perm, c.key.value, BuildNonce(f.src, f.epoch, ctr), ad, p, c.tagLen);
    var (ct, tag) := Ascon.Seal(c.perm, c.key.value, BuildNonce(f.src, f.epoch, ctr), ad, p);
    DecodeSealed(c, g, f, comp, ctr, ct, tag[..c.tagLen]);
  }

  lemma ReadPlainOf(c: Config, b: Bytes, f: Frame, comp: bool, p: Bytes)
    requires |b| == HDR + |p| && b[8] == |p| && b[HDR..] == p
    requires HeaderFrame(b) == f.(payload := []) && FlagBit(b[2], 2) == comp
    requires Expand(c, comp, p).Some?
    ensures ReadPlain(c, b) == Accepted(f.(payload := Expand(c, comp, p).value), true)
  {
    hide HeaderFrame, FlagBit, Expand;
    assert b[HDR..HDR + |p|] == p;
  }

  /** The receive path on bytes laid out as an unsealed frame. */
  lemma DecodePlain(c: Config, g: Replay.Guard, f: Frame, comp: bool, p: Bytes)
    requires ConfigValid(c) && !c.encrypt && f.ctrl % 16 == 0 && |p| < 256 && Expand(c, comp, p).Some?
    ensures Decode(c, g, Header(f, comp, false, |p|) + p) ==
      (g, Accepted(f.(payload := Expand(c, comp, p).value), true))
  {
    hide Header, HeaderFrame, FlagBit, Expand, OpenSealed, ReadPlain, Inverse;
    var b := Header(f, comp, false, |p|) + p;
    HeaderRoundTrip(f, comp, false, |p|, p);
    ReadPlainOf(c, b, f, comp, p);
  }

  lemma PlainRoundTrip(c: Config, g: Replay.Guard, f: Frame, ctr: nat)
    requires ConfigValid(c) && !c.encrypt && f.ctrl % 16 == 0 && |f.payload| <= MAXPAY
    ensures Encode(c, MAXFRAME, f, ctr).Some?
    ensures Decode(c, g, Encode(c, MAXFRAME, f, ctr).value) == (g, Accepted(f, true))
  {
    EncodeFits(c, f, ctr);
    SqueezeUndone(c, f.payload);
    hide Header, Decode, Squeeze, Expand;
    var (p, comp) := Squeeze(c, f.payload);
    DecodePlain(c, g, f, comp, p);
  }

  /**
   * The wire round trip, in all combinations of compression and encryption: a receiver with the
   * same settings recovers the frame exactly if and only if encryption, when on, has a key and
   * the replay window takes the counter.
   */
  lemma WireRoundTrip(c: Config, g: Replay.Guard, f: Frame, ctr: nat)
    requires ConfigValid(c) && f.ctrl % 16 == 0 && |f.payload| <= MAXPAY
    requires ctr < Pow256(8)
    ensures Encode(c, MAXFRAME, f, ctr).Some? && |Encode(c, MAXFRAME, f, ctr).value| <= MAXFRAME
    ensures Decode(c, g, Encode(c, MAXFRAME, f, ctr).value).1 == Accepted(f, true) <==>
      (c.encrypt ==> c.key.Some? && Replay.Check(g, ctr).1)
  {
    EncodeFits(c, f, ctr);
    if Sealing(c) {
      SealedRoundTrip(c, g, f, ctr);
    } else if !c.encrypt {
      PlainRoundTrip(c, g, f, ctr);
    } else {
      var (p, comp) := Squeeze(c, f.payload);
      HeaderRoundTrip(f, comp, false, |p|, p);
    }
  }

  /** The bytes are a header, a counter, and what sealing m under them gives. */
  ghost predicate SealedAs(c: Config, b: Bytes, m: Bytes)
    requires c.key.Some? && |c.key.value| == 16 && |b| >= HDR && |b| >= HDR + CTRW + b[8] + c.tagLen
  {
    var off := HDR + CTRW;
    var (ct, tag) := Ascon.Seal(c.perm, c.key.value, BuildNonce(b[0], b[5], FromBigEndian(b[HDR..off])), b[..off], m);
    b[off..off + b[8]] == ct && b[off + b[8]..off + b[8] + c.tagLen] <= tag
  }

  /** What the sealed bytes open to, whatever the replay window. */
  function Unsealed(c: Config, b: Bytes): Option<Bytes>
    requires c.key.Some? && |c.key.value| == 16 && c.tagLen <= 16 && |b| >= HDR && |b| >= HDR + CTRW + b[8] + c.tagLen
  {
    var off := HDR + CTRW;
    Ascon.Open(c.perm, c.key.value, BuildNonce(b[0], b[5], FromBigEndian(b[HDR..off])), b[..off],
               b[off..off + b[8]], b[off + b[8]..off + b[8] + c.tagLen])
  }

  lemma UnsealedIsSealed(c: Config, b: Bytes)
    requires ConfigValid(c) && c.key.Some? && |b| >= HDR && |b| >= HDR + CTRW + b[8] + c.tagLen && Unsealed(c, b).Some?
    ensures exists m: Bytes :: SealedAs(c, b, m)
  {
    var off := HDR + CTRW;
    var m := Unsealed(c, b).value;
    Ascon.OpensOnlySealed(c.perm, c.key.value, BuildNonce(b[0], b[5], FromBigEndian(b[HDR..off])), b[..off],
                          b[off..off + b[8]], b[off + b[8]..off + b[8] + c.tagLen], m);
    assert SealedAs(c, b, m);
  }

  /** Bytes that are not what sealing produces are rejected before the replay window is looked at. */
  lemma ForgedRejected(c: Config, g: Replay.Guard, b: Bytes)
    requires ConfigValid(c) && c.encrypt && |b| >= HDR
    requires !(|b| >= HDR + CTRW + b[8] + c.tagLen && c.key.Some? && exists m: Bytes :: SealedAs(c, b, m))
    ensures Decode(c, g, b) == (g, Rejected)
  {
    hide Ascon.Open, Replay.Check, Expand, FromBigEndian, Inverse, SealedAs;
    if |b| >= HDR + CTRW + b[8] + c.tagLen && c.key.Some? && Unsealed(c, b).Some? { UnsealedIsSealed(c, b); }
  }

  /** Bytes that sealing produces open to what was sealed; a new counter is spent even on an unreadable payload. */
  lemma AuthenticOpens(c: Config, g: Replay.Guard, b: Bytes, m: Bytes)
    requires ConfigValid(c) && c.key.Some? && |b| >= HDR && |b| >= HDR + CTRW + b[8] + c.tagLen
    requires FlagBit(b[2], 4) && SealedAs(c, b, m)
    ensures
      var (g', isNew) := Replay.Check(g, FromBigEndian(b[HDR..HDR + CTRW]));
      var x := Expand(c, FlagBit(b[2], 2), m);
      Decode(c, g, b) ==
        (g', if isNew && x.Some? then Accepted(HeaderFrame(b).(payload := x.value), true) else Rejected)
  {
    var off := HDR + CTRW;
    Ascon.OpensOnlySealed(c.perm, c.key.value, BuildNonce(b[0], b[5], FromBigEndian(b[HDR..off])), b[..off],
                          b[off..off + b[8]], b[off + b[8]..off + b[8] + c.tagLen], m);
    hide Ascon.Open, Ascon.Seal, Replay.Check, Expand, FromBigEndian, Inverse;
  }

  /** Whatever follows a whole frame is ignored. */
  lemma TrailingIgnored(c: Config, g: Replay.Guard, b: Bytes, extra: Bytes)
    requires ConfigValid(c) && |b| >= HDR
    requires |b| >= if FlagBit(b[2], 4) then HDR + CTRW + b[8] + c.tagLen else HDR + b[8]
    ensures Decode(c, g, b + extra) == Decode(c, g, b)
  {
    var z := b + extra;
    assert HeaderFrame(z) == HeaderFrame(b);
    if FlagBit(b[2], 4) {
      SealedTrailing(c, g, b, extra);
    } else {
      assert z[HDR..HDR + b[8]] == b[HDR..HDR + b[8]];
    }
    hide OpenSealed, Expand, Inverse, HeaderFrame, FlagBit;
  }

  lemma SealedTrailing(c: Config, g: Replay.Guard, b: Bytes, extra: Bytes)
    requires ConfigValid(c) && |b| >= HDR && |b| >= HDR + CTRW + b[8] + c.tagLen
    ensures OpenSealed(c, g, b + extra) == OpenSealed(c, g, b)
  {
    var z, off := b + extra, HDR + CTRW;
    assert HeaderFrame(z) == HeaderFrame(b);
    assert z[HDR..off] == b[HDR..off] && z[..off] == b[..off] && z[off..off + b[8]] == b[off..off + b[8]];
    assert z[off + b[8]..off + b[8] + c.tagLen] == b[off + b[8]..off + b[8] + c.tagLen];
    hide Ascon.Open, Replay.Check, Expand, FromBigEndian, Inverse, HeaderFrame, FlagBit;
  }

  /** An unsealed frame that is cut short is taken with what is left of its payload, unless that was compressed. */
  lemma CutShort(c: Config, g: Replay.Guard, f: Frame, ctr: nat, n: nat)
    requires ConfigValid(c) && !c.encrypt && f.ctrl % 16 == 0 && |f.payload| <= MAXPAY && !Shrinks(c, f.payload)
    requires Encode(c, MAXFRAME, f, ctr).Some? && n <= |f.payload|
    ensures |Encode(c, MAXFRAME, f, ctr).value| == HDR + |f.payload|
    ensures Decode(c, g, Encode(c, MAXFRAME, f, ctr).value[..HDR + n]) ==
            (g, Accepted(f.(payload := f.payload[..n]), true))
  {
    var p, h := f.payload, Header(f, false, false, |f.payload|);
    PlainAsIs(c, f, ctr);
    HeaderRoundTrip(f, false, false, |p|, p[..n]);
    hide Header, HeaderFrame, FlagBit, OpenSealed, ReadPlain, Inverse, Encode, Shrinks;
    var b := h + p[..n];
    assert (h + p)[..HDR + n] == b;
    CutPayload(c, b, f, n);
  }

  lemma CutPayload(c: Config, b: Bytes, f: Frame, n: nat)
    requires n <= |f.payload| && |b| == HDR + n && b[HDR..] == f.payload[..n] && b[8] == |f.payload|
    requires HeaderFrame(b) == f.(payload := []) && !FlagBit(b[2], 2)
    ensures ReadPlain(c, b) == Accepted(f.(payload := f.payload[..n]), true)
  {
    hide HeaderFrame, FlagBit;
    assert b[HDR..HDR + n] == f.payload[..n];
  }

  lemma PlainAsIs(c: Config, f: Frame, ctr: nat)
    requires ConfigValid(c) && !c.encrypt && f.ctrl % 16 == 0 && |f.payload| <= MAXPAY && !Shrinks(c, f.payload)
    requires Encode(c, MAXFRAME, f, ctr).Some?
    ensures Encode(c, MAXFRAME, f, ctr) == Some(Header(f, false, false, |f.payload|) + f.payload)
  {
    hide Header, Inverse;
    assert Squeeze(c, f.payload) == (f.payload, false);
  }

  /** A sealed link accepts only bytes that sealing with its key produces, once per counter. */
  lemma OnlyAuthentic(c: Config, g: Replay.Guard, b: Bytes)
    requires ConfigValid(c) && c.encrypt && Decode(c, g, b).1.Accepted?
    ensures c.key.Some? && |b| >= HDR && |b| >= HDR + CTRW + b[8] + c.tagLen
    ensures Replay.Check(g, FromBigEndian(b[HDR..HDR + CTRW])).1
    ensures exists m: Bytes :: SealedAs(c, b, m)
  {
    UnsealedIsSealed(c, b);
  }
}
