/**
 * AEAD nonces: the frame counter that survives crashes, the bytes of a nonce, and the addresses
 * that keep the two boards' nonces apart.
 */
module Nonce {
  import opened Base

  // ---- big-endian counters ----

  function Pow256(k: nat): nat { if k == 0 then 1 else 256 * Pow256(k - 1) }

  /** The low k bytes of n, most significant first. */
  function BigEndian(n: nat, k: nat): (b: Bytes)
    ensures |b| == k
  {
    if k == 0 then [] else BigEndian(n / 256, k - 1) + [n % 256]
  }

  function FromBigEndian(b: Bytes): nat {
    if b == [] then 0 else 256 * FromBigEndian(b[..|b| - 1]) + b[|b| - 1]
  }

  lemma {:induction false} BigEndianRoundTrip(n: nat, k: nat)
    requires n < Pow256(k)
    ensures FromBigEndian(BigEndian(n, k)) == n
  {
    if k > 0 {
      BigEndianRoundTrip(n / 256, k - 1);
      assert BigEndian(n, k)[..k - 1] == BigEndian(n / 256, k - 1);
    }
  }

  /** src, epoch, eight counter bytes, six zeros. */
  function BuildNonce(src: u8, epoch: u8, ctr: nat): (n: Bytes)
    ensures |n| == 16
  {
    [src, epoch] + BigEndian(ctr, 8) + [0, 0, 0, 0, 0, 0]
  }

  /** A nonce determines who sent it, in which epoch, under which counter. */
  lemma NonceInjective(src1: u8, epoch1: u8, ctr1: nat, src2: u8, epoch2: u8, ctr2: nat)
    requires ctr1 < Pow256(8) && ctr2 < Pow256(8)
    requires BuildNonce(src1, epoch1, ctr1) == BuildNonce(src2, epoch2, ctr2)
    ensures src1 == src2 && epoch1 == epoch2 && ctr1 == ctr2
  {
    var n := BuildNonce(src1, epoch1, ctr1);
    assert n[0] == src1 && n[1] == epoch1 && n[2..10] == BigEndian(ctr1, 8);
    assert n == BuildNonce(src2, epoch2, ctr2);
    assert n[0] == src2 && n[1] == epoch2 && n[2..10] == BigEndian(ctr2, 8);
    BigEndianRoundTrip(ctr1, 8);
    BigEndianRoundTrip(ctr2, 8);
  }

  // ---- who is who ----

  /** Lexicographic comparison of two hardware addresses: is a before b? */
  predicate Before(a: Bytes, b: Bytes)
    requires |a| == |b|
  {
    a != [] && (a[0] < b[0] || (a[0] == b[0] && Before(a[1..], b[1..])))
  }

  function AddrOf(initiator: bool): u8 { if initiator then 1 else 2 }

  function PeerOf(initiator: bool): u8 { if initiator then 2 else 1 }

  /** Two different boards elect exactly one initiator. */
  lemma {:induction false} ElectsOne(a: Bytes, b: Bytes)
    requires |a| == |b| && a != b
    ensures Before(a, b) <==> !Before(b, a)
  {
    if a[0] == b[0] {
      assert a == [a[0]] + a[1..] && b == [b[0]] + b[1..];
      ElectsOne(a[1..], b[1..]);
    }
  }

  /** So each end's address is the one its peer expects, and the two differ. */
  lemma AddressesMatch(a: Bytes, b: Bytes)
    requires |a| == |b| && a != b
    ensures AddrOf(Before(a, b)) != AddrOf(Before(b, a))
    ensures AddrOf(Before(a, b)) == PeerOf(Before(b, a)) && AddrOf(Before(b, a)) == PeerOf(Before(a, b))
  {
    ElectsOne(a, b);
  }

  // ---- the counter across crashes ----

  const STRIDE: nat := 256

  /**
   * Where a board is in its life. Loaded and Stored are the two halves of applying the link
   * configuration (the new start computed, then written to flash); Bumped, Saving and Armed are
   * the stages of sealing one frame.
   */
  datatype Stage =
    | Off
    | Loaded(start: nat)
    | Stored(start: nat)
    | Ready
    | Bumped
    | Saving
    | Armed

  /** Flash counter, then RAM: frame counter and its value at the last save. */
  datatype Board = Board(flash: nat, ctr: nat, lastSave: nat, stage: Stage)

  /** A frame was sealed under this epoch and counter. */
  datatype Use = Use(epoch: u8, ctr: nat)

  datatype Act =
    | Load
    | Store
    | InitLink
    | Bump
    | CheckStride
    | WriteFlash
    | Emit(epoch: u8)
    | Crash

  predicate CanDo(b: Board, a: Act) {
    match a
    case Load => b.stage.Off? || b.stage.Ready?
    case Store => b.stage.Loaded?
    case InitLink => b.stage.Stored?
    case Bump => b.stage.Ready?
    case CheckStride => b.stage.Bumped?
    case WriteFlash => b.stage.Saving?
    case Emit(_) => b.stage.Armed?
    case Crash => true
  }

  /** One micro-step; a crash keeps flash and nothing else. */
  function Do(b: Board, a: Act): Board
    requires CanDo(b, a)
  {
    match a
    case Load => b.(stage := Loaded(b.flash + STRIDE))
    case Store => b.(flash := b.stage.start, stage := Stored(b.stage.start))
    case InitLink => b.(ctr := b.stage.start, lastSave := b.stage.start, stage := Ready)
    case Bump => b.(ctr := b.ctr + 1, stage := Bumped)
    case CheckStride =>
      if b.ctr - b.lastSave >= STRIDE then b.(lastSave := b.ctr, stage := Saving) else b.(stage := Armed)
    case WriteFlash => b.(flash := b.ctr, stage := Armed)
    case Emit(_) => b.(stage := Ready)
    case Crash => Board(b.flash, 0, 0, Off)
  }

  function Log(b: Board, a: Act, uses: seq<Use>): seq<Use> {
    if a.Emit? then uses + [Use(a.epoch, b.ctr)] else uses
  }

  ghost predicate Increasing(uses: seq<Use>) {
    forall i, j :: 0 <= i < j < |uses| ==> uses[i].ctr < uses[j].ctr
  }

  ghost predicate AllBelow(uses: seq<Use>, n: nat) {
    forall i :: 0 <= i < |uses| ==> uses[i].ctr < n
  }

  /** Every counter used so far is within one stride of what flash would resume from. */
  ghost predicate Inv(b: Board, uses: seq<Use>) {
    && Increasing(uses)
    && AllBelow(uses, b.flash + STRIDE + 1)
    && match b.stage {
         case Off => true
         case Loaded(s) => s == b.flash + STRIDE
         case Stored(s) => s == b.flash && AllBelow(uses, s + 1)
         case Ready => AllBelow(uses, b.ctr + 1) && b.lastSave == b.flash && b.ctr < b.flash + STRIDE
         case Bumped => AllBelow(uses, b.ctr) && b.lastSave == b.flash && b.ctr <= b.flash + STRIDE
         case Saving => AllBelow(uses, b.ctr) && b.lastSave == b.ctr && b.ctr <= b.flash + STRIDE
         case Armed => AllBelow(uses, b.ctr) && b.lastSave == b.flash && b.ctr < b.flash + STRIDE
       }
  }

  lemma ActKeeps(b: Board, a: Act, uses: seq<Use>)
    requires Inv(b, uses) && CanDo(b, a)
    ensures Inv(Do(b, a), Log(b, a, uses))
  {
  }

  /** A run of micro-steps: boots, sends, re-initialisations and crashes in any order. */
  ghost predicate Possible(b: Board, acts: seq<Act>)
    decreases |acts|
  {
    acts == [] || (CanDo(b, acts[0]) && Possible(Do(b, acts[0]), acts[1..]))
  }

  ghost function RunTo(b: Board, acts: seq<Act>): Board
    requires Possible(b, acts)
    decreases |acts|
  {
    if acts == [] then b else RunTo(Do(b, acts[0]), acts[1..])
  }

  /** The frames sealed in a run, after those already sealed. */
  ghost function Uses(b: Board, acts: seq<Act>, uses: seq<Use>): seq<Use>
    requires Possible(b, acts)
    decreases |acts|
  {
    if acts == [] then uses else Uses(Do(b, acts[0]), acts[1..], Log(b, acts[0], uses))
  }

  lemma {:induction false} UsesIncrease(b: Board, acts: seq<Act>, uses: seq<Use>)
    requires Inv(b, uses) && Possible(b, acts)
    ensures Increasing(Uses(b, acts, uses))
    decreases |acts|
  {
    if acts != [] {
      ActKeeps(b, acts[0], uses);
      UsesIncrease(Do(b, acts[0]), acts[1..], Log(b, acts[0], uses));
    }
  }

  /** Over any life of a board, from whatever flash holds, frame counters strictly increase. */
  lemma CountersIncrease(flash: nat, acts: seq<Act>)
    requires Possible(Board(flash, 0, 0, Off), acts)
    ensures Increasing(Uses(Board(flash, 0, 0, Off), acts, []))
  {
    UsesIncrease(Board(flash, 0, 0, Off), acts, []);
  }

  /** The nonces a board used, in order. */
  ghost function Nonces(src: u8, uses: seq<Use>): seq<Bytes> {
    seq(|uses|, i requires 0 <= i < |uses| => BuildNonce(src, uses[i].epoch, uses[i].ctr))
  }

  /**
   * No nonce is ever used twice, by one board or across the two, however often they crash and
   * restart, for every counter that fits its eight bytes.
   */
  lemma NonceNeverRepeats(macA: Bytes, macB: Bytes, flashA: nat, flashB: nat, actsA: seq<Act>, actsB: seq<Act>)
    requires |macA| == |macB| && macA != macB
    requires Possible(Board(flashA, 0, 0, Off), actsA) && Possible(Board(flashB, 0, 0, Off), actsB)
    requires AllBelow(Uses(Board(flashA, 0, 0, Off), actsA, []), Pow256(8))
    requires AllBelow(Uses(Board(flashB, 0, 0, Off), actsB, []), Pow256(8))
    ensures
      var na := Nonces(AddrOf(Before(macA, macB)), Uses(Board(flashA, 0, 0, Off), actsA, []));
      var nb := Nonces(AddrOf(Before(macB, macA)), Uses(Board(flashB, 0, 0, Off), actsB, []));
      && (forall i, j :: 0 <= i < j < |na| ==> na[i] != na[j])
      && (forall i, j :: 0 <= i < j < |nb| ==> nb[i] != nb[j])
      && (forall i, j :: 0 <= i < |na| && 0 <= j < |nb| ==> na[i] != nb[j])
  {
    AddressesMatch(macA, macB);
    var ua, ub := Uses(Board(flashA, 0, 0, Off), actsA, []), Uses(Board(flashB, 0, 0, Off), actsB, []);
    CountersIncrease(flashA, actsA);
    CountersIncrease(flashB, actsB);
    var sa, sb := AddrOf(Before(macA, macB)), AddrOf(Before(macB, macA));
    DistinctNonces(sa, ua);
    DistinctNonces(sb, ub);
    forall i, j | 0 <= i < |ua| && 0 <= j < |ub|
      ensures Nonces(sa, ua)[i] != Nonces(sb, ub)[j]
    {
      assert Nonces(sa, ua)[i][0] == sa && Nonces(sb, ub)[j][0] == sb;
    }
  }

  lemma DistinctNonces(src: u8, uses: seq<Use>)
    requires Increasing(uses) && AllBelow(uses, Pow256(8))
    ensures forall i, j :: 0 <= i < j < |uses| ==> Nonces(src, uses)[i] != Nonces(src, uses)[j]
  {
    forall i, j | 0 <= i < j < |uses|
      ensures Nonces(src, uses)[i] != Nonces(src, uses)[j]
    {
      if Nonces(src, uses)[i] == Nonces(src, uses)[j] {
        NonceInjective(src, uses[i].epoch, uses[i].ctr, src, uses[j].epoch, uses[j].ctr);
      }
    }
  }
}
