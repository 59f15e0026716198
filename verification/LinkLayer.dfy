/**
 * The link layer as the program keeps it: a sliding array of in-flight frames, sixteen receive
 * slots, two circular byte buffers and a handful of counters, all updated in place. Every method
 * is proved to do to this state what the functions of Arq and Station do to its value.
 */
module LinkLayers {
  import opened Base
  import opened Arq
  import opened Wire
  import opened ByteRings
  import Ascon
  import Replay
  import Nonce
  import Station
  import ArqSafety
  import ArqTurn
  import ArqSystem

  class LinkLayer {
    const ring: nat
    const sBuf: array<u8>
    const rBuf: array<u8>
    const win: array<TxFrame>
    const rx: array<RxSlot>

    var cfg: Wire.Config
    var addr: u8
    var peer: u8
    var window: nat
    var retransmitMs: u32
    var stride: nat
    var persists: bool
    var flash: nat

    var sHead: nat
    var sTail: nat
    var rHead: nat
    var rTail: nat
    var inflight: nat
    var base: u8
    var next: u8
    var rxNext: u8
    var txCtr: nat
    var lastPersist: nat
    var rxCtrInit: bool
    var rxCtrMax: nat
    var rxSeen: Replay.Mask
    var ackPending: bool
    var ackSentTurn: bool
    var gotData: bool
    var peerReset: bool
    var validRx: bool
    var myEpoch: u8
    var peerEpoch: u8
    var txCtrl: u8
    var rxCtrl: u8
    var txAux: u8
    var rxAux: u8

    // ---- what the state stands for ----

    /** The send buffers have their sizes and the indices are within them. */
    ghost predicate TxShape()
      reads this`sHead, this`sTail, this`inflight
    {
      ring > 0 && sBuf.Length == ring && win.Length == MAXWIN && sHead < ring && sTail < ring && inflight <= MAXWIN
    }

    ghost predicate RxShape()
      reads this`rHead, this`rTail
    {
      ring > 0 && rBuf.Length == ring && rx.Length == MAXWIN && rHead < ring && rTail < ring
    }

    ghost predicate Shape()
      reads this`sHead, this`sTail, this`rHead, this`rTail, this`inflight
    {
      TxShape() && RxShape() && sBuf != rBuf
    }

    ghost function SendQueue(): (q: Bytes)
      requires TxShape()
      reads this`sHead, this`sTail, this`inflight, sBuf
      ensures |q| < ring
    {
      CountIs(sBuf[..], sHead, sTail);
      RingSeq(sBuf[..], sHead, sTail)
    }

    ghost function RecvQueue(): (q: Bytes)
      requires RxShape()
      reads this`rHead, this`rTail, rBuf
      ensures |q| < ring
    {
      CountIs(rBuf[..], rHead, rTail);
      RingSeq(rBuf[..], rHead, rTail)
    }

    ghost function Tx(): TxHalf
      requires TxShape()
      reads this`sHead, this`sTail, this`inflight, sBuf, win
      reads this`window, this`retransmitMs, this`base, this`next
    {
      TxHalf(window, retransmitMs, SendQueue(), win[..inflight], base, next)
    }

    ghost function Rx(): RxHalf
      requires RxShape()
      reads this`rHead, this`rTail, rBuf, rx, this`rxNext
    {
      RxHalf(ring - 1, RecvQueue(), rx[..], rxNext)
    }

    ghost function View(): Link
      requires Shape()
      reads this, sBuf, rBuf, win, rx
    {
      Link(addr, peer, ring - 1, Tx(), Rx(), ackPending, ackSentTurn, gotData, myEpoch, peerEpoch,
           peerReset, validRx, txCtrl, rxCtrl, txAux, rxAux)
    }

    ghost function Guard(): Replay.Guard
      reads this`rxCtrInit, this`rxCtrMax, this`rxSeen
    {
      Replay.Guard(rxCtrInit, rxCtrMax, rxSeen)
    }

    ghost function Whole(): Station.Station
      requires Shape()
      reads this, sBuf, rBuf, win, rx
    {
      Station.Station(View(), cfg, Guard(), txCtr, lastPersist, stride, persists, flash)
    }

    ghost predicate Valid()
      reads this, sBuf, rBuf, win, rx
    {
      Shape() && TxValid(Tx()) && ConfigValid(cfg) && txCtrl % 16 == 0
    }

    lemma ValidStation()
      requires Valid()
      ensures Station.StationValid(Whole())
    {
    }

    // ---- life of a link ----

    /** Storage for a link with rings of n bytes, initialised. */
    constructor (n: nat, a: u8, p: u8, w: u8, ms: u32, c: Wire.Config, epoch: u8, start: nat, every: nat, saves: bool)
      requires n > 0 && ConfigValid(c.(tagLen := 8))
      ensures Valid() && ring == n && fresh(sBuf) && fresh(rBuf) && fresh(win) && fresh(rx)
      ensures ArqSystem.Fresh(View())
    {
      ring := n;
      sBuf := new u8[n](_ => 0);
      rBuf := new u8[n](_ => 0);
      win := new TxFrame[MAXWIN](_ => NewFrame(0, []));
      rx := new RxSlot[MAXWIN](_ => RxSlot(false, 0, []));
      peerReset, validRx, flash := false, false, 0;
      rxSeen := Replay.NoBits();
      cfg := c;
      new;
      Init(a, p, w, ms, c, epoch, start, every, saves);
    }

    /** The buffers are there, with the sizes they need. */
    ghost predicate Storage() {
      ring > 0 && sBuf.Length == rBuf.Length == ring && sBuf != rBuf && win.Length == MAXWIN && rx.Length == MAXWIN
    }

    /** (Re)initialise: clamp the settings and forget everything but the two unread edges. */
    method Init(a: u8, p: u8, w: u8, ms: u32, c: Wire.Config, epoch: u8, start: nat, every: nat, saves: bool)
      requires Storage() && ConfigValid(c.(tagLen := 8))
      modifies this, rx
      ensures Valid() && ArqSystem.Fresh(View())
      ensures View() == InitialLink(ring, a, p, w, ms, epoch, old(rx[..]), old(peerReset), old(validRx))
      ensures cfg == c.(tagLen := ClampTag(c.tagLen)) && Guard() == Replay.Guard(false, 0, Replay.NoBits())
      ensures txCtr == lastPersist == start && stride == every && persists == saves && flash == old(flash)
    {
      hide RingSeq, Inverse, EmptySlots, SendQueue, RecvQueue, TxValid, ArqSystem.Fresh;
      InitialFresh(ring, a, p, w, ms, epoch, rx[..], peerReset, validRx);
      Reset(a, p, w, ms, c, epoch, start, every, saves);
    }

    /** Init, field by field. */
    method Reset(a: u8, p: u8, w: u8, ms: u32, c: Wire.Config, epoch: u8, start: nat, every: nat, saves: bool)
      requires Storage()
      modifies this, rx
      ensures Shape() && addr == a && peer == p && cfg == c.(tagLen := ClampTag(c.tagLen))
      ensures Tx() == TxHalf(ClampWindow(w), ms, [], [], 0, 0)
      ensures Rx() == RxHalf(ring - 1, [], EmptySlots(old(rx[..])), 0)
      ensures !ackPending && !ackSentTurn && !gotData && rxCtrl == 0 && rxAux == 0 && txCtrl == 0 && txAux == 0
      ensures myEpoch == (if epoch != 0 then epoch else 1) && peerEpoch == 0
      ensures Guard() == Replay.Guard(false, 0, Replay.NoBits())
      ensures txCtr == lastPersist == start && stride == every && persists == saves && flash == old(flash)
      ensures peerReset == old(peerReset) && validRx == old(validRx)
    {
      hide RingSeq, EmptySlots, SendQueue, RecvQueue, Tx, Rx;
      Layout(a, p, w, ms, c, every, saves);
      Restart(epoch, start);
    }

    method Layout(a: u8, p: u8, w: u8, ms: u32, c: Wire.Config, every: nat, saves: bool)
      requires Storage()
      modifies this`sHead, this`sTail, this`rHead, this`rTail, this`inflight, this`base, this`next, this`rxNext, rx
      modifies this`cfg, this`addr, this`peer, this`window, this`retransmitMs, this`stride, this`persists
      ensures Shape() && addr == a && peer == p && cfg == c.(tagLen := ClampTag(c.tagLen))
      ensures Tx() == TxHalf(ClampWindow(w), ms, [], [], 0, 0)
      ensures Rx() == RxHalf(ring - 1, [], EmptySlots(old(rx[..])), 0)
      ensures stride == every && persists == saves
    {
      hide RingSeq, EmptySlots, SendQueue, RecvQueue, Tx, Rx;
      Configure(a, p, w, ms, c, every, saves);
      DropData();
    }

    method Configure(a: u8, p: u8, w: u8, ms: u32, c: Wire.Config, every: nat, saves: bool)
      modifies this`cfg, this`addr, this`peer, this`window, this`retransmitMs, this`stride, this`persists
      ensures cfg == c.(tagLen := ClampTag(c.tagLen))
      ensures addr == a && peer == p && window == ClampWindow(w) && retransmitMs == ms && stride == every
        && persists == saves
    {
      cfg := c.(tagLen := if c.tagLen == 0 || c.tagLen > 16 then 8 else c.tagLen);
      addr, peer, retransmitMs, stride, persists := a, p, ms, every, saves;
      window := if w > MAXWIN then MAXWIN else if w < 1 then 1 else w;
    }

    /** The frame counter resumes at its seed, and the replay window starts empty. */
    method ResetCounters(start: nat)
      modifies this`txCtr, this`lastPersist, this`rxCtrMax, this`rxSeen, this`rxCtrInit
      ensures txCtr == lastPersist == start && Guard() == Replay.Guard(false, 0, Replay.NoBits())
    {
      txCtr, lastPersist := start, start;
      rxCtrMax, rxSeen, rxCtrInit := 0, Replay.NoBits(), false;
    }

    /** Counters, epochs and every once-per-turn mark as at power-on. */
    method Restart(epoch: u8, start: nat)
      modifies this`txCtr, this`lastPersist, this`rxCtrMax, this`rxSeen, this`rxCtrInit
      modifies this`myEpoch, this`peerEpoch, this`txCtrl, this`txAux
      modifies this`ackPending, this`ackSentTurn, this`gotData, this`rxCtrl, this`rxAux
      ensures !ackPending && !ackSentTurn && !gotData && rxCtrl == 0 && rxAux == 0
      ensures txCtr == lastPersist == start && Guard() == Replay.Guard(false, 0, Replay.NoBits())
      ensures myEpoch == (if epoch != 0 then epoch else 1) && peerEpoch == 0 && txCtrl == 0 && txAux == 0
    {
      ResetCounters(start);
      myEpoch := if epoch != 0 then epoch else 1;
      peerEpoch, txCtrl, txAux, rxCtrl, rxAux := 0, 0, 0, 0, 0;
      ackPending, ackSentTurn, gotData := false, false, false;
    }

    method ClearFlags()
      requires Shape()
      modifies this`ackPending, this`ackSentTurn, this`gotData, this`rxCtrl, this`rxAux
      ensures Shape() && Tx() == old(Tx())
      ensures View() == old(View()).(ackPending := false, ackSentTurn := false, gotData := false, rxCtrl := 0,
        rxAux := 0)
    {
      hide RingSeq, SendQueue, RecvQueue, Tx, Rx;
      ghost var t, r := Tx(), Rx();
      ackPending, ackSentTurn, gotData, rxCtrl, rxAux := false, false, false, 0, 0;
      assert Tx() == t && Rx() == r;
    }

    /** Drop all data and start a session under the next epoch. */
    method NewSession()
      requires Valid()
      modifies this`sHead, this`sTail, this`rHead, this`rTail, this`inflight, this`base, this`next, this`rxNext, rx
      modifies this`ackPending, this`ackSentTurn, this`gotData, this`rxCtrl, this`rxAux, this`myEpoch
      ensures Valid() && View() == Arq.NewSession(old(View()))
    {
      hide RingSeq, Inverse, EmptySlots, SendQueue, RecvQueue;
      DropAll();
      ClearFlags();
      BumpEpoch();
    }

    method DropAll()
      requires Shape()
      modifies this`sHead, this`sTail, this`rHead, this`rTail, this`inflight, this`base, this`next, this`rxNext, rx
      ensures Shape()
      ensures var l := old(View());
        View() == l.(tx := l.tx.(queue := [], win := [], base := 0, next := 0),
                     rx := l.rx.(queue := [], slots := EmptySlots(l.rx.slots), next := 0))
    {
      hide RingSeq, EmptySlots, SendQueue, RecvQueue;
      DropData();
    }

    method BumpEpoch()
      requires Shape()
      modifies this`myEpoch
      ensures Shape() && View() == old(View()).(myEpoch := NextEpoch(old(myEpoch)))
    {
      hide RingSeq;
      myEpoch := Wrap8(myEpoch + 1);
      if myEpoch == 0 { myEpoch := 1; }
    }

    /** Empty both rings, the window and the slots, and start the numbering over. */
    method DropData()
      requires Storage()
      modifies this`sHead, this`sTail, this`rHead, this`rTail, this`inflight, this`base, this`next, this`rxNext, rx
      ensures Shape()
      ensures Tx() == TxHalf(window, retransmitMs, [], [], 0, 0)
      ensures Rx() == RxHalf(ring - 1, [], EmptySlots(old(rx[..])), 0)
    {
      hide EmptySlots;
      sHead, sTail, rHead, rTail := 0, 0, 0, 0;
      inflight, base, next, rxNext := 0, 0, 0, 0;
      ClearSlots();
    }

    /** Change the window and the resend timer, and nothing else. */
    method SetTiming(w: u8, ms: u32)
      requires Valid()
      modifies this`window, this`retransmitMs
      ensures Valid() && View() == Arq.SetTiming(old(View()), w, ms)
    {
      hide RingSeq;
      window := if w < 1 then 1 else if w > MAXWIN then MAXWIN else w;
      retransmitMs := ms;
    }

    method HasWork() returns (work: bool)
      requires Valid()
      ensures work <==> Tx().win != [] || Tx().queue != [] || ackPending
    {
      work := inflight > 0 || SCount() > 0 || ackPending;
    }

    /** Read and clear the edge "in-order data was delivered". */
    method TakeGotData() returns (g: bool)
      requires Valid()
      modifies this`gotData
      ensures Valid() && g == old(gotData) && View() == old(View()).(gotData := false)
    {
      hide RingSeq;
      g := gotData;
      gotData := false;
    }

    method TakePeerReset() returns (r: bool)
      requires Valid()
      modifies this`peerReset
      ensures Valid() && r == old(peerReset) && View() == old(View()).(peerReset := false)
    {
      hide RingSeq;
      r := peerReset;
      peerReset := false;
    }

    method TakeValidRx() returns (v: bool)
      requires Valid()
      modifies this`validRx
      ensures Valid() && v == old(validRx) && View() == old(View()).(validRx := false)
    {
      hide RingSeq;
      v := validRx;
      validRx := false;
    }

    /** Stamp a control nibble on outgoing frames; only the upper four bits are kept. */
    method SetCtrlTx(bits: u8)
      requires Valid()
      modifies this`txCtrl
      ensures Valid() && View() == old(View()).(txCtrl := bits - bits % 16)
    {
      hide RingSeq;
      txCtrl := bits - bits % 16;
    }

    method SetAuxTx(aux: u8)
      requires Valid()
      modifies this`txAux
      ensures Valid() && View() == old(View()).(txAux := aux)
    {
      hide RingSeq;
      txAux := aux;
    }

    // ---- the byte rings ----

    function SCount(): (n: nat)
      requires TxShape()
      reads this`sHead, this`sTail, this`inflight, sBuf
      ensures n == |SendQueue()| < ring
    {
      CountIs(sBuf[..], sHead, sTail);
      (sHead - sTail + ring) % ring
    }

    function SFree(): (n: nat)
      requires TxShape()
      reads this`sHead, this`sTail, this`inflight, sBuf
      ensures n == ring - 1 - |SendQueue()|
    {
      ring - 1 - SCount()
    }

    method SPush(b: u8)
      requires TxShape() && |SendQueue()| < ring - 1
      modifies this`sHead, sBuf
      ensures TxShape() && SendQueue() == old(SendQueue()) + [b]
    {
      ghost var before := sBuf[..];
      sBuf[sHead] := b;
      AppendRun(before, sBuf[..], sHead, sTail, [b]);
      sHead := (sHead + 1) % ring;
    }

    method SPop() returns (b: u8)
      requires TxShape() && SendQueue() != []
      modifies this`sTail
      ensures TxShape() && [b] + SendQueue() == old(SendQueue())
    {
      DropRun(sBuf[..], sHead, sTail, 1);
      b := sBuf[sTail];
      sTail := (sTail + 1) % ring;
    }

    function RCount(): (n: nat)
      requires RxShape()
      reads this`rHead, this`rTail, rBuf
      ensures n == |RecvQueue()| < ring
    {
      CountIs(rBuf[..], rHead, rTail);
      (rHead - rTail + ring) % ring
    }

    function RFree(): (n: nat)
      requires RxShape()
      reads this`rHead, this`rTail, rBuf
      ensures n == ring - 1 - |RecvQueue()|
    {
      ring - 1 - RCount()
    }

    method RPush(b: u8)
      requires RxShape()
      modifies this`rHead, rBuf
      ensures RxShape()
      ensures RecvQueue() == if |old(RecvQueue())| < ring - 1 then old(RecvQueue()) + [b] else old(RecvQueue())
    {
      CountIs(rBuf[..], rHead, rTail);
      ModWrap(rHead + 1, ring);
      ModWrap(rHead - rTail + ring, ring);
      if (rHead + 1) % ring != rTail {
        ghost var before := rBuf[..];
        rBuf[rHead] := b;
        AppendRun(before, rBuf[..], rHead, rTail, [b]);
        rHead := (rHead + 1) % ring;
      }
    }

    method RPop() returns (b: u8)
      requires RxShape() && RecvQueue() != []
      modifies this`rTail
      ensures RxShape() && [b] + RecvQueue() == old(RecvQueue())
    {
      DropRun(rBuf[..], rHead, rTail, 1);
      b := rBuf[rTail];
      rTail := (rTail + 1) % ring;
    }

    /** Queue app bytes; returns how many the ring had room for. */
    method Write(d: Bytes) returns (k: nat)
      requires Valid()
      modifies this`sHead, sBuf
      ensures Valid() && View() == Arq.Write(old(View()), d)
      ensures k == Min(|d|, ring - 1 - |old(SendQueue())|)
    {
      hide RingSeq, Consecutive, ConfigValid;
      ghost var r := Rx();
      k := 0;
      while k < |d| && SFree() > 0
        invariant Shape() && k <= |d| && k + |old(SendQueue())| <= ring - 1
        invariant SendQueue() == old(SendQueue()) + d[..k]
      {
        SPush(d[k]);
        k := k + 1;
      }
      assert k == |d| ==> d[..k] == d;
      assert Rx() == r;
    }

    // ---- the receive half ----

    /** Deliver the contiguous run of held frames, as far as whole frames fit the ring. */
    method DrainInOrder()
      requires RxShape()
      modifies this`rHead, this`rxNext, this`gotData, rBuf, rx
      ensures RxShape() && Rx() == Drain(old(Rx()))
      ensures gotData == (old(gotData) || CanDeliver(old(Rx())))
    {
      hide RingSeq, HeldSlots;
      ghost var r0 := Rx();
      ghost var moved := false;
      while true
        invariant RxShape() && Drain(Rx()) == Drain(r0)
        invariant if moved then gotData && CanDeliver(r0) else Rx() == r0 && gotData == old(gotData)
        decreases HeldSlots(rx[..])
      {
        var j := rxNext % MAXWIN;
        if !(rx[j].received && rx[j].num == rxNext) { break; }
        if RFree() < |rx[j].buf| { break; }
        DeliverFront();
        gotData := true;
        moved := true;
      }
    }

    /** Deliver the frame the receiver is waiting for. */
    method DeliverFront()
      requires RxShape() && CanDeliver(Rx())
      modifies this`rHead, this`rxNext, rBuf, rx
      ensures RxShape()
      ensures Rx() == Deliver(old(Rx()))
      ensures HeldSlots(rx[..]) < HeldSlots(old(rx[..]))
    {
      hide RingSeq, HeldSlots, Wrap8;
      var j := rxNext % MAXWIN;
      ghost var slots := rx[..];
      CopyOut(rx[j].buf);
      rx[j] := rx[j].(received := false);
      rxNext := Wrap8(rxNext + 1);
      assert rx[..] == Clear(slots, j);
    }

    /** Push a payload that fits, byte by byte. */
    method CopyOut(d: Bytes)
      requires RxShape() && |RecvQueue()| + |d| < ring
      modifies this`rHead, rBuf
      ensures RxShape() && RecvQueue() == old(RecvQueue()) + d
    {
      for i := 0 to |d|
        invariant RxShape() && RecvQueue() == old(RecvQueue()) + d[..i]
      {
        RPush(d[i]);
      }
    }

    /** Pop up to max bytes for the app. */
    method TakeDelivered(max: nat) returns (out: Bytes)
      requires RxShape()
      modifies this`rTail
      ensures RxShape() && |out| == Min(max, |old(RecvQueue())|)
      ensures out == old(RecvQueue())[..|out|] && RecvQueue() == old(RecvQueue())[|out|..]
    {
      hide RingSeq;
      out := [];
      ghost var q := RecvQueue();
      while |out| < max && RCount() > 0
        invariant RxShape() && |out| <= max && |out| <= |q|
        invariant out == q[..|out|] && RecvQueue() == q[|out|..]
        decreases |q| - |out|
      {
        var b := RPop();
        out := out + [b];
      }
    }

    /** Hand the app up to max bytes; what backpressure held is delivered into the room. */
    method Read(max: nat) returns (out: Bytes)
      requires Valid()
      modifies this`rHead, this`rTail, this`rxNext, this`gotData, rBuf, rx
      ensures Valid() && View() == Arq.Read(old(View()), max)
      ensures out == old(RecvQueue())[..Min(max, |old(RecvQueue())|)]
    {
      hide SendQueue, RecvQueue, RingSeq, TxValid, ConfigValid, Drain, CanDeliver;
      ghost var l, t, r := View(), Tx(), Rx();
      out := TakeDelivered(max);
      assert Rx() == r.(queue := r.queue[|out|..]);
      DrainInOrder();
      assert Tx() == t;
      assert View() == l.(rx := Rx(), gotData := gotData);
    }

    /** Bit k: the frame numbered rxNext+1+k is held. */
    method SackBitmap() returns (b: Sack)
      requires Shape()
      ensures b == SackOf(Rx())
    {
      b := seq(16, _ => false);
      for k := 0 to MAXWIN - 1
        invariant forall i :: 0 <= i < k ==> b[i] == Holds(Rx(), Wrap8(rxNext + 1 + i))
        invariant forall i :: k <= i < 16 ==> !b[i]
      {
        var s := Wrap8(rxNext + 1 + k);
        var slot := s % MAXWIN;
        if rx[slot].received && rx[slot].num == s { b := b[k := true]; }
      }
    }

    method ClearSlots()
      requires RxShape()
      modifies rx
      ensures RxShape() && rx[..] == EmptySlots(old(rx[..]))
    {
      for i := 0 to MAXWIN
        invariant forall k :: 0 <= k < i ==> rx[k] == old(rx[k]).(received := false)
        invariant forall k :: i <= k < MAXWIN ==> rx[k] == old(rx[k])
      {
        rx[i] := rx[i].(received := false);
      }
    }

    // ---- the send half ----

    /** Clear the once-per-turn marks. */
    method BeginTurn()
      requires Valid()
      modifies this`ackSentTurn, win
      ensures Valid() && View() == Arq.BeginTurn(old(View()))
    {
      hide RingSeq;
      ghost var r := Rx();
      ClearMarks();
      assert Rx() == r;
      ackSentTurn := false;
    }

    method ClearMarks()
      requires TxShape()
      modifies win
      ensures TxShape() && Tx() == TxBeginTurn(old(Tx()))
    {
      hide RingSeq;
      ghost var w := win[..];
      for i := 0 to inflight
        invariant TxShape()
        invariant forall k :: 0 <= k < i ==> win[k] == w[k].(txThisTurn := false)
        invariant forall k :: i <= k < MAXWIN ==> win[k] == w[k]
      {
        win[i] := win[i].(txThisTurn := false);
      }
      assert w[..inflight] == old(Tx()).win;
    }

    /** Take the next payload's worth of queued bytes. */
    method TakePayload() returns (raw: Bytes)
      requires Shape()
      modifies this`sTail
      ensures Shape() && |raw| == Min(|old(SendQueue())|, MAXPAY)
      ensures raw == old(SendQueue())[..|raw|] && SendQueue() == old(SendQueue())[|raw|..]
    {
      raw := [];
      ghost var q := SendQueue();
      while |raw| < MAXPAY && SCount() > 0
        invariant Shape() && |raw| <= MAXPAY && |raw| <= |q|
        invariant raw == q[..|raw|] && SendQueue() == q[|raw|..]
      {
        var b := SPop();
        raw := raw + [b];
      }
    }

    /** Move queued bytes into fresh frames while the window has room. */
    method FillWindow()
      requires Shape() && TxValid(Tx())
      modifies this`sTail, this`inflight, this`next, win
      ensures Shape() && TxValid(Tx()) && Tx() == Fill(old(Tx()))
    {
      hide RingSeq, TxValid;
      while inflight < window && SCount() > 0
        invariant Shape() && TxValid(Tx()) && Fill(Tx()) == Fill(old(Tx()))
        decreases |SendQueue()|
      {
        WindowCap(Tx());
        FrameUp();
      }
    }

    /** Frame the next payload at the end of the window. */
    method FrameUp()
      requires Shape() && TxValid(Tx()) && inflight < MAXWIN && SendQueue() != []
      modifies this`sTail, this`inflight, this`next, win
      ensures Shape() && TxValid(Tx())
      ensures Tx() == FillOne(old(Tx()))
    {
      hide RingSeq, TxValid;
      ghost var t := Tx();
      ArqTurn.FillOneValid(t);
      var raw := TakePayload();
      win[inflight] := TxFrame(next, raw, 0, false, false, false, false);
      next := Wrap8(next + 1);
      inflight := inflight + 1;
      assert win[..inflight] == t.win + [NewFrame(t.next, raw)];
    }

    /** The first frame that may be sent now, or `inflight` if there is none. */
    method PickFrame(now: u32) returns (p: nat)
      requires Shape()
      ensures p == Pick(win[..inflight], 0, now, retransmitMs)
    {
      for i := 0 to inflight
        invariant Pick(win[..inflight], 0, now, retransmitMs) == Pick(win[..inflight], i, now, retransmitMs)
      {
        if win[i].acked || win[i].txThisTurn { continue; }
        if !win[i].everSent || win[i].fastResend || Elapsed(now, win[i].sentAt) >= retransmitMs { return i; }
      }
      return inflight;
    }

    method AnotherWaits(except: nat) returns (more: bool)
      requires Shape()
      ensures more == MoreToSend(win[..inflight], except)
    {
      for i := 0 to inflight
        invariant forall k :: 0 <= k < i && k != except ==> win[k].acked || win[k].txThisTurn || win[k].everSent
      {
        if i == except { continue; }
        if !win[i].acked && !win[i].txThisTurn && !win[i].everSent {
          assert win[..inflight][i] == win[i];
          return true;
        }
      }
      return false;
    }

    /** Mark what a cumulative ack and a SACK bitmap cover. */
    method MarkCovered(ack: u8, sack: Sack)
      requires Shape() && TxValid(Tx())
      modifies win
      ensures Shape() && win[..inflight] == MarkAcked(old(Tx()), ack, sack)
    {
      ghost var t := Tx();
      var cum := Wrap8(ack - base);
      var n := if 0 < cum <= inflight then cum else 0;
      MarkBelow(n);
      for k := 0 to MAXWIN - 1
        invariant forall i :: 0 <= i < inflight ==>
          win[i] == t.win[i].(acked := t.win[i].acked || i < n || HitBelow(t.win[i].num, ack, sack, k))
      {
        if !sack[k] { continue; }
        MarkNumber(t, Wrap8(ack + 1 + k));
        forall i | 0 <= i < inflight
          ensures HitBelow(t.win[i].num, ack, sack, k + 1) ==
            (HitBelow(t.win[i].num, ack, sack, k) || t.win[i].num == Wrap8(ack + 1 + k))
        {
          HitNext(t.win[i].num, ack, k);
        }
      }
    }

    /** Mark the first n frames in flight. */
    method MarkBelow(n: nat)
      requires Shape() && n <= inflight
      modifies win
      ensures forall k :: 0 <= k < inflight ==> win[k] == old(win[k]).(acked := old(win[k]).acked || k < n)
    {
      for i := 0 to n
        invariant forall k :: 0 <= k < inflight ==> win[k] == old(win[k]).(acked := old(win[k]).acked || k < i)
      {
        win[i] := win[i].(acked := true);
      }
    }

    /** Mark the frame with this number, if it is in flight. */
    method MarkNumber(ghost t: TxHalf, s: u8)
      requires Shape() && TxValid(t) && |t.win| == inflight
      requires forall i :: 0 <= i < inflight ==> win[i].num == t.win[i].num
      modifies win
      ensures forall i :: 0 <= i < inflight ==> win[i] == old(win[i]).(acked := old(win[i]).acked || t.win[i].num == s)
    {
      for i := 0 to inflight
        invariant forall k :: 0 <= k < i ==> t.win[k].num != s
        invariant forall k :: 0 <= k < inflight ==> win[k] == old(win[k])
      {
        if win[i].num == s {
          win[i] := win[i].(acked := true);
          forall k | 0 <= k < inflight && k != i
            ensures t.win[k].num != s
          {
            if t.win[k].num == s { ArqTurn.DistinctNums(t.win, t.base, i, k); }
          }
          break;
        }
      }
    }

    /** Drop the acked front of the window, moving the rest down. */
    method SlideFront()
      requires TxShape()
      modifies this`inflight, this`base, win
      ensures TxShape()
      ensures var t := old(Tx()); var n := LeadingAcked(t.win);
        Tx() == t.(win := t.win[n..], base := Wrap8(t.base + n))
    {
      hide RingSeq, LeadingAcked;
      ghost var w := win[..inflight];
      var remove := CountFront();
      assert remove == 0 ==> w[remove..] == w;
      if remove > 0 {
        ShiftDown(remove);
        inflight := inflight - remove;
        base := Wrap8(base + remove);
      }
    }

    method CountFront() returns (n: nat)
      requires TxShape()
      ensures n == LeadingAcked(win[..inflight])
    {
      ghost var w := win[..inflight];
      n := 0;
      while n < inflight && win[n].acked
        invariant n <= inflight && forall i :: 0 <= i < n ==> w[i].acked
      {
        n := n + 1;
      }
      assert n < inflight ==> w[n] == win[n];
    }

    method ShiftDown(n: nat)
      requires TxShape() && 0 < n <= inflight
      modifies win
      ensures TxShape() && win[..inflight - n] == old(win[..inflight])[n..]
    {
      ghost var w := win[..inflight];
      for i := n to inflight
        invariant forall k :: 0 <= k < i - n ==> win[k] == w[n..][k]
        invariant forall k :: i - n <= k < inflight ==> win[k] == w[k]
      {
        assert win[i] == w[n..][i - n];
        win[i - n] := win[i];
      }
    }

    /** Flag every sent frame that a later acked one shows was skipped. */
    method FlagSkipped()
      requires TxShape()
      modifies win
      ensures TxShape() && Tx() == old(Tx()).(win := FlagGaps(old(Tx()).win))
    {
      hide RingSeq;
      ghost var w := win[..inflight];
      var ackedAfter := false;
      for i := inflight downto 0
        invariant TxShape()
        invariant forall k :: 0 <= k < i ==> win[k] == w[k]
        invariant forall k :: i <= k < inflight ==> win[k] == FlagGaps(w)[k]
        invariant ackedAfter == exists j :: i <= j < inflight && w[j].acked
      {
        assert ackedAfter == AckedAfter(w, i);
        if win[i].acked {
          ackedAfter := true;
        } else if ackedAfter && win[i].everSent {
          win[i] := win[i].(fastResend := true);
        }
      }
      assert win[..inflight] == FlagGaps(w);
    }

    /** Apply a cumulative ack and a SACK bitmap to the window. */
    method AckProcess(ack: u8, sack: Sack)
      requires Shape() && TxValid(Tx())
      modifies this`inflight, this`base, win
      ensures Shape() && TxValid(Tx()) && Tx() == TxAck(old(Tx()), ack, sack)
    {
      hide RingSeq, MarkAcked, LeadingAcked, FlagGaps, TxValid, SendQueue;
      ghost var t := Tx();
      AckKeepsShape(t, ack, sack);
      MarkCovered(ack, sack);
      assert Tx() == t.(win := MarkAcked(t, ack, sack));
      SlideFront();
      FlagSkipped();
    }

    // ---- frames out ----

    /** Save the counter once it is a stride past the last save. */
    method MaybePersist()
      modifies this`lastPersist, this`flash
      ensures var due := persists && txCtr - old(lastPersist) >= stride;
        lastPersist == (if due then txCtr else old(lastPersist)) && flash == (if due then txCtr else old(flash))
    {
      if persists && txCtr - lastPersist >= stride {
        lastPersist := txCtr;
        flash := txCtr;
      }
    }

    /** Squeeze and, on an encrypting link, seal a frame under the next counter. */
    method Assemble(cap: nat, f: Frame) returns (out: Option<Bytes>)
      requires ConfigValid(cfg) && f.ctrl % 16 == 0 && |f.payload| <= MAXPAY
      modifies this`txCtr, this`lastPersist, this`flash
      ensures out == Encode(cfg, cap, f, old(txCtr) + 1)
      ensures var c := Station.Counted(old(txCtr), old(lastPersist), stride, persists, old(flash));
        (txCtr, lastPersist, flash) == if out.Some? && Sealing(cfg) then c
          else (old(txCtr), old(lastPersist), old(flash))
    {
      hide Header, Nonce.BigEndian, Ascon.Seal, Ascon.Open, Nonce.BuildNonce, Squeeze, Inverse, Expand;
      SqueezeUndone(cfg, f.payload);
      var (p, comp) := Squeeze(cfg, f.payload);
      if Sealing(cfg) {
        if HDR + CTRW + |p| + cfg.tagLen > cap { return None; }
        txCtr := txCtr + 1;
        MaybePersist();
        var ad := Header(f, comp, true, |p|) + Nonce.BigEndian(txCtr, CTRW);
        var nonce := Nonce.BuildNonce(f.src, f.epoch, txCtr);
        Ascon.SealOpen(cfg.perm, cfg.key.value, nonce, ad, p, cfg.tagLen);
        var ct, tag := Ascon.Encrypt(cfg.perm, cfg.key.value, nonce, ad, p);
        out := Some(ad + ct + tag[..cfg.tagLen]);
      } else {
        if HDR + |p| > cap { return None; }
        out := Some(Header(f, comp, false, |p|) + p);
      }
    }

    /** Stamp a frame's header and put it on the air; None if it does not fit. */
    method EncodeFrame(cap: nat, data: bool, more: bool, num: u8, raw: Bytes) returns (out: Option<Bytes>)
      requires Shape() && ConfigValid(cfg) && txCtrl % 16 == 0 && |raw| <= MAXPAY
      modifies this`txCtr, this`lastPersist, this`flash
      ensures View() == old(View())
      ensures (Whole(), out) == Station.Emit(old(Whole()), cap, MakeFrame(old(View()), data, more, num, raw))
    {
      hide SendQueue, RecvQueue, RingSeq, SackOf, Encode, ConfigValid, Tx, TxShape;
      var sack := SackBitmap();
      var dst := if peer != 0 then peer else ADDR_BCAST;
      var f := Frame(addr, dst, data, more, txCtrl, num, rxNext, myEpoch, sack, txAux, raw);
      out := Assemble(cap, f);
    }

    /** A bare acknowledgement. */
    method MakePoll(cap: nat) returns (out: Option<Bytes>)
      requires Valid()
      modifies this`txCtr, this`lastPersist, this`flash
      ensures Valid() && (Whole(), out) == Station.Emit(old(Whole()), cap, Poll(old(View())))
    {
      hide SendQueue, RecvQueue, RingSeq, SackOf, TxValid, Station.Emit;
      out := EncodeFrame(cap, false, false, 0, []);
    }

    /** The next bytes of this turn, or None when it is done. */
    method NextTx(cap: nat, now: u32) returns (out: Option<Bytes>)
      requires Valid()
      modifies this`sTail, this`inflight, this`next, this`ackPending, this`ackSentTurn, win
      modifies this`txCtr, this`lastPersist, this`flash
      ensures Valid() && (Whole(), out) == Station.Transmit(old(Whole()), cap, now)
    {
      ValidStation();
      hide SendQueue, RecvQueue, RingSeq, SackOf, TxValid, Fill, Pick, MoreToSend, ConfigValid, LinkValid, Station.Emit,
        Arq.NextTx, Station.SendPicked, TxShape, RxShape, Rx;
      Station.NextTxShape(View(), now);
      Station.NextTxParts(View(), now);
      Refill();
      ghost var s := Whole();
      var p := PickFrame(now);
      assert Whole() == s;
      if p < inflight {
        out := SendFrame(cap, p, now);
      } else if !ackSentTurn && ackPending {
        out := SendAck(cap);
      } else {
        out := None;
      }
    }

    /** FillWindow, seen from the whole link. */
    method Refill()
      requires Valid()
      modifies this`sTail, this`inflight, this`next, win
      ensures Valid() && Whole() == old(Whole()).(link := old(View()).(tx := Fill(old(Tx()))))
    {
      hide RingSeq, SackOf, TxValid, Fill, Inverse;
      ghost var r := Rx();
      FillWindow();
      assert Rx() == r;
    }

    /** Send the lone acknowledgement that is owed. */
    method SendAck(cap: nat) returns (out: Option<Bytes>)
      requires Valid()
      modifies this`ackPending, this`ackSentTurn, this`txCtr, this`lastPersist, this`flash
      ensures Valid()
      ensures var l := old(View()).(ackSentTurn := true, ackPending := false);
        (Whole(), out) == Station.Emit(old(Whole()).(link := l), cap, Poll(l))
    {
      hide SendQueue, RecvQueue, RingSeq, SackOf, TxValid, Station.Emit, Inverse, Tx, Rx, TxShape, RxShape;
      OweNothing();
      ackSentTurn := true;
      out := EncodeFrame(cap, false, false, 0, []);
    }

    /** Any frame carries the acknowledgement. */
    method OweNothing()
      requires Valid()
      modifies this`ackPending
      ensures Valid() && View() == old(View()).(ackPending := false) && Whole() == old(Whole()).(link := View())
    {
      hide SendQueue, RecvQueue, RingSeq, TxValid, Inverse, Tx, Rx, TxShape, RxShape;
      ackPending := false;
    }

    /** Send the picked frame; it carries the acknowledgement that was owed. */
    method SendFrame(cap: nat, p: nat, now: u32) returns (out: Option<Bytes>)
      requires Valid() && p < inflight
      modifies this`ackPending, this`txCtr, this`lastPersist, this`flash, win
      ensures Valid() && |Station.SendPicked(old(View()), p, now).1.payload| <= MAXPAY
      ensures var (l, f) := Station.SendPicked(old(View()), p, now);
        (Whole(), out) == Station.Emit(old(Whole()).(link := l), cap, f)
    {
      hide SendQueue, RecvQueue, RingSeq, SackOf, TxValid, MoreToSend, Station.Emit, Inverse, Rx;
      var more := MarkPicked(p, now);
      OweNothing();
      out := EncodeFrame(cap, true, more, win[p].num, win[p].raw);
    }

    /** Mark the picked frame sent; tell whether a never-sent one still waits. */
    method MarkPicked(p: nat, now: u32) returns (more: bool)
      requires Valid() && p < inflight
      modifies win
      ensures Valid() && inflight == old(inflight) && |win[p].raw| <= MAXPAY
      ensures var f := Sent(old(win[p]), now);
        win[p] == f && View() == old(View()).(tx := old(Tx()).(win := old(Tx()).win[p := f]))
      ensures more == MoreToSend(Tx().win, p)
    {
      hide SendQueue, RecvQueue, RingSeq, TxValid, MoreToSend, Inverse;
      ghost var r := Rx();
      MarkSent(p, now);
      assert Rx() == r;
      more := AnotherWaits(p);
    }

    method MarkSent(p: nat, now: u32)
      requires TxShape() && TxValid(Tx()) && p < inflight
      modifies win
      ensures TxShape() && TxValid(Tx()) && |win[p].raw| <= MAXPAY
      ensures Tx() == old(Tx()).(win := old(Tx()).win[p := Sent(old(Tx()).win[p], now)])
    {
      hide RingSeq;
      win[p] := win[p].(txThisTurn := true, everSent := true, sentAt := now, fastResend := false);
    }

    // ---- frames in ----

    /** Judge a frame counter against the anti-replay window, and note it if it is taken. */
    method ReplayOk(ctr: nat) returns (ok: bool)
      modifies this`rxCtrInit, this`rxCtrMax, this`rxSeen
      ensures (Guard(), ok) == Replay.Check(old(Guard()), ctr)
    {
      if !rxCtrInit {
        rxCtrInit := true;
        rxCtrMax := ctr;
        rxSeen := Replay.NoBits()[0 := true];
        return true;
      }
      if ctr > rxCtrMax {
        var d := ctr - rxCtrMax;
        rxSeen := if d >= 64 then Replay.NoBits() else Replay.ShiftLeft(rxSeen, d);
        rxSeen := rxSeen[0 := true];
        rxCtrMax := ctr;
        return true;
      }
      var d := rxCtrMax - ctr;
      if d >= 64 { return false; }
      if rxSeen[d] { return false; }
      rxSeen := rxSeen[d := true];
      return true;
    }

    /** Authenticate, check for replay, expand. */
    method AeadOpen(b: Bytes, ctr: nat) returns (m: Option<Bytes>)
      requires ConfigValid(cfg) && |b| >= HDR && |b| >= HDR + CTRW + b[8] + cfg.tagLen
      requires ctr == Nonce.FromBigEndian(b[HDR..HDR + CTRW])
      modifies this`rxCtrInit, this`rxCtrMax, this`rxSeen
      ensures (Guard(), Reading(b, m, true)) == OpenSealed(cfg, old(Guard()), b)
    {
      hide HeaderFrame, FlagBit, Nonce.FromBigEndian, Nonce.BuildNonce, Ascon.Open, Replay.Check, Expand, Inverse;
      if cfg.key.None? { return None; }
      var off := HDR + CTRW;
      var plen := b[8];
      var ok, buf := Ascon.Decrypt(cfg.perm, cfg.key.value, Nonce.BuildNonce(b[0], b[5], ctr), b[..off],
                                   b[off..off + plen], b[off + plen..off + plen + cfg.tagLen]);
      HeaderBytes(b);
      if !ok { return None; }
      var isNew := ReplayOk(ctr);
      if !isNew { return None; }
      m := Expand(cfg, FlagBit(b[2], 2), buf);
    }

    /** Record the peer's epoch; a change starts both halves and the replay window over. */
    method NoteEpoch(epoch: u8)
      requires Shape() && TxValid(Tx())
      modifies this`peerEpoch, this`rxNext, this`next, this`base, this`inflight, this`ackPending, this`rxCtrInit
      modifies this`rxAux, this`peerReset, rx
      ensures Shape() && TxValid(Tx()) && View() == TrackEpoch(old(View()), epoch)
      ensures Guard() == if old(peerEpoch) != 0 && epoch != old(peerEpoch) then old(Guard()).(init := false)
        else old(Guard())
    {
      WindowCap(Tx());
      hide TxValid, EmptySlots, RingSeq;
      if peerEpoch == 0 {
        peerEpoch := epoch;
      } else if epoch != peerEpoch {
        PeerRestarted(epoch);
      }
    }

    method PeerRestarted(epoch: u8)
      requires Shape() && 1 <= window <= MAXWIN
      modifies this`peerEpoch, this`rxNext, this`next, this`base, this`inflight, this`ackPending, this`rxCtrInit
      modifies this`rxAux, this`peerReset, rx
      ensures Shape() && TxValid(Tx()) && Guard() == old(Guard()).(init := false)
      ensures var l := old(View());
        View() == l.(tx := l.tx.(win := [], base := 0, next := 0),
          rx := l.rx.(slots := EmptySlots(l.rx.slots), next := 0),
                     ackPending := false, rxAux := 0, peerEpoch := epoch, peerReset := true)
    {
      hide TxValid, EmptySlots, RingSeq;
      StartOver();
      NoteRestart(epoch);
    }

    method NoteRestart(epoch: u8)
      requires Shape()
      modifies this`peerEpoch, this`ackPending, this`rxCtrInit, this`rxAux, this`peerReset
      ensures Shape() && Guard() == old(Guard()).(init := false)
      ensures View() == old(View()).(ackPending := false, rxAux := 0, peerEpoch := epoch, peerReset := true)
    {
      hide RingSeq, SendQueue, RecvQueue, Tx, Rx, TxShape, RxShape;
      ForgetCounters();
      RecordEpoch(epoch);
      ackPending, rxAux := false, 0;
    }

    /** The peer's epoch and the edge that tells of the change. */
    method RecordEpoch(epoch: u8)
      requires Shape()
      modifies this`peerEpoch, this`peerReset
      ensures Shape() && View() == old(View()).(peerEpoch := epoch, peerReset := true)
    {
      hide RingSeq, SendQueue, RecvQueue, Tx, Rx, TxShape, RxShape;
      peerEpoch, peerReset := epoch, true;
    }

    /** The replay window starts over with the next counter. */
    method ForgetCounters()
      requires Shape()
      modifies this`rxCtrInit
      ensures Shape() && Guard() == old(Guard()).(init := false) && View() == old(View())
    {
      hide RingSeq, SendQueue, RecvQueue, Tx, Rx, TxShape, RxShape;
      rxCtrInit := false;
    }

    /** Forget everything in flight and everything held. */
    method StartOver()
      requires Shape() && 1 <= window <= MAXWIN
      modifies this`rxNext, this`next, this`base, this`inflight, rx
      ensures Shape() && TxValid(Tx())
      ensures Tx() == old(Tx()).(win := [], base := 0, next := 0)
      ensures Rx() == old(Rx()).(slots := EmptySlots(old(Rx()).slots), next := 0)
    {
      hide RingSeq;
      ghost var q := SendQueue();
      rxNext := 0;
      next, base := 0, 0;
      inflight := 0;
      ClearSlots();
      assert SendQueue() == q;
    }

    /** Buffer a data frame if it is in the window and new, then deliver what is in order. */
    method TakeData(num: u8, payload: Option<Bytes>)
      requires RxShape()
      modifies this`rHead, this`rxNext, this`gotData, this`ackPending, rBuf, rx
      ensures RxShape() && ackPending
      ensures Rx() == Taken(old(Rx()), num, payload)
      ensures gotData == (old(gotData) || Delivers(old(Rx()), num, payload))
    {
      hide RingSeq, Drain, CanDeliver;
      ghost var r := Rx();
      var d := Wrap8(num - rxNext);
      if d < MAXWIN {
        var slot := num % MAXWIN;
        if !rx[slot].received || rx[slot].num != num {
          if payload.Some? {
            rx[slot] := RxSlot(true, num, payload.value);
            assert Rx() == Store(r, num, payload.value);
          }
        }
        DrainInOrder();
      }
      ackPending := true;
    }

    /** Authenticate and decode received bytes. */
    method Admit(b: Bytes) returns (out: Outcome)
      requires ConfigValid(cfg) && |b| >= HDR
      modifies this`rxCtrInit, this`rxCtrMax, this`rxSeen
      ensures (Guard(), out) == Decode(cfg, old(Guard()), b)
    {
      hide HeaderFrame, FlagBit, Inverse, OpenSealed, Expand, Nonce.FromBigEndian;
      if cfg.encrypt && !FlagBit(b[2], 4) { return Rejected; }
      if FlagBit(b[2], 4) {
        if |b| < HDR + CTRW || HDR + CTRW + b[8] + cfg.tagLen > |b| {
          ShortSealed(cfg, Guard(), b);
          return Rejected;
        }
        var m := AeadOpen(b, Nonce.FromBigEndian(b[HDR..HDR + CTRW]));
        out := Reading(b, m, true);
      } else {
        var n := if HDR + b[8] > |b| then |b| - HDR else b[8];
        out := Reading(b, Expand(cfg, FlagBit(b[2], 2), b[HDR..HDR + n]), false);
      }
    }

    /** Act on an authenticated, decoded frame. */
    method Apply(f: Frame, readable: bool)
      requires Shape() && TxValid(Tx())
      modifies this`rxCtrl, this`rxAux, this`validRx, this`inflight, this`base, win
      modifies this`rHead, this`rxNext, this`gotData, this`ackPending, rBuf, rx
      ensures Shape() && TxValid(Tx())
      ensures View() == Station.ActOn(old(View()), Accepted(f, readable))
    {
      AcceptParts(View(), f);
      hide RingSeq, TxValid, TxAck, Taken, Delivers, Tx, Rx, Station.ActOn;
      NoteHeader(f);
      TakeAck(f.ack, f.sack);
      if f.data { TakeFrame(f.num, if readable then Some(f.payload) else None); }
    }

    method NoteHeader(f: Frame)
      requires Shape()
      modifies this`rxCtrl, this`rxAux, this`validRx
      ensures Shape() && View() == old(View()).(rxCtrl := f.ctrl, rxAux := f.aux, validRx := true)
      ensures Tx() == old(Tx())
    {
      hide RingSeq;
      rxCtrl := f.ctrl;
      rxAux := f.aux;
      validRx := true;
    }

    /** AckProcess, seen from the whole link. */
    method TakeAck(ack: u8, sack: Sack)
      requires Shape() && TxValid(Tx())
      modifies this`inflight, this`base, win
      ensures Shape() && TxValid(Tx()) && View() == old(View()).(tx := TxAck(old(Tx()), ack, sack))
    {
      hide SendQueue, RecvQueue, RingSeq, TxValid, TxAck;
      ghost var r := Rx();
      AckProcess(ack, sack);
      assert Rx() == r;
    }

    /** TakeData, seen from the whole link. */
    method TakeFrame(num: u8, payload: Option<Bytes>)
      requires Shape() && TxValid(Tx())
      modifies this`rHead, this`rxNext, this`gotData, this`ackPending, rBuf, rx
      ensures Shape() && TxValid(Tx())
      ensures var l := old(View());
        View() == l.(rx := Taken(l.rx, num, payload), ackPending := true,
          gotData := l.gotData || Delivers(l.rx, num, payload))
    {
      hide SendQueue, RecvQueue, RingSeq, TxValid, Taken, Delivers;
      ghost var t := Tx();
      TakeData(num, payload);
      assert Tx() == t;
    }

    /** Bytes arrive; the answer is whether they ended the peer's burst. */
    method OnRx(b: Bytes) returns (ended: bool)
      requires Valid()
      modifies this, win, rBuf, rx
      ensures Valid() && (Whole(), ended) == Station.Receive(old(Whole()), b)
    {
      hide RingSeq, TxValid, HeaderFrame, TrackEpoch, Station.TrackGuard, Inverse, Decode, Station.ActOn, ForMe, Tx, Rx;
      if |b| < HDR { return false; }
      var mine := IsMine(b);
      if !mine { return false; }
      ended := TakeIn(b);
    }

    /** The address filter. */
    method IsMine(b: Bytes) returns (mine: bool)
      requires Shape() && |b| >= HDR
      ensures mine == ForMe(View(), HeaderFrame(b))
    {
      hide RingSeq, HeaderFrame;
      HeaderBytes(b);
      if b[1] != addr && b[1] != ADDR_BCAST { return false; }
      if peer != 0 && b[0] != peer { return false; }
      return true;
    }

    /** Past the address filter: track the epoch, then authenticate, decode and act. */
    method TakeIn(b: Bytes) returns (ended: bool)
      requires Valid() && |b| >= HDR
      modifies this, win, rBuf, rx
      ensures Valid()
      ensures var s := old(Whole()); var (g, out) := Decode(s.cfg, Station.TrackGuard(s, b[5]), b);
        && Whole() == s.(link := Station.ActOn(TrackEpoch(s.link, b[5]), out), guard := g)
        && ended == (out.Accepted? && !out.frame.more)
    {
      hide SendQueue, RecvQueue, RingSeq, TxValid, TrackEpoch, Station.TrackGuard, Inverse, Decode, Station.ActOn, Tx,
        Rx;
      TrackEpochs(b[5]);
      var out := Judge(b);
      ended := Act(out);
    }

    /** Admit, seen from the whole link. */
    method Judge(b: Bytes) returns (out: Outcome)
      requires Valid() && |b| >= HDR
      modifies this`rxCtrInit, this`rxCtrMax, this`rxSeen
      ensures Valid() && View() == old(View())
      ensures var (g, o) := Decode(cfg, old(Guard()), b); out == o && Whole() == old(Whole()).(guard := g)
    {
      hide SendQueue, RecvQueue, RingSeq, TxValid, Inverse, Decode;
      out := Admit(b);
    }

    /** NoteEpoch, seen from the whole link. */
    method TrackEpochs(epoch: u8)
      requires Valid()
      modifies this`peerEpoch, this`rxNext, this`next, this`base, this`inflight, this`ackPending, this`rxCtrInit
      modifies this`rxAux, this`peerReset, rx
      ensures Valid()
      ensures Whole() == old(Whole()).(link := TrackEpoch(old(View()), epoch),
        guard := Station.TrackGuard(old(Whole()), epoch))
    {
      hide SendQueue, RecvQueue, RingSeq, TxValid, TrackEpoch, Inverse;
      NoteEpoch(epoch);
    }

    /** Act on what the bytes turned out to be. */
    method Act(out: Outcome) returns (ended: bool)
      requires Valid()
      modifies this`rxCtrl, this`rxAux, this`validRx, this`inflight, this`base, win
      modifies this`rHead, this`rxNext, this`gotData, this`ackPending, rBuf, rx
      ensures Valid() && Whole() == old(Whole()).(link := Station.ActOn(old(View()), out))
      ensures ended == (out.Accepted? && !out.frame.more)
    {
      hide SendQueue, RecvQueue, RingSeq, TxValid, Inverse, Accept, AcceptUnread, Tx, Rx, TxShape, RxShape;
      if out.Rejected? { return false; }
      Apply(out.frame, out.readable);
      ended := !out.frame.more;
    }
  }

  function ClampTag(n: nat): nat { if n == 0 || n > 16 then 8 else n }

  /** A link as initialised. The unread edges and the slot storage are as they were. */
  ghost function InitialLink(n: nat, a: u8, p: u8, w: u8, ms: u32, epoch: u8, slots: seq<RxSlot>, reset: bool,
      valid: bool): Link
    requires n > 0
  {
    Link(a, p, n - 1, TxHalf(ClampWindow(w), ms, [], [], 0, 0), RxHalf(n - 1, [], EmptySlots(slots), 0),
         false, false, false, if epoch != 0 then epoch else 1, 0, reset, valid, 0, 0, 0, 0)
  }

  /** It is where a session's runs start from. */
  lemma InitialFresh(n: nat, a: u8, p: u8, w: u8, ms: u32, epoch: u8, slots: seq<RxSlot>, reset: bool, valid: bool)
    requires n > 0 && |slots| == MAXWIN
    ensures ArqSystem.Fresh(InitialLink(n, a, p, w, ms, epoch, slots, reset, valid))
    ensures TxValid(InitialLink(n, a, p, w, ms, epoch, slots, reset, valid).tx)
  {
  }

  /** The outcome of reading bytes as a payload; a sealed frame without one is rejected. */
  function Reading(b: Bytes, m: Option<Bytes>, secure: bool): Outcome
    requires |b| >= HDR
  {
    if m.Some? then Accepted(HeaderFrame(b).(payload := m.value), true)
    else if secure then Rejected
    else Accepted(HeaderFrame(b), false)
  }

  lemma HeaderBytes(b: Bytes)
    requires |b| >= HDR
    ensures var h := HeaderFrame(b); h.src == b[0] && h.dst == b[1] && h.epoch == b[5]
  {
  }

  lemma ShortSealed(c: Wire.Config, g: Replay.Guard, b: Bytes)
    requires ConfigValid(c) && |b| >= HDR && (|b| < HDR + CTRW || HDR + CTRW + b[8] + c.tagLen > |b|)
    ensures OpenSealed(c, g, b) == (g, Rejected)
  {
  }

  /** What becomes of the receive half when a data frame, readable or not, arrives. */
  function Taken(r: RxHalf, num: u8, payload: Option<Bytes>): RxHalf
    requires |r.slots| == MAXWIN
  {
    if Wrap8(num - r.next) >= MAXWIN then r else if payload.Some? then Drain(Store(r, num, payload.value)) else Drain(r)
  }

  lemma AcceptParts(l: Link, f: Frame)
    requires |l.rx.slots| == MAXWIN
    ensures
      var l1 := l.(rxCtrl := f.ctrl, rxAux := f.aux, validRx := true, tx := TxAck(l.tx, f.ack, f.sack));
      forall readable: bool ::
        var p := if readable then Some(f.payload) else None;
        Station.ActOn(l, Accepted(f, readable)) ==
          if f.data then l1.(rx := Taken(l.rx, f.num, p), ackPending := true,
            gotData := l.gotData || Delivers(l.rx, f.num, p)) else l1
  {
    hide TxAck, Drain, CanDeliver, Store;
  }

  predicate Delivers(r: RxHalf, num: u8, payload: Option<Bytes>)
    requires |r.slots| == MAXWIN
  {
    Wrap8(num - r.next) < MAXWIN && CanDeliver(if payload.Some? then Store(r, num, payload.value) else r)
  }

  /** Acknowledging keeps the numbering of the window. */
  lemma AckKeepsShape(t: TxHalf, ack: u8, sack: Sack)
    requires TxValid(t)
    ensures TxValid(TxAck(t, ack, sack))
  {
    hide TxAck, ArqSafety.Released;
    ArqSafety.AckSlides(t, ack, sack);
    ArqSafety.SlideWindow(t.win, t.base, ArqSafety.Released(t, ack, sack), TxAck(t, ack, sack).win);
  }

  lemma WindowCap(t: TxHalf)
    requires TxValid(t)
    ensures 1 <= t.window <= MAXWIN
  {
  }

  /** The bitmap's bits below k name this number. */
  predicate HitBelow(s: u8, ack: u8, sack: Sack, k: nat)
    requires k < MAXWIN
  {
    var d := Wrap8(s - ack - 1);
    d < k && sack[d]
  }

  lemma HitNext(s: u8, ack: u8, k: nat)
    requires k < MAXWIN
    ensures Wrap8(s - ack - 1) == k <==> s == Wrap8(ack + 1 + k)
  {
  }
}
