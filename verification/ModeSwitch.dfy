/**
 * The make-before-break PHY mode switch of one end: the handshake state as a value, the effect of
 * each call on it, and the class whose methods update it in place.
 */
module ModeSwitching {
  import opened Base

  /** Mode indices fit three bits with 0 kept for "no control", so 0..6 can be asked for. */
  const MODES: nat := 7

  /** Handshake state; -1 means "none" in target, armed, apply and owe. */
  datatype Ms = Ms(current: int, prev: int, target: int, armed: int, apply: int, owe: int,
                   probation: bool, start: nat, probationMs: nat)

  // ---- the control nibble ----

  function CtrlEncode(mode: int, ack: bool): u8 {
    if mode < 0 then 0 else ((mode + 1) % 8) * 32 + (if ack then 16 else 0)
  }

  predicate CtrlPresent(nib: u8) { nib / 32 != 0 }

  function CtrlModeIdx(nib: u8): int { if CtrlPresent(nib) then nib / 32 - 1 else -1 }

  predicate CtrlIsAck(nib: u8) { (nib / 16) % 2 == 1 }

  /** A nibble carries its mode and kind exactly when the mode fits; index 7 would vanish, 8 read as 0. */
  lemma CtrlRoundTrip(mode: nat, ack: bool)
    ensures CtrlIsAck(CtrlEncode(mode, ack)) == ack
    ensures CtrlPresent(CtrlEncode(mode, ack)) && CtrlModeIdx(CtrlEncode(mode, ack)) == mode <==> mode < MODES
    ensures CtrlEncode(mode, ack) % 16 == 0
  {
  }

  // ---- one call at a time ----

  predicate Busy(s: Ms) { s.target >= 0 || s.armed >= 0 || s.apply >= 0 || s.probation }

  function Begin(s: Ms, mode: int): Ms {
    Ms(mode, mode, -1, -1, -1, -1, false, 0, s.probationMs)
  }

  function Request(s: Ms, mode: int): Ms {
    if mode == s.current || Busy(s) then s else s.(target := mode)
  }

  function Abort(s: Ms): Ms { s.(target := -1, armed := -1, owe := -1) }

  function TxCtrl(s: Ms): u8 {
    if s.owe >= 0 then CtrlEncode(s.owe, true)
    else if s.target >= 0 then CtrlEncode(s.target, false)
    else 0
  }

  function AfterRecv(s: Ms, rx: u8, initiator: bool): Ms {
    var s1 := s.(probation := false);
    var m := CtrlModeIdx(rx);
    if !CtrlPresent(rx) then s1
    else if initiator then
      if CtrlIsAck(rx) && m == s.target then s1.(apply := m, target := -1) else s1
    else
      if !CtrlIsAck(rx) && m != s.current && s.armed < 0 then s1.(owe := m, armed := m) else s1
  }

  function AfterSend(s: Ms): Ms {
    if s.armed >= 0 then s.(apply := s.armed, armed := -1, owe := -1) else s
  }

  function Poll(s: Ms, now: nat): Ms {
    if s.probation && now - s.start >= s.probationMs then s.(probation := false, apply := s.prev) else s
  }

  /** Apply the due change: the old mode becomes the one to fall back to, and probation starts. */
  function Apply(s: Ms, now: nat): Ms
    requires s.apply >= 0
  {
    var s1 := if s.apply != s.current then s.(prev := s.current, current := s.apply) else s;
    s1.(apply := -1, probation := true, start := now)
  }

  /** Apply whatever is due; one application leaves nothing due. */
  function Service(s: Ms, now: nat): Ms { if s.apply >= 0 then Apply(s, now) else s }

  /** The same handshake as the object the firmware holds. */
  class ModeSwitch {
    var probationMs: nat
    var current: int
    var prev: int
    var target: int
    var armed: int
    var apply: int
    var owe: int
    var probation: bool
    var start: nat

    function View(): Ms
      reads this
    {
      Ms(current, prev, target, armed, apply, owe, probation, start, probationMs)
    }

    constructor (mode: int)
      ensures View() == Begin(View(), mode) && probationMs == 4000
    {
      probationMs := 4000;
      current, prev := mode, mode;
      target, armed, apply, owe := -1, -1, -1, -1;
      probation, start := false, 0;
    }

    method Restart(mode: int)
      modifies this
      ensures View() == Begin(old(View()), mode)
    {
      current, prev := mode, mode;
      target, armed, apply, owe := -1, -1, -1, -1;
      probation, start := false, 0;
    }

    method Ask(mode: int)
      modifies this`target
      ensures View() == Request(old(View()), mode)
    {
      if mode == current || target >= 0 || armed >= 0 || apply >= 0 || probation { return; }
      target := mode;
    }

    method GiveUp()
      modifies this`target, this`armed, this`owe
      ensures View() == Abort(old(View()))
    {
      target, armed, owe := -1, -1, -1;
    }

    method Ctrl() returns (nib: u8)
      ensures nib == TxCtrl(View())
    {
      if owe >= 0 { return CtrlEncode(owe, true); }
      if target >= 0 { return CtrlEncode(target, false); }
      return 0;
    }

    method Received(rx: u8, initiator: bool)
      modifies this
      ensures View() == AfterRecv(old(View()), rx, initiator)
    {
      probation := false;
      if !CtrlPresent(rx) { return; }
      var m := CtrlModeIdx(rx);
      var ack := CtrlIsAck(rx);
      if initiator {
        if ack && m == target {
          apply := m;
          target := -1;
        }
      } else {
        if !ack && m != current && armed < 0 {
          owe := m;
          armed := m;
        }
      }
    }

    method SentTurn()
      modifies this
      ensures View() == AfterSend(old(View()))
    {
      if armed >= 0 {
        apply := armed;
        armed := -1;
        owe := -1;
      }
    }

    method Tick(now: nat)
      modifies this
      ensures View() == Poll(old(View()), now)
    {
      if probation && now - start >= probationMs {
        probation := false;
        apply := prev;
      }
    }

    method TakeApply(now: nat) returns (due: bool, mode: int)
      modifies this
      ensures due == (old(apply) >= 0)
      ensures due ==> mode == old(apply)
      ensures View() == Service(old(View()), now)
    {
      if apply < 0 { return false, -1; }
      mode := apply;
      apply := -1;
      if mode != current {
        prev := current;
        current := mode;
      }
      probation := true;
      start := now;
      due := true;
    }

    /** The firmware's loop: hand every due change to the radio, in order. */
    method ServiceAll(now: nat) returns (applied: seq<int>)
      modifies this
      ensures View() == Service(old(View()), now)
      ensures applied == if old(apply) >= 0 then [old(apply)] else []
    {
      applied := [];
      var due, mode := TakeApply(now);
      while due
        invariant View() == Service(old(View()), now)
        invariant due ==> applied == [] && old(apply) >= 0 && mode == old(apply)
        invariant !due ==> applied == if old(apply) >= 0 then [old(apply)] else []
        decreases due
      {
        applied := applied + [mode];
        due, mode := TakeApply(now);
      }
    }
  }
}
