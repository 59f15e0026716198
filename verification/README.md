# Verified model of the LoRa link protocol

A Dafny model of the portable link protocol of the serial-over-LoRa bridge, as a two-ended
system: the Selective-Repeat ARQ of `LinkLayer`, the make-before-break mode switch with the
firmware's dead-link rendezvous, the authenticated frame format with its crash-safe counter and
replay window, the two ring buffers, and the rate and power controllers with their closed loop.

Run `dafny verify dfyconfig.toml` in this directory.

## How it is built

Code that changes state in place is a class or a loop here too. Each such method is proved equal
to a function on values, and the protocol theorems are about runs of those functions.

- `Arq.dfy` says what each operation does to one end as a value. `ArqSafety.dfy` relates the two
  ends by unbounded frame numbers that the 8-bit ones stand for: the history of frames, the
  number released and the number delivered. `ArqSystem.dfy` has the runs: two ends and a channel
  that may lose, duplicate and reorder anything ever sent, up to the staleness the 8-bit numbers
  can bear (239 frames behind for acks, 240 for data; both are shown exact). `ArqTurn.dfy` is
  about one transmit turn and what a listener takes in of it, `ArqTurnLength.dfy` about how long a
  turn can be, `ArqTimer.dfy` about when a frame is sent again, `ArqEdges.dfy` about what is owed and
  marked on hearing a frame, `ArqProgress.dfy` about rounds of turns, `ArqFinish.dfy` about there
  being no dead ends. `ArqSession.dfy` is about resets, `ArqTrip.dfy` and `ArqDeaf.dfy` about what goes
  wrong after some of them, `ArqProper.dfy` about what every end keeps, and `ArqResync.dfy` puts these
  together. `ArqAhead.dfy` is one run that shows why the invariant is what it is.
- `Wire.dfy`, `Ascon.dfy`, `Replay.dfy` and `Nonce.dfy` are the envelope. `AsconAuth.dfy` says what a tag
  depends on: a second description of sealing as one sponge over blocks, and permutations that tell any
  two inputs apart. `Station.dfy` puts one
  end together down to its bytes and shows that bytes do to the peer what the frame does, and
  `StationSystem.dfy` that every run over bytes is a run over frames, in which a replay the
  window drops is one more loss; `StationReplay.dfy` is about replays over whole runs,
  `StationHeader.dfy` about the control nibble and telemetry byte on their way, `StationCounter.dfy` about
  what uses up the frame counter.
  `LinkLayer.dfy` is the class itself: window and slot arrays, two circular byte buffers, counters
  and flags, every method against `Station.dfy`. `Modem.dfy` is the turn composition on top of it, and `ModemProgress.dfy` carries
  the round counts down to it.
- `ModeSwitch.dfy` is the handshake engine, `ModeSwitchSystem.dfy` two of them over a channel that
  is deaf between different modes, in the round order of test/test_link/test_link.cpp:651-677.
  `Rendezvous.dfy` adds restarts and the firmware's rendezvous.
- `FrameRing.dfy` is the single-producer single-consumer ring as interleaved loads, byte copies
  and publishes. `ByteRing.dfy` is the byte ring with its two retention policies.
- `Adr.dfy` and `AdrRuns.dfy` are the rate controller and its runs, `AdrLoss.dfy` is about lasting
  loss, `AdrSwitch.dfy` about switches in flight, cooldowns and GFSK, `AdrPenalty.dfy` about what a
  second fallback does to the first one's promise, `AutoPower.dfy` the power loop
  alone and coupled with the rate controller.
- `Base.dfy` and `Bits.dfy` hold 8-bit wrap-around, byte strings and bit operations.

## Where the code and its documentation differ

The model follows the code.

- The send window can pass the peer's next expected frame (lib/linklayer/linklayer.h:641-730), so
  "released means delivered" is not the invariant; "released means delivered or held" is.
- F_MORE clear does not mean the burst is over for the sender: pending resends are not counted
  (lib/linklayer/linklayer.h:679-686), but the listener stops there (lib/linklayer/modem.h:126-131).
  `ArqTurn.LastUnlessResend` says when more follows and `ArqTurn.WholeBurstHeard` when all of a burst
  is heard. So a window of timed-out frames moves one frame a round (`ArqProgress.StaleBurstHeardOnce`).
- A restarted end is documented to resynchronise with its peer whatever that was doing
  (lib/linklayer/linklayer.h:190-196). If it still has an older epoch of the peer on record, as after
  NewSession when the peer has restarted too, the peer's first frame resets its numbering once more and a
  later byte is lost without a sign (`ArqTrip.MistakenEndLosesByte`). If the epoch it takes is one the peer
  has on record already, the peer notices nothing: the firmware draws it at random
  (src/fw_host.cpp:228-229), and NewSession comes round after 255 of them. Then bytes are lost the same
  way (`ArqTrip.RepeatedEpochLosesByte`), or one end is deaf to the other for good
  (`ArqDeaf.DeafForever`), unless the peer is by chance where a new session begins.
  `ArqResync.ResyncsIff` is the exact condition, for every state of the peer; a peer that has sent and
  never heard anything meets it as long as the restarted end has no other epoch of it on record. Frames of the peer's past that arrive first do harm exactly as
  `ArqSession.OldFrameKeepsIff` says.
- Each frame counter is documented to be accepted exactly once (docs/SECURITY.md:23-25). The replay
  window starts over whenever the header names another epoch, and that is read before the frame is
  authenticated (lib/linklayer/linklayer.h:434-447): `StationReplay.RefusedIff` says that once is for as
  long as no other epoch is heard, and no longer, and `StationReplay.HeaderReopens` is the witness.
- A turn can put one frame more than the window cap on the air, when the clock is read at each call;
  `ArqTurnLength.ExceedsWindowIff` says when.
- The initiator's idle gap is documented as capped (lib/linklayer/modem.h:59-60); doubling can pass
  the cap once. `Modem.GapCappedIff` says for which caps it cannot, `Modem.GapBelowTwiceCap` is the
  bound that always holds. Under a cap of more than 3355443200 the 32-bit doubling wraps and ends at no
  wait at all (`Modem.GapWrapsToNone`).
- A fallback's penalty is documented to keep the failed mode off-limits until it elapses
  (lib/linklayer/adr.h:211-222). A later fallback replaces it; `AdrPenalty.FailedModeReturnsIff` says
  exactly when the mode can come back.
- With manual-only presets, a penalty can send the controller back and forth between two modes until it
  expires; `AdrRuns.SeesawRequests` counts the requests and `AdrRuns.RequestsBounded` bounds them.
- With no preset that may be chosen automatically the controller asks for mode -1 at every evaluation
  (`AdrRuns.NoAutoNeverStops`).
- The rendezvous comment promises that a deaf pinned GFSK link always recovers (src/fw_device.cpp:605-611).
  It does if the other end can leave its mode too; `Rendezvous.StrandedMeetIff` is the exact condition.
- Climb evaluations need not be consecutive: an evaluation at high loss that has no slower mode to
  go to leaves the count alone (lib/linklayer/adr.cpp:88-92). The streak skips such evaluations.
- `PickBySnr` is documented to fall back to the most robust LoRa preset (lib/linklayer/adr.h:118-127);
  the code falls back to the most robust one that is eligible.
- The power step can end one dB outside its limits (lib/linklayer/autopower.h:98-103), exactly
  when `AutoPower.LeavesLimits` says.
- The firmware's rendezvous checks before the turn, keeps its silence clock running and limits its
  rate; the step in test/test_link/test_link.cpp checks after the turn and resets the clock. The model is the firmware's.

## Model

| member | source | states |
|---|---|---|
| Arq.Pick | lib/linklayer/linklayer.h:369-379 | the frame chosen is the first unacked one not yet sent this turn that is new, flagged or timed out; every earlier one is not eligible |
| Arq.LeadingAcked | lib/linklayer/linklayer.h:713-714 | the number of frames slid out is exactly the length of the acked front |
| ArqTurn.DrainSlots | lib/linklayer/linklayer.h:641-653 | draining stops only when the next frame is missing or does not fit whole, and never overfills the ring |
| ArqSafety.DrainKeeps | lib/linklayer/linklayer.h:641-653 | draining loses nothing the receiver had, keeps every other held frame in its slot, and what is read plus what is in the ring stays the concatenation of the delivered frames, backpressure or not |
| ArqSafety.SackOfExact | lib/linklayer/linklayer.h:662-671 | a SACK bit is set if and only if the frame it names has reached the receiver |
| ArqSafety.CumExact | lib/linklayer/linklayer.h:700-703 | a cumulative ack no more than 239 behind covers exactly the frames below it |
| ArqSafety.StaleAckIgnored | lib/linklayer/linklayer.h:700-703 | for acks of any age: an old ack acknowledges nothing if and only if it is a whole number of wraps behind or the rest of the wrap exceeds the window; so against a full window 239 is the exact bound |
| ArqSafety.SackSound | lib/linklayer/linklayer.h:704-711 | a SACK bit of an ack no more than 239 behind only ever marks a frame that has reached the receiver |
| ArqSafety.OldFrameRejected | lib/linklayer/linklayer.h:489-507 | for data frames of any age: the 8-bit window test turns an old frame away if and only if its distance behind, modulo 256, is 1 to 240 |
| ArqSafety.StoreKeeps | lib/linklayer/linklayer.h:491-503 | storing a genuine data frame no more than 240 behind fills its own slot or changes nothing, and never overwrites another undelivered frame |
| ArqAhead.WindowRunsAhead | lib/linklayer/linklayer.h:641-730 | from the start, in nine steps: a frame SACKed early and held back by a full ring is released with the frame before it, so the window base passes delivery |
| ArqSafety.BaseCanPassDelivery | lib/linklayer/linklayer.h:641-730 | in any joint state with such a frame next to the front, the ack for the front releases both |
| ArqSafety.WindowBounds | lib/linklayer/linklayer.h:698-730 | the window base never passes the peer's next expected frame by more than 16, and everything in between is held in its slot |
| ArqSafety.TxAckKeeps | lib/linklayer/linklayer.h:698-730 | processing a genuine ack releases only frames the receiver has and keeps the window consecutive and its bytes in step with the history |
| ArqSafety.RxDataKeeps | lib/linklayer/linklayer.h:488-510 | accepting a genuine data frame keeps the receive half in step with what the sender framed |
| ArqSafety.RxReadKeeps | lib/linklayer/linklayer.h:182-188 | an application read hands over the oldest delivered bytes and delivers what backpressure held, losing nothing |
| ArqSafety.FillKeeps | lib/linklayer/linklayer.h:358-368 | framing neither loses nor reorders bytes: the history grows by exactly the pieces taken from the queue |
| ArqSafety.DeliveredIsPrefix | lib/linklayer/linklayer.h:357-513 | in every joint state, what the receiver has delivered is a prefix of what the sender accepted |
| ArqSystem.StepKeeps | lib/linklayer/linklayer.h:149-513 | every operation at either end keeps the joint invariant of both directions, whatever the channel does within the wrap bound |
| ArqSystem.ByteExactStream | lib/linklayer/linklayer.h:357-513 | in every run of one session, under any loss, duplication and reordering within the wrap bound, what each application has read is a prefix of what the other wrote |
| ArqSystem.NothingReleasedUnsafely | lib/linklayer/linklayer.h:641-730 | in every reachable state each released frame is delivered or held in its slot, the base is at most 16 past delivery, and accepted bytes are exactly released, then in flight, then queued |
| ArqSystem.PromptPacketInTime | lib/linklayer/linklayer.h:423-513 | a packet heard before its sender's next call is within the wrap bounds |
| ArqSystem.LatePacketInTime | lib/linklayer/linklayer.h:423-513 | in any run, a packet is within the wrap bounds as long as its sender has framed at most 224 frames and the other end at most 207 since it was sent |
| ArqTurn.NextTxDecreases | lib/linklayer/linklayer.h:357-399 | every frame a turn emits uses up queued bytes, an unsent window position, or the one lone ack: a turn ends |
| ArqTurn.EachAtMostOnce | lib/linklayer/linklayer.h:339-399 | no data frame is emitted twice in a turn, and each is a window frame not yet sent in it |
| ArqTurn.TurnAtMostWindow | lib/linklayer/linklayer.h:339-399 | a turn emits at most 17 frames, and at most 16 when its first two clock readings agree |
| ArqTurn.UrgentEmitted | lib/linklayer/linklayer.h:371-379 | an unacked frame that is new or flagged goes out this turn whatever the clock says |
| ArqTurn.DueEmitted | lib/linklayer/linklayer.h:369-379 | a frame that is due at every reading of a turn goes out in it, whatever else does |
| ArqTimer.ResentWhen | lib/linklayer/linklayer.h:369-385 | over every run after the emission of a frame at t0, not emitted since and still unacked: a turn read before t0 plus the timer emits it if and only if an ack since covered a later frame and not this one, and a turn read at or after that does emit it |
| ArqTimer.NotSentEarly | lib/linklayer/linklayer.h:369-385 | with no such ack, no single call before t0 plus the timer emits it, even part-way through a turn |
| ArqTimer.ElapsedIsTime | lib/linklayer/linklayer.h:369-373 | elapsed time on the 32-bit clock is real time for less than 2^32 ms, whether or not the clock wraps in between |
| ArqTimer.TimingIsLastSet | lib/linklayer/linklayer.h:149-154 | in every run the timer and the window cap in force are the last ones set |
| ArqTurn.TurnEndsClear | lib/linklayer/linklayer.h:679-686 | the last frame of a turn has F_MORE clear, so a listener that hears it stops waiting |
| ArqEdges.TurnAcknowledges | lib/linklayer/linklayer.h:339-399 | every frame of a turn carries the receiver's next number and bitmap, and a turn of an end that owes an ack is not empty and owes none afterwards |
| ArqEdges.DataIsAnswered | lib/linklayer/linklayer.h:488-511 | so the turn after any data frame that is for this end, fresh, held or outside the window, readable or not, acknowledges it as far as it was taken |
| ArqEdges.AckTwice | lib/linklayer/linklayer.h:698-730 | the same ack heard twice in a row is heard once |
| ArqEdges.UnreadableThenReadable | lib/linklayer/linklayer.h:484-510 | with nothing deliverable held back, a frame whose payload cannot be read is heard like one that can, acks and all, but for the storing; heard again and read, both halves are where the readable frame alone leaves them |
| ArqEdges.DeliveryEdge | lib/linklayer/linklayer.h:641-653 | the delivery mark rises exactly when a step of a run delivers a frame |
| ArqEdges.HearingEdges | lib/linklayer/linklayer.h:434-482 | hearing marks a valid frame exactly for one that is for this end, and a reset exactly for another epoch of a known peer |
| ArqEdges.RestartForgets | lib/linklayer/linklayer.h:434-447 | a changed epoch leaves nothing of the old session: windows, slots, owed ack and telemetry; queued and delivered bytes stay |
| ArqEdges.NewSessionSilent | lib/linklayer/linklayer.h:197-206 | a new session has nothing to say until something is written or heard |
| ArqEdges.WriteFills | lib/linklayer/linklayer.h:166-170 | a write takes a prefix of what is offered: all of it, or up to a full ring |
| ArqEdges.StrangersIgnored | lib/linklayer/linklayer.h:423-433 | a frame for another address or from another sender changes nothing |
| ArqEdges.PeerAlone | lib/linklayer/linklayer.h:768-778 | with a peer set, what is sent is heard by no other address, and carries this end's own |
| ArqTurn.GapResentNextTurn | lib/linklayer/linklayer.h:721-729 | a sent, unacked frame with a later frame acked is emitted in the very next turn, whatever the timer and the clock |
| ArqTurn.MoreMeansMore | lib/linklayer/linklayer.h:679-686 | a frame with F_MORE is followed by a data frame at the next call of the turn |
| ArqTurn.LastUnlessResend | lib/linklayer/linklayer.h:679-686 | F_MORE clear is not a promise: another data frame follows if and only if a frame sent before is due again |
| ArqTurn.WholeBurstHeard | lib/linklayer/modem.h:126-131 | a listener that stops at F_MORE clear takes in a whole burst, under a clock on which each frame is steadily due or not, if and only if a never-sent frame goes out in it or at most one frame is due |
| ArqTurnLength.OverlongOpensWithAck | lib/linklayer/linklayer.h:339-399 | for any clock: a turn exceeds the window cap only by one frame, and only if its first frame is the lone ack |
| ArqTurnLength.ExceedsWindowIff | lib/linklayer/linklayer.h:339-399 | on a clock that does not wrap what is due into not due: a turn exceeds the cap if and only if an ack is owed, sixteen frames are in flight, none is due at the first reading, and by the k-th reading after it k are, for k up to sixteen |
| ArqTurnLength.SeventeenFrames | lib/linklayer/modem.h:135-137 | the responder's loop, which reads the clock at each call, reaches seventeen |
| ArqProgress.RunTidy | lib/linklayer/linklayer.h:641-730 | every run keeps each window in sending order with its front unacked, and nothing deliverable held back |
| ArqProgress.BurstReaches | lib/linklayer/modem.h:89-91 | a burst with a never-sent frame in it and expired timers is heard to its end: nothing framed is missing at the peer |
| ArqProgress.FreshExchange | lib/linklayer/modem.h:122-131 | and everything framed is delivered, because the peer's ring was drained |
| ArqProgress.StaleExchange | lib/linklayer/modem.h:122-131 | of a burst of nothing but resends the listener takes in the front of the window and no more, and that frame is delivered |
| ArqProgress.StaleBurstHeardOnce | lib/linklayer/modem.h:126-131 | a window of n due resends the peer has none of: two or more frames go out, one is heard, and its ack leaves n - 1 |
| ArqProgress.ExchangeAcks | lib/linklayer/linklayer.h:698-730 | the other end's burst or poll releases everything it had delivered, whatever of it is heard after the first frame |
| ArqProgress.FreshRoundEmptiesWindow | lib/linklayer/modem.h:81-142 | a round in which a never-sent frame goes out empties the window, and the peer's application reads everything framed |
| ArqProgress.StaleRoundShrinksWindow | lib/linklayer/modem.h:81-142 | any other round takes at least one frame off the window |
| ArqProgress.RoundsEmptyWindow | lib/linklayer/modem.h:81-142 | the rounds that empty a window: one if a never-sent frame goes out in it; else one for every frame, or, with bytes queued, as many as it takes to make room for a new one, and the next |
| ArqProgress.ReachableCanRound | lib/linklayer/linklayer.h:149-513 | of a state reached by any run from the start, a round asks only a drained ring with room for a window, matching addresses and expired timers |
| ArqProgress.FillTakes | lib/linklayer/linklayer.h:358-368 | an emptied window takes window times 221 bytes, or all there are, from the queue |
| ArqProgress.EverythingDelivered | lib/linklayer/modem.h:81-142 | after those rounds, ceil(q / (window * 221)) more, on any clocks, deliver every accepted byte to the peer's application, where q is what is still queued by then |
| ModemProgress.StaleBytesHeardOnce | lib/linklayer/modem.h:126-131 | over bytes: of a burst of due resends the listener takes in the first bytes and is told that the burst is over |
| ModemProgress.TurnOverBytes | lib/linklayer/modem.h:89-104 | a turn in bytes, heard by a listener, is the exchange of the frame level, in either direction |
| ModemProgress.RoundsOverBytes | lib/linklayer/modem.h:81-142 | any number of rounds between two stations are those of the frame level |
| ModemProgress.EverythingDeliveredOverBytes | lib/linklayer/modem.h:81-142 | so two stations taking turns deliver everything in that many rounds |
| ArqSession.NewSessionRestarts | lib/linklayer/linklayer.h:197-206 | a new session empties both halves and takes a different, non-zero epoch, from any state |
| ArqSession.NoticedInv | lib/linklayer/linklayer.h:434-447 | for every state of the peer: once it notices the new epoch, the joint invariant of a fresh session holds if and only if the restarted end has no other epoch of its peer on record, and the peer, having noticed, expects frame 0, holds nothing, and has a window that starts at 0 with nothing acknowledged |
| ArqSession.OtherEpochInSync | lib/linklayer/linklayer.h:434-447 | a peer that knew another epoch meets all of that by starting over, so that only what the restarted end knows of it matters |
| ArqSession.SilentPeerInSync | lib/linklayer/linklayer.h:434-447 | so it does for a peer that has heard nothing yet, whatever it has sent of its first window |
| ArqSession.HarmlessIff | lib/linklayer/linklayer.h:484-511 | a frame of the peer's past leaves both halves of the restarted end alone if and only if it acknowledges nothing in the window and carries no data numbered within it |
| ArqSession.HarmlessAfterRestart | lib/linklayer/linklayer.h:484-511 | right after the restart that leaves polls, acks and data numbered 16 or more |
| ArqSession.OldFrameTakenForNew | lib/linklayer/linklayer.h:484-511 | any other is taken for new: number 0, if it fits, is delivered at once, 1 to 15 and a number 0 that does not fit are held for their turn |
| ArqSession.OldFrameKeepsIff | lib/linklayer/linklayer.h:434-447 | in every state before the peer hears of the restart, one such frame, accounted for like any other, keeps the joint invariant if and only if it acknowledges nothing in the window and its data is outside the receive window, held already, or the very payload the peer has in flight under that number |
| ArqSession.EpochResync | lib/linklayer/linklayer.h:434-447 | for every peer in sync in that sense, and whatever the restarted end has queued, sent and fittingly heard, the first frame of the new epoch the peer accepts puts both directions into the invariant of a fresh session |
| ArqTrip.Trip | lib/linklayer/linklayer.h:423-513 | one byte there and its ack back, from any idle sender and whatever the other end has in flight: a sender with another epoch on record starts its numbering over on hearing the ack |
| ArqTrip.MistakenEndLosesByte | lib/linklayer/linklayer.h:434-447 | such an end silently loses a byte written after both ends know each other, though everything else is in sync: of x, y, z the peer reads x and z, and all three are acknowledged |
| ArqTrip.RepeatedEpochLosesByte | src/fw_host.cpp:228-229 | the epoch is drawn at random: if the peer has it on record already, and expects frame 1, it notices nothing; of x, y it reads y, and both are acknowledged |
| ArqResync.ResyncsIff | lib/linklayer/linklayer.h:190-206 | for every restarted end and every state of its peer, with room for a byte to send and a whole frame to receive each way: every run from the moment the peer notices is byte-exact, believes acknowledged only what has arrived, and can still be continued until everything accepted has been read, if and only if the two are in sync |
| ArqProper.StepProper | lib/linklayer/linklayer.h:149-513 | the states meant: every operation, and every frame from anyone that carries no data or 1 to 221 bytes of it, with the reset it may bring about, leaves the front of the window unacknowledged, each held frame in its slot and inside the receive window, and nothing deliverable held back |
| ArqDeaf.DeafForever | lib/linklayer/linklayer.h:488-507 | a window that starts 1 to 239 frames past the one the receiver waits for and does not hold, and nothing on the air that says otherwise: in every run nothing more is ever delivered in that direction, and it stays that way |
| ArqFinish.OpenCanFinish | lib/linklayer/linklayer.h:149-513 | from every state that keeps the joint invariant there is a continuation, by the ends' own operations at times of their choosing, in which both applications read exactly all that was accepted |
| ArqFinish.EveryRunCanFinish | lib/linklayer/linklayer.h:149-513 | so no run of a session is a dead end, whatever the channel lost, duplicated or delayed within the wrap bound |
| Station.BytesCarryFrames | lib/linklayer/linklayer.h:748-795 | the bytes one end emits fit 255 and do to the peer exactly what the frame does, and tell it exactly whether the burst is over, for a peer that shares its settings and still takes the counter |
| Station.ForgedBytesOnlyTouchEpoch | lib/linklayer/linklayer.h:449-475 | on an encrypting link, bytes that are not what sealing produces change nothing but the epoch tracking that runs before authentication, in the whole station, and nothing at all when they carry the known epoch |
| Station.ReplayIgnored | lib/linklayer/linklayer.h:838-889 | on an encrypting link the bytes of one authentic frame, heard again, change nothing at all |
| StationHeader.StampArrives | lib/linklayer/linklayer.h:768-778 | over every run of two stations: whatever bytes either transmission call then emits, a station that shares the settings and takes them shows the upper four bits of the last control value set, and the last telemetry byte set |
| Station.EmitIsBoardPass | lib/linklayer/linklayer.h:780-827 | sealing a frame is one pass of the board model's counter steps, used under its own counter and epoch |
| StationCounter.CounterCountsSealed | lib/linklayer/linklayer.h:780-787 | over every run of two stations the frame counter grows by exactly the number of byte strings put on the air on a sealing link, and on any other it, its last save and flash stay as they were |
| Replay.SpentForGood | lib/linklayer/linklayer.h:838-856 | a counter once taken is refused, without effect, whatever else is checked in between |
| StationReplay.NeverActedOnTwice | lib/linklayer/linklayer.h:838-889 | over any run of a station that hears no other epoch of its peer: sealed bytes once acted on change nothing when heard again |
| StationReplay.ReopenedIff | lib/linklayer/linklayer.h:434-447 | one step, whatever is heard: bytes once acted on stay spent if and only if it did not name another epoch of the peer; if it did they would be acted on again, authentic or not (after an epoch of 0, which no end uses, if the replay window takes them) |
| StationReplay.HeaderReopens | lib/linklayer/linklayer.h:434-451 | a witness for every link: ten bytes, addressed to it, naming another epoch and rejected by it, after which it would act on the same sealed bytes again |
| StationReplay.RefusedIff | docs/SECURITY.md:23-25 | accepted exactly once: over every run of a station since it acted on sealed bytes, in which every epoch heard is one an end can have, they are refused at every moment if and only if no other epoch of the peer is heard |
| StationSystem.HearShape | lib/linklayer/linklayer.h:423-513 | hearing the bytes of a frame is receiving the frame, or, when the replay window drops them, nothing at all |
| StationSystem.StepRefinesA | lib/linklayer/linklayer.h:149-513 | each operation of the byte level is the same operation of the frame level, or none for dropped bytes |
| StationSystem.BytesRefineFrames | lib/linklayer/linklayer.h:357-513 | every run of two stations over a channel of bytes is a run of the frame level |
| StationSystem.ByteExactOverBytes | lib/linklayer/linklayer.h:357-513 | the byte-exact stream for emitted bytes that are lost, duplicated and reordered, in every combination of compression and sealing |
| LinkLayers.LinkLayer.constructor | lib/linklayer/linklayer.h:118-134 | a new link has its rings, window and slots, and is where a session's runs start from |
| LinkLayers.LinkLayer.Init | lib/linklayer/linklayer.h:118-134 | clamps window and tag length, resets all else to the start of a session, seeds the frame counter, and leaves the two unread edges |
| LinkLayers.LinkLayer.SetTiming | lib/linklayer/linklayer.h:149-154 | changes the window, clamped, and the timer, and nothing else |
| LinkLayers.LinkLayer.Write | lib/linklayer/linklayer.h:166-170 | queues exactly as many of the offered bytes as the ring has room for, after what is queued |
| LinkLayers.LinkLayer.Read | lib/linklayer/linklayer.h:182-188 | hands over the oldest delivered bytes and then delivers what backpressure held |
| LinkLayers.LinkLayer.NewSession | lib/linklayer/linklayer.h:197-206 | the new state is the specification's new session of the old one |
| LinkLayers.LinkLayer.HasWork | lib/linklayer/linklayer.h:213-215 | true exactly when a frame is in flight, bytes are queued or an ack is owed |
| LinkLayers.LinkLayer.SetCtrlTx | lib/linklayer/linklayer.h:271-271 | only the upper four bits are stamped |
| LinkLayers.LinkLayer.BeginTurn | lib/linklayer/linklayer.h:339-342 | clears every once-per-turn mark and nothing else |
| LinkLayers.LinkLayer.FillWindow | lib/linklayer/linklayer.h:358-368 | the in-place loop computes the framing function on the window array and the circular send ring |
| LinkLayers.LinkLayer.PickFrame | lib/linklayer/linklayer.h:369-379 | finds the first eligible frame |
| LinkLayers.LinkLayer.NextTx | lib/linklayer/linklayer.h:357-399 | bytes and whole new state are those of the specified transmission, window array, ring, counter and flash included |
| LinkLayers.LinkLayer.MakePoll | lib/linklayer/linklayer.h:408-410 | emits a bare frame and changes only the frame counter |
| LinkLayers.LinkLayer.Assemble | lib/linklayer/linklayer.h:748-795 | computes the wire encoding under the next counter, and advances and saves the counter only for a sealed frame that fits |
| LinkLayers.LinkLayer.MaybePersist | lib/linklayer/linklayer.h:821-827 | saves the counter exactly when it is a stride past the last save |
| LinkLayers.LinkLayer.AckProcess | lib/linklayer/linklayer.h:698-730 | marking, sliding and flagging in place compute the specified window |
| LinkLayers.LinkLayer.MarkCovered | lib/linklayer/linklayer.h:699-711 | marks exactly the frames the cumulative ack or a SACK bit covers |
| LinkLayers.LinkLayer.SlideFront | lib/linklayer/linklayer.h:712-720 | moves the rest of the window down over its acked front |
| LinkLayers.LinkLayer.FlagSkipped | lib/linklayer/linklayer.h:725-729 | the backward scan flags exactly the sent frames with a later acked one |
| LinkLayers.LinkLayer.AnotherWaits | lib/linklayer/linklayer.h:679-686 | true exactly when another never-sent frame waits |
| LinkLayers.LinkLayer.SackBitmap | lib/linklayer/linklayer.h:662-671 | computes the specified bitmap |
| LinkLayers.LinkLayer.DrainInOrder | lib/linklayer/linklayer.h:641-653 | the loop delivers exactly the specified run into the circular receive ring, byte by byte, and sets the edge exactly when something was delivered |
| LinkLayers.LinkLayer.TakeData | lib/linklayer/linklayer.h:488-511 | stores a frame in the window that is not already held, drains, and owes an ack |
| LinkLayers.LinkLayer.NoteEpoch | lib/linklayer/linklayer.h:434-447 | a first epoch is recorded; a changed one starts both halves and the replay window over |
| LinkLayers.LinkLayer.ReplayOk | lib/linklayer/linklayer.h:838-856 | answer and new window are those of the specified check |
| LinkLayers.LinkLayer.AeadOpen | lib/linklayer/linklayer.h:873-889 | decrypts, verifies, checks for replay and expands, in that order; the window moves only for an authentic frame |
| LinkLayers.LinkLayer.OnRx | lib/linklayer/linklayer.h:423-513 | answer and whole new state are those of the specified reception, for any bytes |
| Modem.SendAllIsTurn | lib/linklayer/modem.h:89-91 | the bytes of a burst are the frames of the specified turn, one by one, and leave the same link state |
| Modem.TurnHandsOver | lib/linklayer/modem.h:89-95 | a turn always puts at least one frame on the air, so the other end gets its turn, and at most 17 (16 under a steady clock) |
| Modem.SendBurst | lib/linklayer/modem.h:132-141 | the loop ends and emits the specified burst, or a poll when there is none |
| Modem.HearBurst | lib/linklayer/modem.h:126-131 | takes in frames up to the first that ends the burst, or all there are |
| Modem.InitiatorStep | lib/linklayer/modem.h:82-109 | too early and idle, nothing changes; otherwise burst, listen, consume the delivery edge only if there is no other work, and adapt the gap |
| Modem.ResponderStep | lib/linklayer/modem.h:122-142 | silent until something is heard, then its own burst or a poll |
| Modem.GapCappedIff | lib/linklayer/modem.h:59-60 | for every 32-bit cap and over all runs of turns: the gap stays within it if and only if it is 50 doubled some number of times, or above 3355443200, which doubling wraps round before it reaches |
| Modem.GapWrapsToNone | lib/linklayer/modem.h:106-108 | under a cap above 3355443200 there is no wait at all from the 31st idle turn on |
| Modem.GapPassesCap | lib/linklayer/modem.h:105-108 | with the default cap of 2000 six idle turns wait 3200 |
| Modem.GapBelowTwiceCap | lib/linklayer/modem.h:105-108 | over any run of turns and for every 32-bit cap: the idle gap is below twice the cap, or, under a cap of 25 or less, is 50 or the cap; and it stays positive under a cap from 1 to 3355443200 |
| Modem.IdleGapIs | lib/linklayer/modem.h:105-108 | under a cap that doubling does not wrap past: after n idle turns the gap is 50 doubled n times while the one before was below the cap, and exactly the cap from then on |
| Modem.SilentTurnIff | lib/linklayer/modem.h:83-91 | a turn sends no frame if and only if no ack is owed, nothing can be framed and no frame in flight is due; so an end that reports no work has nothing to send |
| Modem.GapStartsOver | lib/linklayer/modem.h:105-108 | a turn with traffic resets the gap: what follows depends only on the idle turns since |
| ModeSwitching.CtrlRoundTrip | lib/linklayer/modeswitch.h:38-63 | the control nibble gives back mode and ACK bit, and is present, for every mode if and only if it is below 7 |
| ModeSwitching.ModeSwitch.ServiceAll | lib/linklayer/modeswitch.cpp:60-67 | the service loop hands out exactly the one due change |
| ModeSwitchSystem.StepKeeps | lib/linklayer/modeswitch.cpp:13-67 | rounds with any losses, requests and aborts keep: each end's current and fallback modes contain the other's current mode, and two unsettled ends are in phase |
| ModeSwitchSystem.ModeAgreement | lib/linklayer/modeswitch.cpp:30-67 | in every run from boot without restarts: no change is left pending after a round, and whenever neither end is on probation both are on one mode; on probation, the fallback covers the other end |
| ModeSwitchSystem.HearingSettles | test/test_link/test_link.cpp:651-677 | ends that meet on one mode are settled by one lossless round, or switch together if a request is pending |
| ModeSwitchSystem.FirstRequestWins | lib/linklayer/modeswitch.cpp:30-50 | of two requests heard before the answer goes out, the first is answered and carried out |
| ModeSwitchSystem.RequestTaken | lib/linklayer/modeswitch.cpp:19-22 | a request is left pending and offered in the control nibble, except at a busy end or one on that mode already, which is left as it was |
| ModeSwitchSystem.RequestSurvivesLoss | lib/linklayer/modeswitch.cpp:19-28 | a pending request outlives any rounds whose first frame is lost, and until it is answered an abort takes it back without a trace |
| ModeSwitchSystem.RequestSwitches | lib/linklayer/modeswitch.cpp:19-67 | then the first lossless round switches both ends to the mode asked for, and after the next both are quiescent: on it if and only if that round comes within the probation period, and else back on the old one |
| ModeSwitchSystem.ProbationReconverges | lib/linklayer/modeswitch.cpp:19-67 | after any such history, once losses stop both ends are quiescent on one mode one round after the first round that comes a probation period later, and stay so |
| Rendezvous.StepKeepsWeak | src/fw_device.cpp:604-631 | losses, requests, aborts, rendezvous and restarts at any moment keep unsettled ends in phase |
| Rendezvous.SilenceHeals | src/fw_device.cpp:604-631 | ends silent towards each other reach home, or one flip from it, by the first round a silence timeout later |
| Rendezvous.RendezvousRecovers | src/fw_device.cpp:604-631 | from whatever a run with restarts leaves, if each end's mode (and the one its probation falls back to) is automatic, GFSK or home, a lossless channel brings both ends quiescent on one mode within the silence timeout, a probation period and one round |
| Rendezvous.DropsIff | src/fw_device.cpp:604-631 | a drop to the rendezvous happens if and only if the end is away from home, may leave its mode, and both the last frame and the last drop are a timeout ago |
| Rendezvous.HearingStays | src/fw_device.cpp:604-631 | an end that hears something within every timeout is never moved by the rendezvous |
| Rendezvous.FallbacksApart | src/fw_device.cpp:604-631 | two drops are at least a timeout apart, whatever happens between them |
| Rendezvous.StrandedMeetIff | src/fw_device.cpp:604-631 | two ends settled on different modes meet, on a lossless channel and given that time, if and only if each is automatic, pinned to GFSK, or at home |
| Rendezvous.StrandedWithoutRendezvous | lib/linklayer/modeswitch.cpp:13-17 | without it a restart strands two settled ends on different modes for ever |
| Replay.CheckRefines | lib/linklayer/linklayer.h:838-856 | one check accepts exactly when the set rule does, and the mask goes on describing the accepted set |
| Replay.WindowRefinesSet | lib/linklayer/linklayer.h:838-856 | after any history of counters the window accepts one if and only if it was never accepted and no accepted one is 64 or more above it |
| Replay.NoCounterTwice | lib/linklayer/linklayer.h:838-856 | no counter is accepted twice in a history |
| Ascon.BlockInverse | lib/linklayer/ll_aead.cpp:182-208 | decrypting an encrypted block returns it and leaves both sponges equal |
| Ascon.TailInverse | lib/linklayer/ll_aead.cpp:188-214 | the masked, padded tail of 0 to 7 bytes does too |
| Ascon.SealOpen | lib/linklayer/ll_aead.cpp:175-220 | for every key, nonce, associated data, plaintext and tag prefix of up to 16 bytes, opening what was sealed verifies and returns the plaintext, of the same length |
| Ascon.OpensOnlySealed | lib/linklayer/ll_aead.cpp:194-220 | opening yields m if and only if sealing m gives this ciphertext and this tag prefix |
| Ascon.Encrypt | lib/linklayer/ll_aead.cpp:175-192 | the in-place sponge loop computes the specified sealing |
| Ascon.Decrypt | lib/linklayer/ll_aead.cpp:194-220 | the in-place sponge loop computes the specified opening; the accumulated difference is zero exactly when the tag prefix matches |
| Ascon.Absorb | lib/linklayer/ll_aead.cpp:145-154 | the absorption loop computes the specified state |
| AsconAuth.SealIsDuplex | lib/linklayer/ll_aead.cpp:126-192 | sealing, for every permutation, is one sponge over the padded 8-byte blocks of associated data and message, the two parted by one bit, between a keyed start and a keyed end |
| AsconAuth.TagsDiffer | lib/linklayer/ll_aead.cpp:126-192 | for any two different choices of key, nonce, associated data and message of up to 255 bytes there are invertible permutations under which the tags differ: nothing of the four is left out of the tag |
| AsconAuth.OthersRejected | lib/linklayer/ll_aead.cpp:194-220 | so for whatever was sealed, and any other key, nonce or associated data, there are invertible permutations under which opening fails, with any tag prefix of 1 to 16 bytes |
| AsconAuth.OneBlockShows | lib/linklayer/ll_aead.cpp:145-154 | under every invertible permutation, associated data of one length that differ within one block leave different states |
| Nonce.BigEndianRoundTrip | lib/linklayer/linklayer.h:456-457 | eight counter bytes read back to the counter |
| Nonce.NonceInjective | lib/linklayer/linklayer.h:808-813 | a nonce determines sender, epoch and counter |
| Nonce.ElectsOne | lib/linklayer/identity.h:43-45 | two different hardware addresses elect exactly one initiator |
| Nonce.AddressesMatch | lib/linklayer/identity.h:56-59 | the two ends get different addresses, each the one its peer expects |
| Nonce.ActKeeps | src/fw_host.cpp:222-230 | load, store, init, bump, save, emit and a crash at any point keep: counters strictly increase and every used one is within a stride of flash |
| Nonce.CountersIncrease | src/fw_host.cpp:404-406 | over any life of a board frame counters strictly increase |
| Nonce.NonceNeverRepeats | src/fw_host.cpp:222-230 | no nonce is used twice, by one board or across the two, over any crashes and re-initialisations |
| Wire.HeaderRoundTrip | lib/linklayer/linklayer.h:768-778 | every header field is read back, flags, control nibble and bitmap included |
| Wire.EncodeFits | lib/linklayer/linklayer.h:748-767 | every frame of up to 221 payload bytes fits 255 bytes on the air, in every setting |
| Wire.AirLength | lib/linklayer/linklayer.h:748-767 | a payload that compression shrinks goes out compressed when compression is on, and no other does; the flags say so and the length on the air is that of what was chosen |
| Wire.SealedRoundTrip | lib/linklayer/linklayer.h:780-790 | a sealed frame is recovered whole if its counter is new and dropped if not, and the replay window moves by its counter |
| Wire.PlainRoundTrip | lib/linklayer/linklayer.h:791-793 | an unsealed frame is recovered whole, compressed or not |
| Wire.WireRoundTrip | lib/linklayer/linklayer.h:423-513 | in all combinations of compression and encryption the frame is recovered exactly if and only if encryption, when on, has a key and the replay window takes the counter |
| Wire.OnlyAuthentic | lib/linklayer/linklayer.h:465-475 | an encrypting link accepts only bytes that sealing with its key produces, under a counter the replay window takes |
| Wire.AuthenticOpens | lib/linklayer/linklayer.h:873-889 | bytes that sealing with the key produces open to what was sealed if their counter is new, and spend the counter even if the payload cannot be expanded |
| Wire.TrailingIgnored | lib/linklayer/linklayer.h:454-463 | whatever follows a whole frame in the received bytes changes nothing |
| Wire.CutShort | lib/linklayer/linklayer.h:461-463 | an unsealed, uncompressed frame cut short anywhere in its payload is taken as the same frame with what is left |
| Wire.ForgedRejected | lib/linklayer/linklayer.h:465-475 | bytes that are not what sealing with its key produces are rejected and do not move the replay window |
| ByteRings.AppendRun | lib/util/byte_ring.h:127-136 | writing a contiguous run at the head appends it to the queued bytes, across the wrap |
| ByteRings.DropRun | lib/util/byte_ring.h:123-123 | moving the tail drops exactly the oldest bytes, across the wrap |
| ByteRings.PushedIs | lib/util/byte_ring.h:85-92 | keeping all, a push appends the longest prefix there is room for; keeping the latest, it leaves the longest suffix of old and new within the window and the capacity |
| ByteRings.ByteRing.Write | lib/util/byte_ring.h:127-136 | the two-run loop appends all of the bytes |
| ByteRings.ByteRing.Push | lib/util/byte_ring.h:85-92 | under either policy leaves what the policy says and counts exactly what was lost |
| ByteRings.ByteRing.PushLatest | lib/util/byte_ring.h:139-157 | leaves exactly the last min(keep, capacity-1) bytes of old and new, whatever the window was before |
| ByteRings.ByteRing.Peek | lib/util/byte_ring.h:117-120 | the prefix of the queue up to where the storage wraps, empty only if the queue is |
| ByteRings.ByteRing.Drop | lib/util/byte_ring.h:123-123 | removes the oldest bytes |
| ByteRings.ByteRing.Read | lib/util/byte_ring.h:99-110 | the run-by-run loop returns and removes exactly the oldest min(n, count) bytes |
| ByteRings.Conservation | lib/util/byte_ring.h:85-110 | in every run, whatever the policies in between: pushed = read + dropped + queued |
| ByteRings.KeepAllExact | lib/util/byte_ring.h:85-110 | while everything is kept and nothing was dropped, read then queued is exactly what was offered |
| FrameRing.StepKeeps | lib/linklayer/frame_ring.h:38-67 | each load, byte copy and publish of either thread keeps the ring invariant, under stale loads of the other index |
| FrameRing.NoOverlap | lib/linklayer/frame_ring.h:38-67 | the consumer never reads the slot being written |
| FrameRing.Linearizable | lib/linklayer/frame_ring.h:38-67 | under every interleaving the frames taken are exactly the accepted pushes in order, whole when there is room, and at most SLOTS-1 are held |
| FrameRing.RefusedMeansFull | lib/linklayer/frame_ring.h:43-43 | a push is refused if and only if the observed tail leaves SLOTS-1 frames in between |
| FrameRing.EmptyMeansEmpty | lib/linklayer/frame_ring.h:61-61 | a pop reports empty if and only if every frame published at the observed head was taken |
| FrameRing.PushTakes | lib/linklayer/frame_ring.h:38-52 | a push left alone, its tail freshly read, takes every frame that fits a slot whenever there is room; one too long does nothing |
| Adr.First | lib/linklayer/adr.cpp:12-25 | the search result is the first preset of its kind, or -1 when there is none |
| Adr.LastLoraOf | lib/linklayer/adr.cpp:27-31 | the result is the last LoRa preset, or -1 |
| Adr.PickIsFastestCleared | lib/linklayer/adr.cpp:33-41 | the signal's preset is at least as fast as every eligible one it clears, and the slowest eligible one when it clears none |
| Adr.MoreRobustIsSlower | lib/linklayer/adr.cpp:43-47 | one step of robustness is strictly slower, except for the last LoRa preset itself, and never GFSK from LoRa |
| Adr.SearchFirst | lib/linklayer/adr.cpp:12-25 | the loop finds the specified preset |
| Adr.SearchLastLora | lib/linklayer/adr.cpp:27-31 | the loop finds the specified preset |
| Adr.SearchBySnr | lib/linklayer/adr.cpp:33-41 | the loop finds the specified preset |
| Adr.StepRobust | lib/linklayer/adr.cpp:43-47 | computes the specified step |
| Adr.Controller.Follow | lib/linklayer/adr.cpp:83-121 | action and new state are those of the specified evaluation |
| Adr.Controller.Tick | lib/linklayer/adr.cpp:61-122 | action and new state are those of the specified decision |
| AdrRuns.PenaltyCapsClimb | lib/linklayer/adr.cpp:106-112 | under a penalty a climb goes to a mode strictly slower than the one that failed |
| AdrLoss.LossStepsDown | lib/linklayer/adr.cpp:83-92 | an evaluation at high loss makes a request if and only if the mode is not the most robust LoRa preset: for the next preset down, or from GFSK for the fastest automatic one, without any count |
| AdrLoss.LossReachesTheBottom | lib/linklayer/adr.cpp:83-92 | under lasting loss, each request granted, there is one at every evaluation until the most robust LoRa preset is reached, after at most as many as the ladder has presets |
| AdrSwitch.SwitchGivenUp | lib/linklayer/adr.cpp:68-78 | a request still in flight is given up at the first evaluation after the switch timeout, and not before |
| AdrSwitch.CooldownStarts | lib/linklayer/adr.cpp:54-76 | giving up and falling back start a full cooldown |
| AdrSwitch.NothingInCooldown | lib/linklayer/adr.cpp:79-79 | in every run nothing is requested until the cooldown is over |
| AdrSwitch.AsksOnlyWhen | lib/linklayer/adr.cpp:61-82 | a request is made only on a live link, not busy, in a known mode, a period after the last evaluation |
| AdrSwitch.RequestsApart | lib/linklayer/adr.cpp:61-66 | in every run two requests are at least a period apart |
| AdrSwitch.GfskPointedIff | lib/linklayer/adr.cpp:96-112 | an evaluation points from LoRa to GFSK if and only if it is enabled and present, the end is on the fastest automatic preset, the signal is strong, the loss is low and no penalty is in force |
| AdrSwitch.GfskHeld | lib/linklayer/adr.cpp:93-93 | GFSK is left by nothing but high loss |
| AdrRuns.NoClimbIntoPenalty | lib/linklayer/adr.cpp:54-59 | in every run, until a fallback's penalty expires nothing climbs to the failed mode or a faster one, if the latest fallback since was not from a faster mode still |
| AdrPenalty.FailedModeReturnsIff | lib/linklayer/adr.cpp:54-59 | for any state a later fallback finds: some run before the deadline climbs back to the earlier failed mode or a faster one if and only if some mode and signal point there under the later penalty and there is time after the cooldown for the evaluations a climb takes |
| AdrPenalty.LooseIff | lib/linklayer/adr.cpp:94-112 | for every earlier failed mode on a ladder whose first preset is automatic, that is: nothing is penalised later and the GFSK rung is enabled and present, or the earlier mode is LoRa, the later fallback was from no known mode or a faster one, and the rung it leaves open is not the most robust |
| AdrRuns.StableIsStreak | lib/linklayer/adr.cpp:115-121 | in every run the confirmation counter is the number of latest counting evaluations for the candidate, silent ones aside |
| AdrRuns.ClimbIffBacked | lib/linklayer/adr.cpp:115-121 | in every run, an end climbs to m if and only if this evaluation points to m at low loss and makes the streak for m reach up_stable |
| AdrRuns.RequestsBounded | lib/linklayer/adr.cpp:61-124 | requests always stop: on any ladder with an automatic LoRa preset, under a constant signal without loss, every request granted, a penalty has room for one a period, and at most three more follow |
| AdrRuns.NoAutoNeverStops | lib/linklayer/adr.cpp:29-41 | on a ladder with none they never do: at a LoRa mode, with the requests refused, there is one, for mode -1, at every evaluation |
| AdrRuns.RequestsAfterPenalty | lib/linklayer/adr.cpp:61-124 | with no penalty in force at most two requests follow |
| AdrRuns.RequestsStop | lib/linklayer/adr.cpp:61-124 | at most four requests are ever made, from any controller state, where the seesaw condition does not hold |
| AdrRuns.SeesawNeverSettles | lib/linklayer/adr.cpp:106-112 | the seesaw condition (a penalised mode two or more rungs above the fastest automatic one, which the signal picks and GFSK is open from): two modes are each other's target |
| AdrRuns.SeesawRequests | lib/linklayer/adr.cpp:106-124 | and then the requests of a penalty, evaluation by evaluation, are exactly the climbs and descents of the seesaw, for any up_stable |
| AdrRuns.TwoPerCycle | lib/linklayer/adr.cpp:113-121 | two requests for every up_stable + 1 evaluations |
| AdrRuns.FirmwareLadderHasNoSeesaw | src/fw_radio.cpp:363-383 | a ladder whose presets are all automatic, as the firmware builds it, never meets it |
| AutoPower.AuxReadsBack | lib/linklayer/autopower.h:142-146 | the telemetry byte gives back the SNR rounded to a whole dB and clamped to -128..127 |
| AutoPower.StepCloses | lib/linklayer/autopower.h:85-104 | a step moves exactly when there is distance left, always shortens it, and stays within one dB of the limits |
| AutoPower.LeavesLimits | lib/linklayer/autopower.h:85-104 | inside its limits a step leaves them if and only if it starts one dB from the limit it moves to; a silent one never does |
| AutoPower.FixedChannelSettles | lib/linklayer/autopower.h:85-104 | on a fixed channel the loop reaches within 255 steps a power it never leaves, in the dead band or against the limit in the way, for limits inside -127..126 |
| AutoPower.SettlesOverTarget | lib/linklayer/autopower.h:85-129 | on a fixed channel the loop comes to rest with the margin in the dead band over the next preset's floor when the rate controller may still climb, and over this mode's own when it is off or at the fastest, or at the limit in the way |
| AutoPower.SilenceRaises | lib/linklayer/autopower.h:94-97 | an end that hears nothing raises its power step by step to the ceiling, whatever was reported before |
| AutoPower.TopOfRangeNeverSettles | lib/linklayer/autopower.h:85-104 | the proviso on the limits is needed: with the ceiling at 127 an even power wraps round and never holds |
| AutoPower.CeilBounds | src/fw_radio.cpp:330-337 | a whole-dB SNR is below the next floor if and only if it is below the rounded-up one |
| AutoPower.NoRestBelowTheTop | src/fw_radio.cpp:330-337 | with the next floor rounded up, no LoRa preset but the fastest is a resting place of the two loops unless the power is at its limit |
| AutoPower.RatchetReachesTop | test/test_sim/test_sim.cpp:1121-1142 | from any mode and power the coupled loops reach, in a bounded number of ticks, a mode and power they never leave, and that is the fastest LoRa preset unless the power is at its limit |
| AutoPower.NearestRoundingParks | src/fw_radio.cpp:324-329 | rounded to nearest instead, the firmware's own floors let them rest on the fourth preset with power to spare |

## Left out

- Radio driver, interrupts, threads, USB, display, AT commands and flash storage: input and output. Their effects appear as parameters: the channel, the clock, the flash counter.
- heatshrink and the Ascon permutation: parameters. Compression is any pair of functions that undoes itself, and the permutations are any functions on the state. x25519 and `AsconKdf16` are not part of this model.
- Decompressor output limits: a payload that would not fit the decode buffer is one the decompression function refuses.
- The clock: times in the mode switch, rendezvous and rate controller are unbounded. The link layer's retransmit timer and the initiator's turn gap are 32-bit and wrap.
- The 64-bit frame counter: unbounded; theorems that need its bytes to tell counters apart ask that it fits in eight.
- Byte-exactness across a session reset: an epoch change drops data in flight on purpose. The stream theorems are for one session, and ArqSession says how the next one starts.
- Firmware that drives the mode switch on any received bytes (src/fw_device.cpp:472-486): in the model only a decoded frame from an end on the same mode does.
- Timing derived from time on air, recovery-timeout ordering, watchdogs and reboots: they set the parameters of the loops modelled here.
- `AdrLadder::FastestLora` (lib/linklayer/adr.cpp:17-20): nothing but a test calls it.
- Diagnostic counters of the link layer (frames sent and resent): nothing depends on them.
- The listening timeouts of the turn composition: the frames that arrive in time are a parameter. In the round theorems what is sent after the listener has stopped is lost, as in the channel of test/test_modem.
- FrameRing: a step machine over shared memory instead of a class, since the claim is about interleaved threads. Weak memory beyond stale loads of the other side's index is not modelled.
- Rendezvous: functions on values instead of methods on the device object; the re-initialisation of the link it triggers is the session restart of ArqSession.
- Nonce: board life as a step machine instead of methods, so that a crash can fall between any two writes; the erasure of flash is not modelled.
- GFSK rungs, penalties and loss in the coupled rate and power loop: the ratchet theorem is for the LoRa ladder on a fixed symmetric channel with whole-dB SNR.
- AdrRuns.RequestsStop: asks for a ladder with LoRa presets first and GFSK last, as the firmware's table is, and that each request is granted before the next tick.
- Floating-point rounding: SNR, RSSI and floors are real numbers.
- Host-side queues of src/fw_host.cpp and their escape filter, and the simulator: outside the link protocol.
