# Verification model of a Cast sender

This project models the parts of the `chromiacast` sender that carry its
correctness and proves what they promise, for every input and every run;
`dafny verify dfyconfig.toml` verifies all of it.

The core is the media path. A stream keeps at most 120 frames in flight in a
ring, cuts them into packets, retransmits on request and releases frames when
feedback acknowledges them; feedback carries only the low byte of identifiers.
`SlidingWindow` puts that sender beside a receiver and a network that loses,
repeats and reorders, and proves over all runs that no frame is released before
the receiver has it, `EndToEnd` that it can be read there, and `Recovery` that
losses can be made good from wherever a run has led. Around it stand the pacing budget, the acknowledgement
watchdogs and the event queue of the session loop; the control channel with its
request correlation and application lifecycle; and the wire formats of both
channels with their readers.

Two forms are used throughout. What the code does is a function on values, and
the theorems are about those functions and the runs built from them. Where the
code updates things in place (the ring of slots, buffers filled across reads,
hash maps and counters, loops over bytes), a class or a method with loops does
the same in place and is proved to compute that function.

| files | part |
|---|---|
| `FrameIds` `Rtp` `Crypto` `Clocks` | identifiers, packetizer, frame encryption, clocks |
| `Rtcp` `FeedbackWire` | the feedback parser, and the receiver's encoder it is proved against |
| `StreamModel` `StreamState` | one stream, as a value and on its ring of slots |
| `Cutting` `Nacks` | frames to packets over the life of a stream; NACKs from the wire to the queue |
| `SlidingWindow` `EndToEnd` | sender, network and receiver over every run; with the frames themselves |
| `StaleFeedback` `Recovery` | what a late report can do; that losses can be made good |
| `Pacing` `Watchdogs` `Session` `Bursts` `EventLoop` | the sender's event loop, and that its pacing bound is sharp |
| `Varint` `Protobuf` `CastMessages` | message encodings |
| `Framing` `ControlFraming` `RemoteFraming` | the two framed readers and writers |
| `RequestIds` `Pending` `ControlModel` `ControlRuns` `ControlReplies` `ControlApps` `ControlLoop` | the control channel |
| `Chunked` `SetupResponse` | the setup client's HTTP response |

Properties that do not hold without a condition are stated with the exact one:

- Feedback is recovered if and only if it is at most 255 frames behind
  (`SlidingWindow.RecoveredExactlyWhenFresh`). Runs admit it later too, as long as
  it is understood: among the identifiers in flight the sender reads nothing into
  it that it does not claim, by checkpoint or bitvector. That condition cannot be
  weakened. For every report that the parser reads and a receiver can have sent,
  and all numbers at the sender that do not meet it, some run leads to a world
  where the report releases a frame the receiver does not have
  (`StaleFeedback.LateReportIsSafeExactly`).
- A frame reassembles if and only if it has at most 65536 packets, the number of
  16-bit packet identifiers (`Rtp.ReassembleAnyArrival`,
  `EndToEnd.RetiredFramesAreRead`). The packetizer does not enforce this.
- A packet is classified as media if and only if its payload type is at least 96
  (`Rtp.MediaIsRecognised`).
- The NTP round trip loses at most a nanosecond if and only if the time lies
  before the end of the first NTP era in 2036 (`Clocks.NtpRoundTrip`).
- A loss field is refused if and only if it denotes a packet beyond 65535
  (`Rtcp.LossFieldMeaning`).
- The packet identifier 65535 means "all packets lost", also where a loss field's
  bits reach it, and a loss field reaches only frames from 128 below to 127 above
  its report's checkpoint. Within reach it brings back exactly the packets it
  denotes if and only if 65535 is not among them; out of reach it brings back none
  (`Nacks.FieldQueuesDenoted`). All loss fields naming packets of a frame are exact
  if and only if it has at most 65535 and is within reach (`Nacks.FieldsAreExact`).
- A NACK for a frame above its report's checkpoint names that frame or none in
  flight. One for an older frame lands elsewhere exactly when a frame in flight is
  a multiple of 256 later and in reach (`Nacks.NackGoesAstray`).
- The control writer does not enforce the reader's 1 MiB limit: what it writes is
  read back if and only if it is within it (`ControlFraming.WrittenIsRead`).
- The pacing budget saturates at zero, so a packet overdraws it if and only if it
  is longer than the bytes left (`Pacing.OverdrawIsExact`). Each flush may overshoot
  by one packet less a byte; `Session.SessionSafety` counts that overshoot, and
  `Bursts.BoundIsAttained` gives runs that reach it. Sender Reports are sent outside
  the budget and not counted.
- The chunk scanner counts encoded bytes and waits for the trailers; the decoder
  counts decoded bytes and stops at the last size line. On a body that decodes the
  scanner is exact: too large beyond 64 KiB of framed chunks, undecided while the
  trailers are open, and otherwise their end (`Chunked.ScannerOnDecodable`,
  `Chunked.DecodableButOpen`).
- The size limit of the setup response is applied to a whole read before its end
  is looked for, so past the limit the sizes of reads can decide
  (`SetupResponse.ArrivalsMatterExactly`, `SetupResponse.ReadSizesDecide`).

Time, randomness, the network, what a transport accepts, which callers gave up
and the order in which hash maps are visited are inputs of the steps, and
nothing is assumed of them beyond time not running backwards and, in the runs of
`SlidingWindow`, honest reports that are understood when they arrive. Block ciphers,
chunk-size lines and HTTP headers are parameters: the theorems hold for every
cipher, every parser of size lines and every header parser that decides on the
header's own bytes.

## Model

| member | source | states |
|---|---|---|
| `SlidingWindow.ProtocolSafety` | src/sender/event_loop.rs:526-569 | Over every run of submitting, sending, reporting and delivery over a network that loses, repeats and reorders: a frame the sender has let go of is complete at the receiver; at most 120 identifiers are in flight; acknowledged plus in flight is the next identifier; queued packets belong to frames in flight; first transmissions leave in packetization order, each at most once |
| `SlidingWindow.RetiredFrameIsReadable` | src/sender/stream.rs:136-188 | From whatever arrived for a frame the sender has let go of, in any order and with repeats, reassembly and decryption give back its data, if and only if it was cut into at most 65536 packets |
| `EndToEnd.RetiredFramesAreRead` | src/sender/stream.rs:136-188 | End to end over every run, with frames encrypted and cut as the stream does: every frame f the sender has let go of is the f-th one it had accepted from the application, and whatever arrived for it is read back as that frame's data if and only if it takes at most 65536 packets |
| `EndToEnd.RunKeeps` | src/sender/stream.rs:136-188 | Over every run the frames accepted are those of the application's calls, in order, and the history holds each encrypted under its identifier and cut |
| `EndToEnd.SubmitKeeps` | src/sender/stream.rs:136-188 | Submitting keeps that invariant, and does to stream, sequence number and waiting delay what Cutting says |
| `Recovery.EveryWorldRecovers` | src/sender/event_loop.rs:526-569 | Recoverability: from every world a run can lead to, though nothing still in the network ever arrives, some run that adds no frame ends with every frame complete at the receiver and retired at the sender |
| `Recovery.LossReportQueuesAll` | src/sender/event_loop.rs:557-569 | A report that gives up every identifier above the checkpoint as lost retires nothing and queues every packet of every frame in flight again, from its wire bytes on |
| `Recovery.Drain` | src/sender/stream.rs:341-354 | From every world some run sends and delivers everything queued and leaves the frames in flight alone |
| `Recovery.NackedIsQueued` | src/sender/stream.rs:309-338 | A NACK for all packets, anywhere in the list, brings back each packet of the frame it comes down to |
| `SlidingWindow.StepKeeps` | src/sender/event_loop.rs:526-569 | Every enabled step keeps the invariant: sender and history agree, every released frame is complete, every report in transit is honest |
| `SlidingWindow.RunKeeps` | src/sender/event_loop.rs:526-569 | Every run keeps the invariant |
| `SlidingWindow.UnderstoodReportIsSafe` | src/sender/event_loop.rs:536-542 | An honest report that is understood, read against the frames in flight, acknowledges only complete frames, by checkpoint and by bitvector |
| `SlidingWindow.FreshIsUnderstood` | src/sender/event_loop.rs:536-542 | A report at most 255 frames behind is recovered exactly and understood |
| `SlidingWindow.RecoveredExactlyWhenFresh` | src/sender/event_loop.rs:536-537 | The identifier a report is about is recovered if and only if the report is at most 255 frames behind the newest frame |
| `SlidingWindow.ReportAtSender` | src/rtcp.rs:63-96 | The bytes of a report, parsed by the sender, apply exactly that report with the NACKs of its own loss fields, or change nothing when one of these is refused |
| `SlidingWindow.SubmitKeeps` | src/sender/stream.rs:136-188 | Submitting a frame keeps the invariant |
| `SlidingWindow.SendKeeps` | src/sender/stream.rs:341-354 | Sending a packet keeps the invariant: what goes out belongs to a frame in flight |
| `SlidingWindow.ArriveReportKeeps` | src/sender/event_loop.rs:526-569 | Processing a report that is understood keeps the invariant |
| `StaleFeedback.StaleReportBreaksSafety` | src/sender/event_loop.rs:536-542 | A reachable world in which an honest report 256 frames behind makes the sender retire frame 255, which the receiver does not have |
| `StaleFeedback.LateReportIsSafeExactly` | src/sender/event_loop.rs:536-542 | For every report, checkpoint, bitvector and loss fields alike, and every next identifier and number of identifiers in flight: in all reachable worlds with these numbers the report retires only frames the receiver has, if and only if the sender understands it with these numbers, or it claims frames beyond the next identifier, or its loss fields are refused |
| `StaleFeedback.UnsafeWorld` | src/sender/event_loop.rs:536-542 | For every report and all numbers outside that condition a run leads to a world where the report retires a frame the receiver has nothing of |
| `StaleFeedback.ReportEffect` | src/sender/stream.rs:237-300 | A report, however late, retires exactly the frames in flight that its bitvector and the identifier recovered from its byte cover |
| `StaleFeedback.PlainReportIsUnderstood` | src/sender/event_loop.rs:536-542 | A report without bitvector is understood if and only if it is less than 256 frames behind or its lateness modulo 256 reaches beyond the identifiers in flight |
| `StaleFeedback.SpreadRun` | src/sender/event_loop.rs:526-569 | For every report and all numbers there is a run after which exactly the frames in flight that the report claims have arrived |
| `StaleFeedback.Rounds` | src/sender/event_loop.rs:526-569 | For every k there is a run after which k frames were sent, received, reported and retired |
| `FrameIds.Expand` | src/frame.rs:24-28 | The result has the given low byte and lies within -128..127 of the reference |
| `FrameIds.ExpandLte` | src/frame.rs:30-37 | The result has the given low byte, is not above the reference and at most 255 below it |
| `FrameIds.ExpandExactness` | src/frame.rs:24-28 | Expanding a truncated identifier gives it back if and only if it lies within -128..127 of the reference |
| `FrameIds.ExpandLteExactness` | src/frame.rs:30-37 | Expanding a truncated identifier gives it back if and only if it is at most 255 below the reference and not above |
| `FrameIds.TwoStageExpansion` | src/rtcp.rs:196-225 | The parser's expansion, truncated and expanded again by the sender, is the sender's own expansion of the wire byte |
| `StreamModel.EnqueueKeepsValid` | src/sender/stream.rs:136-188 | Enqueueing keeps the window, the queues' soundness and the count of acknowledged frames, and no frame in flight is changed |
| `StreamModel.SlotsAreDistinct` | src/sender/stream.rs:175-181 | Two frames in flight never share a ring slot |
| `StreamModel.NextSlotIsFree` | src/sender/stream.rs:149-151 | While the window has room, no frame in flight uses the next frame's slot |
| `StreamModel.RetireKeepsValid` | src/sender/stream.rs:237-300 | Releasing frames purges their queued packets, keeps the invariant and reduces the frames in flight by exactly their number |
| `StreamModel.WindowHolds` | src/sender/stream.rs:209-215 | The frames in flight are at most the identifier span, which is at most the next identifier |
| `StreamModel.AcknowledgeKeepsValid` | src/sender/stream.rs:237-300 | Cumulative and selective acknowledgement keep the invariant |
| `StreamModel.AcknowledgeExactly` | src/sender/stream.rs:237-300 | A checkpoint with an optional bitvector retires exactly the frames it covers, from the window and from both queues |
| `StreamModel.ApplyKeepsValid` | src/sender/event_loop.rs:526-569 | A whole feedback packet, whatever its bytes, keeps the invariant and retires exactly the frames it acknowledges |
| `StreamModel.NacksKeepValid` | src/sender/event_loop.rs:557-569 | NACKs change only the retransmission queue and the NACK count |
| `StreamModel.NackKeepsValid` | src/sender/stream.rs:309-338 | A NACK, also a stale one, queues only packets of a frame in flight |
| `StreamModel.SendKeepsValid` | src/sender/stream.rs:341-354 | What is taken from the queues is a packet of a frame in flight |
| `StreamModel.CurrentFeedbackIsExact` | src/sender/event_loop.rs:536-559 | For a checkpoint in the window the sender recovers it and every frame identifier still in flight, through both expansions |
| `StreamModel.WithoutMembers` | src/sender/stream.rs:302-307 | Purging leaves exactly the packets of other frames |
| `StreamModel.DropInTwo` | src/sender/stream.rs:237-300 | Releasing frames in two goes is releasing them at once |
| `Nacks.NackByPosition` | src/sender/stream.rs:309-338 | Every packet of a frame in flight can be asked for by its position if and only if the frame has at most 65535 packets |
| `Nacks.NackByHeader` | src/sender/stream.rs:309-338 | For a frame of any size: a NACK brings back exactly the packets whose header carries the identifier it names, if and only if that is not 0xFFFF and the packets that share it are alike |
| `Nacks.NacksQueue` | src/sender/event_loop.rs:557-569 | NACKs that come down to one frame queue its packets behind what is queued, in order |
| `Nacks.FieldQueuesDenoted` | src/rtcp.rs:196-225 | From wire to queue, in a report with any checkpoint: a loss field queues exactly the packets whose headers carry the identifiers it denotes, if and only if the frame lies within -128..127 of the checkpoint and 0xFFFF is not among these, or it lies outside and the field denotes none of its packets |
| `Nacks.FieldsAreExact` | src/rtcp.rs:196-225 | For a frame of any size and a report with any checkpoint: every loss field naming packets of the frame queues exactly those, if and only if the frame has at most 65535 packets and lies within -128..127 of the checkpoint |
| `Nacks.CurrentReportReaches` | src/sender/event_loop.rs:536-559 | A checkpoint in the window reaches every frame in flight |
| `Nacks.StaleNackIsHarmless` | src/sender/event_loop.rs:557-559 | A NACK for a frame above its own report's checkpoint, in flight or not, names that frame or none in flight |
| `Nacks.NackGoesAstray` | src/sender/event_loop.rs:557-559 | A NACK for an earlier frame lands on another frame in flight if and only if that one is a multiple of 256 later and within reach of the signed byte |
| `Nacks.NackOfFrameInFlight` | src/sender/event_loop.rs:557-559 | A NACK for a frame in flight, expanded against any checkpoint, names that frame or none in flight |
| `Nacks.RetiredNackLandsElsewhere` | src/sender/event_loop.rs:557-559 | A reachable world in which a NACK for retired frame 0 at checkpoint 255 names frame 256, which is in flight |
| `Cutting.SequenceIsConsecutive` | src/rtp.rs:75-107 | Over every run, with feedback, sending and refused frames in between: the j-th packet ever cut carries the initial sequence number plus j modulo 2^16 |
| `Cutting.DelaysAreConserved` | src/sender/stream.rs:160-167 | Over every run: delays announced are those decoded from all packets ever cut, plus those replaced before a frame was accepted, plus one if one is still to go |
| `Cutting.DelaysAreDelivered` | src/sender/stream.rs:160-167 | Over every run the list of delays decoded from all packets ever cut is the list of announced ones that no later one replaced before a frame was accepted, modulo 2^16, and the delay waiting is the one announced last |
| `Cutting.AcknowledgedOnce` | src/sender/event_loop.rs:538-556 | Over every run and whatever feedback arrives: each identifier is acknowledged exactly once if it has left the window, and otherwise never |
| `Cutting.LeavesWhenAcked` | src/sender/event_loop.rs:538-556 | In every step a frame leaves if and only if that step acknowledges it, and only frames in flight are acknowledged |
| `Cutting.DelayInFirstPacket` | src/rtp.rs:95-103 | A frame cut with a delay carries it, modulo 2^16, in its first packet and in no other |
| `Cutting.DelayWaits` | src/sender/stream.rs:203-207 | Only an accepted frame or a newer announcement touches a delay that waits |
| `StreamState.Lookup` | src/sender/stream.rs:243-249 | A slot holds the frame asked for if and only if that frame is in flight |
| `StreamState.Emptied` | src/sender/stream.rs:243-254 | Emptying a slot removes exactly its frame from the map the ring stands for |
| `StreamState.Filled` | src/sender/stream.rs:175-181 | Filling the next slot adds exactly the next frame |
| `StreamState.NextSlotEmpty` | src/sender/stream.rs:149-151 | Below the span limit the next slot is empty, so nothing is overwritten |
| `StreamState.StreamState.constructor` | src/sender/stream.rs:95-134 | A new stream is empty, with its first identifier 0, checkpoint -1, the given sequence number and no delay waiting |
| `StreamState.StreamState.EnqueueFrame` | src/sender/stream.rs:136-188 | On the 120-slot ring: refuses for the stated reason, counts it and uses up neither sequence numbers nor the waiting delay; or encrypts, packetizes, queues and stores the frame under the next identifier, with the sequence number moved on by its packets |
| `StreamState.StreamState.RejectFrame` | src/sender/stream.rs:190-193 | Counts the rejection and changes nothing else |
| `StreamState.StreamState.SetTargetPlayoutDelay` | src/sender/stream.rs:203-207 | The delay waits for the next accepted frame and nothing else changes |
| `StreamState.StreamState.InFlightCount` | src/sender/stream.rs:209-211 | Counting occupied slots gives the number of frames in flight |
| `StreamState.StreamState.AcknowledgeUpTo` | src/sender/stream.rs:237-258 | Releases, in order and once each, exactly the frames up to the identifier, and moves the checkpoint |
| `StreamState.StreamState.AcknowledgeBitvector` | src/sender/stream.rs:265-300 | Releases, in order and once each, exactly the frames whose bit is set |
| `StreamState.Retain` | src/sender/stream.rs:302-307 | The loop over a queue keeps exactly the packets of other frames, in order |
| `StreamState.StreamState.CancelQueuedFrame` | src/sender/stream.rs:302-307 | In both queues exactly the packets of other frames stay |
| `StreamState.StreamState.HandleNack` | src/sender/stream.rs:309-338 | Queues all packets, the named one or none, and returns how many |
| `StreamState.StreamState.NextPacket` | src/sender/stream.rs:341-354 | Takes a retransmission first, then a new packet |
| `StreamState.StreamState.ApplyFeedback` | src/sender/event_loop.rs:526-569 | One feedback packet on the live stream does what the model says, lists each newly retired frame once, and says for each NACK which frame it means and how many packets it brought back |
| `Rtp.RtpPacketizer.constructor` | src/rtp.rs:27-36 | Room for a payload is the packet size less 23 bytes of header |
| `Rtp.RtpPacketizer.Packetize` | src/rtp.rs:38-112 | The loop yields the packets of the frame and advances the sequence number by their number modulo 2^16 |
| `Rtp.PacketCount` | src/rtp.rs:47-52 | At least one packet, and exactly as many as the payload needs |
| `Rtp.PacketAt` | src/rtp.rs:56-111 | Every packet fits the maximum packet size |
| `Rtp.BaseHeaderFields` | src/rtp.rs:72-93 | Each header field reads back: marker only on the last packet, sequence number, timestamp, source, key flag, packet identifiers, referenced frame |
| `Rtp.DecodePacket` | src/rtp.rs:56-111 | An independent decoder recovers every field, the playout delay and the chunk from each packet |
| `Rtp.ReassembleAnyArrival` | src/rtp.rs:38-112 | Packets taken in any order with duplicates reassemble to the payload if and only if the frame has at most 65536 packets |
| `Rtp.MediaIsRecognised` | src/rtp.rs:123-149 | A packet of the packetizer is classified as media of its source if and only if the payload type is at least 96 |
| `Crypto.FrameCrypto.constructor` | src/crypto.rs:14-16 | Keeps the key's cipher and the mask |
| `Crypto.FrameCrypto.BuildNonce` | src/crypto.rs:18-25 | The array built in place is the masked nonce |
| `Crypto.FrameCrypto.Encrypt` | src/crypto.rs:27-31 | In place, the data becomes its combination with the counter-mode key stream |
| `Crypto.EncryptTwice` | src/crypto.rs:27-36 | For every cipher, encrypting twice restores the data |
| `Crypto.MaskedIdInjective` | src/crypto.rs:18-25 | Masked identifiers agree if and only if the identifiers agree modulo 2^32 |
| `Crypto.NonceValue` | src/crypto.rs:18-25 | As a number the nonce is a mask-dependent offset plus the masked identifier times 2^32 |
| `Crypto.CountersDisjoint` | src/crypto.rs:18-31 | For every mask and for frames of at most 2^32 blocks, two counter blocks agree modulo 2^128 if and only if the identifiers agree modulo 2^32 and the block indices agree |
| `Clocks.MediaToRtpIsTicks` | src/sender/stream.rs:480-485 | For every duration and timebase the timestamp is the exact tick count, rounded down, modulo 2^32 |
| `Clocks.SenderReportWithinOneTick` | src/sender/stream.rs:376-393 | The projected timestamp is the exact one or one tick off, in a known direction, for reports before and after the frame |
| `Clocks.NtpFields` | src/ntp.rs:14-33 | Seconds and fraction of a timestamp are those of the time, the seconds modulo 2^32 |
| `Clocks.FractionRoundTrip` | src/ntp.rs:14-25 | The fraction loses exactly one nanosecond unless the nanoseconds are a multiple of 5^9 |
| `Clocks.NtpRoundTrip` | src/ntp.rs:14-25 | The round trip loses at most one nanosecond if and only if the time is before the end of the first NTP era; after it, more than a second |
| `Rtcp.ParseCompound` | src/rtcp.rs:63-96 | The loop over packets computes the recursive specification on every byte string |
| `Rtcp.ParseFront` | src/rtcp.rs:63-119 | One packet with its header checks |
| `Rtcp.Front` | src/rtcp.rs:104-119 | Every accepted packet takes at least four bytes and stays within the data |
| `Rtcp.ParsePacket` | src/rtcp.rs:74-172 | Dispatch by packet type |
| `Rtcp.ParseReceiverReport` | src/rtcp.rs:121-149 | The loop over report blocks computes the specification, including truncation |
| `Rtcp.ParseLossField` | src/rtcp.rs:196-225 | The loop over the bits of a loss field computes the specification, including the refusal of overflowing identifiers |
| `Rtcp.ParseCastFeedback` | src/rtcp.rs:174-262 | Feedback with its loss fields and acknowledgement bitvector |
| `Rtcp.ParseExtendedReports` | src/rtcp.rs:264-298 | The loop over report blocks computes the specification |
| `Rtcp.AcceptedIsPartitioned` | src/rtcp.rs:63-96 | Accepted input is divided exactly by its length fields |
| `Rtcp.PartitionedIsWords` | src/rtcp.rs:63-96 | Such input is a whole number of 32-bit words |
| `Rtcp.ParseConcat` | src/rtcp.rs:63-96 | Parsing a concatenation is parsing the second part and appending it to the first, when the first is accepted |
| `Rtcp.LossFieldMeaning` | src/rtcp.rs:196-225 | A loss field for all packets is passed on as one; any other expands to exactly the packets it denotes, in ascending order, and is refused if and only if one of them exceeds 65535 |
| `Rtcp.FollowingMembers` | src/rtcp.rs:210-224 | The packets behind the first one are exactly those whose bit is set |
| `FeedbackWire.FeedbackRoundTrip` | src/rtcp.rs:174-262 | For every message a receiver can send, parsing its bytes gives its meaning |
| `FeedbackWire.LossesReadBack` | src/rtcp.rs:190-228 | Written loss fields are read back in order |
| `FeedbackWire.AckReadBack` | src/rtcp.rs:230-250 | A written acknowledgement bitvector, or its absence, is read back |
| `FeedbackWire.PayloadReadBack` | src/rtcp.rs:174-262 | A written feedback payload is read back field by field |
| `Pacing.BurstBudget.constructor` | src/sender/event_loop.rs:84-97 | Starts full |
| `Pacing.BurstBudget.Refill` | src/sender/event_loop.rs:99-119 | Updates whole bytes and remainder in place and keeps both in range |
| `Pacing.BurstBudget.Consume` | src/sender/event_loop.rs:125-128 | Saturates at zero |
| `Pacing.RefillIsExact` | src/sender/event_loop.rs:99-119 | Bytes and remainder together are an exact token bucket: the level grows by elapsed time times rate, up to the capacity |
| `Pacing.RefillSplits` | src/sender/event_loop.rs:99-119 | Splitting an interval into refills changes nothing |
| `Pacing.LevelDetermines` | src/sender/event_loop.rs:76-81 | The exact level determines both fields |
| `Pacing.ConsumeFromLevel` | src/sender/event_loop.rs:121-128 | Spending with credit lowers the level by the bytes sent, short of at most one packet less a byte |
| `Pacing.OverdrawIsExact` | src/sender/event_loop.rs:121-128 | Spending overdraws the level if and only if the packet is longer than the whole bytes left, and by exactly the excess |
| `Watchdogs.AcknowledgementWatchdog.RecordPacketSent` | src/sender/event_loop.rs:34-37 | Arms an idle watchdog and leaves an armed one alone |
| `Watchdogs.AcknowledgementWatchdog.AcknowledgementAdvanced` | src/sender/event_loop.rs:39-42 | Restarts or disarms |
| `Watchdogs.AcknowledgementWatchdog.Poll` | src/sender/event_loop.rs:44-57 | Reports a timeout, and disarms when nothing is in flight |
| `Watchdogs.ReplayMeaning` | src/sender/event_loop.rs:33-57 | The two fields summarise the whole history: waiting since the first packet after the last progress, or since that progress |
| `Watchdogs.TimeoutMeaning` | src/sender/event_loop.rs:44-57 | A timeout means the stated limit has passed since the wait began and since every retirement: five seconds, ten before the first |
| `Watchdogs.SendingNeverPostpones` | src/sender/event_loop.rs:34-37 | Sending does not move an armed deadline |
| `Session.SessionSafety` | src/sender/event_loop.rs:179-431 | Over every run, with Sender Reports, receive errors and send failures: RTP bytes sent are within capacity plus rate times time plus one packet less a byte per flush; the terminal event is never lost and two slots stay free until the end; every stream keeps its invariant, and an armed watchdog has a frame in flight |
| `Bursts.BoundIsAttained` | src/sender/event_loop.rs:433-485 | For every number of flushes and every packet size some run sends exactly as much as that bound allows |
| `Bursts.FlushBurst` | src/sender/event_loop.rs:463-485 | A flush whose last packet finds one byte of credit sends it whole |
| `Session.StepKeeps` | src/sender/event_loop.rs:179-431 | Every turn of the loop keeps the session's invariant |
| `Session.RunKeeps` | src/sender/event_loop.rs:179-431 | Every run keeps it |
| `Session.PollIsExact` | src/sender/event_loop.rs:407-428 | The supervision tick ends the session if and only if some stream has gone past its limit without progress, and otherwise changes nothing but the time |
| `Session.OnlyProgressPostpones` | src/sender/event_loop.rs:322-335 | No step moves a stream's deadline, neither its start nor its limit, except feedback that newly retires a frame of that very stream |
| `Session.DeadlineMeaning` | src/sender/event_loop.rs:44-57 | With frames in flight a watchdog times out exactly from its deadline on, and an unmoved one keeps that deadline |
| `Session.RunNeverPostpones` | src/sender/event_loop.rs:179-431 | Over every run in which a stream retires nothing its deadline stays |
| `Session.SilenceIsNoticed` | src/sender/event_loop.rs:407-428 | A waiting stream that makes no progress through any run is timed out at a later poll if and only if its original deadline has passed |
| `Session.FlushLaneSpends` | src/sender/event_loop.rs:463-485 | A flush spends no more than its budget, short of one packet less a byte |
| `Session.FlushKeeps` | src/sender/event_loop.rs:433-461 | A flush keeps the session's invariant |
| `Session.FeedbackKeeps` | src/sender/event_loop.rs:508-601 | Feedback to either stream keeps the session's invariant |
| `Session.FeedbackNeverPostpones` | src/sender/event_loop.rs:538-546 | Duplicate acknowledgements, NACKs and the other stream's progress leave start and limit of a deadline alone |
| `Session.FlushNeverPostpones` | src/sender/event_loop.rs:479-482 | Sending leaves deadlines and the frames in flight alone |
| `EventLoop.FlushStreamPackets` | src/sender/event_loop.rs:463-485 | On live objects: sends while there is credit, arming the watchdog and spending the budget, and stops at the first transport failure |
| `EventLoop.FlushQueuedPackets` | src/sender/event_loop.rs:433-461 | Refills once, then audio before video on the same budget |
| `EventLoop.RouteFeedback` | src/sender/event_loop.rs:526-569 | Feedback reaches the stream whose source it names, and only from that stream's receiver, and yields its events |
| `EventLoop.ProcessFeedback` | src/sender/event_loop.rs:526-570 | All Cast feedback packets of a compound in order, with the progress of each stream and, for each packet, its events: every frame newly acknowledged, once, then every NACK with what it brought back |
| `EventLoop.AdvanceWatchdog` | src/sender/event_loop.rs:322-335 | Progress restarts the stream's watchdog, or disarms it with nothing in flight |
| `EventLoop.HandleFeedback` | src/sender/event_loop.rs:315-335 | Streams and watchdogs after one datagram are those of the session model, with the events of each feedback packet |
| `EventLoop.PollWatchdogs` | src/sender/event_loop.rs:407-428 | Asks both watchdogs and ends the session if either timed out |
| `EventLoop.AcknowledgingAdvances` | src/sender/event_loop.rs:538-546 | Something was acknowledged if and only if a frame was newly retired |
| `Varint.ReadMeaning` | src/control/proto.rs:164-185 | A closed form of what every decoder says, on every input: the number spelled up to the terminator, non-minimal forms included, if it takes at most ten bytes and is below 2^64; truncated without a terminator in up to nine bytes; otherwise overflow |
| `Varint.ReadTerminated` | src/control/proto.rs:164-185 | The same for input with a terminator in a known place |
| `Varint.EncodeRoundTrip` | src/control/proto.rs:138-185 | Every 64-bit value reads back, with its length, in front of any bytes |
| `Varint.EncodeTestFirst` | src/control/proto.rs:138-147 | The loop that tests before shifting writes the encoding |
| `Varint.EncodeShiftFirst` | src/control/auth.rs:703-715 | The loop that shifts before testing writes the same encoding |
| `Varint.DecodeAt` | src/control/proto.rs:164-185 | The loop with a cursor computes the same reading on every input |
| `Varint.TakeFromSlice` | src/control/auth.rs:686-701 | The loop that consumes a slice computes the same reading on every input |
| `Varint.PrefixResumes` | src/android_tv/framing.rs:35-56 | Reading may stop after any unfinished prefix and resume with the value and shift so far |
| `Varint.OneMoreByte` | src/android_tv/framing.rs:35-56 | What one more byte does to an unfinished length |
| `Varint.ReadIsStable` | src/control/proto.rs:164-185 | A finished reading is not changed by later bytes |
| `Protobuf.FieldRoundTrip` | src/control/auth.rs:717-726 | A written field is read back in front of any bytes |
| `Protobuf.FieldsRoundTrip` | src/control/auth.rs:647-726 | A written sequence of fields is read back |
| `Protobuf.TakeField` | src/control/auth.rs:647-671 | One field with its tag, on every input |
| `Protobuf.TakeContent` | src/control/auth.rs:655-684 | The content of each wire type, with truncation and unknown types refused |
| `Protobuf.ParseFields` | src/control/auth.rs:647-675 | The loop keeps numbers and byte strings and skips fixed-width fields |
| `Protobuf.ScanTopLevel` | src/android_tv/remote_session.rs:468-491 | The loop lists the field numbers or refuses |
| `Protobuf.ScannersAgree` | src/android_tv/remote_session.rs:468-491 | The two scanners accept the same inputs and agree on their fields |
| `CastMessages.MessageRoundTrip` | src/control/proto.rs:18-101 | Every message, followed by any well-formed unknown fields, decodes to itself |
| `CastMessages.PlainRoundTrip` | src/control/proto.rs:18-101 | Decoding an encoded message gives it back |
| `CastMessages.UnknownFieldsIgnored` | src/control/proto.rs:73-85 | Well-formed unknown fields change nothing |
| `CastMessages.DecodeConcat` | src/control/proto.rs:46-87 | Decoding goes field by field: later fields continue from what earlier ones left |
| `CastMessages.EncodeMessage` | src/control/proto.rs:18-35 | The field-by-field encoder writes the message |
| `CastMessages.DecodeMessage` | src/control/proto.rs:37-101 | The cursor loop computes the decoding on every input, with its errors |
| `CastMessages.DecodeField` | src/control/proto.rs:46-87 | One field advances the cursor past it or fails |
| `CastMessages.DecodeBytes` | src/control/proto.rs:187-202 | A length-delimited value within the data, or truncation |
| `CastMessages.EncodeVarintField` | src/control/proto.rs:149-152 | Appends the field |
| `CastMessages.EncodeBytesField` | src/control/proto.rs:154-158 | Appends the field |
| `Framing.DivideResumes` | src/control/framing.rs:31-86 | Dividing a stream into frames may stop and resume anywhere |
| `Framing.DeliveredIsPrefix` | src/control/framing.rs:31-86 | What was delivered from the first bytes is a prefix of what the whole stream divides into |
| `ControlFraming.ScanMessageIsScanner` | src/control/framing.rs:31-86 | A decision on the front message is not changed by later bytes |
| `ControlFraming.FramedReader.constructor` | src/control/framing.rs:20-29 | Starts between messages |
| `ControlFraming.FramedReader.ReadMessage` | src/control/framing.rs:31-85 | For any sizes of reads and cancellation after any of them: returns the front message, its error, or keeps everything read for the next call |
| `ControlFraming.FramedReader.ReadMany` | src/control/framing.rs:31-85 | Over any calls, reads and cancellations the messages are those of the whole stream, and so is the error |
| `ControlFraming.FramedReader.ReadLength` | src/control/framing.rs:32-44 | Fills the length bytes across calls |
| `ControlFraming.FramedReader.StartBody` | src/control/framing.rs:46-62 | Refuses empty and oversized messages before allocating |
| `ControlFraming.FramedReader.ReadBody` | src/control/framing.rs:64-76 | Fills the body across calls |
| `ControlFraming.FramedReader.FinishMessage` | src/control/framing.rs:78-85 | Decodes the body and goes back between messages |
| `ControlFraming.WrittenIsRead` | src/control/framing.rs:97-104 | Every written message, whatever its size, reads back if and only if it is at most 1 MiB; a larger one is refused as too large as long as its length fits 32 bits |
| `ControlFraming.StreamRoundTrip` | src/control/framing.rs:31-104 | Reading what was written gives back the sequence of messages |
| `RemoteFraming.ScanFrameIsScanner` | src/android_tv/framing.rs:33-90 | A decision on the front frame is not changed by later bytes |
| `RemoteFraming.FramedReader.constructor` | src/android_tv/framing.rs:22-31 | Starts between frames |
| `RemoteFraming.FramedReader.TakeLengthByte` | src/android_tv/framing.rs:35-56 | One byte of the length: done, continued or overflow |
| `RemoteFraming.FramedReader.ReadFrame` | src/android_tv/framing.rs:33-89 | For any sizes of reads and cancellation after any of them: returns the front frame, its error, or keeps everything read |
| `RemoteFraming.FramedReader.ReadMany` | src/android_tv/framing.rs:33-89 | Over any calls, reads and cancellations the frames are those of the whole stream, and so is the error |
| `RemoteFraming.FramedReader.StartBody` | src/android_tv/framing.rs:58-67 | Refuses empty and oversized frames before allocating |
| `RemoteFraming.WriteMessage` | src/android_tv/framing.rs:108-127 | Refuses empty and oversized messages, otherwise writes length and body |
| `RemoteFraming.WrittenIsRead` | src/android_tv/framing.rs:33-127 | A written message is the front frame, whatever follows |
| `RemoteFraming.StreamRoundTrip` | src/android_tv/framing.rs:33-127 | Reading what was written gives back the sequence of frames |
| `Chunked.ScanChunkedBody` | src/setup.rs:206-248 | The loop over chunks computes the specification on every input |
| `Chunked.DecodeBody` | src/setup.rs:316-347 | The loop over chunks computes the specification on every input |
| `Chunked.FindIsFirst` | src/setup.rs:209-212 | The search for a line end returns the first one |
| `Chunked.ScanIsStable` | src/setup.rs:206-248 | Once an end or an error was found, later bytes do not change it |
| `Chunked.ExtentDecodes` | src/setup.rs:206-347 | When the scanner finds the end, the decoder accepts exactly those bytes, within the limit, with the same result as on everything received |
| `Chunked.ExtentInPrefix` | src/setup.rs:206-248 | The end is found as soon as the body has arrived |
| `Chunked.ScannerOnDecodable` | src/setup.rs:206-248 | The scanner's whole verdict on a body that decodes: too large if and only if its chunks with their framing exceed 64 KiB; undecided if and only if otherwise the trailers do not end; else exactly their end |
| `Chunked.DecodableButOpen` | src/setup.rs:206-347 | A last size line without trailers decodes and leaves the scanner undecided |
| `Chunked.ChunkedRoundTrip` | src/setup.rs:206-347 | For every way of writing sizes that the parser reads: sent chunks decode to their contents if and only if these are within the limit, and their end is found if and only if the framed chunks are |
| `SetupResponse.ReadHttpResponse` | src/setup.rs:127-152 | The reading loop computes the specification for any reads |
| `SetupResponse.VerdictIsStable` | src/setup.rs:173-204 | A verdict on what has arrived is the verdict on everything that will, except that headers given up as too large may turn out malformed |
| `SetupResponse.EndIsKnown` | src/setup.rs:173-204 | When a response has arrived in full, its end is known |
| `SetupResponse.ArrivalsDoNotMatter` | src/setup.rs:127-152 | Every success is the response in the whole stream; for streams within 80 KiB the outcome, response or error, is that of the whole stream for all reads, except that a malformed header may be given up as too large first |
| `SetupResponse.OversizedIsRefused` | src/setup.rs:141-143 | A stream past the limit whose response does not end within it is refused for all reads |
| `SetupResponse.ArrivalsMatterExactly` | src/setup.rs:141-150 | A response ending within the limit is returned for every way the stream can arrive if and only if the stream is within the limit or the response ends a buffer before it |
| `SetupResponse.ReadSizesDecide` | src/setup.rs:141-150 | A concrete stream, one byte past the limit, that is accepted or refused depending on the reads |
| `RequestIds.AllocateId` | src/control/mod.rs:1394-1402 | Terminates while an identifier is free, returns the first free one in cyclic order, never zero and never pending, and leaves the counter behind it |
| `RequestIds.FirstFreeIsFirst` | src/control/mod.rs:1394-1402 | All identifiers tried before the one found are pending, at most one per pending request |
| `Pending.CompletingConserves` | src/control/mod.rs:1155-1280 | Completing entries moves each waiting reply channel into the log exactly once |
| `ControlRuns.ExactlyOnce` | src/control/mod.rs:786-1045 | Over every run: a reply channel handed over once is either waited on by exactly one pending entry and unused, or no longer pending and used exactly once; after the end nothing is pending |
| `ControlRuns.RunConserves` | src/control/mod.rs:786-1045 | Over every run and for every channel: entries waiting plus uses equals times handed over |
| `ControlRuns.NextConserves` | src/control/mod.rs:797-1031 | Each turn adds exactly the channels handed over in it |
| `ControlRuns.NothingIsLeft` | src/control/mod.rs:1033-1045 | Ending the loop fails everything still pending |
| `ControlReplies.RepliesAreExact` | src/control/mod.rs:1047-1280 | In every state and for every message exactly the matching requests leave their tables, each told once what the message means for it, and nothing else is completed |
| `ControlReplies.EveryReplyIsExplained` | src/control/mod.rs:786-1045 | After any run every use of a reply channel goes back to one turn and one of four reasons: the caller gave up on a pending request; its own command was carried out, with the reply that fits the write; a message told a request matching by identifier, operation and route or a stated fallback; or the loop ended with the request still pending |
| `ControlReplies.NewRepliesAreTold` | src/control/mod.rs:1047-1280 | Everything a message puts into reply channels is told to a matching request |
| `ControlReplies.ErrorMatches` | src/control/mod.rs:1225-1257 | An error fails the request it names or, naming none, the one request it can be about |
| `ControlReplies.ReceiverLookup` | src/control/mod.rs:1155-1257 | The lookups on the receiver namespace find exactly the matching requests |
| `ControlReplies.OfferLookup` | src/control/mod.rs:1210-1280 | The lookups on the streaming namespace find exactly the matching offers |
| `ControlReplies.OneTable` | src/control/mod.rs:870-880 | A message matches in one table only |
| `ControlApps.LifecycleBalances` | src/control/mod.rs:1282-1300 | Over every run and for every transport: times an application became known equals times reported as stopped, plus one if known now |
| `ControlApps.NextAccounts` | src/control/mod.rs:852-884 | In each turn an application is reported as stopped if and only if it stopped being known |
| `ControlApps.PublishAccounts` | src/control/mod.rs:1282-1300 | A status reports exactly the applications it no longer lists, once each |
| `ControlApps.LastListedIsKnown` | src/control/mod.rs:1287-1292 | Of several applications with one transport the last listed is known |
| `ControlApps.KnownIsListed` | src/control/mod.rs:1287-1292 | Every known application was listed in the status |
| `ControlLoop.Channel.constructor` | src/control/mod.rs:786-793 | Starts with empty tables and all counters at one |
| `ControlLoop.Channel.Turn` | src/control/mod.rs:797-1045 | One turn on the live tables, with its end, is one step of the model |
| `ControlLoop.Channel.RetainOpen` | src/control/mod.rs:798-800 | Drops exactly the entries whose caller gave up |
| `ControlLoop.Channel.ReceiveMessage` | src/control/mod.rs:831-885 | Heartbeats, closed transports and dispatch by namespace |
| `ControlLoop.Channel.DispatchProductInfoMessage` | src/control/mod.rs:1047-1093 | Only from the receiver to this sender, by identifier and operation |
| `ControlLoop.Channel.DispatchJsonMessage` | src/control/mod.rs:1095-1153 | Dispatch by namespace, source and type, with malformed JSON ending the loop |
| `ControlLoop.Channel.CompleteReceiverStatus` | src/control/mod.rs:1155-1190 | Completes the named request, or else every launch whose application is shown |
| `ControlLoop.Channel.CompleteAvailability` | src/control/mod.rs:1192-1208 | Completes the named availability request |
| `ControlLoop.Channel.CompleteOffer` | src/control/mod.rs:1210-1223 | Completes the named offer if the answer comes from its destination |
| `ControlLoop.Channel.FailReceiverRequest` | src/control/mod.rs:1225-1257 | Fails the named request or the only one the error can be about, with the failure of its operation |
| `ControlLoop.Channel.FailOffer` | src/control/mod.rs:1259-1280 | Fails the named offer or the only one to that application, if it went there |
| `ControlLoop.Channel.FailOffersForDestination` | src/control/mod.rs:1411-1427 | Fails every offer to a closed transport |
| `ControlLoop.Channel.PublishReceiverStatus` | src/control/mod.rs:1282-1300 | Reports stopped applications, replaces the known ones, publishes the status |
| `ControlLoop.Channel.TakeApp` | src/control/mod.rs:1404-1409 | Removes and reports one application |
| `ControlLoop.Channel.PerformCommand` | src/control/mod.rs:887-1010 | Each command allocates and registers its request, or answers at once |
| `ControlLoop.Channel.FailPending` | src/control/mod.rs:1429-1450 | Empties the three tables into failures |
| `ControlLoop.FindOnly` | src/control/mod.rs:1230-1245 | Two draws from an iterator decide whether a match is the only one |
| `ControlLoop.ParseListed` | src/control/mod.rs:1302-1339 | Keeps the applications with both identifiers, in order |

## Left out

- TLS, TCP, UDP and mDNS, certificates, signatures and device identity: input and output over other libraries, or foreign cryptography.
- AES itself: a cipher is any function on blocks.
- JSON text and the shapes of offers, answers and device information: a message is the record of fields the control loop looks at.
- HTTP header parsing and the text of chunk-size lines: parameters, as said above; the body decoding that follows a complete response is modelled only for chunked bodies.
- Android TV pairing, keys and session handshake: linear exchanges; only the framing and the field scanner are modelled.
- System times before 1970, which the source maps to the epoch.
- Scheduling: each turn of a loop happens at one time, and `select!` is any choice of the next input. A write that times out is a write that failed.
- Statistics, round-trip times, jitter, playout-delay updates from receivers, reference times, picture-loss events and counters of packets and octets: they do not influence what the models state.
- `in_flight_media_duration` and `max_acceptable_in_flight_duration`: reported to callers, and not part of any decision of the sender.
- Identifiers and counters are unbounded where the source has 64-bit ones that a run cannot exhaust (frame identifiers, media time); 8-, 16- and 32-bit wrap-around and the saturating counters are modelled.
- The order of events across the two channels of the control loop's callers: replies and events are each kept in order, and the time between them is not.
- What the control loop writes (requests, PONG, teardown) is modelled only by whether the write succeeded.
- A caller that gives up is seen at the start of a turn, where the source drops its entry; a reply put into its channel before that is counted as a use of the channel.
- ControlFraming.FramedReader.ReadMessage: says nothing about calls after a malformed or oversized message; the source ends the connection there.
- RemoteFraming.FramedReader.ReadFrame: says nothing about calls after an error, for the same reason.
- EventLoop.ProcessFeedback: leaves out receiver reports, playout-delay updates, reference times and picture loss, and gives the events before the channel's limit on them; that limit is in `Session`.
- How many events a feedback packet emits is an input of the session's step: what is proved of the session holds for every number.
- Bursts.BoundIsAttained: its runs use packets of one byte, as the session model allows; the packetizer's headers alone are longer.
- The contents of Sender Reports: sending them is a turn of the session that may fail, and nothing else of it is modelled but the projected timestamp.
- RequestIds.AllocateId: requires a free identifier; with all 2^32 - 1 pending the source searches forever.
