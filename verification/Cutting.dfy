/**
 How accepted frames become packets over the life of a stream
 (src/sender/stream.rs, src/rtp.rs): every frame is encrypted under its
 identifier and cut with the next sequence numbers, and an announced playout
 delay goes out with the next frame.
 */
module Cutting {
  import opened Bytes
  import opened Rtcp
  import opened StreamModel
  import Clocks
  import Crypto
  import Rtp

  /** What a stream is set up with. */
  datatype Settings = Settings(
    source: Rtp.Source,
    maxPayload: nat,
    timebase: u32,
    cipher: Crypto.Cipher,
    mask: Crypto.Block)

  /** A stream with its packetizer's next sequence number and the delay not yet sent. */
  datatype Sender = Sender(stream: Stream, sequence: u16, delay: Option<nat>)

  function HeaderFor(settings: Settings, s: Sender, frame: Frame): Rtp.FrameHeader {
    var id := s.stream.nextFrameId;
    Rtp.FrameHeader(id, frame.keyFrame, if frame.keyFrame then id else id - 1,
                    Clocks.MediaToRtp(frame.mediaTimestamp, settings.timebase), s.delay)
  }

  /** The packets of a frame accepted now. */
  function PacketsFor(settings: Settings, s: Sender, frame: Frame): (packets: seq<Rtp.Packet>)
    requires settings.maxPayload > 0
    ensures packets != []
  {
    Rtp.Packets(settings.source, settings.maxPayload, HeaderFor(settings, s, frame), s.sequence,
                Crypto.Encrypted(settings.cipher, settings.mask, s.stream.nextFrameId, frame.data))
  }

  /** A refused frame uses up neither sequence numbers nor the delay. */
  function Submitted(settings: Settings, s: Sender, frame: Frame): Sender
    requires settings.maxPayload > 0
  {
    if Refusal(s.stream, frame).Some? then s.(stream := Reject(s.stream))
    else
      var packets := PacketsFor(settings, s, frame);
      Sender(Accept(s.stream, frame, packets), (s.sequence + |packets|) % 0x1_0000, None)
  }

  // ----- Runs --------------------------------------------------------------

  datatype Step =
    | Submit(frame: Frame)
    | SetDelay(delay: nat)
    | Feedback(feedback: CastFeedback)
    | Send

  /** A frame as it was cut. */
  datatype CutFrame = CutFrame(header: Rtp.FrameHeader, packets: seq<Rtp.Packet>)

  /** A sender with the frames it has cut so far. */
  datatype History = History(sender: Sender, frames: seq<CutFrame>)

  function Accepts(h: History, step: Step): bool {
    step.Submit? && Refusal(h.sender.stream, step.frame).None?
  }

  function Do(settings: Settings, h: History, step: Step): History
    requires settings.maxPayload > 0
  {
    match step
    case Submit(frame) =>
      var cut := CutFrame(HeaderFor(settings, h.sender, frame), PacketsFor(settings, h.sender, frame));
      History(Submitted(settings, h.sender, frame), if Accepts(h, step) then h.frames + [cut] else h.frames)
    case SetDelay(delay) => h.(sender := h.sender.(delay := Some(delay)))
    case Feedback(feedback) => h.(sender := h.sender.(stream := Apply(h.sender.stream, feedback)))
    case Send =>
      if Sendable(h.sender.stream) then h.(sender := h.sender.(stream := AfterSend(h.sender.stream))) else h
  }

  function Run(settings: Settings, h: History, steps: seq<Step>): History
    requires settings.maxPayload > 0
  {
    if steps == [] then h
    else Do(settings, Run(settings, h, steps[..|steps| - 1]), steps[|steps| - 1])
  }

  function Initial(sequence: u16): History { History(Sender(NEW, sequence, None), []) }

  /** Everything ever cut, in order. */
  function AllPackets(frames: seq<CutFrame>): seq<Rtp.Packet> {
    if frames == [] then [] else AllPackets(frames[..|frames| - 1]) + frames[|frames| - 1].packets
  }

  // ----- Sequence numbers --------------------------------------------------

  ghost predicate Numbered(packets: seq<Rtp.Packet>, initial: u16) {
    forall j :: 0 <= j < |packets| ==>
      Rtp.Decode(packets[j]).Some? && Rtp.Decode(packets[j]).value.sequence == (initial + j) % 0x1_0000
  }

  lemma NumberedFrame(settings: Settings, s: Sender, frame: Frame)
    requires settings.maxPayload > 0
    ensures Numbered(PacketsFor(settings, s, frame), s.sequence)
  {
    hide Rtp.Decode, Rtp.PacketAt, Rtp.PacketCount, Crypto.Encrypted;
    var packets := PacketsFor(settings, s, frame);
    forall j | 0 <= j < |packets|
      ensures Rtp.Decode(packets[j]).Some? && Rtp.Decode(packets[j]).value.sequence == (s.sequence + j) % 0x1_0000
    {
      Rtp.DecodePacket(settings.source, settings.maxPayload, HeaderFor(settings, s, frame), s.sequence,
                       Crypto.Encrypted(settings.cipher, settings.mask, s.stream.nextFrameId, frame.data), j);
    }
  }

  lemma WrapSum(a: nat, b: nat)
    ensures (a % 0x1_0000 + b) % 0x1_0000 == (a + b) % 0x1_0000
  {
  }

  lemma NumberedAppend(a: seq<Rtp.Packet>, b: seq<Rtp.Packet>, initial: u16, next: u16)
    requires Numbered(a, initial) && Numbered(b, next) && next == (initial + |a|) % 0x1_0000
    ensures Numbered(a + b, initial)
  {
    hide Rtp.Decode;
    forall j | |a| <= j < |a + b|
      ensures Rtp.Decode((a + b)[j]).Some?
           && Rtp.Decode((a + b)[j]).value.sequence == (initial + j) % 0x1_0000
    {
      WrapSum(initial + |a|, j - |a|);
      assert (a + b)[j] == b[j - |a|];
    }
  }

  /** What was cut is numbered from `initial` on, and the packetizer goes on from there. */
  ghost predicate InSequence(h: History, initial: u16) {
    && Numbered(AllPackets(h.frames), initial)
    && h.sender.sequence == (initial + |AllPackets(h.frames)|) % 0x1_0000
  }

  lemma AcceptedInSequence(settings: Settings, h: History, frame: Frame, initial: u16)
    requires settings.maxPayload > 0 && InSequence(h, initial) && Accepts(h, Submit(frame))
    ensures InSequence(Do(settings, h, Submit(frame)), initial)
  {
    hide Numbered, PacketsFor, Accept, Refusal, AllPackets;
    var packets := PacketsFor(settings, h.sender, frame);
    NumberedFrame(settings, h.sender, frame);
    NumberedAppend(AllPackets(h.frames), packets, initial, h.sender.sequence);
    OneMoreFrame(h.frames, CutFrame(HeaderFor(settings, h.sender, frame), packets));
    WrapSum(initial + |AllPackets(h.frames)|, |packets|);
  }

  lemma OthersInSequence(settings: Settings, h: History, step: Step, initial: u16)
    requires settings.maxPayload > 0 && InSequence(h, initial) && !Accepts(h, step)
    ensures InSequence(Do(settings, h, step), initial)
  {
    hide Numbered, PacketsFor, Accept, Apply, AllPackets;
  }

  /**
   Over every run, with feedback, retransmission and refused frames in between,
   the j-th packet ever cut carries the j-th sequence number modulo 2^16.
   */
  lemma {:induction false} SequenceIsConsecutive(settings: Settings, initial: u16, steps: seq<Step>)
    requires settings.maxPayload > 0
    ensures InSequence(Run(settings, Initial(initial), steps), initial)
  {
    hide Do, Accepts;
    if steps != [] {
      hide InSequence;
      var h, step := Run(settings, Initial(initial), steps[..|steps| - 1]), steps[|steps| - 1];
      SequenceIsConsecutive(settings, initial, steps[..|steps| - 1]);
      if Accepts(h, step) {
        OnlyFramesAreAccepted(h, step);
        AcceptedInSequence(settings, h, step.frame, initial);
      } else {
        OthersInSequence(settings, h, step, initial);
      }
    }
  }

  lemma OnlyFramesAreAccepted(h: History, step: Step)
    requires Accepts(h, step)
    ensures step.Submit?
  {
  }

  lemma OneMoreFrame(frames: seq<CutFrame>, cut: CutFrame)
    ensures AllPackets(frames + [cut]) == AllPackets(frames) + cut.packets
  {
    assert (frames + [cut])[..|frames|] == frames;
  }

  // ----- Playout delays ----------------------------------------------------

  /** The delay announced last since a frame was last accepted, read off the calls. */
  function Latest(settings: Settings, h: History, steps: seq<Step>): Option<nat>
    requires settings.maxPayload > 0
  {
    if steps == [] then None
    else
      var before, step := steps[..|steps| - 1], steps[|steps| - 1];
      if step.SetDelay? then Some(step.delay)
      else if Accepts(Run(settings, h, before), step) then None
      else Latest(settings, h, before)
  }

  function OneDelay(delay: Option<nat>): seq<nat> { if delay.Some? then [delay.value % 0x1_0000] else [] }

  /** The announced delays that no later one replaced before a frame was accepted, in order, modulo 2^16. */
  function Surviving(settings: Settings, h: History, steps: seq<Step>): seq<nat>
    requires settings.maxPayload > 0
  {
    if steps == [] then []
    else
      var before, step := steps[..|steps| - 1], steps[|steps| - 1];
      Surviving(settings, h, before) +
      if Accepts(Run(settings, h, before), step) then OneDelay(Latest(settings, h, before)) else []
  }

  /** How many delays were announced, and how many of these before an earlier one had gone out. */
  function Announced(steps: seq<Step>): nat {
    if steps == [] then 0
    else Announced(steps[..|steps| - 1]) + if steps[|steps| - 1].SetDelay? then 1 else 0
  }

  function Replaced(settings: Settings, h: History, steps: seq<Step>): nat
    requires settings.maxPayload > 0
  {
    if steps == [] then 0
    else
      var before := steps[..|steps| - 1];
      Replaced(settings, h, before) +
      if steps[|steps| - 1].SetDelay? && Latest(settings, h, before).Some? then 1 else 0
  }

  /** The playout delays that a receiver decodes from packets, in order. */
  ghost function Delays(packets: seq<Rtp.Packet>): seq<nat> {
    if packets == [] then []
    else Delays(packets[..|packets| - 1]) + DelayIn(packets[|packets| - 1])
  }

  ghost function DelayIn(p: Rtp.Packet): seq<nat> {
    match Rtp.Decode(p)
    case None => []
    case Some(d) => if d.playoutDelay.Some? then [d.playoutDelay.value] else []
  }

  lemma {:induction false} DelaysAppend(a: seq<Rtp.Packet>, b: seq<Rtp.Packet>)
    ensures Delays(a + b) == Delays(a) + Delays(b)
  {
    hide DelayIn;
    if b == [] {
      assert a + b == a;
    } else {
      assert (a + b)[..|a + b| - 1] == a + b[..|b| - 1];
      DelaysAppend(a, b[..|b| - 1]);
    }
  }

  lemma {:induction false} DelaysFirst(packets: seq<Rtp.Packet>)
    requires packets != [] && forall i :: 0 < i < |packets| ==> DelayIn(packets[i]) == []
    ensures Delays(packets) == DelayIn(packets[0])
  {
    hide DelayIn;
    if |packets| == 1 {
      assert packets[..0] == [];
    } else {
      DelaysFirst(packets[..|packets| - 1]);
    }
  }

  /** A frame cut with a delay carries it in its first packet, in milliseconds modulo 2^16, and nowhere else. */
  lemma DelayInFirstPacket(settings: Settings, s: Sender, frame: Frame)
    requires settings.maxPayload > 0
    ensures
      var packets := PacketsFor(settings, s, frame);
      && DelayIn(packets[0]) == OneDelay(s.delay)
      && (forall i :: 0 < i < |packets| ==> DelayIn(packets[i]) == [])
      && Delays(packets) == OneDelay(s.delay)
  {
    hide Rtp.Decode, Rtp.PacketAt, Rtp.PacketCount, Crypto.Encrypted, Delays;
    var packets := PacketsFor(settings, s, frame);
    var data := Crypto.Encrypted(settings.cipher, settings.mask, s.stream.nextFrameId, frame.data);
    Rtp.DecodePacket(settings.source, settings.maxPayload, HeaderFor(settings, s, frame), s.sequence, data, 0);
    forall i | 0 < i < |packets|
      ensures DelayIn(packets[i]) == []
    {
      Rtp.DecodePacket(settings.source, settings.maxPayload, HeaderFor(settings, s, frame), s.sequence, data, i);
    }
    DelaysFirst(packets);
  }

  lemma AcceptedDelays(settings: Settings, h: History, frame: Frame)
    requires settings.maxPayload > 0 && Accepts(h, Submit(frame))
    ensures
      var v := Do(settings, h, Submit(frame));
      && v.sender.delay == None
      && Delays(AllPackets(v.frames)) == Delays(AllPackets(h.frames)) + OneDelay(h.sender.delay)
  {
    hide Delays, PacketsFor, Accept, Refusal, AllPackets, OneDelay;
    var packets := PacketsFor(settings, h.sender, frame);
    DelayInFirstPacket(settings, h.sender, frame);
    DelaysAppend(AllPackets(h.frames), packets);
    OneMoreFrame(h.frames, CutFrame(HeaderFor(settings, h.sender, frame), packets));
  }

  lemma OtherDelays(settings: Settings, h: History, step: Step)
    requires settings.maxPayload > 0 && !Accepts(h, step)
    ensures Do(settings, h, step).frames == h.frames
    ensures Do(settings, h, step).sender.delay == if step.SetDelay? then Some(step.delay) else h.sender.delay
  {
    hide PacketsFor, Accept, Apply;
  }

  lemma NoDelays()
    ensures Delays(AllPackets([])) == []
  {
  }

  /**
   Over every run the delays that the receiver decodes, from all packets ever
   cut, are exactly the announced ones that no later one replaced, in order and
   each once, modulo 2^16; the one announced last is still to go.
   */
  lemma {:induction false} DelaysAreDelivered(settings: Settings, initial: u16, steps: seq<Step>)
    requires settings.maxPayload > 0
    ensures
      var h := Run(settings, Initial(initial), steps);
      && Delays(AllPackets(h.frames)) == Surviving(settings, Initial(initial), steps)
      && h.sender.delay == Latest(settings, Initial(initial), steps)
  {
    hide Do, Accepts, Delays, OneDelay, AllPackets;
    if steps == [] {
      NoDelays();
    } else {
      var before, step := steps[..|steps| - 1], steps[|steps| - 1];
      var h := Run(settings, Initial(initial), before);
      DelaysAreDelivered(settings, initial, before);
      if Accepts(h, step) {
        OnlyFramesAreAccepted(h, step);
        AcceptedDelays(settings, h, step.frame);
      } else {
        OtherDelays(settings, h, step);
      }
    }
  }

  /** Every announced delay survives, was replaced by a later one, or is still to go. */
  lemma {:induction false} DelaysAddUp(settings: Settings, h: History, steps: seq<Step>)
    requires settings.maxPayload > 0
    ensures Announced(steps) == |Surviving(settings, h, steps)| + Replaced(settings, h, steps)
                              + |OneDelay(Latest(settings, h, steps))|
  {
    hide Run, Accepts;
    if steps != [] {
      var before, step := steps[..|steps| - 1], steps[|steps| - 1];
      DelaysAddUp(settings, h, before);
      NotBoth(Run(settings, h, before), step);
    }
  }

  lemma NotBoth(h: History, step: Step)
    ensures !(step.SetDelay? && Accepts(h, step))
  {
  }

  /**
   Over every run each announced delay goes out in exactly one packet, is
   replaced by a later one before any frame was accepted, or is still to go.
   */
  lemma DelaysAreConserved(settings: Settings, initial: u16, steps: seq<Step>)
    requires settings.maxPayload > 0
    ensures
      var h := Run(settings, Initial(initial), steps);
      Announced(steps) == |Delays(AllPackets(h.frames))| + Replaced(settings, Initial(initial), steps)
                        + (if h.sender.delay.Some? then 1 else 0)
  {
    hide Run, Delays, AllPackets, Surviving, Replaced, Announced, Latest;
    DelaysAreDelivered(settings, initial, steps);
    DelaysAddUp(settings, Initial(initial), steps);
  }

  /**
   The delay a frame goes out with is the one announced last: nothing but a
   frame accepted or a newer announcement touches it.
   */
  lemma {:induction false} DelayWaits(settings: Settings, h: History, steps: seq<Step>)
    requires settings.maxPayload > 0
    requires forall i :: 0 <= i < |steps| ==> !steps[i].SetDelay? && !Accepts(Run(settings, h, steps[..i]), steps[i])
    ensures Run(settings, h, steps).sender.delay == h.sender.delay
  {
    hide Accept, Apply, Refusal, PacketsFor;
    if steps != [] {
      var last := |steps| - 1;
      assert forall i :: 0 <= i < last ==> steps[..last][..i] == steps[..i];
      DelayWaits(settings, h, steps[..last]);
      assert !Accepts(Run(settings, h, steps[..last]), steps[last]);
    }
  }

  // ----- Acknowledgements --------------------------------------------------

  lemma StepKeepsValid(settings: Settings, h: History, step: Step)
    requires settings.maxPayload > 0 && Valid(h.sender.stream)
    ensures Valid(Do(settings, h, step).sender.stream)
  {
    hide Valid, PacketsFor, Accept, Refusal, Apply;
    match step
    case Submit(frame) => EnqueueKeepsValid(h.sender.stream, frame, PacketsFor(settings, h.sender, frame));
    case SetDelay(_) =>
    case Feedback(feedback) => ApplyKeepsValid(h.sender.stream, feedback);
    case Send =>
      if Sendable(h.sender.stream) {
        SendKeepsValid(h.sender.stream);
      }
  }

  /** Whether a step acknowledges a frame, by a checkpoint or by a vector. */
  ghost predicate Acks(s: Stream, step: Step, f: int) {
    step.Feedback? && f in Acknowledged(s, FeedbackCheckpoint(s, step.feedback), step.feedback.ackBitvector)
  }

  /** How often a run acknowledges a frame. */
  ghost function AckCount(settings: Settings, h: History, steps: seq<Step>, f: int): nat
    requires settings.maxPayload > 0
  {
    if steps == [] then 0
    else
      var before := steps[..|steps| - 1];
      AckCount(settings, h, before, f) +
      if Acks(Run(settings, h, before).sender.stream, steps[|steps| - 1], f) then 1 else 0
  }

  /** The frame was handed out and is no longer in flight. */
  ghost predicate HasLeft(s: Stream, f: int) { 0 <= f < s.nextFrameId && f !in s.pending }

  /** A frame leaves with the step that acknowledges it, and only a frame in flight is acknowledged. */
  lemma LeavesWhenAcked(settings: Settings, h: History, step: Step, f: int)
    requires settings.maxPayload > 0 && Valid(h.sender.stream)
    ensures Acks(h.sender.stream, step, f) ==> !HasLeft(h.sender.stream, f)
    ensures HasLeft(Do(settings, h, step).sender.stream, f) <==>
            HasLeft(h.sender.stream, f) || Acks(h.sender.stream, step, f)
  {
    hide PacketsFor, Apply, Accept, Refusal, Valid, Acks, HasLeft;
    match step
    case Submit(frame) => SubmitLeaves(settings, h, frame, f);
    case SetDelay(_) => OthersAckNothing(h.sender.stream, step, f);
    case Feedback(feedback) => FeedbackLeaves(h.sender.stream, feedback, f);
    case Send =>
      OthersAckNothing(h.sender.stream, step, f);
      SendLeaves(h.sender.stream, f);
  }

  lemma OthersAckNothing(s: Stream, step: Step, f: int)
    requires !step.Feedback?
    ensures !Acks(s, step, f)
  {
  }

  lemma SubmitLeaves(settings: Settings, h: History, frame: Frame, f: int)
    requires settings.maxPayload > 0 && Valid(h.sender.stream)
    ensures !Acks(h.sender.stream, Submit(frame), f)
    ensures HasLeft(Submitted(settings, h.sender, frame).stream, f) <==> HasLeft(h.sender.stream, f)
  {
    hide PacketsFor, Entries, Refusal, Backed;
    PendingIsHandedOut(h.sender.stream, f);
    hide Valid;
  }

  lemma PendingIsHandedOut(s: Stream, f: int)
    requires Valid(s)
    ensures 0 <= s.nextFrameId && (f in s.pending ==> 0 <= f < s.nextFrameId)
  {
  }

  lemma FeedbackLeaves(s: Stream, feedback: CastFeedback, f: int)
    requires Valid(s)
    ensures Acks(s, Feedback(feedback), f) ==> !HasLeft(s, f)
    ensures HasLeft(Apply(s, feedback), f) <==> HasLeft(s, f) || Acks(s, Feedback(feedback), f)
  {
    hide Apply, Covers, FeedbackCheckpoint, Valid, Without;
    ApplyKeepsValid(s, feedback);
    PendingIsHandedOut(s, f);
  }

  lemma SendLeaves(s: Stream, f: int)
    ensures Sendable(s) ==> (HasLeft(AfterSend(s), f) <==> HasLeft(s, f))
  {
  }

  /**
   Over every run, whatever feedback arrives and however often, each identifier
   is acknowledged exactly once if it has left the window and otherwise never.
   */
  lemma {:induction false} AcknowledgedOnce(settings: Settings, initial: u16, steps: seq<Step>, f: int)
    requires settings.maxPayload > 0
    ensures
      var s := Run(settings, Initial(initial), steps).sender.stream;
      Valid(s) && AckCount(settings, Initial(initial), steps, f) == if HasLeft(s, f) then 1 else 0
  {
    hide Do, Acks;
    if steps == [] {
      NewIsValid();
    } else {
      hide Valid, HasLeft;
      var before, step := steps[..|steps| - 1], steps[|steps| - 1];
      var h := Run(settings, Initial(initial), before);
      AcknowledgedOnce(settings, initial, before, f);
      StepKeepsValid(settings, h, step);
      LeavesWhenAcked(settings, h, step, f);
    }
  }
}
