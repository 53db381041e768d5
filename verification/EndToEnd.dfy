/**
 From the application to the receiver (src/sender/stream.rs, src/rtp.rs,
 src/crypto.rs): the sender of SlidingWindow with the frames encrypted and cut
 as in Cutting. Every frame that a run has retired can be read at the receiver.
 */
module EndToEnd {
  import opened Bytes
  import opened StreamModel
  import Crypto
  import Cutting
  import Rtp
  import SlidingWindow

  /** An accepted frame with what it was cut with. */
  datatype Accepted = Accepted(frame: Frame, header: Rtp.FrameHeader, sequence: u16)

  /** The protocol's world, the packetizer's state at the sender and the frames accepted so far. */
  datatype Link = Link(
    world: SlidingWindow.World,
    sequence: u16,
    delay: Option<nat>,
    accepted: seq<Accepted>)

  datatype Step =
    | Submit(frame: Frame)
    | SetDelay(delay: nat)
    | Network(step: SlidingWindow.Step)

  function SenderOf(link: Link): Cutting.Sender { Cutting.Sender(link.world.sender, link.sequence, link.delay) }

  function Initial(senderSource: u32, receiverSource: u32, sequence: u16): Link {
    Link(SlidingWindow.Initial(senderSource, receiverSource), sequence, None, [])
  }

  /** Frames come from the application only; all else is as the network has it. */
  ghost predicate Enabled(link: Link, step: Step) {
    step.Network? ==>
      && !step.step.SubmitFrame? && SlidingWindow.Enabled(link.world, step.step)
      && (step.step.ArriveReport? ==> step.step.report.message.Fits())
  }

  ghost function Do(settings: Cutting.Settings, link: Link, step: Step): Link
    requires settings.maxPayload > 0 && Enabled(link, step)
  {
    match step
    case Submit(frame) =>
      var s := SenderOf(link);
      var packets := Cutting.PacketsFor(settings, s, frame);
      var after := Cutting.Submitted(settings, s, frame);
      var cut := Accepted(frame, Cutting.HeaderFor(settings, s, frame), link.sequence);
      Link(SlidingWindow.Do(link.world, SlidingWindow.SubmitFrame(frame, packets)), after.sequence, after.delay,
           if Refusal(s.stream, frame).Some? then link.accepted else link.accepted + [cut])
    case SetDelay(delay) => link.(delay := Some(delay))
    case Network(step) => link.(world := SlidingWindow.Do(link.world, step))
  }

  ghost predicate CanRun(settings: Cutting.Settings, link: Link, steps: seq<Step>)
    requires settings.maxPayload > 0
    decreases steps
  {
    steps == [] || (Enabled(link, steps[0]) && CanRun(settings, Do(settings, link, steps[0]), steps[1..]))
  }

  ghost function Run(settings: Cutting.Settings, link: Link, steps: seq<Step>): Link
    requires settings.maxPayload > 0 && CanRun(settings, link, steps)
    decreases steps
  {
    if steps == [] then link else Run(settings, Do(settings, link, steps[0]), steps[1..])
  }

  /** The frames the application handed over that were accepted, in order. */
  ghost function AcceptedFrames(settings: Cutting.Settings, link: Link, steps: seq<Step>): seq<Frame>
    requires settings.maxPayload > 0 && CanRun(settings, link, steps)
    decreases steps
  {
    if steps == [] then []
    else
      (if steps[0].Submit? && Refusal(link.world.sender, steps[0].frame).None? then [steps[0].frame] else []) +
      AcceptedFrames(settings, Do(settings, link, steps[0]), steps[1..])
  }

  // ----- The invariant -----------------------------------------------------

  /** Frame `f` of the history is the f-th accepted frame, encrypted under its identifier and cut. */
  ghost predicate CutAs(settings: Cutting.Settings, packets: seq<Rtp.Packet>, f: nat, a: Accepted)
    requires settings.maxPayload > 0
  {
    packets == Rtp.Packets(settings.source, settings.maxPayload, a.header, a.sequence,
                           Crypto.Encrypted(settings.cipher, settings.mask, f, a.frame.data))
  }

  ghost predicate Invariant(settings: Cutting.Settings, link: Link)
    requires settings.maxPayload > 0
  {
    && SlidingWindow.Invariant(link.world)
    && |link.accepted| == |link.world.history|
    && forall f :: 0 <= f < |link.accepted| ==> CutAs(settings, link.world.history[f], f, link.accepted[f])
  }

  lemma HistoryStays(w: SlidingWindow.World, step: SlidingWindow.Step)
    requires !step.SubmitFrame? && SlidingWindow.Enabled(w, step)
    requires step.ArriveReport? ==> step.report.message.Fits()
    ensures SlidingWindow.Do(w, step).history == w.history
  {
  }

  /** The stream accepts into the protocol's history what Cutting cuts. */
  lemma SubmitKeeps(settings: Cutting.Settings, link: Link, frame: Frame)
    requires settings.maxPayload > 0 && Invariant(settings, link)
    ensures Invariant(settings, Do(settings, link, Submit(frame)))
    ensures
      var packets := Cutting.PacketsFor(settings, SenderOf(link), frame);
      && Do(settings, link, Submit(frame)).world.sender == Enqueue(link.world.sender, frame, packets)
      && SenderOf(Do(settings, link, Submit(frame))) == Cutting.Submitted(settings, SenderOf(link), frame)
  {
    hide SlidingWindow.Invariant, Rtp.Packets, Crypto.Encrypted, Refusal, Accept, SlidingWindow.OnDatagram;
    var packets := Cutting.PacketsFor(settings, SenderOf(link), frame);
    SlidingWindow.SubmitKeeps(link.world, frame, packets);
    NextIsHistory(link.world);
  }

  lemma NextIsHistory(w: SlidingWindow.World)
    requires SlidingWindow.Invariant(w)
    ensures |w.history| == w.sender.nextFrameId
  {
  }

  lemma StepKeeps(settings: Cutting.Settings, link: Link, step: Step)
    requires settings.maxPayload > 0 && Invariant(settings, link) && Enabled(link, step)
    ensures Invariant(settings, Do(settings, link, step))
  {
    hide SlidingWindow.Invariant, SlidingWindow.Do, SlidingWindow.Enabled, CutAs;
    match step
    case Submit(frame) => SubmitKeeps(settings, link, frame);
    case SetDelay(_) =>
    case Network(step) =>
      SlidingWindow.StepKeeps(link.world, step);
      HistoryStays(link.world, step);
  }

  lemma AcceptedGrows(settings: Cutting.Settings, link: Link, step: Step)
    requires settings.maxPayload > 0 && Enabled(link, step)
    ensures
      var more := Do(settings, link, step).accepted;
      link.accepted <= more
      && if step.Submit? && Refusal(link.world.sender, step.frame).None?
         then |more| == |link.accepted| + 1 && more[|link.accepted|].frame == step.frame
         else more == link.accepted
  {
    hide SlidingWindow.Do, SlidingWindow.Enabled, Refusal, Cutting.Submitted, Cutting.PacketsFor;
  }

  /** Over every run the invariant holds and the frames accepted are those of the application's calls. */
  lemma {:induction false} RunKeeps(settings: Cutting.Settings, link: Link, steps: seq<Step>)
    requires settings.maxPayload > 0 && Invariant(settings, link) && CanRun(settings, link, steps)
    ensures
      var v := Run(settings, link, steps);
      var frames := AcceptedFrames(settings, link, steps);
      && Invariant(settings, v)
      && |v.accepted| == |link.accepted| + |frames|
      && link.accepted <= v.accepted
      && forall i :: 0 <= i < |frames| ==> v.accepted[|link.accepted| + i].frame == frames[i]
    decreases steps
  {
    hide Invariant, Enabled, Do, Refusal;
    if steps != [] {
      var next := Do(settings, link, steps[0]);
      StepKeeps(settings, link, steps[0]);
      AcceptedGrows(settings, link, steps[0]);
      RunKeeps(settings, next, steps[1..]);
      var v, frames := Run(settings, link, steps), AcceptedFrames(settings, link, steps);
      var rest := AcceptedFrames(settings, next, steps[1..]);
      forall i | 0 <= i < |frames|
        ensures v.accepted[|link.accepted| + i].frame == frames[i]
      {
        if |next.accepted| == |link.accepted| {
          assert frames[i] == rest[i];
        } else if i > 0 {
          assert frames[i] == rest[i - 1];
          assert |next.accepted| + (i - 1) == |link.accepted| + i;
        }
      }
    }
  }

  /**
   End to end. In every run, whatever the network loses, repeats or reorders,
   every frame the sender has retired is the f-th one the application had
   accepted, and all that arrived for it, in any order and however often,
   reassembles and decrypts to that frame's data, if and only if the frame was
   cut into at most 65536 packets.
   */
  lemma RetiredFramesAreRead(
    settings: Cutting.Settings, senderSource: u32, receiverSource: u32, sequence: u16, steps: seq<Step>,
    f: int, arrived: seq<Rtp.Packet>)
    requires settings.maxPayload > 0 && CanRun(settings, Initial(senderSource, receiverSource, sequence), steps)
    requires
      var w := Run(settings, Initial(senderSource, receiverSource, sequence), steps).world;
      && 0 <= f < w.sender.nextFrameId && f !in w.sender.pending
      && forall p :: p in arrived <==> QueuedPacket(f, p) in w.received
    ensures
      var frames := AcceptedFrames(settings, Initial(senderSource, receiverSource, sequence), steps);
      && f < |frames|
      && (SlidingWindow.ReadBack(arrived, settings.cipher, settings.mask, f, frames[f].data) <==>
          Rtp.PacketCount(|frames[f].data|, settings.maxPayload) <= Rtp.PACKET_ID_SPACE)
  {
    hide Run, CanRun, AcceptedFrames, SlidingWindow.Invariant, SlidingWindow.ReadBack, Rtp.Packets, Rtp.PacketCount,
         Crypto.Encrypted;
    var start := Initial(senderSource, receiverSource, sequence);
    SlidingWindow.InitialHolds(senderSource, receiverSource);
    RunKeeps(settings, start, steps);
    var v := Run(settings, start, steps);
    NextIsHistory(v.world);
    var frames := AcceptedFrames(settings, start, steps);
    assert v.accepted[|start.accepted| + f].frame == frames[f];
    var a := v.accepted[f];
    assert CutAs(settings, v.world.history[f], f, a);
    SlidingWindow.RetiredFrameIsReadable(v.world, f, a.frame.data, settings.cipher, settings.mask, settings.source,
                                         settings.maxPayload, a.header, a.sequence, arrived);
  }
}
