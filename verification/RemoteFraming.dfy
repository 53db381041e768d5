/**
 The Android TV remote's framing (src/android_tv/framing.rs): a protobuf varint
 length and a body. The length is accumulated a byte at a time, so a cancelled
 read leaves a partial number behind, not the bytes it came from.
 */
module RemoteFraming {
  import opened Bytes
  import opened Framing
  import Varint

  const MAX_FRAME_SIZE: nat := 65_536

  type Body = seq<byte>

  function ScanFrame(s: seq<byte>): Scan<Body> {
    match Varint.Read(s, 0)
    case Err(Truncated) => Incomplete
    case Err(Overflow) => Bad(LengthOverflow)
    case Ok((n, h)) =>
      if n == 0 then Bad(ZeroLength)
      else if n > MAX_FRAME_SIZE then Bad(TooLarge)
      else if |s| < h + n then Incomplete
      else Frame(s[h..h + n], h + n)
  }

  lemma ScanFrameIsScanner()
    ensures Scanner(ScanFrame)
  {
    forall s: seq<byte>, t: seq<byte>
      ensures Stable(ScanFrame, s, t)
    {
      ScanIsStable(s, t);
    }
  }

  lemma ScanIsStable(s: seq<byte>, t: seq<byte>)
    ensures !ScanFrame(s).Incomplete? ==> ScanFrame(s + t) == ScanFrame(s)
  {
    Varint.ReadIsStable(s, t, 0);
    hide Varint.Read;
    if Varint.Read(s, 0).Ok? {
      var (n, h) := Varint.Read(s, 0).value;
      if h + n <= |s| {
        assert (s + t)[h..h + n] == s[h..h + n];
      }
    }
  }

  datatype Outcome = FrameRead(body: Body) | Failed(error: FrameError) | Pending

  class FramedReader {
    var length: nat
    var lengthShift: nat
    var body: seq<byte>
    var bodyFilled: nat
    var bodyExpected: nat

    var incoming: seq<byte>
    ghost var prefix: seq<byte>              // the length bytes behind `length`
    ghost var finished: seq<byte>
    ghost var delivered: seq<Body>

    /** The bytes of the unfinished frame. */
    ghost function Buffered(): seq<byte>
      requires bodyFilled <= |body|
      reads this
    {
      prefix + body[..bodyFilled]
    }

    /** While the length is incomplete, the two fields sum it up. */
    ghost predicate LengthOk()
      reads this
    {
      Varint.Unfinished(prefix) && lengthShift == 7 * |prefix| && length == Varint.Spells(prefix)
    }

    ghost predicate Held()
      reads this
    {
      && bodyFilled <= |body|
      && (bodyExpected == 0 ==> bodyFilled == 0 && LengthOk())
      && (bodyExpected > 0 ==>
            && Varint.Read(prefix, 0) == Ok((bodyExpected, |prefix|))
            && bodyExpected == |body| <= MAX_FRAME_SIZE)
      && Scanner(ScanFrame)
      && Divide(ScanFrame, finished) == Division(delivered, [], None)
    }

    ghost predicate Valid()
      reads this
    {
      Held() && (bodyExpected > 0 ==> bodyFilled < bodyExpected)
    }

    lemma ValidIsIncomplete()
      requires Valid()
      ensures ScanFrame(Buffered()).Incomplete?
    {
      if bodyExpected == 0 {
        Varint.PrefixResumes(prefix, []);
        assert prefix + [] == prefix && Buffered() == prefix;
      } else {
        Varint.ReadIsStable(prefix, body[..bodyFilled], 0);
      }
    }

    constructor (incoming: seq<byte>)
      ensures Valid() && this.incoming == incoming && finished == [] && Buffered() == [] && delivered == []
    {
      length, lengthShift, body, bodyFilled, bodyExpected := 0, 0, [], 0, 0;
      this.incoming := incoming;
      prefix, finished, delivered := [], [], [];
      new;
      ScanFrameIsScanner();
    }

    /** One more length byte. */
    method TakeLengthByte() returns (done: bool, error: Option<FrameError>)
      requires Held() && bodyExpected == 0 && incoming != []
      modifies this`length, this`lengthShift, this`incoming, this`prefix
      ensures incoming == old(incoming)[1..] && prefix == old(prefix) + old(incoming)[..1]
      ensures error.Some? ==> error == Some(LengthOverflow) && ScanFrame(prefix) == Bad(LengthOverflow)
      ensures error.None? && done ==> Varint.Read(prefix, 0) == Ok((length, |prefix|))
      ensures error.None? && !done ==> Held()
    {
      hide Scanner, Divide, Varint.Pow128, Varint.Spells, Varint.Read, Varint.Unfinished;
      var value, n := incoming[0], lengthShift / 7;
      Varint.OneMoreByte(prefix, value);
      assert incoming[..1] == [value];
      incoming := incoming[1..];
      prefix := prefix + [value];
      if lengthShift == 63 && value > 1 {
        return false, Some(LengthOverflow);
      }
      length := length + value % 0x80 * Varint.Pow128(n);
      if value < 0x80 {
        return true, None;
      }
      lengthShift := lengthShift + 7;
      return false, None;
    }

    /** Read length bytes until the varint ends, the connection ends or the call is cancelled. */
    method ReadLength(offers: nat) returns (stopped: Option<Outcome>, used: nat, ghost taken: seq<byte>)
      requires Valid() && bodyExpected == 0
      modifies this`length, this`lengthShift, this`incoming, this`prefix
      ensures taken + incoming == old(incoming) && prefix == old(prefix) + taken
      ensures used <= offers && used <= |taken|
      ensures stopped.None? ==> Varint.Read(prefix, 0) == Ok((length, |prefix|))
      ensures stopped.Some? ==>
        || (stopped.value == Pending && Valid() && used == offers)
        || (stopped.value == Failed(UnexpectedEof) && Valid() && incoming == [])
        || (stopped.value == Failed(LengthOverflow) && ScanFrame(prefix) == Bad(LengthOverflow))
    {
      hide Scanner, Divide, ScanFrame, Varint.Read, LengthOk;
      used, taken := 0, [];
      while true
        invariant Held() && used <= offers && used <= |taken|
        invariant taken + incoming == old(incoming) && prefix == old(prefix) + taken
        decreases |incoming|
      {
        if used == offers {
          return Some(Pending), used, taken;
        }
        if incoming == [] {
          return Some(Failed(UnexpectedEof)), used, taken;
        }
        taken := taken + incoming[..1];
        used := used + 1;
        var done, error := TakeLengthByte();
        if error.Some? {
          return Some(Failed(LengthOverflow)), used, taken;
        }
        if done {
          return None, used, taken;
        }
      }
    }

    /** Judge the length and make room for the body. */
    method StartBody() returns (error: Option<FrameError>)
      requires bodyExpected == 0 && bodyFilled == 0
      requires Varint.Read(prefix, 0) == Ok((length, |prefix|))
      requires Scanner(ScanFrame) && Divide(ScanFrame, finished) == Division(delivered, [], None)
      modifies this`body, this`bodyExpected
      ensures error.None? ==> Held() && bodyExpected > 0 && bodyFilled == 0
      ensures error.Some? ==> ScanFrame(prefix) == Bad(error.value) && error.value != UnexpectedEof
    {
      hide Scanner, Divide, Varint.Read;
      bodyExpected := length;
      if bodyExpected == 0 {
        return Some(ZeroLength);
      }
      if bodyExpected > MAX_FRAME_SIZE {
        return Some(TooLarge);
      }
      body := seq(bodyExpected, _ => 0);
      return None;
    }

    method FillBody(n: nat)
      requires Held() && bodyExpected > 0 && 1 <= n <= |incoming| && bodyFilled + n <= bodyExpected
      modifies this`body, this`bodyFilled, this`incoming
      ensures Held() && bodyFilled == old(bodyFilled) + n
      ensures Buffered() == old(Buffered()) + old(incoming)[..n] && incoming == old(incoming)[n..]
    {
      hide Scanner, Divide, ScanFrame, Varint.Read, LengthOk;
      body := body[..bodyFilled] + incoming[..n] + body[bodyFilled + n..];
      bodyFilled := bodyFilled + n;
      incoming := incoming[n..];
      assert body[..bodyFilled] == old(body[..bodyFilled]) + old(incoming)[..n];
    }

    method ReadBody(offers: seq<nat>, before: nat) returns (stopped: Option<Outcome>, ghost taken: seq<byte>)
      requires Held() && bodyExpected > 0 && before <= |offers| && forall k :: k in offers ==> k > 0
      modifies this`body, this`bodyFilled, this`incoming
      ensures Held() && (stopped.Some? ==> Valid())
      ensures taken + incoming == old(incoming) && Buffered() == old(Buffered()) + taken
      ensures stopped.None? ==> bodyFilled == bodyExpected
      ensures stopped.Some? ==>
        || (stopped.value == Pending && |offers| - before <= |taken|)
        || (stopped.value == Failed(UnexpectedEof) && incoming == [])
    {
      hide Scanner, Divide, ScanFrame, Varint.Read, LengthOk;
      taken := [];
      var used := before;
      while bodyFilled < bodyExpected
        invariant Held() && bodyFilled <= bodyExpected && before <= used <= |offers| && used - before <= |taken|
        invariant taken + incoming == old(incoming) && Buffered() == old(Buffered()) + taken
        decreases bodyExpected - bodyFilled
      {
        if used == |offers| {
          return Some(Pending), taken;
        }
        if incoming == [] {
          return Some(Failed(UnexpectedEof)), taken;
        }
        assert offers[used] in offers;
        var n := Min(Min(offers[used], bodyExpected - bodyFilled), |incoming|);
        taken := taken + incoming[..n];
        FillBody(n);
        used := used + 1;
      }
      stopped := None;
    }

    /** The body is complete: hand it out and start over. */
    method FinishFrame() returns (frame: Body)
      requires Held() && bodyExpected > 0 && bodyFilled == bodyExpected
      modifies this
      ensures incoming == old(incoming)
      ensures ScanFrame(old(Buffered())) == Frame(frame, |old(Buffered())|)
      ensures Valid() && Buffered() == [] && finished == old(finished) + old(Buffered())
      ensures delivered == old(delivered) + [frame]
    {
      hide Scanner, Divide, ScanFrame, Varint.Read, Varint.Spells, Varint.Unfinished;
      WholeFrame(prefix, body);
      Varint.NothingRead();
      frame := body[..bodyExpected];
      ghost var whole := Buffered();
      assert body[..bodyFilled] == body;
      assert frame == body;
      assert body[..0] == [];
      DivideOneMore(ScanFrame, finished, delivered, whole);
      finished := finished + whole;
      delivered := delivered + [frame];
      prefix := [];
      length, lengthShift, bodyExpected, bodyFilled := 0, 0, 0, 0;
    }

    /** One call, cancelled where its offers run out; the verdict is on all bytes of the current frame. */
    method ReadFrame(offers: seq<nat>) returns (r: Outcome, ghost taken: seq<byte>)
      requires Valid() && forall k :: k in offers ==> k > 0
      modifies this
      ensures taken + incoming == old(incoming)
      ensures
        var current := old(Buffered()) + taken;
        match r
        case FrameRead(frame) =>
          && ScanFrame(current) == Frame(frame, |current|)
          && Valid() && Buffered() == [] && finished == old(finished) + current
          && delivered == old(delivered) + [frame]
        case Pending =>
          && |offers| <= |taken|
          && Valid() && Buffered() == current && finished == old(finished) && delivered == old(delivered)
        case Failed(UnexpectedEof) =>
          && incoming == []
          && Valid() && Buffered() == current && finished == old(finished) && delivered == old(delivered)
        case Failed(e) => ScanFrame(current) == Bad(e)
    {
      hide Scanner, Divide, ScanFrame, Varint.Read, LengthOk;
      var used: nat := 0;
      taken := [];
      var stopped;
      if bodyExpected == 0 {
        assert Buffered() == prefix;
        stopped, used, taken := ReadLength(|offers|);
        assert Buffered() == prefix;
        if stopped.Some? {
          return stopped.value, taken;
        }
        var error := StartBody();
        if error.Some? {
          return Failed(error.value), taken;
        }
        assert Buffered() == prefix;
      }
      ghost var more;
      stopped, more := ReadBody(offers, used);
      taken := taken + more;
      assert Buffered() == old(Buffered()) + taken;
      if stopped.Some? {
        return stopped.value, taken;
      }
      var frame := FinishFrame();
      r := FrameRead(frame);
    }

    /** Any calls, cancelled anywhere, deliver a prefix of the stream's own frames, and all of them up to an end. */
    method ReadMany(calls: seq<seq<nat>>) returns (frames: seq<Body>, stopped: Option<FrameError>)
      requires Valid() && finished == [] && Buffered() == [] && delivered == []
      requires forall offers :: offers in calls ==> forall k :: k in offers ==> k > 0
      modifies this
      ensures
        var d := Divide(ScanFrame, old(incoming));
        && frames <= d.frames
        && (stopped.Some? ==> frames == d.frames)
        && (stopped == Some(UnexpectedEof) ==> d.error == None)
        && (stopped.Some? && stopped.value != UnexpectedEof ==> d.error == stopped)
    {
      hide Scanner, Divide, ScanFrame, Varint.Read, LengthOk;
      frames, stopped := [], None;
      for i := 0 to |calls|
        invariant Valid() && frames == delivered
        invariant finished + (Buffered() + incoming) == old(incoming)
      {
        assert calls[i] in calls;
        ghost var stream := old(incoming);
        ghost var before, done := Buffered(), finished;
        var r;
        ghost var taken;
        r, taken := ReadFrame(calls[i]);
        match r {
          case FrameRead(frame) => frames := frames + [frame];
          case Pending =>
          case Failed(e) =>
            if e == UnexpectedEof { ValidIsIncomplete(); }
            StoppedThere(ScanFrame, done, frames, before + taken, incoming, e);
            assert stream == done + ((before + taken) + incoming);
            return frames, Some(e);
        }
      }
      DeliveredIsPrefix(ScanFrame, finished, delivered, Buffered() + incoming);
    }
  }

  lemma WholeFrame(prefix: seq<byte>, body: seq<byte>)
    requires Varint.Read(prefix, 0) == Ok((|body|, |prefix|)) && 0 < |body| <= MAX_FRAME_SIZE
    ensures ScanFrame(prefix + body) == Frame(body, |prefix + body|)
  {
    hide Varint.Read;
    var s := prefix + body;
    Varint.ReadIsStable(prefix, body, 0);
    assert |s| == |prefix| + |body| && s[|prefix|..|prefix| + |body|] == body;
  }

  // ----- Writing -----------------------------------------------------------

  /** `write_message` on an encoded message; empty and oversized ones are refused. */
  method WriteMessage(message: Body) returns (r: Result<seq<byte>, FrameError>)
    ensures
      if message == [] then r == Err(ZeroLength)
      else if |message| > MAX_FRAME_SIZE then r == Err(TooLarge)
      else r == Ok(Written(message))
  {
    if message == [] {
      return Err(ZeroLength);
    }
    if |message| > MAX_FRAME_SIZE {
      return Err(TooLarge);
    }
    var buffer := Varint.EncodeShiftFirst([], |message|);
    assert [] + Varint.Encode(|message|) == Varint.Encode(|message|);
    r := Ok(buffer + message);
  }

  function Written(message: Body): seq<byte> { Varint.Encode(|message|) + message }

  function WrittenAll(messages: seq<Body>): seq<byte> {
    if messages == [] then [] else Written(messages[0]) + WrittenAll(messages[1..])
  }

  /** Whatever the writer agrees to write, the reader returns. */
  lemma {:induction false} StreamRoundTrip(messages: seq<Body>)
    requires forall m :: m in messages ==> 0 < |m| <= MAX_FRAME_SIZE
    ensures Scanner(ScanFrame) && Divide(ScanFrame, WrittenAll(messages)) == Division(messages, [], None)
  {
    hide Scanner, ScanFrame, Written;
    ScanFrameIsScanner();
    if messages != [] {
      var m, rest := messages[0], WrittenAll(messages[1..]);
      var first := Written(m);
      WrittenIsRead(m, rest);
      assert (first + rest)[|first|..] == rest;
      StreamRoundTrip(messages[1..]);
      assert messages == [messages[0]] + messages[1..];
    } else {
      NothingScanned();
    }
  }

  /** A written message is the front frame, whatever follows. */
  lemma WrittenIsRead(m: Body, rest: seq<byte>)
    requires 0 < |m| <= MAX_FRAME_SIZE
    ensures ScanFrame(Written(m) + rest) == Frame(m, |Written(m)|)
  {
    hide Varint.Read, Varint.Encode, ScanFrame;
    var prefix := Varint.Encode(|m|);
    Varint.EncodeRoundTrip(|m|, []);
    assert prefix + [] == prefix;
    WholeFrame(prefix, m);
    ScanIsStable(Written(m), rest);
  }

  lemma NothingScanned()
    ensures ScanFrame([]).Incomplete?
  {
  }
}
