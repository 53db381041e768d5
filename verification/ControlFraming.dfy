/**
 The control channel's framing (src/control/framing.rs): a four-byte big-endian
 length and a Cast message. The reader keeps its progress in fields, so a read
 that is cancelled at any await resumes where it stopped.
 */
module ControlFraming {
  import opened Bytes
  import opened CastMessages
  import opened Framing

  const MAX_MESSAGE: nat := 0x10_0000

  /** The verdict on the bytes received so far. */
  function ScanMessage(s: seq<byte>): Scan<CastMessage> {
    if |s| < 4 then Incomplete
    else
      var n := ReadU32(s, 0);
      if n == 0 then Bad(ZeroLength)
      else if n > MAX_MESSAGE then Bad(TooLarge)
      else if |s| < 4 + n then Incomplete
      else
        match Decoded(s[4..4 + n])
        case Err(e) => Bad(BadMessage(e))
        case Ok(m) => Frame(m, 4 + n)
  }

  lemma ScanMessageIsScanner()
    ensures Scanner(ScanMessage)
  {
    forall s: seq<byte>, t: seq<byte>
      ensures Stable(ScanMessage, s, t)
    {
      ScanIsStable(s, t);
    }
  }

  lemma ScanIsStable(s: seq<byte>, t: seq<byte>)
    ensures !ScanMessage(s).Incomplete? ==> ScanMessage(s + t) == ScanMessage(s)
  {
    hide Decoded;
    if |s| >= 4 {
      assert ReadU32(s + t, 0) == ReadU32(s, 0);
      var n := ReadU32(s, 0);
      if 4 + n <= |s| {
        assert (s + t)[4..4 + n] == s[4..4 + n];
      }
    }
  }

  lemma WholeMessage(prefix: seq<byte>, body: seq<byte>)
    requires |prefix| == 4 && ReadU32(prefix, 0) == |body| && 0 < |body| <= MAX_MESSAGE
    ensures ScanMessage(prefix + body)
         == match Decoded(body)
            case Err(e) => Bad(BadMessage(e))
            case Ok(m) => Frame(m, |prefix + body|)
  {
    hide Decoded;
    var whole := prefix + body;
    assert ReadU32(whole, 0) == |body|;
    assert whole[4..4 + |body|] == body;
  }

  datatype Outcome = Message(message: CastMessage) | Failed(error: FrameError) | Pending

  class FramedReader {
    var lenBuf: array<byte>
    var lenFilled: nat
    var bodyBuf: seq<byte>
    var bodyFilled: nat
    var bodyExpected: nat

    /** Bytes of the connection not yet handed over. */
    var incoming: seq<byte>
    ghost var finished: seq<byte>            // the bytes of complete messages
    ghost var delivered: seq<CastMessage>

    /** The bytes of the unfinished message. */
    ghost function Buffered(): seq<byte>
      requires lenFilled <= lenBuf.Length && bodyFilled <= |bodyBuf|
      reads this, lenBuf
    {
      lenBuf[..lenFilled] + if bodyExpected == 0 then [] else bodyBuf[..bodyFilled]
    }

    ghost predicate Held()
      reads this, lenBuf
    {
      && lenBuf.Length == 4 && lenFilled <= 4
      && bodyFilled <= |bodyBuf|
      && (bodyExpected == 0 ==> bodyFilled == 0)
      && (bodyExpected > 0 ==>
            lenFilled == 4 && bodyExpected == |bodyBuf| == ReadU32(lenBuf[..], 0) && bodyExpected <= MAX_MESSAGE)
      && Scanner(ScanMessage)
      && Divide(ScanMessage, finished) == Division(delivered, [], None)
    }

    /** Between calls the reader is in the middle of a message. */
    ghost predicate Valid()
      reads this, lenBuf
    {
      Held() && (if bodyExpected == 0 then lenFilled < 4 else bodyFilled < bodyExpected)
    }

    lemma ValidIsIncomplete()
      requires Valid()
      ensures ScanMessage(Buffered()).Incomplete?
    {
      if bodyExpected > 0 {
        assert lenBuf[..4] == lenBuf[..];
        assert ReadU32(Buffered(), 0) == bodyExpected;
      }
    }

    constructor (incoming: seq<byte>)
      ensures Valid() && fresh(lenBuf)
      ensures this.incoming == incoming && finished == [] && Buffered() == [] && delivered == []
    {
      lenBuf := new byte[4](_ => 0);
      lenFilled, bodyBuf, bodyFilled, bodyExpected := 0, [], 0, 0;
      this.incoming := incoming;
      finished, delivered := [], [];
      new;
      ScanMessageIsScanner();
    }

    /** The transport hands over `n` bytes of the length. */
    method FillLength(n: nat)
      requires Held() && bodyExpected == 0 && 1 <= n <= |incoming| && lenFilled + n <= 4
      modifies this`lenFilled, this`incoming, lenBuf
      ensures Held() && lenFilled == old(lenFilled) + n
      ensures Buffered() == old(Buffered()) + old(incoming)[..n] && incoming == old(incoming)[n..]
    {
      hide ScanMessage, Scanner, Divide;
      forall i | 0 <= i < n {
        lenBuf[lenFilled + i] := incoming[i];
      }
      lenFilled := lenFilled + n;
      incoming := incoming[n..];
      assert lenBuf[..lenFilled] == old(lenBuf[..lenFilled]) + old(incoming)[..n];
    }

    /** The transport hands over `n` bytes of the body. */
    method FillBody(n: nat)
      requires Held() && bodyExpected > 0 && 1 <= n <= |incoming| && bodyFilled + n <= bodyExpected
      modifies this`bodyBuf, this`bodyFilled, this`incoming
      ensures Held() && bodyFilled == old(bodyFilled) + n
      ensures Buffered() == old(Buffered()) + old(incoming)[..n] && incoming == old(incoming)[n..]
    {
      hide ScanMessage, Scanner, Divide;
      bodyBuf := bodyBuf[..bodyFilled] + incoming[..n] + bodyBuf[bodyFilled + n..];
      bodyFilled := bodyFilled + n;
      incoming := incoming[n..];
      assert bodyBuf[..bodyFilled] == old(bodyBuf[..bodyFilled]) + old(incoming)[..n];
    }

    /** The length is complete: judge it and make room for the body. */
    method StartBody() returns (error: Option<FrameError>)
      requires Held() && lenFilled == 4 && bodyExpected == 0
      modifies this`bodyBuf, this`bodyFilled, this`bodyExpected
      ensures error.None? ==> Held() && bodyExpected > 0 && bodyFilled == 0 && Buffered() == old(Buffered())
      ensures error.Some? ==> ScanMessage(old(Buffered())) == Bad(error.value) && error.value != UnexpectedEof
    {
      hide Scanner, Divide;
      assert lenBuf[..4] == lenBuf[..];
      assert Buffered() == lenBuf[..];
      bodyExpected := ReadU32(lenBuf[..], 0);
      if bodyExpected == 0 {
        return Some(ZeroLength);
      }
      if bodyExpected > MAX_MESSAGE {
        return Some(TooLarge);
      }
      bodyBuf := seq(bodyExpected, _ => 0);
      bodyFilled := 0;
      return None;
    }

    /** The body is complete: decode it and start over. */
    method FinishMessage() returns (r: Outcome)
      requires Held() && bodyExpected > 0 && bodyFilled == bodyExpected
      modifies this
      ensures lenBuf == old(lenBuf) && incoming == old(incoming)
      ensures !r.Pending?
      ensures r.Message? ==>
        && ScanMessage(old(Buffered())) == Frame(r.message, |old(Buffered())|)
        && Valid() && Buffered() == [] && finished == old(finished) + old(Buffered())
        && delivered == old(delivered) + [r.message]
      ensures r.Failed? ==> r.error.BadMessage? && ScanMessage(old(Buffered())) == Bad(r.error)
    {
      hide Decoded, Scanner, Divide;
      ghost var whole := Buffered();
      WholeMessage(lenBuf[..], bodyBuf);
      assert lenBuf[..4] == lenBuf[..] && bodyBuf[..bodyExpected] == bodyBuf;
      var message := DecodeMessage(bodyBuf[..bodyExpected]);
      if message.Err? {
        return Failed(BadMessage(message.error));
      }
      DivideOneMore(ScanMessage, finished, delivered, whole);
      finished := finished + whole;
      delivered := delivered + [message.value];
      lenFilled, bodyExpected, bodyFilled := 0, 0, 0;
      return Message(message.value);
    }

    /** Read until the length is complete, the connection ends or the call is cancelled. */
    method ReadLength(offers: seq<nat>) returns (stopped: Option<Outcome>, used: nat, ghost taken: seq<byte>)
      requires Valid() && forall k :: k in offers ==> k > 0
      modifies this`lenFilled, this`incoming, lenBuf
      ensures Held() && (stopped.Some? ==> Valid()) && (bodyExpected > 0 ==> bodyFilled < bodyExpected)
      ensures used <= |offers| && used <= |taken|
      ensures taken + incoming == old(incoming) && Buffered() == old(Buffered()) + taken
      ensures stopped.None? ==> lenFilled == 4
      ensures stopped.Some? ==>
        (stopped.value == Pending && used == |offers|) || (stopped.value == Failed(UnexpectedEof) && incoming == [])
    {
      hide ScanMessage, Scanner, Divide, ReadU32, Buffered;
      used, taken := 0, [];
      while lenFilled < 4
        invariant Held() && used <= |offers| && used <= |taken|
        invariant taken + incoming == old(incoming) && Buffered() == old(Buffered()) + taken
        invariant bodyExpected > 0 ==> bodyFilled < bodyExpected
        decreases 4 - lenFilled
      {
        if used == |offers| {
          return Some(Pending), used, taken;
        }
        if incoming == [] {
          return Some(Failed(UnexpectedEof)), used, taken;
        }
        assert offers[used] in offers;
        var n := Min(Min(offers[used], 4 - lenFilled), |incoming|);
        Regroup(old(Buffered()), taken, incoming, n);
        taken := taken + incoming[..n];
        FillLength(n);
        used := used + 1;
      }
      stopped := None;
    }

    /** Read until the body is complete, the connection ends or the call is cancelled. */
    method ReadBody(offers: seq<nat>, before: nat) returns (stopped: Option<Outcome>, ghost taken: seq<byte>)
      requires Held() && bodyExpected > 0 && before <= |offers| && forall k :: k in offers ==> k > 0
      modifies this`bodyBuf, this`bodyFilled, this`incoming
      ensures Held() && (stopped.Some? ==> Valid())
      ensures taken + incoming == old(incoming) && Buffered() == old(Buffered()) + taken
      ensures stopped.None? ==> bodyFilled == bodyExpected
      ensures stopped.Some? ==>
        || (stopped.value == Pending && |offers| - before <= |taken|)
        || (stopped.value == Failed(UnexpectedEof) && incoming == [])
    {
      hide ScanMessage, Scanner, Divide;
      taken := [];
      var used := before;
      while bodyFilled < bodyExpected
        invariant Held() && bodyFilled <= bodyExpected && before <= used <= |offers| && used - before <= |taken|
        invariant taken + incoming == old(incoming) && Buffered() == old(Buffered()) + taken
        decreases bodyExpected - bodyFilled
      {
        if used == |offers| {
          return Some(Pending), taken;
        }
        if incoming == [] {
          return Some(Failed(UnexpectedEof)), taken;
        }
        assert offers[used] in offers;
        var n := Min(Min(offers[used], bodyExpected - bodyFilled), |incoming|);
        taken := taken + incoming[..n];
        FillBody(n);
        used := used + 1;
      }
      stopped := None;
    }

    /**
     One call. `offers` says how many bytes the transport has at each await;
     when it runs out the call is cancelled there. Bytes move from the
     connection into the reader without loss, and the outcome is the verdict on
     all bytes of the current message, however many calls they took. A reader
     that has reported a malformed message is not used again.
     */
    method ReadMessage(offers: seq<nat>) returns (r: Outcome, ghost taken: seq<byte>)
      requires Valid() && forall k :: k in offers ==> k > 0
      modifies this, lenBuf
      ensures lenBuf == old(lenBuf) && taken + incoming == old(incoming)
      ensures
        var current := old(Buffered()) + taken;
        match r
        case Message(m) =>
          && ScanMessage(current) == Frame(m, |current|)
          && Valid() && Buffered() == [] && finished == old(finished) + current
          && delivered == old(delivered) + [m]
        case Pending =>
          && |offers| <= |taken|
          && Valid() && Buffered() == current && finished == old(finished) && delivered == old(delivered)
        case Failed(UnexpectedEof) =>
          && incoming == []
          && Valid() && Buffered() == current && finished == old(finished) && delivered == old(delivered)
        case Failed(e) => ScanMessage(current) == Bad(e)
    {
      hide ScanMessage, Scanner, Divide;
      var stopped, used;
      stopped, used, taken := ReadLength(offers);
      if stopped.Some? {
        return stopped.value, taken;
      }
      if bodyExpected == 0 {
        var error := StartBody();
        if error.Some? {
          return Failed(error.value), taken;
        }
      }
      ghost var more;
      stopped, more := ReadBody(offers, used);
      taken := taken + more;
      if stopped.Some? {
        return stopped.value, taken;
      }
      assert Buffered() == old(Buffered()) + taken;
      r := FinishMessage();
    }

    /**
     Any number of calls, each cancelled wherever its offers end: what comes
     out is a prefix of the stream's own division into messages, and if the
     calls got to an end, it is all of it, with the same error.
     */
    method ReadMany(calls: seq<seq<nat>>) returns (messages: seq<CastMessage>, stopped: Option<FrameError>)
      requires Valid() && finished == [] && Buffered() == [] && delivered == []
      requires forall offers :: offers in calls ==> forall k :: k in offers ==> k > 0
      modifies this, lenBuf
      ensures
        var d := Divide(ScanMessage, old(incoming));
        && messages <= d.frames
        && (stopped.Some? ==> messages == d.frames)
        && (stopped == Some(UnexpectedEof) ==> d.error == None)
        && (stopped.Some? && stopped.value != UnexpectedEof ==> d.error == stopped)
    {
      hide ScanMessage, Scanner, Divide, ReadU32, Buffered;
      messages, stopped := [], None;
      for i := 0 to |calls|
        invariant Valid() && lenBuf == old(lenBuf) && messages == delivered
        invariant finished + (Buffered() + incoming) == old(incoming)
      {
        assert calls[i] in calls;
        ghost var before, done := Buffered(), finished;
        var r;
        ghost var taken;
        r, taken := ReadMessage(calls[i]);
        Parts(done, before, taken, incoming);
        match r {
          case Message(m) => messages := messages + [m];
          case Pending =>
          case Failed(e) =>
            if e == UnexpectedEof { ValidIsIncomplete(); }
            StoppedThere(ScanMessage, done, messages, before + taken, incoming, e);
            return messages, Some(e);
        }
      }
      DeliveredIsPrefix(ScanMessage, finished, delivered, Buffered() + incoming);
    }
  }

  // ----- Writing -----------------------------------------------------------

  /** `write_message`: the length is cut to 32 bits; the reader's limit is not checked. */
  function Written(m: CastMessage): seq<byte>
    requires Representable(m)
  {
    Be32(|Encoded(m)| % 0x1_0000_0000) + Encoded(m)
  }

  function WrittenAll(messages: seq<CastMessage>): seq<byte>
    requires forall m :: m in messages ==> Representable(m)
  {
    if messages == [] then [] else Written(messages[0]) + WrittenAll(messages[1..])
  }

  lemma EncodedNotEmpty(m: CastMessage)
    requires Representable(m)
    ensures Encoded(m) != []
  {
  }

  /**
   A written message is read back exactly when it is within the reader's limit.
   A larger one is refused as too large until its length no longer fits 32 bits
   and is cut.
   */
  lemma WrittenIsRead(m: CastMessage, rest: seq<byte>)
    requires Representable(m)
    ensures ScanMessage(Written(m) + rest) == Frame(m, |Written(m)|) <==> |Encoded(m)| <= MAX_MESSAGE
    ensures MAX_MESSAGE < |Encoded(m)| < 0x1_0000_0000 ==> ScanMessage(Written(m) + rest) == Bad(TooLarge)
  {
    hide Encoded, Decoded, ScanMessage, Written;
    EncodedNotEmpty(m);
    if |Encoded(m)| <= MAX_MESSAGE {
      SmallIsRead(m, rest);
    } else {
      LengthReadBack(m, rest);
      LargeIsNotRead(Written(m) + rest, |Encoded(m)|);
      assert |Written(m)| == 4 + |Encoded(m)| by { WrittenLength(m); }
    }
  }

  lemma WrittenLength(m: CastMessage)
    requires Representable(m)
    ensures |Written(m)| == 4 + |Encoded(m)|
  {
    hide Encoded;
  }

  lemma LengthReadBack(m: CastMessage, rest: seq<byte>)
    requires Representable(m)
    ensures 4 <= |Written(m) + rest| && ReadU32(Written(m) + rest, 0) == |Encoded(m)| % 0x1_0000_0000
    ensures (Written(m) + rest)[4..4 + |Encoded(m)|] == Encoded(m)
  {
    hide Encoded, Be32, ReadU32;
    var s, e := Written(m) + rest, Encoded(m);
    assert s[0..4] == Be32(|e| % 0x1_0000_0000);
    ReadBack32(s, 0, |e| % 0x1_0000_0000);
  }

  lemma SmallIsRead(m: CastMessage, rest: seq<byte>)
    requires Representable(m) && 0 < |Encoded(m)| <= MAX_MESSAGE
    ensures ScanMessage(Written(m) + rest) == Frame(m, |Written(m)|)
  {
    hide Encoded, Decoded, Written, ReadU32;
    LengthReadBack(m, rest);
    WrittenLength(m);
    PlainRoundTrip(m);
  }

  /** However the announced length is cut, no frame that long is found. */
  lemma LargeIsNotRead(s: seq<byte>, n: nat)
    requires |s| >= 4 && n > MAX_MESSAGE && ReadU32(s, 0) == n % 0x1_0000_0000
    ensures ScanMessage(s).Frame? ==> ScanMessage(s).length != 4 + n
    ensures n < 0x1_0000_0000 ==> ScanMessage(s) == Bad(TooLarge)
  {
    hide Decoded, ReadU32;
  }

  /** Reading what was written returns the messages, in order, with nothing left over. */
  lemma {:induction false} StreamRoundTrip(messages: seq<CastMessage>)
    requires forall m :: m in messages ==> Representable(m) && |Encoded(m)| <= MAX_MESSAGE
    ensures Scanner(ScanMessage) && Divide(ScanMessage, WrittenAll(messages)) == Division(messages, [], None)
  {
    ScanMessageIsScanner();
    hide Encoded, Scanner, Written;
    if messages != [] {
      var first, rest := Written(messages[0]), WrittenAll(messages[1..]);
      WrittenIsRead(messages[0], rest);
      hide ScanMessage;
      assert (first + rest)[|first|..] == rest;
      StreamRoundTrip(messages[1..]);
      assert messages == [messages[0]] + messages[1..];
    } else {
      assert ScanMessage(WrittenAll(messages)).Incomplete?;
    }
  }
}
