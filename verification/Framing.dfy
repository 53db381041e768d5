/**
 Length-prefixed streams. The two cancel-safe readers (src/control/framing.rs,
 src/android_tv/framing.rs) differ in their prefix; what they share is that a
 stream of bytes has one division into frames, which no pattern of reads or
 cancellations can change.
 */
module Framing {
  import opened Bytes
  import Protobuf

  datatype FrameError =
    | UnexpectedEof
    | ZeroLength
    | TooLarge
    | LengthOverflow
    | BadMessage(error: Protobuf.Error)

  /** What the bytes at hand amount to: too few to tell, unusable, or a frame in front. */
  datatype Scan<T> = Incomplete | Bad(error: FrameError) | Frame(value: T, length: nat)

  /** A verdict, once reached, is not changed by further bytes. */
  ghost predicate Stable<T>(scan: seq<byte> -> Scan<T>, s: seq<byte>, t: seq<byte>) {
    !scan(s).Incomplete? ==> scan(s + t) == scan(s)
  }

  /** A frame takes some of the bytes, and no bytes are no verdict. */
  ghost predicate Scanner<T(!new)>(scan: seq<byte> -> Scan<T>) {
    && scan([]).Incomplete?
    && (forall s :: scan(s).Frame? ==> 1 <= scan(s).length <= |s|)
    && (forall s, t :: Stable(scan, s, t))
  }

  /** A stream divided: the frames, the bytes of an unfinished one, and what stopped the division. */
  datatype Division<T> = Division(frames: seq<T>, rest: seq<byte>, error: Option<FrameError>)

  ghost function Divide<T(!new)>(scan: seq<byte> -> Scan<T>, s: seq<byte>): Division<T>
    requires Scanner(scan)
    decreases |s|
  {
    match scan(s)
    case Incomplete => Division([], s, None)
    case Bad(e) => Division([], s, Some(e))
    case Frame(value, length) =>
      var d := Divide(scan, s[length..]);
      Division([value] + d.frames, d.rest, d.error)
  }

  /** Dividing may stop and resume anywhere. */
  lemma {:induction false} DivideResumes<T(!new)>(scan: seq<byte> -> Scan<T>, s: seq<byte>, t: seq<byte>)
    requires Scanner(scan) && Divide(scan, s).error.None?
    ensures
      var a := Divide(scan, s);
      var b := Divide(scan, a.rest + t);
      Divide(scan, s + t) == Division(a.frames + b.frames, b.rest, b.error)
    decreases |s|
  {
    hide Divide;
    DivideStep(scan, s);
    if scan(s).Frame? {
      var n := scan(s).length;
      assert Stable(scan, s, t);
      DivideStep(scan, s + t);
      assert (s + t)[n..] == s[n..] + t;
      DivideResumes(scan, s[n..], t);
      var a := Divide(scan, s[n..]);
      var b := Divide(scan, a.rest + t);
      assert [scan(s).value] + (a.frames + b.frames) == [scan(s).value] + a.frames + b.frames;
    } else {
      var b := Divide(scan, s + t);
      assert [] + b.frames == b.frames;
    }
  }

  /** A further read moves its bytes from what is to come to what is held. */
  lemma Regroup(held: seq<byte>, taken: seq<byte>, incoming: seq<byte>, n: nat)
    requires n <= |incoming|
    ensures taken + incoming[..n] + incoming[n..] == taken + incoming
    ensures held + taken + incoming[..n] == held + (taken + incoming[..n])
  {
  }

  /** A stream in its parts: finished messages, the current one, and the rest. */
  lemma Parts(done: seq<byte>, before: seq<byte>, taken: seq<byte>, incoming: seq<byte>)
    ensures done + (before + (taken + incoming)) == done + ((before + taken) + incoming)
    ensures done + (before + taken) + ([] + incoming) == done + ((before + taken) + incoming)
  {
  }

  lemma DivideStep<T(!new)>(scan: seq<byte> -> Scan<T>, s: seq<byte>)
    requires Scanner(scan)
    ensures scan(s).Incomplete? ==> Divide(scan, s) == Division([], s, None)
    ensures scan(s).Bad? ==> Divide(scan, s).error.Some?
    ensures scan(s).Frame? ==>
      var d := Divide(scan, s[scan(s).length..]);
      Divide(scan, s) == Division([scan(s).value] + d.frames, d.rest, d.error)
  {
  }

  /** A whole frame behind divided bytes adds itself. */
  lemma DivideOneMore<T(!new)>(scan: seq<byte> -> Scan<T>, done: seq<byte>, frames: seq<T>, whole: seq<byte>)
    requires Scanner(scan) && Divide(scan, done) == Division(frames, [], None)
    requires scan(whole).Frame? && scan(whole).length == |whole|
    ensures Divide(scan, done + whole) == Division(frames + [scan(whole).value], [], None)
  {
    DivideResumes(scan, done, whole);
    assert [] + whole == whole && whole[|whole|..] == [];
    assert Divide(scan, []) == Division([], [], None);
  }

  /**
   What a reader has delivered after any reads of a stream's first bytes is a
   prefix of what the whole stream divides into.
   */
  lemma DeliveredIsPrefix<T(!new)>(
    scan: seq<byte> -> Scan<T>, finished: seq<byte>, delivered: seq<T>, rest: seq<byte>)
    requires Scanner(scan) && Divide(scan, finished) == Division(delivered, [], None)
    ensures delivered <= Divide(scan, finished + rest).frames
    ensures Divide(scan, finished + rest).frames == delivered + Divide(scan, rest).frames
    ensures Divide(scan, finished + rest).error == Divide(scan, rest).error
  {
    DivideResumes(scan, finished, rest);
    assert [] + rest == rest;
  }

  /** Where a reader stops, the stream itself ends or is malformed. */
  lemma StoppedThere<T(!new)>(
    scan: seq<byte> -> Scan<T>, done: seq<byte>, frames: seq<T>, current: seq<byte>, rest: seq<byte>, e: FrameError)
    requires Scanner(scan) && Divide(scan, done) == Division(frames, [], None)
    requires if e == UnexpectedEof then rest == [] && scan(current).Incomplete? else scan(current) == Bad(e)
    ensures
      var d := Divide(scan, done + (current + rest));
      d.frames == frames && d.error == if e == UnexpectedEof then None else Some(e)
  {
    DeliveredIsPrefix(scan, done, frames, current + rest);
    assert Stable(scan, current, rest);
    if e == UnexpectedEof {
      assert current + rest == current;
    }
  }
}
