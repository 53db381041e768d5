/**
 How the setup client reads an HTTP response (src/setup.rs): it appends each
 read to what it has, asks where the response ends, and stops there, at the end
 of the stream, or at a size limit. The header parser is a parameter of which
 only the behaviour on prefixes is used.
 */
module SetupResponse {
  import opened Bytes
  import opened Chunked

  const MAX_HEADER_BYTES: nat := 16_384
  const MAX_TOTAL_BYTES: nat := MAX_HEADER_BYTES + MAX_RESPONSE_BYTES
  const READ_BUFFER: nat := 8192

  datatype ResponseError =
    | MalformedHeader
    | HeadersTooLarge
    | InvalidContentLength
    | BodyLimit
    | BadChunk(error: ChunkError)
    | ResponseTooLarge

  /** How the header says the body is delimited; a Content-Length may be unreadable. */
  datatype Delimiter = ByChunks | ByLength(length: Option<nat>) | ByClose

  datatype Head = Partial | Malformed | Complete(length: nat, delimiter: Delimiter)

  type HeadParser = seq<byte> -> Head

  /** A header parser never changes its mind: it decides on the header's own bytes. */
  ghost predicate Incremental(head: HeadParser) {
    && head([]) == Partial
    && (forall s :: head(s).Complete? ==> head(s).length <= |s|)
    && (forall s, t :: !head(s).Partial? ==> head(s + t) == head(s))
    && (forall s, t :: head(s).Partial? && head(s + t).Complete? ==> |s| < head(s + t).length)
  }

  type Verdict = Result<Option<nat>, ResponseError>

  /** Where the response ends, as far as `s` tells. */
  function ResponseExtent(head: HeadParser, parse: LineParser, s: seq<byte>): Verdict
    requires Incremental(head)
  {
    match head(s)
    case Malformed => Err(MalformedHeader)
    case Partial => if |s| <= MAX_HEADER_BYTES then Ok(None) else Err(HeadersTooLarge)
    case Complete(n, delimiter) =>
      if n > MAX_HEADER_BYTES then Err(HeadersTooLarge) else BodyExtent(parse, delimiter, s, n)
  }

  function BodyExtent(parse: LineParser, delimiter: Delimiter, s: seq<byte>, n: nat): Verdict
    requires n <= |s|
  {
    match delimiter
    case ByClose => Ok(None)
    case ByLength(None) => Err(InvalidContentLength)
    case ByLength(Some(length)) => if length > MAX_RESPONSE_BYTES then Err(BodyLimit) else Ok(Some(n + length))
    case ByChunks =>
      match ChunkedBodyLength(parse, s[n..])
      case Err(e) => Err(BadChunk(e))
      case Ok(None) => Ok(None)
      case Ok(Some(length)) => Ok(Some(n + length))
  }

  // ----- The reading loop --------------------------------------------------

  datatype Outcome = Waiting | Finished(result: Result<seq<byte>, ResponseError>)

  /** The loop continued with `response` so far; an empty read is the end of the stream. */
  function ReadFrom(head: HeadParser, parse: LineParser, response: seq<byte>, arrivals: seq<seq<byte>>): Outcome
    requires Incremental(head)
    decreases |arrivals|
  {
    if arrivals == [] then Waiting
    else if arrivals[0] == [] then Finished(Ok(response))
    else if |response| + |arrivals[0]| > MAX_TOTAL_BYTES then Finished(Err(ResponseTooLarge))
    else
      var next := response + arrivals[0];
      match ResponseExtent(head, parse, next)
      case Err(e) => Finished(Err(e))
      case Ok(Some(n)) =>
        if n <= |next| then Finished(Ok(next[..n])) else ReadFrom(head, parse, next, arrivals[1..])
      case Ok(None) => ReadFrom(head, parse, next, arrivals[1..])
  }

  method ReadHttpResponse(head: HeadParser, parse: LineParser, arrivals: seq<seq<byte>>) returns (r: Outcome)
    requires Incremental(head)
    ensures r == ReadFrom(head, parse, [], arrivals)
  {
    hide Incremental, ResponseExtent;
    var response, next := [], 0;
    assert arrivals[0..] == arrivals;
    while next < |arrivals|
      invariant 0 <= next <= |arrivals|
      invariant ReadFrom(head, parse, [], arrivals) == ReadFrom(head, parse, response, arrivals[next..])
    {
      var arrival := arrivals[next];
      assert arrivals[next..][1..] == arrivals[next + 1..];
      next := next + 1;
      if arrival == [] {
        return Finished(Ok(response));
      }
      if |response| + |arrival| > MAX_TOTAL_BYTES {
        return Finished(Err(ResponseTooLarge));
      }
      response := response + arrival;
      var extent := ResponseExtent(head, parse, response);
      if extent.Err? {
        return Finished(Err(extent.error));
      }
      if extent.value.Some? && |response| >= extent.value.value {
        return Finished(Ok(response[..extent.value.value]));
      }
    }
    return Waiting;
  }

  // ----- Verdicts on prefixes ----------------------------------------------

  /**
   A verdict on what has arrived is the verdict on everything that will. The one
   exception is between errors: a header given up as too large may turn out to be
   malformed as well.
   */
  lemma VerdictIsStable(head: HeadParser, parse: LineParser, s: seq<byte>, t: seq<byte>)
    requires Incremental(head)
    ensures ResponseExtent(head, parse, s).Err? ==>
      || ResponseExtent(head, parse, s + t) == ResponseExtent(head, parse, s)
      || (&& ResponseExtent(head, parse, s) == Err(HeadersTooLarge)
          && ResponseExtent(head, parse, s + t) == Err(MalformedHeader))
    ensures ResponseExtent(head, parse, s).Ok? && ResponseExtent(head, parse, s).value.Some? ==>
      ResponseExtent(head, parse, s + t) == ResponseExtent(head, parse, s)
  {
    hide ChunkedBodyLength;
    if head(s).Complete? {
      var n := head(s).length;
      assert (s + t)[n..] == s[n..] + t;
      ChunkedVerdictIsStable(parse, s[n..], t);
    } else if head(s).Partial? && head(s + t).Complete? {
      assert |s| < head(s + t).length;
    }
  }

  /** As soon as a response has arrived in full, its end is known. */
  lemma EndIsKnown(head: HeadParser, parse: LineParser, s: seq<byte>, t: seq<byte>, n: nat)
    requires Incremental(head)
    requires ResponseExtent(head, parse, s + t) == Ok(Some(n)) && n <= |s|
    ensures ResponseExtent(head, parse, s) == Ok(Some(n))
  {
    hide ChunkedBodyLength;
    var h := head(s + t).length;
    assert h <= n by { BodyIsBehindHeader(parse, head(s + t).delimiter, s + t, h, n); }
    assert head(s + t) == head(s);
    if head(s).delimiter == ByChunks {
      ChunkedEndIsKnown(parse, (s + t)[h..], n - h, |s| - h);
      assert (s + t)[h..][..|s| - h] == s[h..];
    }
  }

  lemma BodyIsBehindHeader(parse: LineParser, delimiter: Delimiter, s: seq<byte>, h: nat, n: nat)
    requires h <= |s| && BodyExtent(parse, delimiter, s, h) == Ok(Some(n))
    ensures h <= n
  {
  }

  lemma ChunkedVerdictIsStable(parse: LineParser, s: seq<byte>, t: seq<byte>)
    ensures ChunkedBodyLength(parse, s) != Ok(None) ==>
      ChunkedBodyLength(parse, s + t) == ChunkedBodyLength(parse, s)
  {
    ScanIsStable(parse, s, t, 0);
  }

  lemma ChunkedEndIsKnown(parse: LineParser, s: seq<byte>, n: nat, k: nat)
    requires ChunkedBodyLength(parse, s) == Ok(Some(n)) && n <= k <= |s|
    ensures ChunkedBodyLength(parse, s[..k]) == Ok(Some(n))
  {
    ExtentInPrefix(parse, s, 0, n, k);
  }

  // ----- Every way the bytes can arrive ------------------------------------

  /** The reads deliver exactly `stream` in buffers of at most 8192 bytes, and then its end. */
  ghost predicate Delivers(arrivals: seq<seq<byte>>, stream: seq<byte>)
    decreases |arrivals|
  {
    if arrivals == [] then false
    else if arrivals[0] == [] then stream == []
    else
      && |arrivals[0]| <= READ_BUFFER && arrivals[0] <= stream
      && Delivers(arrivals[1..], stream[|arrivals[0]|..])
  }

  /** The response in a whole stream, whatever its length. */
  function Expected(head: HeadParser, parse: LineParser, stream: seq<byte>): Result<seq<byte>, ResponseError>
    requires Incremental(head)
  {
    match ResponseExtent(head, parse, stream)
    case Err(e) => Err(e)
    case Ok(Some(n)) => Ok(if n <= |stream| then stream[..n] else stream)
    case Ok(None) => Ok(stream)
  }

  /** The loop has not stopped at `s`. */
  ghost predicate Undecided(head: HeadParser, parse: LineParser, s: seq<byte>)
    requires Incremental(head)
  {
    var verdict := ResponseExtent(head, parse, s);
    verdict.Ok? && (verdict.value.Some? ==> |s| < verdict.value.value)
  }

  /** Whether the loop stops within the limit for any sizes of read. */
  ghost predicate Roomy(head: HeadParser, parse: LineParser, stream: seq<byte>)
    requires Incremental(head)
  {
    || |stream| <= MAX_TOTAL_BYTES
    || (var verdict := ResponseExtent(head, parse, stream);
        verdict.Ok? && verdict.value.Some? && verdict.value.value + READ_BUFFER - 1 <= MAX_TOTAL_BYTES)
  }

  /** What one outcome says about the whole stream. */
  ghost predicate Explained(head: HeadParser, parse: LineParser, stream: seq<byte>, outcome: Outcome)
    requires Incremental(head)
  {
    var expected := Expected(head, parse, stream);
    && outcome.Finished?
    && (outcome.result.Ok? ==> outcome.result == expected)
    && (outcome.result.Err? ==>
          || outcome.result == expected
          || (outcome.result == Err(HeadersTooLarge) && expected == Err(MalformedHeader))
          || (outcome.result == Err(ResponseTooLarge) && |stream| > MAX_TOTAL_BYTES))
    && (outcome.result.Ok? && |stream| > MAX_TOTAL_BYTES ==> |expected.value| <= MAX_TOTAL_BYTES)
    && (Roomy(head, parse, stream) && expected.Ok? ==> outcome.result.Ok?)
  }

  lemma {:induction false} OutcomeFrom(head: HeadParser, parse: LineParser, response: seq<byte>,
                                       arrivals: seq<seq<byte>>, rest: seq<byte>)
    requires Incremental(head) && Delivers(arrivals, rest) && Undecided(head, parse, response)
    requires |response| <= MAX_TOTAL_BYTES
    ensures Explained(head, parse, response + rest, ReadFrom(head, parse, response, arrivals))
    decreases |arrivals|
  {
    hide Incremental, ResponseExtent;
    if arrivals[0] == [] {
      assert response + rest == response;
    } else {
      var next, behind := response + arrivals[0], rest[|arrivals[0]|..];
      assert response + rest == next + behind;
      VerdictIsStable(head, parse, next, behind);
      if |next| > MAX_TOTAL_BYTES {
        TooLargeIsExplained(head, parse, response, arrivals[0], behind);
      } else if Undecided(head, parse, next) {
        OutcomeFrom(head, parse, next, arrivals[1..], behind);
      } else if ResponseExtent(head, parse, next).Ok? {
        var n := ResponseExtent(head, parse, next).value.value;
        assert (next + behind)[..n] == next[..n];
      }
    }
  }

  /** Passing the limit: the response was not yet complete one buffer earlier. */
  lemma TooLargeIsExplained(head: HeadParser, parse: LineParser, response: seq<byte>,
                            arrival: seq<byte>, behind: seq<byte>)
    requires Incremental(head) && Undecided(head, parse, response)
    requires |arrival| <= READ_BUFFER && |response + arrival| > MAX_TOTAL_BYTES
    ensures !Roomy(head, parse, response + arrival + behind)
  {
    hide Incremental, ResponseExtent;
    var stream := response + arrival + behind;
    var verdict := ResponseExtent(head, parse, stream);
    if verdict.Ok? && verdict.value.Some? {
      var n := verdict.value.value;
      assert stream == response + (arrival + behind);
      if n <= |response| {
        EndIsKnown(head, parse, response, arrival + behind, n);
      }
    }
  }

  /** The loop starts undecided. */
  lemma NothingIsUndecided(head: HeadParser, parse: LineParser)
    requires Incremental(head)
    ensures Undecided(head, parse, [])
  {
  }

  /**
   Arrival sizes do not matter within the limit: however the stream is cut into
   reads, the loop returns what the whole stream amounts to, response or error.
   The one thing they can decide is whether a malformed header is first given up
   as too large. Every success, on any stream, is the response in it.
   */
  lemma ArrivalsDoNotMatter(head: HeadParser, parse: LineParser, arrivals: seq<seq<byte>>, stream: seq<byte>)
    requires Incremental(head) && Delivers(arrivals, stream)
    ensures
      var outcome, expected := ReadFrom(head, parse, [], arrivals), Expected(head, parse, stream);
      && outcome.Finished?
      && (outcome.result.Ok? ==> outcome.result == expected)
      && (|stream| <= MAX_TOTAL_BYTES ==>
            || outcome.result == expected
            || (outcome.result == Err(HeadersTooLarge) && expected == Err(MalformedHeader)))
  {
    hide Incremental, ResponseExtent;
    NothingIsUndecided(head, parse);
    OutcomeFrom(head, parse, [], arrivals, stream);
    assert [] + stream == stream;
  }

  // ----- Past the limit ----------------------------------------------------

  /** A stream past the limit whose response does not end within it is always refused. */
  lemma OversizedIsRefused(head: HeadParser, parse: LineParser, arrivals: seq<seq<byte>>, stream: seq<byte>)
    requires Incremental(head) && Delivers(arrivals, stream) && |stream| > MAX_TOTAL_BYTES
    requires Expected(head, parse, stream).Ok? ==> |Expected(head, parse, stream).value| > MAX_TOTAL_BYTES
    ensures ReadFrom(head, parse, [], arrivals).Finished? && ReadFrom(head, parse, [], arrivals).result.Err?
  {
    hide Incremental, ResponseExtent;
    NothingIsUndecided(head, parse);
    OutcomeFrom(head, parse, [], arrivals, stream);
    assert [] + stream == stream;
  }

  /** A read for every byte. */
  function Singles(s: seq<byte>): (r: seq<seq<byte>>)
    ensures |r| == |s|
  {
    seq(|s|, i requires 0 <= i < |s| => [s[i]])
  }

  lemma {:induction false} SinglesDeliver(s: seq<byte>)
    ensures Delivers(Singles(s) + [[]], s)
  {
    if s != [] {
      assert (Singles(s) + [[]])[1..] == Singles(s[1..]) + [[]];
      SinglesDeliver(s[1..]);
    }
  }

  lemma {:induction false} SinglesThen(s: seq<byte>, t: seq<byte>, more: seq<seq<byte>>)
    requires Delivers(more, t)
    ensures Delivers(Singles(s) + more, s + t)
  {
    if s == [] {
      assert Singles(s) + more == more && s + t == t;
    } else {
      assert (Singles(s) + more)[1..] == Singles(s[1..]) + more;
      assert (s + t)[1..] == s[1..] + t;
      SinglesThen(s[1..], t, more);
    }
  }

  /** While the response is incomplete, single bytes are only collected. */
  lemma {:induction false} SinglesAreCollected(head: HeadParser, parse: LineParser, response: seq<byte>,
                                               s: seq<byte>, more: seq<seq<byte>>, t: seq<byte>, n: nat)
    requires Incremental(head)
    requires ResponseExtent(head, parse, response + s + t) == Ok(Some(n))
    requires |response + s| < n <= MAX_TOTAL_BYTES
    ensures ReadFrom(head, parse, response, Singles(s) + more) == ReadFrom(head, parse, response + s, more)
    decreases |s|
  {
    hide Incremental, ResponseExtent;
    if s == [] {
      assert Singles(s) + more == more && response + s == response;
    } else {
      var next := response + [s[0]];
      assert (Singles(s) + more)[0] == [s[0]] && (Singles(s) + more)[1..] == Singles(s[1..]) + more;
      assert response + s == next + s[1..];
      assert response + s + t == next + (s[1..] + t);
      VerdictIsStable(head, parse, next, s[1..] + t);
      SinglesAreCollected(head, parse, next, s[1..], more, t, n);
    }
  }

  /** Reads that reach the end of the response exactly. */
  lemma ByteByByte(head: HeadParser, parse: LineParser, stream: seq<byte>, n: nat)
    requires Incremental(head) && ResponseExtent(head, parse, stream) == Ok(Some(n))
    requires 0 < n <= MAX_TOTAL_BYTES && n <= |stream|
    ensures Delivers(Singles(stream) + [[]], stream)
    ensures ReadFrom(head, parse, [], Singles(stream) + [[]]) == Finished(Ok(stream[..n]))
  {
    hide Incremental, ResponseExtent, ReadFrom, Delivers;
    SinglesDeliver(stream);
    var before, rest := stream[..n - 1], stream[n - 1..];
    var more := Singles(rest) + [[]];
    assert Singles(stream) + [[]] == Singles(before) + more;
    assert [] + before + rest == stream;
    SinglesAreCollected(head, parse, [], before, more, rest, n);
    assert [] + before == before && before + [stream[n - 1]] == stream[..n];
    assert stream[..n] + stream[n..] == stream;
    LastByte(head, parse, before, more, stream[n..]);
  }

  /** The read that completes the response ends the loop. */
  lemma LastByte(head: HeadParser, parse: LineParser, before: seq<byte>, more: seq<seq<byte>>, behind: seq<byte>)
    requires Incremental(head) && more != [] && |more[0]| == 1 && |before| < MAX_TOTAL_BYTES
    requires ResponseExtent(head, parse, before + more[0] + behind) == Ok(Some(|before| + 1))
    ensures ReadFrom(head, parse, before, more) == Finished(Ok(before + more[0]))
  {
    hide Incremental, ResponseExtent;
    var next := before + more[0];
    EndIsKnown(head, parse, next, behind, |next|);
    assert next[..|next|] == next;
  }

  /** Reads that stop one byte short of the response and then fill the buffer. */
  lemma LateBuffer(head: HeadParser, parse: LineParser, stream: seq<byte>, n: nat) returns (arrivals: seq<seq<byte>>)
    requires Incremental(head) && ResponseExtent(head, parse, stream) == Ok(Some(n))
    requires 0 < n <= MAX_TOTAL_BYTES < |stream| && n + READ_BUFFER - 1 > MAX_TOTAL_BYTES
    ensures Delivers(arrivals, stream)
    ensures ReadFrom(head, parse, [], arrivals) == Finished(Err(ResponseTooLarge))
  {
    hide Incremental, ResponseExtent, ReadFrom;
    var k := Min(READ_BUFFER, |stream| - (n - 1));
    var before, rest := stream[..n - 1], stream[n - 1..];
    var more := [rest[..k]] + (Singles(rest[k..]) + [[]]);
    BufferThenSingles(rest, k);
    assert before + rest == stream;
    SinglesThen(before, rest, more);
    arrivals := Singles(before) + more;
    assert [] + before == before;
    SinglesAreCollected(head, parse, [], before, more, rest, n);
    PastTheLimit(head, parse, before, more);
  }

  lemma BufferThenSingles(s: seq<byte>, k: nat)
    requires 0 < k <= |s| && k <= READ_BUFFER
    ensures Delivers([s[..k]] + (Singles(s[k..]) + [[]]), s)
  {
    SinglesDeliver(s[k..]);
    var arrivals := [s[..k]] + (Singles(s[k..]) + [[]]);
    assert arrivals[1..] == Singles(s[k..]) + [[]];
  }

  lemma PastTheLimit(head: HeadParser, parse: LineParser, response: seq<byte>, arrivals: seq<seq<byte>>)
    requires Incremental(head) && arrivals != [] && arrivals[0] != []
    requires |response| + |arrivals[0]| > MAX_TOTAL_BYTES
    ensures ReadFrom(head, parse, response, arrivals) == Finished(Err(ResponseTooLarge))
  {
  }

  /**
   Past the limit the sizes of the reads can matter, because the limit is
   applied to a whole buffer before the end of the response is looked for. A
   response that ends within the limit is returned for every way the stream can
   arrive if and only if the stream is within the limit or the response ends at
   least a buffer before it.
   */
  lemma ArrivalsMatterExactly(head: HeadParser, parse: LineParser, stream: seq<byte>, n: nat)
    requires Incremental(head) && ResponseExtent(head, parse, stream) == Ok(Some(n))
    requires n <= |stream| && n <= MAX_TOTAL_BYTES
    ensures
      (forall arrivals :: Delivers(arrivals, stream) ==>
         ReadFrom(head, parse, [], arrivals) == Finished(Ok(stream[..n])))
      <==> |stream| <= MAX_TOTAL_BYTES || n + READ_BUFFER - 1 <= MAX_TOTAL_BYTES
  {
    hide Incremental, ResponseExtent;
    if |stream| <= MAX_TOTAL_BYTES || n + READ_BUFFER - 1 <= MAX_TOTAL_BYTES {
      NothingIsUndecided(head, parse);
      forall arrivals | Delivers(arrivals, stream)
        ensures ReadFrom(head, parse, [], arrivals) == Finished(Ok(stream[..n]))
      {
        OutcomeFrom(head, parse, [], arrivals, stream);
        assert [] + stream == stream;
      }
    } else {
      var arrivals := LateBuffer(head, parse, stream, n);
    }
  }

  /** A header of the largest size, announcing the largest body. */
  function LargestHead(s: seq<byte>): Head {
    if |s| < MAX_HEADER_BYTES then Partial
    else Complete(MAX_HEADER_BYTES, ByLength(Some(MAX_RESPONSE_BYTES)))
  }

  /** One stream, one byte past the limit, that is accepted or refused depending on the reads. */
  lemma ReadSizesDecide(parse: LineParser) returns (stream: seq<byte>, early: seq<seq<byte>>, late: seq<seq<byte>>)
    ensures Incremental(LargestHead) && Delivers(early, stream) && Delivers(late, stream)
    ensures |stream| == MAX_TOTAL_BYTES + 1
    ensures ReadFrom(LargestHead, parse, [], early) == Finished(Ok(stream[..MAX_TOTAL_BYTES]))
    ensures ReadFrom(LargestHead, parse, [], late) == Finished(Err(ResponseTooLarge))
  {
    stream := seq(MAX_TOTAL_BYTES + 1, _ => 0);
    assert ResponseExtent(LargestHead, parse, stream) == Ok(Some(MAX_TOTAL_BYTES));
    ByteByByte(LargestHead, parse, stream, MAX_TOTAL_BYTES);
    early := Singles(stream) + [[]];
    late := LateBuffer(LargestHead, parse, stream, MAX_TOTAL_BYTES);
  }
}
