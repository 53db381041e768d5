/**
 The chunked transfer coding of the setup client (src/setup.rs, section 7.1 of
 RFC 9112): a scanner that finds where a body ends while it is still arriving,
 and the decoder that is run once it is complete. How a chunk-size line is
 parsed is a parameter: everything here holds for any such parser.
 */
module Chunked {
  import opened Bytes

  const MAX_RESPONSE_BYTES: nat := 65_536
  const MAX_LINE: nat := 128

  datatype ChunkError =
    | IncompleteLine
    | LineTooLong
    | InvalidSize
    | BodyTooLarge
    | TruncatedChunk
    | MissingTerminator

  /** The size on a chunk-size line, if it has one. */
  type LineParser = seq<byte> -> Option<nat>

  const CRLF: seq<byte> := [13, 10]
  const BLANK_LINE: seq<byte> := [13, 10, 13, 10]

  /** Where `pattern` first occurs. */
  function Find(s: seq<byte>, pattern: seq<byte>): (r: Option<nat>)
    ensures r.Some? ==> r.value + |pattern| <= |s| && s[r.value..r.value + |pattern|] == pattern
  {
    if |s| < |pattern| then None
    else if s[..|pattern|] == pattern then Some(0)
    else if |s| == 0 then None
    else
      match Find(s[1..], pattern)
      case None => None
      case Some(i) => Some(i + 1)
  }

  /** Nothing before the place found matches: the search returns the first occurrence. */
  lemma {:induction false} FindIsFirst(s: seq<byte>, pattern: seq<byte>, i: nat)
    requires i + |pattern| <= |s| && s[i..i + |pattern|] == pattern
    ensures Find(s, pattern).Some? && Find(s, pattern).value <= i
  {
    if i > 0 && s[..|pattern|] != pattern {
      assert s[1..][i - 1..i - 1 + |pattern|] == s[i..i + |pattern|];
      FindIsFirst(s[1..], pattern, i - 1);
    }
  }

  /** An occurrence stays the first one when bytes are added behind, or cut off behind it. */
  lemma {:induction false} FindIsStable(s: seq<byte>, t: seq<byte>, pattern: seq<byte>)
    requires pattern != []
    ensures Find(s, pattern).Some? ==> Find(s + t, pattern) == Find(s, pattern)
  {
    if |s| >= |pattern| {
      assert (s + t)[..|pattern|] == s[..|pattern|];
      if s[..|pattern|] != pattern {
        FindIsStable(s[1..], t, pattern);
        assert (s + t)[1..] == s[1..] + t;
      }
    }
  }

  /** The first occurrence is found within any prefix that holds it. */
  lemma {:induction false} FindInPrefix(s: seq<byte>, n: nat, pattern: seq<byte>)
    requires pattern != [] && n <= |s| && Find(s, pattern).Some? && Find(s, pattern).value + |pattern| <= n
    ensures Find(s[..n], pattern) == Find(s, pattern)
  {
    hide Find;
    assert s[..n][..|pattern|] == s[..|pattern|];
    FindStep(s, pattern);
    FindStep(s[..n], pattern);
    if s[..|pattern|] != pattern {
      FindInPrefix(s[1..], n - 1, pattern);
      assert s[..n][1..] == s[1..][..n - 1];
    }
  }

  lemma {:induction false} FindStep(s: seq<byte>, pattern: seq<byte>)
    requires 0 < |pattern| <= |s|
    ensures Find(s, pattern).None? <==> s[..|pattern|] != pattern && Find(s[1..], pattern).None?
    ensures s[..|pattern|] == pattern ==> Find(s, pattern) == Some(0)
    ensures s[..|pattern|] != pattern && Find(s[1..], pattern).Some? ==>
      Find(s, pattern) == Some(Find(s[1..], pattern).value + 1)
  {
  }

  // ----- One chunk-size line -----------------------------------------------

  datatype Line = NoLine | BadLine(error: ChunkError) | Size(size: nat, length: nat)

  /** The chunk-size line in front: its size and its length with the line end. */
  function ReadLine(parse: LineParser, s: seq<byte>): (r: Line)
    ensures r.Size? ==> 2 <= r.length <= |s|
  {
    match Find(s, CRLF)
    case None => NoLine
    case Some(end) =>
      if end > MAX_LINE then BadLine(LineTooLong)
      else
        match parse(s[..end])
        case None => BadLine(InvalidSize)
        case Some(size) => Size(size, end + 2)
  }

  lemma ReadLineIsStable(parse: LineParser, s: seq<byte>, t: seq<byte>)
    ensures ReadLine(parse, s) != NoLine ==> ReadLine(parse, s + t) == ReadLine(parse, s)
  {
    FindIsStable(s, t, CRLF);
    if Find(s, CRLF).Some? {
      assert (s + t)[..Find(s, CRLF).value] == s[..Find(s, CRLF).value];
    }
  }

  lemma ReadLineInPrefix(parse: LineParser, s: seq<byte>, n: nat)
    requires ReadLine(parse, s).Size? && ReadLine(parse, s).length <= n <= |s|
    ensures ReadLine(parse, s[..n]) == ReadLine(parse, s)
  {
    FindInPrefix(s, n, CRLF);
    assert s[..n][..Find(s, CRLF).value] == s[..Find(s, CRLF).value];
  }

  // ----- The scanner -------------------------------------------------------

  type Extent = Result<Option<nat>, ChunkError>

  /** Where the trailers behind the last chunk end. */
  function TrailersEnd(s: seq<byte>): (r: Option<nat>)
    ensures r.Some? ==> r.value <= |s|
  {
    if CRLF <= s then Some(2)
    else
      match Find(s, BLANK_LINE)
      case None => None
      case Some(i) => Some(i + 4)
  }

  /** Whether `size` bytes of data and a line end stand `at` bytes into `s`. */
  predicate HasChunk(s: seq<byte>, at: nat, size: nat): (r: bool)
    ensures r ==> at + size + 2 <= |s|
  {
    at + size + 2 <= |s| && s[at + size..at + size + 2] == CRLF
  }

  /** What stops the scanner at a chunk of `size` bytes that starts `at` bytes into `s`. */
  function ChunkVerdict(s: seq<byte>, at: nat, offset: nat, size: nat): Option<Extent> {
    if size > MAX_RESPONSE_BYTES then Some(Err(BodyTooLarge))
    else if at + size + 2 > |s| then Some(Ok(None))
    else if !HasChunk(s, at, size) then Some(Err(MissingTerminator))
    else if offset + at + size + 2 > MAX_RESPONSE_BYTES then Some(Err(BodyTooLarge))
    else None
  }

  /** The end of the body that started `offset` bytes earlier and continues with `s`. */
  function ScanFrom(parse: LineParser, s: seq<byte>, offset: nat): (r: Extent)
    ensures r.Ok? && r.value.Some? ==> offset <= r.value.value <= offset + |s|
  {
    match ReadLine(parse, s)
    case NoLine => Ok(None)
    case BadLine(e) => Err(e)
    case Size(size, n) =>
      if size == 0 then
        match TrailersEnd(s[n..])
        case None => Ok(None)
        case Some(end) => Ok(Some(offset + n + end))
      else
        match ChunkVerdict(s, n, offset, size)
        case Some(verdict) => verdict
        case None => ScanFrom(parse, s[n + size + 2..], offset + n + size + 2)
  }

  function ChunkedBodyLength(parse: LineParser, encoded: seq<byte>): Extent { ScanFrom(parse, encoded, 0) }

  // ----- The decoder -------------------------------------------------------

  /** What stops the decoder at a chunk of `size` bytes that starts `at` bytes into `s`. */
  function DecodeVerdict(s: seq<byte>, at: nat, decoded: nat, size: nat): Option<ChunkError> {
    if decoded + size > MAX_RESPONSE_BYTES then Some(BodyTooLarge)
    else if at + size > |s| then Some(TruncatedChunk)
    else if !HasChunk(s, at, size) then Some(MissingTerminator)
    else None
  }

  /** `prefix` in front of what was decoded. */
  function Prepend(prefix: seq<byte>, r: Result<seq<byte>, ChunkError>): Result<seq<byte>, ChunkError> {
    if r.Ok? then Ok(prefix + r.value) else r
  }

  function DecodeFrom(parse: LineParser, s: seq<byte>, decoded: nat): Result<seq<byte>, ChunkError> {
    match ReadLine(parse, s)
    case NoLine => Err(IncompleteLine)
    case BadLine(e) => Err(e)
    case Size(size, n) =>
      if size == 0 then Ok([])
      else
        match DecodeVerdict(s, n, decoded, size)
        case Some(e) => Err(e)
        case None => Prepend(s[n..n + size], DecodeFrom(parse, s[n + size + 2..], decoded + size))
  }

  function DecodeChunkedBody(parse: LineParser, encoded: seq<byte>): Result<seq<byte>, ChunkError> {
    DecodeFrom(parse, encoded, 0)
  }

  // ----- The source's loops ------------------------------------------------

  method ScanChunkedBody(parse: LineParser, encoded: seq<byte>) returns (r: Extent)
    ensures r == ChunkedBodyLength(parse, encoded)
  {
    hide ReadLine, Find, TrailersEnd;
    var offset := 0;
    assert encoded[0..] == encoded;
    while true
      invariant 0 <= offset <= |encoded|
      invariant ChunkedBodyLength(parse, encoded) == ScanFrom(parse, encoded[offset..], offset)
      decreases |encoded| - offset
    {
      var line := ReadLine(parse, encoded[offset..]);
      if line.NoLine? {
        return Ok(None);
      }
      if line.BadLine? {
        return Err(line.error);
      }
      var size := line.size;
      SliceOfSlice(encoded, offset, line.length, size);
      offset := offset + line.length;
      if size == 0 {
        var end := TrailersEnd(encoded[offset..]);
        return Ok(if end.None? then None else Some(offset + end.value));
      }
      if size > MAX_RESPONSE_BYTES {
        return Err(BodyTooLarge);
      }
      if offset + size + 2 > |encoded| {
        return Ok(None);
      }
      if encoded[offset + size..offset + size + 2] != CRLF {
        return Err(MissingTerminator);
      }
      offset := offset + size + 2;
      if offset > MAX_RESPONSE_BYTES {
        return Err(BodyTooLarge);
      }
    }
  }

  /** A chunk seen from the start of the body and from its own size line. */
  lemma SliceOfSlice(s: seq<byte>, offset: nat, n: nat, size: nat)
    requires offset + n <= |s|
    ensures s[offset..][n..] == s[offset + n..]
    ensures offset + n + size + 2 <= |s| ==>
      && s[offset..][n + size..n + size + 2] == s[offset + n + size..offset + n + size + 2]
      && s[offset..][n + size + 2..] == s[offset + n + size + 2..]
  {
  }

  method DecodeBody(parse: LineParser, body: seq<byte>) returns (r: Result<seq<byte>, ChunkError>)
    ensures r == DecodeChunkedBody(parse, body)
  {
    hide ReadLine, Find, Prepend;
    var encoded, decoded := body, [];
    PrependNothing(DecodeChunkedBody(parse, body));
    while true
      invariant DecodeChunkedBody(parse, body) == Prepend(decoded, DecodeFrom(parse, encoded, |decoded|))
      decreases |encoded|
    {
      PrependToEnd(decoded, DecodeFrom(parse, encoded, |decoded|));
      var line := ReadLine(parse, encoded);
      if line.NoLine? {
        return Err(IncompleteLine);
      }
      if line.BadLine? {
        return Err(line.error);
      }
      var size := line.size;
      if size == 0 {
        return Ok(decoded);
      }
      ghost var whole, before := encoded, decoded;
      encoded := encoded[line.length..];
      if |decoded| + size > MAX_RESPONSE_BYTES {
        return Err(BodyTooLarge);
      }
      if size > |encoded| {
        return Err(TruncatedChunk);
      }
      ChunkBehindLine(whole, line.length, size);
      if size + 2 > |encoded| || encoded[size..size + 2] != CRLF {
        return Err(MissingTerminator);
      }
      decoded := decoded + encoded[..size];
      encoded := encoded[size + 2..];
      PrependTwice(before, whole[line.length..line.length + size], DecodeFrom(parse, encoded, |decoded|));
    }
  }

  /** A chunk seen from its size line and from behind that line. */
  lemma ChunkBehindLine(s: seq<byte>, n: nat, size: nat)
    requires n + size <= |s|
    ensures s[n..][..size] == s[n..n + size]
    ensures HasChunk(s, n, size) <==> size + 2 <= |s[n..]| && s[n..][size..size + 2] == CRLF
    ensures size + 2 <= |s[n..]| ==> s[n..][size + 2..] == s[n + size + 2..]
  {
    if n + size + 2 <= |s| {
      assert s[n..][size..size + 2] == s[n + size..n + size + 2];
    }
  }

  lemma PrependNothing(r: Result<seq<byte>, ChunkError>)
    ensures Prepend([], r) == r
  {
    assert r.Ok? ==> [] + r.value == r.value;
  }

  lemma PrependToEnd(a: seq<byte>, r: Result<seq<byte>, ChunkError>)
    ensures r.Err? ==> Prepend(a, r) == r
    ensures r == Ok([]) ==> Prepend(a, r) == Ok(a)
  {
    assert a + [] == a;
  }

  lemma PrependTwice(a: seq<byte>, b: seq<byte>, r: Result<seq<byte>, ChunkError>)
    ensures Prepend(a, Prepend(b, r)) == Prepend(a + b, r)
  {
    assert r.Ok? ==> a + (b + r.value) == a + b + r.value;
  }

  // ----- One chunk at a time -----------------------------------------------

  /** The decoder takes a whole chunk that fits, and goes on behind it. */
  lemma DecodeStep(parse: LineParser, s: seq<byte>, decoded: nat)
    requires ReadLine(parse, s).Size?
    requires ReadLine(parse, s).size != 0 ==> HasChunk(s, ReadLine(parse, s).length, ReadLine(parse, s).size)
    ensures
      var m, size := ReadLine(parse, s).length, ReadLine(parse, s).size;
      DecodeFrom(parse, s, decoded) ==
      if size == 0 then Ok([])
      else if decoded + size > MAX_RESPONSE_BYTES then Err(BodyTooLarge)
      else Prepend(s[m..m + size], DecodeFrom(parse, s[m + size + 2..], decoded + size))
  {
    hide ReadLine, Find, HasChunk, Prepend;
  }

  /** The scanner passes over a whole chunk that fits. */
  lemma ScanStep(parse: LineParser, s: seq<byte>, offset: nat)
    requires ReadLine(parse, s).Size? && ReadLine(parse, s).size != 0
    requires HasChunk(s, ReadLine(parse, s).length, ReadLine(parse, s).size)
    ensures
      var m, size := ReadLine(parse, s).length, ReadLine(parse, s).size;
      ScanFrom(parse, s, offset) ==
      if offset + m + size + 2 > MAX_RESPONSE_BYTES then Err(BodyTooLarge)
      else ScanFrom(parse, s[m + size + 2..], offset + m + size + 2)
  {
    hide ReadLine, Find, HasChunk;
  }

  // ----- What a server sends -----------------------------------------------

  /** `line` writes sizes up to `bound` in a way the parser reads back. */
  ghost predicate Spells(parse: LineParser, line: nat -> seq<byte>, bound: nat) {
    forall n: nat :: n <= bound ==> parse(line(n)) == Some(n) && |line(n)| <= MAX_LINE && 13 !in line(n)
  }

  function Encoded(line: nat -> seq<byte>, chunks: seq<seq<byte>>): seq<byte> {
    if chunks == [] then line(0) + CRLF + CRLF
    else line(|chunks[0]|) + CRLF + (chunks[0] + CRLF + Encoded(line, chunks[1..]))
  }

  function Flatten(chunks: seq<seq<byte>>): seq<byte> {
    if chunks == [] then [] else chunks[0] + Flatten(chunks[1..])
  }

  /** How many bytes the chunks take, framing included and without the last, empty chunk. */
  function FramedLength(line: nat -> seq<byte>, chunks: seq<seq<byte>>): nat {
    if chunks == [] then 0 else |line(|chunks[0]|)| + |chunks[0]| + 4 + FramedLength(line, chunks[1..])
  }

  ghost predicate Sendable(chunks: seq<seq<byte>>, bound: nat) {
    forall i :: 0 <= i < |chunks| ==> 0 < |chunks[i]| <= bound
  }

  lemma {:induction false} FindLineEnd(line: seq<byte>, rest: seq<byte>)
    requires 13 !in line
    ensures Find(line + CRLF + rest, CRLF) == Some(|line|)
  {
    var s := line + CRLF + rest;
    if line == [] {
      assert s[..2] == CRLF;
    } else {
      assert s[0] == line[0] && s[..2][0] != CRLF[0];
      assert s[1..] == line[1..] + CRLF + rest;
      FindLineEnd(line[1..], rest);
    }
  }

  lemma ReadWrittenLine(parse: LineParser, line: nat -> seq<byte>, bound: nat, n: nat, rest: seq<byte>)
    requires Spells(parse, line, bound) && n <= bound
    ensures ReadLine(parse, line(n) + CRLF + rest) == Size(n, |line(n)| + 2)
  {
    hide Find;
    FindLineEnd(line(n), rest);
    assert (line(n) + CRLF + rest)[..|line(n)|] == line(n);
  }

  /** Where the parts of one written chunk stand. */
  lemma WrittenChunk(line: seq<byte>, chunk: seq<byte>, rest: seq<byte>)
    ensures
      var s := line + CRLF + (chunk + CRLF + rest);
      && HasChunk(s, |line| + 2, |chunk|)
      && s[|line| + 2..|line| + 2 + |chunk|] == chunk
      && s[|line| + |chunk| + 4..] == rest
  {
    var s := line + CRLF + (chunk + CRLF + rest);
    assert s[|line| + 2 + |chunk|..|line| + 4 + |chunk|] == CRLF;
  }

  lemma {:induction false} WrittenDecodes(parse: LineParser, line: nat -> seq<byte>, bound: nat,
                                          chunks: seq<seq<byte>>, decoded: nat)
    requires Spells(parse, line, bound) && Sendable(chunks, bound) && decoded <= MAX_RESPONSE_BYTES
    ensures DecodeFrom(parse, Encoded(line, chunks), decoded) ==
            if decoded + |Flatten(chunks)| <= MAX_RESPONSE_BYTES then Ok(Flatten(chunks)) else Err(BodyTooLarge)
  {
    hide ReadLine, Find, HasChunk, Spells, DecodeFrom;
    if chunks == [] {
      ReadWrittenLine(parse, line, bound, 0, CRLF);
    } else {
      var chunk, rest := chunks[0], Encoded(line, chunks[1..]);
      ReadWrittenLine(parse, line, bound, |chunk|, chunk + CRLF + rest);
      WrittenChunk(line(|chunk|), chunk, rest);
      if decoded + |chunk| <= MAX_RESPONSE_BYTES {
        WrittenDecodes(parse, line, bound, chunks[1..], decoded + |chunk|);
      }
    }
    DecodeStep(parse, Encoded(line, chunks), decoded);
  }

  lemma {:induction false} WrittenScans(parse: LineParser, line: nat -> seq<byte>, bound: nat,
                                        chunks: seq<seq<byte>>, offset: nat)
    requires Spells(parse, line, bound) && Sendable(chunks, bound) && offset <= MAX_RESPONSE_BYTES
    ensures ScanFrom(parse, Encoded(line, chunks), offset) ==
            if offset + FramedLength(line, chunks) <= MAX_RESPONSE_BYTES
            then Ok(Some(offset + |Encoded(line, chunks)|)) else Err(BodyTooLarge)
  {
    hide ReadLine, Find, HasChunk, Spells, ScanFrom;
    if chunks == [] {
      ReadWrittenLine(parse, line, bound, 0, CRLF);
      LastChunkScans(parse, line(0), offset);
    } else {
      var chunk, rest := chunks[0], Encoded(line, chunks[1..]);
      ReadWrittenLine(parse, line, bound, |chunk|, chunk + CRLF + rest);
      WrittenChunk(line(|chunk|), chunk, rest);
      if offset + |line(|chunk|)| + |chunk| + 4 <= MAX_RESPONSE_BYTES {
        WrittenScans(parse, line, bound, chunks[1..], offset + |line(|chunk|)| + |chunk| + 4);
      }
      ScanStep(parse, Encoded(line, chunks), offset);
    }
  }

  lemma LastChunkScans(parse: LineParser, line: seq<byte>, offset: nat)
    requires ReadLine(parse, line + CRLF + CRLF) == Size(0, |line| + 2)
    ensures ScanFrom(parse, line + CRLF + CRLF, offset) == Ok(Some(offset + |line + CRLF + CRLF|))
  {
    hide ReadLine, Find;
    assert (line + CRLF + CRLF)[|line| + 2..] == CRLF;
  }

  /**
   Round trip: a body sent in any chunks decodes to their contents exactly when
   these are within the limit, and its end is found exactly when the chunks with
   their framing are. Both are refused as too large otherwise.
   */
  lemma ChunkedRoundTrip(parse: LineParser, line: nat -> seq<byte>, bound: nat, chunks: seq<seq<byte>>)
    requires Spells(parse, line, bound) && Sendable(chunks, bound)
    ensures DecodeChunkedBody(parse, Encoded(line, chunks)) ==
            if |Flatten(chunks)| <= MAX_RESPONSE_BYTES then Ok(Flatten(chunks)) else Err(BodyTooLarge)
    ensures ChunkedBodyLength(parse, Encoded(line, chunks)) ==
            if FramedLength(line, chunks) <= MAX_RESPONSE_BYTES
            then Ok(Some(|Encoded(line, chunks)|)) else Err(BodyTooLarge)
  {
    WrittenDecodes(parse, line, bound, chunks, 0);
    WrittenScans(parse, line, bound, chunks, 0);
  }

  // ----- Scanner and decoder agree -----------------------------------------

  /** Once the scanner has decided, later bytes do not change its mind. */
  lemma {:induction false} ScanIsStable(parse: LineParser, s: seq<byte>, t: seq<byte>, offset: nat)
    ensures ScanFrom(parse, s, offset) != Ok(None) ==> ScanFrom(parse, s + t, offset) == ScanFrom(parse, s, offset)
    decreases |s|
  {
    hide ReadLine, Find, TrailersEnd;
    ReadLineIsStable(parse, s, t);
    if ReadLine(parse, s).Size? {
      var n, size := ReadLine(parse, s).length, ReadLine(parse, s).size;
      if size == 0 {
        assert (s + t)[n..] == s[n..] + t;
        TrailersAreStable(s[n..], t);
      } else {
        ChunkIsStable(s, t, n, offset, size);
        if ChunkVerdict(s, n, offset, size).None? {
          ScanIsStable(parse, s[n + size + 2..], t, offset + n + size + 2);
          assert (s + t)[n + size + 2..] == s[n + size + 2..] + t;
        }
      }
    }
  }

  lemma TrailersAreStable(s: seq<byte>, t: seq<byte>)
    ensures TrailersEnd(s).Some? ==> TrailersEnd(s + t) == TrailersEnd(s)
  {
    FindIsStable(s, t, BLANK_LINE);
    if |s| >= 2 {
      assert (s + t)[..2] == s[..2];
    }
  }

  lemma ChunkIsStable(s: seq<byte>, t: seq<byte>, at: nat, offset: nat, size: nat)
    ensures ChunkVerdict(s, at, offset, size) != Some(Ok(None)) ==>
      ChunkVerdict(s + t, at, offset, size) == ChunkVerdict(s, at, offset, size)
  {
    if at + size + 2 <= |s| {
      assert (s + t)[at + size..at + size + 2] == s[at + size..at + size + 2];
    }
  }

  /** A chunk reads the same in any prefix that reaches past it. */
  lemma ChunkInPrefix(s: seq<byte>, at: nat, size: nat, n: nat)
    requires at + size + 2 <= n <= |s|
    ensures HasChunk(s[..n], at, size) <==> HasChunk(s, at, size)
    ensures s[..n][at..at + size] == s[at..at + size]
    ensures s[..n][at + size + 2..] == s[at + size + 2..][..n - (at + size + 2)]
  {
    assert s[..n][at + size..at + size + 2] == s[at + size..at + size + 2];
  }

  /** The chunk at the front of a body the scanner has seen the end of. */
  lemma FirstChunk(parse: LineParser, s: seq<byte>, offset: nat, n: nat)
    requires ScanFrom(parse, s, offset) == Ok(Some(offset + n))
    ensures ReadLine(parse, s).Size? && ReadLine(parse, s).length <= n
    ensures
      var m, size := ReadLine(parse, s).length, ReadLine(parse, s).size;
      size != 0 ==>
        && HasChunk(s, m, size) && m + size + 2 <= n
        && offset + m + size + 2 <= MAX_RESPONSE_BYTES
        && ScanFrom(parse, s[m + size + 2..], offset + m + size + 2) == Ok(Some(offset + n))
  {
    hide ReadLine, Find, TrailersEnd, HasChunk;
  }

  lemma {:induction false} ExtentDecodesFrom(parse: LineParser, s: seq<byte>, offset: nat, decoded: nat, n: nat)
    requires ScanFrom(parse, s, offset) == Ok(Some(offset + n)) && decoded <= offset
    ensures n <= |s|
    ensures DecodeFrom(parse, s[..n], decoded).Ok?
    ensures DecodeFrom(parse, s[..n], decoded) == DecodeFrom(parse, s, decoded)
    ensures decoded <= MAX_RESPONSE_BYTES ==>
      decoded + |DecodeFrom(parse, s, decoded).value| <= MAX_RESPONSE_BYTES
    decreases |s|
  {
    hide ReadLine, Find, HasChunk, ScanFrom, DecodeFrom;
    FirstChunk(parse, s, offset, n);
    ReadLineInPrefix(parse, s, n);
    var m, size := ReadLine(parse, s).length, ReadLine(parse, s).size;
    if size != 0 {
      var k := m + size + 2;
      ExtentDecodesFrom(parse, s[k..], offset + k, decoded + size, n - k);
      ChunkInPrefix(s, m, size, n);
    }
    DecodeStep(parse, s, decoded);
    DecodeStep(parse, s[..n], decoded);
  }

  /**
   When the scanner says where the body ends, the decoder accepts exactly that
   many bytes, within the size limit, and with the same result as on everything
   received.
   */
  lemma ExtentDecodes(parse: LineParser, encoded: seq<byte>, n: nat)
    requires ChunkedBodyLength(parse, encoded) == Ok(Some(n))
    ensures n <= |encoded|
    ensures
      var body := DecodeChunkedBody(parse, encoded[..n]);
      body.Ok? && |body.value| <= MAX_RESPONSE_BYTES && body == DecodeChunkedBody(parse, encoded)
  {
    ExtentDecodesFrom(parse, encoded, 0, 0, n);
  }

  /** The end of the body is known as soon as it has arrived. */
  lemma {:induction false} ExtentInPrefix(parse: LineParser, s: seq<byte>, offset: nat, n: nat, k: nat)
    requires ScanFrom(parse, s, offset) == Ok(Some(offset + n)) && n <= k <= |s|
    ensures ScanFrom(parse, s[..k], offset) == Ok(Some(offset + n))
    decreases |s|
  {
    hide ReadLine, Find, HasChunk, TrailersEnd, ScanFrom;
    FirstChunk(parse, s, offset, n);
    var m, size := ReadLine(parse, s).length, ReadLine(parse, s).size;
    if size == 0 {
      LastChunkInPrefix(parse, s, offset, n, k);
    } else {
      ReadLineInPrefix(parse, s, k);
      ChunkInPrefix(s, m, size, k);
      var behind := m + size + 2;
      ExtentInPrefix(parse, s[behind..], offset + behind, n - behind, k - behind);
      ScanStep(parse, s[..k], offset);
    }
  }

  lemma LastChunkInPrefix(parse: LineParser, s: seq<byte>, offset: nat, n: nat, k: nat)
    requires ScanFrom(parse, s, offset) == Ok(Some(offset + n)) && n <= k <= |s|
    requires ReadLine(parse, s).Size? && ReadLine(parse, s).size == 0
    ensures ScanFrom(parse, s[..k], offset) == Ok(Some(offset + n))
  {
    hide ReadLine, Find, TrailersEnd;
    var m := ReadLine(parse, s).length;
    ReadLineInPrefix(parse, s, k);
    assert s[..k][m..] == s[m..][..k - m];
    TrailersInPrefix(s[m..], k - m);
  }

  lemma TrailersInPrefix(s: seq<byte>, k: nat)
    requires TrailersEnd(s).Some? && TrailersEnd(s).value <= k <= |s|
    ensures TrailersEnd(s[..k]) == TrailersEnd(s)
  {
    if CRLF <= s {
      assert s[..k][..2] == s[..2];
    } else {
      FindInPrefix(s, k, BLANK_LINE);
      assert k >= 2 ==> s[..k][..2] == s[..2];
    }
  }

  /** How many encoded bytes precede the last, empty chunk. */
  ghost function ChunkBytes(parse: LineParser, s: seq<byte>, decoded: nat): nat
    requires DecodeFrom(parse, s, decoded).Ok?
  {
    var n, size := ReadLine(parse, s).length, ReadLine(parse, s).size;
    if size == 0 then 0
    else n + size + 2 + ChunkBytes(parse, s[n + size + 2..], decoded + size)
  }

  /** What stands behind the size line of the last, empty chunk. */
  ghost function Tail(parse: LineParser, s: seq<byte>, decoded: nat): (r: seq<byte>)
    requires DecodeFrom(parse, s, decoded).Ok?
    ensures |r| <= |s|
  {
    var n, size := ReadLine(parse, s).length, ReadLine(parse, s).size;
    if size == 0 then s[n..] else Tail(parse, s[n + size + 2..], decoded + size)
  }

  lemma {:induction false} ScannerVerdictFrom(parse: LineParser, s: seq<byte>, offset: nat, decoded: nat)
    requires DecodeFrom(parse, s, decoded).Ok? && offset <= MAX_RESPONSE_BYTES
    ensures
      var tail := Tail(parse, s, decoded);
      ScanFrom(parse, s, offset) ==
      if offset + ChunkBytes(parse, s, decoded) > MAX_RESPONSE_BYTES then Err(BodyTooLarge)
      else if TrailersEnd(tail).None? then Ok(None)
      else Ok(Some(offset + |s| - |tail| + TrailersEnd(tail).value))
    decreases |s|
  {
    hide ReadLine, TrailersEnd, ScanFrom, DecodeFrom;
    DecodableLine(parse, s, decoded);
    var n, size := ReadLine(parse, s).length, ReadLine(parse, s).size;
    if size == 0 {
      ScanLastLine(parse, s, offset);
    } else {
      ScanOneChunk(parse, s, offset, decoded);
      if offset + n + size + 2 <= MAX_RESPONSE_BYTES {
        ScannerVerdictFrom(parse, s[n + size + 2..], offset + n + size + 2, decoded + size);
      }
    }
  }

  lemma DecodableLine(parse: LineParser, s: seq<byte>, decoded: nat)
    requires DecodeFrom(parse, s, decoded).Ok?
    ensures ReadLine(parse, s).Size? && ReadLine(parse, s).length <= |s|
  {
    hide HasChunk, Find;
  }

  lemma ScanLastLine(parse: LineParser, s: seq<byte>, offset: nat)
    requires ReadLine(parse, s).Size? && ReadLine(parse, s).size == 0 && ReadLine(parse, s).length <= |s|
    ensures
      var n := ReadLine(parse, s).length;
      ScanFrom(parse, s, offset) ==
      if TrailersEnd(s[n..]).None? then Ok(None) else Ok(Some(offset + n + TrailersEnd(s[n..]).value))
  {
    hide ReadLine, TrailersEnd, HasChunk;
  }

  /** A chunk the decoder takes: the scanner refuses it for its limit or goes on behind it, as the decoder does. */
  lemma ScanOneChunk(parse: LineParser, s: seq<byte>, offset: nat, decoded: nat)
    requires DecodeFrom(parse, s, decoded).Ok? && ReadLine(parse, s).Size? && ReadLine(parse, s).size != 0
    ensures
      var n, size := ReadLine(parse, s).length, ReadLine(parse, s).size;
      && n + size + 2 <= |s| && DecodeFrom(parse, s[n + size + 2..], decoded + size).Ok?
      && ScanFrom(parse, s, offset) ==
         if offset + n + size + 2 > MAX_RESPONSE_BYTES then Err(BodyTooLarge)
         else ScanFrom(parse, s[n + size + 2..], offset + n + size + 2)
  {
    hide ReadLine, TrailersEnd;
  }

  /**
   The scanner's whole verdict on a body that decodes. The two size limits
   differ, the decoder counting decoded bytes and the scanner encoded ones: the
   body is refused exactly when its chunks, framing included, take more than the
   limit. And the decoder stops at the last size line, while the scanner waits for
   the trailers: it is undecided until these end, and otherwise finds their end.
   */
  lemma ScannerOnDecodable(parse: LineParser, encoded: seq<byte>)
    requires DecodeChunkedBody(parse, encoded).Ok?
    ensures
      var tail := Tail(parse, encoded, 0);
      ChunkedBodyLength(parse, encoded) ==
      if ChunkBytes(parse, encoded, 0) > MAX_RESPONSE_BYTES then Err(BodyTooLarge)
      else if TrailersEnd(tail).None? then Ok(None)
      else Ok(Some(|encoded| - |tail| + TrailersEnd(tail).value))
  {
    ScannerVerdictFrom(parse, encoded, 0, 0);
  }

  /** A last size line without its trailers decodes, and leaves the scanner undecided. */
  lemma DecodableButOpen(parse: LineParser)
    requires parse([48]) == Some(0)
    ensures DecodeChunkedBody(parse, [48, 13, 10]) == Ok([])
    ensures ChunkedBodyLength(parse, [48, 13, 10]) == Ok(None)
  {
    var s: seq<byte> := [48, 13, 10];
    assert s == [48] + CRLF + [];
    FindLineEnd([48], []);
    assert s[..1] == [48] && s[3..] == [];
  }
}
