/**
 The Cast channel message and its codec (src/control/proto.rs). A Rust string
 is its UTF-8 bytes.
 */
module CastMessages {
  import opened Bytes
  import opened Protobuf
  import Varint

  // ----- UTF-8 -------------------------------------------------------------

  predicate Tail(b: byte) { 0x80 <= b <= 0xBF }

  /** Length of the well-formed sequence in front, or zero (table 3-7 of the Unicode standard). */
  function ScalarLength(s: seq<byte>): (n: nat)
    ensures n <= |s|
  {
    if |s| >= 1 && s[0] < 0x80 then 1
    else if |s| >= 2 && 0xC2 <= s[0] <= 0xDF && Tail(s[1]) then 2
    else if |s| >= 3 && Tail(s[1]) && Tail(s[2])
            && (|| (s[0] == 0xE0 && s[1] >= 0xA0)
                || 0xE1 <= s[0] <= 0xEC
                || (s[0] == 0xED && s[1] <= 0x9F)
                || 0xEE <= s[0] <= 0xEF) then 3
    else if |s| >= 4 && Tail(s[1]) && Tail(s[2]) && Tail(s[3])
            && (|| (s[0] == 0xF0 && s[1] >= 0x90)
                || 0xF1 <= s[0] <= 0xF3
                || (s[0] == 0xF4 && s[1] <= 0x8F)) then 4
    else 0
  }

  predicate ValidUtf8(s: seq<byte>) {
    s == [] || (ScalarLength(s) > 0 && ValidUtf8(s[ScalarLength(s)..]))
  }

  type Utf8 = s: seq<byte> | ValidUtf8(s)

  // ----- The message -------------------------------------------------------

  datatype Payload = Text(text: Utf8) | Binary(data: seq<byte>)

  datatype CastMessage = CastMessage(
    sourceId: Utf8,
    destinationId: Utf8,
    namespace: Utf8,
    payload: Payload)

  /** No buffer outgrows the address space. */
  predicate Representable(m: CastMessage) {
    && |m.sourceId| < Varint.LIMIT && |m.destinationId| < Varint.LIMIT && |m.namespace| < Varint.LIMIT
    && (if m.payload.Text? then |m.payload.text| else |m.payload.data|) < Varint.LIMIT
  }

  /** The fields of a message, in the order they are written. */
  function FieldsOf(m: CastMessage): (fields: seq<Field>)
    requires Representable(m)
    ensures forall f :: f in fields ==> Writable(f)
  {
    [VarintField(1, 0), BytesField(2, m.sourceId), BytesField(3, m.destinationId), BytesField(4, m.namespace)]
    + match m.payload
      case Text(text) => [VarintField(5, 0), BytesField(6, text)]
      case Binary(data) => [VarintField(5, 1), BytesField(7, data)]
  }

  function Encoded(m: CastMessage): seq<byte>
    requires Representable(m)
  {
    EncodeFields(FieldsOf(m))
  }

  /** What the decoder has collected so far. */
  datatype Partial = Partial(
    sourceId: Option<Utf8>,
    destinationId: Option<Utf8>,
    namespace: Option<Utf8>,
    payloadType: nat,
    text: Option<Utf8>,
    binary: Option<seq<byte>>)

  const START: Partial := Partial(None, None, None, 0, None, None)

  /** The decoder cuts field numbers and the payload type to 32 bits. */
  function Low32(x: nat): nat { x % 0x1_0000_0000 }

  /** One field taken in; later fields replace earlier ones and unknown fields change nothing. */
  function Absorb(p: Partial, f: Field): Parsed<Partial> {
    match f
    case VarintField(number, value) =>
      Ok(if Low32(number) == 5 then p.(payloadType := Low32(value)) else p)
    case BytesField(number, data) => AbsorbBytes(p, Low32(number), data)
    case FixedField(_, _) => Ok(p)
  }

  function AbsorbBytes(p: Partial, n: nat, data: seq<byte>): Parsed<Partial> {
    if n == 7 then Ok(p.(binary := Some(data)))
    else if n != 2 && n != 3 && n != 4 && n != 6 then Ok(p)
    else if !ValidUtf8(data) then Err(InvalidUtf8)
    else if n == 2 then Ok(p.(sourceId := Some(data)))
    else if n == 3 then Ok(p.(destinationId := Some(data)))
    else if n == 4 then Ok(p.(namespace := Some(data)))
    else Ok(p.(text := Some(data)))
  }

  function DecodeFrom(p: Partial, data: seq<byte>): Parsed<Partial>
    decreases data
  {
    if data == [] then Ok(p)
    else
      match NextField(data)
      case Err(e) => Err(e)
      case Ok((f, n)) =>
        match Absorb(p, f)
        case Err(e) => Err(e)
        case Ok(q) => DecodeFrom(q, data[n..])
  }

  function Finish(p: Partial): Parsed<CastMessage> {
    if p.sourceId.None? || p.destinationId.None? || p.namespace.None? then Err(MissingField)
    else
      var payload :=
        if p.payloadType == 1 then Binary(if p.binary.Some? then p.binary.value else [])
        else Text(if p.text.Some? then p.text.value else []);
      Ok(CastMessage(p.sourceId.value, p.destinationId.value, p.namespace.value, payload))
  }

  function Decoded(data: seq<byte>): Parsed<CastMessage> {
    match DecodeFrom(START, data)
    case Err(e) => Err(e)
    case Ok(p) => Finish(p)
  }

  // ----- What the codec guarantees -----------------------------------------

  /** Decoding is compositional in the bytes. */
  lemma {:induction false} DecodeConcat(p: Partial, fields: seq<Field>, rest: seq<byte>)
    requires forall f :: f in fields ==> Writable(f)
    ensures DecodeFrom(p, EncodeFields(fields) + rest)
         == match AbsorbAll(p, fields)
            case Err(e) => Err(e)
            case Ok(q) => DecodeFrom(q, rest)
    decreases fields
  {
    hide NextField, EncodeField, Absorb;
    if fields == [] {
      assert EncodeFields(fields) + rest == rest;
    } else {
      var first, more := EncodeField(fields[0]), EncodeFields(fields[1..]);
      FieldRoundTrip(fields[0], more + rest);
      assert EncodeFields(fields) + rest == first + (more + rest);
      assert (first + (more + rest))[|first|..] == more + rest;
      var q := Absorb(p, fields[0]);
      if q.Ok? {
        DecodeConcat(q.value, fields[1..], rest);
      }
    }
  }

  function AbsorbAll(p: Partial, fields: seq<Field>): Parsed<Partial>
    decreases fields
  {
    if fields == [] then Ok(p)
    else
      match Absorb(p, fields[0])
      case Err(e) => Err(e)
      case Ok(q) => AbsorbAll(q, fields[1..])
  }

  /** Fields that no decoder branch looks at. */
  predicate Unknown(f: Field) {
    match f
    case VarintField(number, _) => Low32(number) != 5
    case BytesField(number, _) => Low32(number) !in {2, 3, 4, 6, 7}
    case FixedField(_, _) => true
  }

  lemma {:induction false} UnknownFieldsIgnored(p: Partial, data: seq<byte>)
    requires Fields(data).Ok? && forall f :: f in Fields(data).value ==> Unknown(f)
    ensures DecodeFrom(p, data) == Ok(p)
    decreases data
  {
    hide NextField;
    if data != [] {
      var (f, n) := NextField(data).value;
      var all := Fields(data).value;
      assert all == [f] + Fields(data[n..]).value;
      assert f == all[0] && all[1..] == Fields(data[n..]).value;
      assert Unknown(f);
      UnknownFieldsIgnored(p, data[n..]);
    }
  }

  lemma AbsorbMessage(m: CastMessage)
    requires Representable(m)
    ensures AbsorbAll(START, FieldsOf(m)).Ok? && Finish(AbsorbAll(START, FieldsOf(m)).value) == Ok(m)
  {
    var fields := FieldsOf(m);
    hide ValidUtf8;
    var p2 := START.(sourceId := Some(m.sourceId));
    var p3 := p2.(destinationId := Some(m.destinationId));
    var p4 := p3.(namespace := Some(m.namespace));
    assert AbsorbAll(START, fields) == AbsorbAll(START, fields[1..]);
    assert fields[1..][1..] == fields[2..] && AbsorbAll(START, fields[1..]) == AbsorbAll(p2, fields[2..]);
    assert fields[2..][1..] == fields[3..] && AbsorbAll(p2, fields[2..]) == AbsorbAll(p3, fields[3..]);
    assert fields[3..][1..] == fields[4..] && AbsorbAll(p3, fields[3..]) == AbsorbAll(p4, fields[4..]);
    var p5 := p4.(payloadType := if m.payload.Text? then 0 else 1);
    assert fields[4..][1..] == fields[5..] && AbsorbAll(p4, fields[4..]) == AbsorbAll(p5, fields[5..]);
    var p6 := if m.payload.Text? then p5.(text := Some(m.payload.text)) else p5.(binary := Some(m.payload.data));
    assert fields[5..][1..] == [] && AbsorbAll(p5, fields[5..]) == AbsorbAll(p6, []) == Ok(p6);
  }

  /** Every message is decoded back, also with any well-formed unknown fields behind it. */
  lemma MessageRoundTrip(m: CastMessage, extra: seq<byte>)
    requires Representable(m)
    requires Fields(extra).Ok? && forall f :: f in Fields(extra).value ==> Unknown(f)
    ensures Decoded(Encoded(m) + extra) == Ok(m)
  {
    hide Fields, FieldsOf, EncodeFields, AbsorbAll;
    AbsorbMessage(m);
    DecodeConcat(START, FieldsOf(m), extra);
    UnknownFieldsIgnored(AbsorbAll(START, FieldsOf(m)).value, extra);
  }

  lemma PlainRoundTrip(m: CastMessage)
    requires Representable(m)
    ensures Decoded(Encoded(m)) == Ok(m)
  {
    hide Encoded, Decoded;
    MessageRoundTrip(m, []);
    assert Encoded(m) + [] == Encoded(m);
  }

  // ----- The source's loops ------------------------------------------------

  /** `decode_bytes`: a length and that many bytes, at a cursor. */
  method DecodeBytes(data: seq<byte>, start: nat) returns (r: Parsed<seq<byte>>, pos: nat)
    requires start <= |data|
    ensures start <= pos <= |data|
    ensures forall number ::
      var content := Content(data[start..], number, 2);
      if content.Err? then r == Err(content.error)
      else content.value.0.BytesField? && r == Ok(content.value.0.data) && pos == start + content.value.1
  {
    hide Varint.Read;
    var length;
    length, pos := Varint.DecodeAt(data, start);
    if length.Err? {
      return Err(Lift(length.error)), pos;
    }
    var end := pos + length.value;
    if end > |data| {
      return Err(Truncated), pos;
    }
    assert data[start..][pos - start..end - start] == data[pos..end];
    return Ok(data[pos..end]), end;
  }

  /** `encode`: field by field onto a buffer. */
  method EncodeMessage(m: CastMessage) returns (buffer: seq<byte>)
    requires Representable(m)
    ensures buffer == Encoded(m)
  {
    hide EncodeField, EncodeFields;
    var fields := FieldsOf(m);
    assert fields[..6] == fields;
    EncodeNothing(fields);
    EncodePrefix(fields, 0);
    buffer := EncodeVarintField([], 1, 0);
    EncodePrefix(fields, 1);
    buffer := EncodeBytesField(buffer, 2, m.sourceId);
    EncodePrefix(fields, 2);
    buffer := EncodeBytesField(buffer, 3, m.destinationId);
    EncodePrefix(fields, 3);
    buffer := EncodeBytesField(buffer, 4, m.namespace);
    EncodePrefix(fields, 4);
    EncodePrefix(fields, 5);
    match m.payload {
      case Text(text) =>
        buffer := EncodeVarintField(buffer, 5, 0);
        buffer := EncodeBytesField(buffer, 6, text);
      case Binary(data) =>
        buffer := EncodeVarintField(buffer, 5, 1);
        buffer := EncodeBytesField(buffer, 7, data);
    }
  }

  lemma EncodeNothing(fields: seq<Field>)
    ensures EncodeFields(fields[..0]) == []
  {
  }

  lemma EncodePrefix(fields: seq<Field>, i: nat)
    requires i < |fields| && forall x :: x in fields ==> Writable(x)
    ensures EncodeFields(fields[..i + 1]) == EncodeFields(fields[..i]) + EncodeField(fields[i])
  {
    assert fields[..i + 1] == fields[..i] + [fields[i]];
    EncodeOneMore(fields[..i], fields[i]);
  }

  lemma {:induction false} EncodeOneMore(fields: seq<Field>, f: Field)
    requires Writable(f) && forall x :: x in fields ==> Writable(x)
    ensures EncodeFields(fields + [f]) == EncodeFields(fields) + EncodeField(f)
  {
    hide EncodeField;
    if fields == [] {
      assert fields + [f] == [f] && [f][1..] == [];
    } else {
      EncodeOneMore(fields[1..], f);
      assert (fields + [f])[1..] == fields[1..] + [f];
    }
  }

  method EncodeVarintField(buffer: seq<byte>, number: u32, value: u64) returns (r: seq<byte>)
    ensures r == buffer + EncodeField(VarintField(number, value))
  {
    hide Varint.Encode;
    r := Varint.EncodeTestFirst(buffer, 8 * number);
    r := Varint.EncodeTestFirst(r, value);
  }

  method EncodeBytesField(buffer: seq<byte>, number: u32, data: seq<byte>) returns (r: seq<byte>)
    requires |data| < Varint.LIMIT
    ensures r == buffer + EncodeField(BytesField(number, data))
  {
    hide Varint.Encode;
    r := Varint.EncodeTestFirst(buffer, 8 * number + 2);
    r := Varint.EncodeTestFirst(r, |data|);
    r := r + data;
  }

  /** `decode`: one field a turn, at a cursor. */
  method DecodeMessage(data: seq<byte>) returns (r: Parsed<CastMessage>)
    ensures r == Decoded(data)
  {
    hide NextField, Absorb;
    var pos, p := 0, START;
    assert data[0..] == data;
    while pos < |data|
      invariant pos <= |data|
      invariant DecodeFrom(START, data) == DecodeFrom(p, data[pos..])
      decreases |data| - pos
    {
      var next, after := DecodeField(data, pos, p);
      if next.Err? {
        return Err(next.error);
      }
      assert data[pos..][after - pos..] == data[after..];
      p, pos := next.value, after;
    }
    r := Finish(p);
  }

  /** One turn: the tag, then whatever its number and wire type call for. */
  method DecodeField(data: seq<byte>, start: nat, p: Partial) returns (r: Parsed<Partial>, pos: nat)
    requires start < |data|
    ensures start <= pos <= |data|
    ensures
      var next := NextField(data[start..]);
      if next.Err? then r == Err(next.error)
      else r == Absorb(p, next.value.0) && (r.Ok? ==> pos == start + next.value.1)
  {
    hide Varint.Read, ValidUtf8;
    var tag;
    tag, pos := Varint.DecodeAt(data, start);
    if tag.Err? {
      return Err(Lift(tag.error)), pos;
    }
    assert data[start..][pos - start..] == data[pos..];
    var number, wireType := Low32(tag.value / 8), tag.value % 8;
    if wireType == 0 {
      var value;
      value, pos := Varint.DecodeAt(data, pos);
      if value.Err? {
        return Err(Lift(value.error)), pos;
      }
      return Ok(if number == 5 then p.(payloadType := Low32(value.value)) else p), pos;
    } else if wireType == 2 {
      ghost var wide: nat := tag.value / 8;
      ghost var content := Content(data[pos..], wide, 2);
      var bytes;
      bytes, pos := DecodeBytes(data, pos);
      if bytes.Err? {
        return Err(bytes.error), pos;
      }
      assert content.Ok? && content.value.0 == BytesField(wide, bytes.value);
      return AbsorbBytes(p, number, bytes.value), pos;
    } else if wireType == 5 {
      return if pos + 4 > |data| then Err(Truncated) else Ok(p), if pos + 4 > |data| then pos else pos + 4;
    } else if wireType == 1 {
      return if pos + 8 > |data| then Err(Truncated) else Ok(p), if pos + 8 > |data| then pos else pos + 8;
    }
    r := Err(UnknownWireType);
  }
}
