/**
 Protobuf messages as the repository reads and writes them: the field scanners
 of src/control/auth.rs and src/android_tv/remote_session.rs, and the Cast
 channel message codec of src/control/proto.rs.
 */
module Protobuf {
  import opened Bytes
  import Varint

  datatype Error =
    | Truncated
    | InvalidVarint
    | InvalidUtf8
    | UnknownWireType
    | BadFieldNumber
    | MissingField

  /** One field on the wire; the number is as wide as the tag allows. */
  datatype Field =
    | VarintField(number: nat, value: nat)
    | BytesField(number: nat, data: seq<byte>)
    | FixedField(number: nat, width: nat)

  type Parsed<T> = Result<T, Error>

  function Lift(e: Varint.VarintError): Error { if e.Truncated? then Truncated else InvalidVarint }

  /** The first field of `data` and its length. */
  function NextField(data: seq<byte>): (r: Parsed<(Field, nat)>)
    ensures r.Ok? ==> 1 <= r.value.1 <= |data|
  {
    match Varint.Read(data, 0)
    case Err(e) => Err(Lift(e))
    case Ok((tag, n)) =>
      match Content(data[n..], tag / 8, tag % 8)
      case Err(e) => Err(e)
      case Ok((field, m)) => Ok((field, n + m))
  }

  /** A field's content after its tag. */
  function Content(data: seq<byte>, number: nat, wireType: nat): (r: Parsed<(Field, nat)>)
    ensures r.Ok? ==> r.value.1 <= |data|
  {
    if wireType == 0 then
      match Varint.Read(data, 0)
      case Err(e) => Err(Lift(e))
      case Ok((v, n)) => Ok((VarintField(number, v), n))
    else if wireType == 2 then
      match Varint.Read(data, 0)
      case Err(e) => Err(Lift(e))
      case Ok((length, n)) =>
        if n + length > |data| then Err(Truncated)
        else Ok((BytesField(number, data[n..n + length]), n + length))
    else if wireType == 5 then
      if 4 > |data| then Err(Truncated) else Ok((FixedField(number, 4), 4))
    else if wireType == 1 then
      if 8 > |data| then Err(Truncated) else Ok((FixedField(number, 8), 8))
    else Err(UnknownWireType)
  }

  /** Fields that the encoders can write. */
  predicate Writable(f: Field) {
    && !f.FixedField?
    && 8 * f.number + 2 < Varint.LIMIT
    && (if f.VarintField? then f.value < Varint.LIMIT else |f.data| < Varint.LIMIT)
  }

  /** `encode_varint_field` and `encode_bytes_field`. */
  function EncodeField(f: Field): (s: seq<byte>)
    requires Writable(f)
    ensures s != []
  {
    match f
    case VarintField(number, value) => Varint.Encode(8 * number) + Varint.Encode(value)
    case BytesField(number, data) => Varint.Encode(8 * number + 2) + Varint.Encode(|data|) + data
  }

  /** A written field is read back, whatever follows it. */
  lemma FieldRoundTrip(f: Field, rest: seq<byte>)
    requires Writable(f)
    ensures NextField(EncodeField(f) + rest) == Ok((f, |EncodeField(f)|))
  {
    hide Varint.Encode, Varint.Read;
    var tag := if f.VarintField? then 8 * f.number else 8 * f.number + 2;
    var head := Varint.Encode(tag);
    var body := if f.VarintField? then Varint.Encode(f.value) else Varint.Encode(|f.data|) + f.data;
    var s := EncodeField(f) + rest;
    assert s == head + (body + rest);
    Varint.EncodeRoundTrip(tag, body + rest);
    assert s[|head|..] == body + rest;
    if f.VarintField? {
      Varint.EncodeRoundTrip(f.value, rest);
    } else {
      var length := Varint.Encode(|f.data|);
      assert body + rest == length + (f.data + rest);
      Varint.EncodeRoundTrip(|f.data|, f.data + rest);
      assert (body + rest)[|length|..|length| + |f.data|] == f.data;
    }
  }

  // ----- Whole messages ----------------------------------------------------

  /** All fields of a message, or the first error. */
  function Fields(data: seq<byte>): Parsed<seq<Field>> {
    if data == [] then Ok([])
    else
      match NextField(data)
      case Err(e) => Err(e)
      case Ok((f, n)) =>
        match Fields(data[n..])
        case Err(e) => Err(e)
        case Ok(rest) => Ok([f] + rest)
  }

  function EncodeFields(fields: seq<Field>): seq<byte>
    requires forall f :: f in fields ==> Writable(f)
  {
    if fields == [] then [] else EncodeField(fields[0]) + EncodeFields(fields[1..])
  }

  lemma {:induction false} FieldsRoundTrip(fields: seq<Field>)
    requires forall f :: f in fields ==> Writable(f)
    ensures Fields(EncodeFields(fields)) == Ok(fields)
  {
    if fields != [] {
      var first, rest := EncodeField(fields[0]), EncodeFields(fields[1..]);
      FieldRoundTrip(fields[0], rest);
      hide NextField, EncodeField;
      assert (first + rest)[|first|..] == rest;
      FieldsRoundTrip(fields[1..]);
      assert fields == [fields[0]] + fields[1..];
    }
  }

  // ----- Authentication and diagnostics scanners ---------------------------

  predicate Numbered(f: Field) { 1 <= f.number < 0x1_0000_0000 }

  /** `parse_fields` of auth.rs keeps varint and bytes fields and refuses field numbers outside 32 bits. */
  function AuthFields(data: seq<byte>): Parsed<seq<Field>> {
    if data == [] then Ok([])
    else
      match Tagged(data)
      case Err(e) => Err(e)
      case Ok((f, n)) =>
        match AuthFields(data[n..])
        case Err(e) => Err(e)
        case Ok(rest) => Ok(if f.FixedField? then rest else [f] + rest)
  }

  /** The field number is judged before the content is read. */
  function Tagged(data: seq<byte>): (r: Parsed<(Field, nat)>)
    ensures r.Ok? ==> 1 <= r.value.1 <= |data|
  {
    match Varint.Read(data, 0)
    case Err(e) => Err(Lift(e))
    case Ok((tag, n)) =>
      if tag / 8 == 0 || tag / 8 >= 0x1_0000_0000 then Err(BadFieldNumber) else NextField(data)
  }

  /** `top_level_field_numbers` of remote_session.rs. */
  function TopLevelNumbers(data: seq<byte>): Option<seq<nat>> {
    if data == [] then Some([])
    else
      match Tagged(data)
      case Err(_) => None
      case Ok((f, n)) =>
        match TopLevelNumbers(data[n..])
        case None => None
        case Some(rest) => Some([f.number] + rest)
  }

  /** One field as both scanners take it: the tag, its number, then the content. */
  method TakeField(data: seq<byte>) returns (r: Parsed<(Field, nat)>)
    ensures r == Tagged(data)
  {
    hide Varint.Read;
    var tag, rest := Varint.TakeFromSlice(data);
    if tag.Err? {
      return Err(Lift(tag.error));
    }
    var n := |data| - |rest|;
    var number := tag.value / 8;
    if number == 0 || number >= 0x1_0000_0000 {
      return Err(BadFieldNumber);
    }
    var content := TakeContent(rest, number, tag.value % 8);
    r := if content.Err? then Err(content.error) else Ok((content.value.0, n + content.value.1));
  }

  method TakeContent(data: seq<byte>, number: nat, wireType: nat) returns (r: Parsed<(Field, nat)>)
    ensures r == Content(data, number, wireType)
  {
    hide Varint.Read;
    if wireType == 0 {
      var value, rest := Varint.TakeFromSlice(data);
      return if value.Err? then Err(Lift(value.error)) else Ok((VarintField(number, value.value), |data| - |rest|));
    } else if wireType == 1 {
      return if |data| < 8 then Err(Truncated) else Ok((FixedField(number, 8), 8));
    } else if wireType == 2 {
      var length, rest := Varint.TakeFromSlice(data);
      if length.Err? {
        return Err(Lift(length.error));
      }
      if |rest| < length.value {
        return Err(Truncated);
      }
      var n := |data| - |rest|;
      assert rest[..length.value] == data[n..n + length.value];
      return Ok((BytesField(number, rest[..length.value]), n + length.value));
    } else if wireType == 5 {
      return if |data| < 4 then Err(Truncated) else Ok((FixedField(number, 4), 4));
    }
    r := Err(UnknownWireType);
  }

  function Behind<T>(done: seq<T>, r: Parsed<seq<T>>): Parsed<seq<T>> {
    match r
    case Err(e) => Err(e)
    case Ok(rest) => Ok(done + rest)
  }

  lemma BehindBoth<T>(a: seq<T>, b: seq<T>, r: Parsed<seq<T>>)
    ensures Behind(a, Behind(b, r)) == Behind(a + b, r)
    ensures Behind([], r) == r
    ensures Behind(a, Ok([])) == Ok(a)
    ensures a + [] == a
  {
    assert a + [] == a;
    if r.Ok? {
      assert a + (b + r.value) == a + b + r.value;
      assert [] + r.value == r.value;
    }
  }

  /** `parse_fields`: the slice shrinks, fixed-width fields are passed over. */
  method ParseFields(message: seq<byte>) returns (r: Parsed<seq<Field>>)
    ensures r == AuthFields(message)
  {
    hide Tagged;
    var data, fields := message, [];
    BehindBoth([], [], AuthFields(message));
    while data != []
      invariant AuthFields(message) == Behind(fields, AuthFields(data))
      decreases |data|
    {
      var field := TakeField(data);
      if field.Err? {
        return Err(field.error);
      }
      var (f, n) := field.value;
      BehindBoth(fields, if f.FixedField? then [] else [f], AuthFields(data[n..]));
      BehindBoth([], [], AuthFields(data[n..]));
      data := data[n..];
      if f.FixedField? {
        continue;
      }
      fields := fields + [f];
    }
    BehindBoth(fields, [], Ok([]));
    r := Ok(fields);
  }

  /** `top_level_field_numbers`: the numbers only. */
  method ScanTopLevel(message: seq<byte>) returns (r: Option<seq<nat>>)
    ensures r == TopLevelNumbers(message)
  {
    hide Tagged;
    var data, fields := message, [];
    while data != []
      invariant TopLevelNumbers(message).None? <==> TopLevelNumbers(data).None?
      invariant TopLevelNumbers(data).Some? ==> TopLevelNumbers(message).value == fields + TopLevelNumbers(data).value
      decreases |data|
    {
      var field := TakeField(data);
      if field.Err? {
        return None;
      }
      var (f, n) := field.value;
      fields := fields + [f.number];
      data := data[n..];
    }
    assert fields + [] == fields;
    r := Some(fields);
  }

  /** The two scanners accept the same messages and see the same fields. */
  lemma {:induction false} ScannersAgree(data: seq<byte>)
    ensures AuthFields(data).Ok? <==> TopLevelNumbers(data).Some?
    ensures AuthFields(data).Ok? <==> Fields(data).Ok? && forall f :: f in Fields(data).value ==> Numbered(f)
    ensures AuthFields(data).Ok? ==>
      && AuthFields(data).value == Kept(Fields(data).value)
      && TopLevelNumbers(data).value == Numbers(Fields(data).value)
  {
    if data != [] {
      TaggedIsNumbered(data);
      hide NextField, Tagged;
      if NextField(data).Ok? {
        var (f, n) := NextField(data).value;
        ScannersAgree(data[n..]);
        if Fields(data[n..]).Ok? {
          var rest := Fields(data[n..]).value;
          assert ([f] + rest)[1..] == rest;
          assert forall g :: g in [f] + rest <==> g == f || g in rest;
        }
      }
    }
  }

  lemma TaggedIsNumbered(data: seq<byte>)
    requires data != []
    ensures Tagged(data).Ok? <==> NextField(data).Ok? && Numbered(NextField(data).value.0)
    ensures Tagged(data).Ok? ==> Tagged(data) == NextField(data)
  {
    hide Varint.Read;
  }

  function Kept(fields: seq<Field>): seq<Field> {
    if fields == [] then []
    else (if fields[0].FixedField? then [] else [fields[0]]) + Kept(fields[1..])
  }

  function Numbers(fields: seq<Field>): seq<nat> {
    if fields == [] then [] else [fields[0].number] + Numbers(fields[1..])
  }
}
