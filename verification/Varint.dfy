/**
 Protobuf varints. The repository has two encoders (src/control/proto.rs and
 src/control/auth.rs, the latter repeated in src/android_tv/framing.rs) and
 four decoders (src/control/proto.rs, src/control/auth.rs,
 src/android_tv/remote_session.rs and, byte by byte, src/android_tv/framing.rs).
 */
module Varint {
  import opened Bytes

  datatype VarintError = Truncated | Overflow

  const LIMIT: nat := 0x1_0000_0000_0000_0000

  // ----- Meaning -----------------------------------------------------------

  /** The minimal encoding: seven bits a byte, low bits first, the top bit on all but the last. */
  function Encode(v: nat): (s: seq<byte>)
    ensures s != []
  {
    if v < 0x80 then [v] else [v % 0x80 + 0x80] + Encode(v / 0x80)
  }

  /** What one varint at the front of `data` denotes and how long it is; `k` bytes of it went before. */
  function Read(data: seq<byte>, k: nat): (r: Result<(nat, nat), VarintError>)
    requires k <= 9
    ensures r.Ok? ==> 1 <= r.value.1 <= |data|
    decreases 9 - k
  {
    if data == [] then Err(Truncated)
    else if k == 9 && data[0] > 1 then Err(Overflow)
    else if data[0] < 0x80 then Ok((data[0], 1))
    else More(data[0] % 0x80, Read(data[1..], k + 1))
  }

  /** Seven low bits in front of a varint's remainder. */
  function More(low: nat, rest: Result<(nat, nat), VarintError>): Result<(nat, nat), VarintError> {
    match rest
    case Err(e) => Err(e)
    case Ok((v, n)) => Ok((low + 0x80 * v, n + 1))
  }

  function Pow128(k: nat): (r: nat)
    ensures r >= 1
  {
    if k == 0 then 1 else 0x80 * Pow128(k - 1)
  }

  /** The number that a run of bytes spells, whatever its length. */
  ghost function Spells(s: seq<byte>): nat {
    if s == [] then 0 else s[0] % 0x80 + 0x80 * Spells(s[1..])
  }

  /** A terminated run: every byte but the last has the top bit. */
  ghost predicate Terminated(s: seq<byte>) {
    s != [] && s[|s| - 1] < 0x80 && forall i :: 0 <= i < |s| - 1 ==> s[i] >= 0x80
  }

  /** What the decoders say of a terminated run of `n` bytes, after `k` bytes of the same varint. */
  ghost predicate ReadsRun(data: seq<byte>, k: nat, n: nat)
    requires k <= 9 && 1 <= n <= |data|
  {
    if n <= 10 - k && Spells(data[..n]) * Pow128(k) < LIMIT
    then Read(data, k) == Ok((Spells(data[..n]), n))
    else Read(data, k) == Err(Overflow)
  }

  lemma LastByteRead(data: seq<byte>, k: nat)
    requires k <= 9 && data != [] && data[0] < 0x80
    ensures ReadsRun(data, k, 1)
  {
    assert data[..1][0] == data[0] && data[..1][1..] == [];
    assert Spells(data[..1]) == data[0];
    Powers();
    if k < 9 {
      PowerBound(k);
      MonotoneTimes(data[0], 0x7f, Pow128(k));
    }
  }

  /** Another byte in front of a run whose reading is known. */
  lemma FirstByteRead(data: seq<byte>, k: nat, n: nat)
    requires k < 9 && 1 < n <= |data| && data[0] >= 0x80 && ReadsRun(data[1..], k + 1, n - 1)
    ensures ReadsRun(data, k, n)
  {
    hide Pow128;
    assert data[..n][0] == data[0] && data[..n][1..] == data[1..][..n - 1];
    SpellsScaled(data[..n], k);
  }

  lemma {:induction false} ReadMeaningFrom(data: seq<byte>, k: nat, n: nat)
    requires k <= 9 && 1 <= n <= |data| && Terminated(data[..n])
    ensures ReadsRun(data, k, n)
    decreases 9 - k
  {
    hide Pow128, Spells;
    if n == 1 {
      LastByteRead(data, k);
    } else {
      assert data[0] == data[..n][0] && data[0] >= 0x80;
      if k < 9 {
        assert data[1..][..n - 1] == data[..n][1..];
        ReadMeaningFrom(data[1..], k + 1, n - 1);
        FirstByteRead(data, k, n);
      }
    }
  }

  lemma Powers()
    ensures Pow128(9) == 0x8000_0000_0000_0000
  {
    assert Pow128(3) == 0x20_0000;
    assert Pow128(6) == 0x400_0000_0000;
  }

  lemma PowerBound(k: nat)
    requires k <= 8
    ensures 0x80 * Pow128(k) <= Pow128(9)
    decreases 8 - k
  {
    if k < 8 { PowerBound(k + 1); }
  }

  /** Dropping the low seven bits does not change which side of 2^64 a number lies on. */
  lemma SpellsScaled(s: seq<byte>, k: nat)
    requires k < 9 && s != []
    ensures Spells(s) * Pow128(k) < LIMIT <==> Spells(s[1..]) * Pow128(k + 1) < LIMIT
  {
    var low, high, p := s[0] % 0x80, Spells(s[1..]), Pow128(k);
    assert Spells(s) * p == low * p + high * Pow128(k + 1) by {
      assert Pow128(k + 1) == 0x80 * p;
    }
    LowBitsRoom(low, high, k);
  }

  lemma LowBitsRoom(low: nat, high: nat, k: nat)
    requires k < 9 && low < 0x80
    ensures low * Pow128(k) + high * Pow128(k + 1) < LIMIT <==> high * Pow128(k + 1) < LIMIT
  {
    // LIMIT is a multiple of Pow128(k + 1), so room for `high` is room for one more unit.
    var q := Pow128(k + 1);
    assert q == 0x80 * Pow128(k);
    var m := Cofactor(k + 1);
    if high * q < LIMIT {
      assert high < m by { if high >= m { MonotoneTimes(m, high, q); } }
      MonotoneTimes(high + 1, m, q);
      assert (high + 1) * q == high * q + q;
      MonotoneTimes(low, 0x7f, Pow128(k));
    }
  }

  lemma MonotoneTimes(a: nat, b: nat, q: nat)
    requires a <= b
    ensures a * q <= b * q
  {
  }

  ghost function Cofactor(k: nat): (m: nat)
    requires k <= 9
    ensures m * Pow128(k) == LIMIT
    decreases 9 - k
  {
    if k == 9 then Powers(); 2
    else
      var c := Cofactor(k + 1);
      assert c * (0x80 * Pow128(k)) == c * 0x80 * Pow128(k);
      c * 0x80
  }

  lemma ReadTerminated(data: seq<byte>, n: nat)
    requires 1 <= n <= |data| && Terminated(data[..n])
    ensures
      if n <= 10 && Spells(data[..n]) < LIMIT then Read(data, 0) == Ok((Spells(data[..n]), n))
      else Read(data, 0) == Err(Overflow)
  {
    ReadMeaningFrom(data, 0, n);
  }

  /** Up to and with the first byte that has no top bit, or everything. */
  ghost function Extent(data: seq<byte>): (n: nat)
    ensures n <= |data|
  {
    if data == [] then 0 else if data[0] < 0x80 then 1 else 1 + Extent(data[1..])
  }

  lemma {:induction false} ExtentMeaning(data: seq<byte>)
    ensures forall i :: 0 <= i < Extent(data) - 1 ==> data[i] >= 0x80
    ensures Terminated(data[..Extent(data)])
         || (Extent(data) == |data| && forall i :: 0 <= i < |data| ==> data[i] >= 0x80)
  {
    if data != [] && data[0] >= 0x80 {
      ExtentMeaning(data[1..]);
      var n := Extent(data);
      assert data[..n][1..] == data[1..][..n - 1];
      assert forall i :: 0 <= i < |data| ==> data[i] == if i == 0 then data[0] else data[1..][i - 1];
    }
  }

  lemma {:induction false} ReadUnterminated(data: seq<byte>, k: nat)
    requires k <= 9 && forall i :: 0 <= i < |data| ==> data[i] >= 0x80
    ensures Read(data, k) == Err(if |data| <= 9 - k then Truncated else Overflow)
    decreases 9 - k
  {
    if data != [] && k < 9 {
      ReadUnterminated(data[1..], k + 1);
    }
  }

  /**
   The decoders' verdict in closed form, on every input: a varint is accepted
   exactly when a terminator is among its first ten bytes and its value fits 64
   bits, minimal or not. Without a terminator it is truncated up to nine bytes;
   in every other case it overflows.
   */
  lemma ReadMeaning(data: seq<byte>)
    ensures
      var n := Extent(data);
      Read(data, 0) ==
      if Terminated(data[..n]) && n <= 10 && Spells(data[..n]) < LIMIT then Ok((Spells(data[..n]), n))
      else if !Terminated(data[..n]) && |data| <= 9 then Err(Truncated)
      else Err(Overflow)
  {
    hide Read, Spells;
    ExtentMeaning(data);
    if Terminated(data[..Extent(data)]) {
      ReadTerminated(data, Extent(data));
    } else {
      ReadUnterminated(data, 0);
    }
  }

  lemma {:induction false} EncodeSpells(v: nat)
    ensures Terminated(Encode(v)) && Spells(Encode(v)) == v
  {
    if v >= 0x80 {
      EncodeSpells(v / 0x80);
      assert Encode(v)[1..] == Encode(v / 0x80);
    }
  }

  lemma {:induction false} EncodeLength(v: nat, k: nat)
    requires v * Pow128(k) < LIMIT && k <= 9
    ensures |Encode(v)| <= 10 - k
    decreases 9 - k
  {
    Powers();
    if v >= 0x80 {
      if k == 9 {
        MonotoneTimes(0x80, v, Pow128(9));
        assert false;
      }
      var p := Pow128(k);
      assert v / 0x80 * Pow128(k + 1) == v / 0x80 * 0x80 * p;
      MonotoneTimes(v / 0x80 * 0x80, v, p);
      EncodeLength(v / 0x80, k + 1);
    }
  }

  /** Every 64-bit value is decoded back from its encoding, whatever follows it. */
  lemma EncodeRoundTrip(v: u64, rest: seq<byte>)
    ensures Read(Encode(v) + rest, 0) == Ok((v, |Encode(v)|))
  {
    var s := Encode(v);
    EncodeSpells(v);
    EncodeLength(v, 0);
    assert (s + rest)[..|s|] == s;
    ReadTerminated(s + rest, |s|);
  }

  // ----- The source's loops ------------------------------------------------

  /** Value and length of a varint of which `n` bytes with value `acc` went before. */
  function Resumed(acc: nat, n: nat, rest: Result<(nat, nat), VarintError>): Result<(nat, nat), VarintError> {
    match rest
    case Err(e) => Err(e)
    case Ok((v, m)) => Ok((acc + v * Pow128(n), n + m))
  }

  lemma ResumeStep(acc: nat, n: nat, low: nat, rest: Result<(nat, nat), VarintError>)
    ensures Resumed(acc, n, More(low, rest)) == Resumed(acc + low * Pow128(n), n + 1, rest)
  {
    if rest.Ok? {
      var v := rest.value.0;
      assert (low + 0x80 * v) * Pow128(n) == low * Pow128(n) + v * Pow128(n + 1);
    }
  }

  /** `encode_varint` of proto.rs: test first, then emit. */
  method EncodeTestFirst(buffer: seq<byte>, v: u64) returns (r: seq<byte>)
    ensures r == buffer + Encode(v)
  {
    r := buffer;
    var value: nat := v;
    while true
      invariant r + Encode(value) == buffer + Encode(v)
      decreases value
    {
      if value < 0x80 {
        r := r + [value];
        return;
      }
      assert r + Encode(value) == (r + [value % 0x80 + 0x80]) + Encode(value / 0x80);
      r := r + [value % 0x80 + 0x80];
      value := value / 0x80;
    }
  }

  /** `encode_varint` of auth.rs and the Android TV framing: shift first, then emit. */
  method EncodeShiftFirst(buffer: seq<byte>, v: u64) returns (r: seq<byte>)
    ensures r == buffer + Encode(v)
  {
    r := buffer;
    var value: nat := v;
    while true
      invariant r + Encode(value) == buffer + Encode(v)
      decreases value
    {
      ghost var before := value;
      var low := value % 0x80;
      value := value / 0x80;
      if value != 0 {
        assert r + Encode(before) == (r + [low + 0x80]) + Encode(value);
        r := r + [low + 0x80];
      } else {
        assert Encode(before) == [low];
        r := r + [low];
        return;
      }
    }
  }

  /** `decode_varint` of proto.rs: a cursor into the data, the shift checked at both ends of the loop. */
  method DecodeAt(data: seq<byte>, start: nat) returns (r: Result<u64, VarintError>, pos: nat)
    requires start <= |data|
    ensures start <= pos <= |data|
    ensures
      var read := Read(data[start..], 0);
      if read.Err? then r == Err(read.error) else r == Ok(read.value.0) && pos == start + read.value.1
  {
    pos := start;
    hide Pow128, Read, Resumed;
    var value: nat, n: nat := 0, 0;
    LoopStart(data[start..]);
    while true
      invariant n <= 9 && pos == start + n <= |data|
      invariant value < Pow128(n)
      invariant Read(data[start..], 0) == Resumed(value, n, Read(data[pos..], n))
      decreases 9 - n
    {
      if pos >= |data| {
        LoopEnd(value, n);
        assert data[pos..] == [];
        return Err(Truncated), pos;
      }
      var byte := data[pos];
      assert data[pos..][0] == byte && data[pos..][1..] == data[pos + 1..];
      LoopStep(data[pos..], value, n);
      pos := pos + 1;
      if 7 * n == 63 && byte > 1 {
        return Err(Overflow), pos;
      }
      if byte < 0x80 {
        return Ok(value + byte * Pow128(n)), pos;
      }
      value := value + byte % 0x80 * Pow128(n);
      n := n + 1;
    }
  }

  /** What one byte does to a decoder that has read `n` bytes worth `value`. */
  lemma LoopStep(rest: seq<byte>, value: nat, n: nat)
    requires n <= 9 && value < Pow128(n) && rest != []
    ensures
      var whole := Resumed(value, n, Read(rest, n));
      if n == 9 && rest[0] > 1 then whole == Err(Overflow)
      else if rest[0] < 0x80 then
        value + rest[0] * Pow128(n) < LIMIT && whole == Ok((value + rest[0] * Pow128(n), n + 1))
      else
        var value' := value + rest[0] % 0x80 * Pow128(n);
        value' < Pow128(n + 1) && whole == Resumed(value', n + 1, Read(rest[1..], n + 1))
  {
    if rest[0] < 0x80 {
      if n < 9 || rest[0] <= 1 { ValueFits(value, n, rest[0]); }
    } else if n < 9 {
      ResumeStep(value, n, rest[0] % 0x80, Read(rest[1..], n + 1));
      MonotoneTimes(rest[0] % 0x80, 0x7f, Pow128(n));
    }
  }

  lemma LoopStart(data: seq<byte>)
    ensures Read(data, 0) == Resumed(0, 0, Read(data, 0)) && 0 < Pow128(0)
  {
  }

  lemma LoopEnd(value: nat, n: nat)
    requires n <= 9
    ensures Resumed(value, n, Read([], n)) == Err(Truncated)
  {
  }

  lemma ValueFits(value: nat, n: nat, last: nat)
    requires n <= 9 && value < Pow128(n) && last < 0x80 && (n == 9 ==> last <= 1)
    ensures value + last * Pow128(n) < LIMIT
  {
    Powers();
    if n < 9 {
      PowerBound(n);
      MonotoneTimes(last, 0x7f, Pow128(n));
    }
  }

  /** `take_varint` of auth.rs and remote_session.rs: at most ten bytes off the front of a slice. */
  method TakeFromSlice(data: seq<byte>) returns (r: Result<u64, VarintError>, rest: seq<byte>)
    ensures
      var read := Read(data, 0);
      if read.Err? then r == Err(read.error) else r == Ok(read.value.0) && rest == data[read.value.1..]
  {
    hide Pow128, Read, Resumed;
    rest := data;
    var value: nat := 0;
    LoopStart(data);
    for n := 0 to 10
      invariant n <= |data| && rest == data[n..]
      invariant n <= 9 ==> value < Pow128(n) && Read(data, 0) == Resumed(value, n, Read(rest, n))
      invariant n == 10 ==> Read(data, 0) == Err(Overflow)
    {
      if rest == [] {
        LoopEnd(value, n);
        return Err(Truncated), rest;
      }
      var byte := rest[0];
      LoopStep(rest, value, n);
      rest := rest[1..];
      if n == 9 && byte > 1 {
        return Err(Overflow), rest;
      }
      if byte < 0x80 {
        return Ok(value + byte * Pow128(n)), rest;
      }
      value := value + byte % 0x80 * Pow128(n);
    }
    r := Err(Overflow);
  }

  // ----- Reading byte by byte ----------------------------------------------

  ghost predicate Unfinished(s: seq<byte>) { |s| <= 9 && forall i :: 0 <= i < |s| ==> s[i] >= 0x80 }

  lemma NothingRead()
    ensures Unfinished([]) && Spells([]) == 0
  {
  }

  lemma {:induction false} SpellsMore(s: seq<byte>, b: byte)
    ensures Spells(s + [b]) == Spells(s) + b % 0x80 * Pow128(|s|)
  {
    if s == [] {
      assert s + [b] == [b] && [b][1..] == [];
    } else {
      SpellsMore(s[1..], b);
      assert (s + [b])[1..] == s[1..] + [b];
      var x, p := b % 0x80, Pow128(|s| - 1);
      assert 0x80 * (x * p) == x * (0x80 * p);
    }
  }

  /** A decoder that has taken an unfinished prefix into a number resumes as if it had kept the bytes. */
  lemma {:induction false} PrefixResumes(prefix: seq<byte>, t: seq<byte>)
    requires Unfinished(prefix)
    ensures Spells(prefix) < Pow128(|prefix|)
    ensures Read(prefix + t, 0) == Resumed(Spells(prefix), |prefix|, Read(t, |prefix|))
    decreases |prefix|
  {
    hide Read, Resumed, Pow128;
    var n := |prefix|;
    if n == 0 {
      assert prefix + t == t;
      LoopStart(t);
    } else {
      var init, last := prefix[..n - 1], prefix[n - 1];
      assert prefix == init + [last];
      PrefixResumes(init, [last] + t);
      assert init + ([last] + t) == prefix + t;
      SpellsMore(init, last);
      LoopStep([last] + t, Spells(init), n - 1);
      assert ([last] + t)[1..] == t;
    }
  }

  /** What one more byte makes of an unfinished varint. */
  lemma OneMoreByte(prefix: seq<byte>, b: byte)
    requires Unfinished(prefix)
    ensures
      var n, s := |prefix|, prefix + [b];
      && Spells(s) == Spells(prefix) + b % 0x80 * Pow128(n)
      && (if n == 9 && b > 1 then Read(s, 0) == Err(Overflow)
          else if b < 0x80 then Read(s, 0) == Ok((Spells(s), n + 1))
          else n < 9 && Unfinished(s))
  {
    hide Spells, Pow128, Read, Resumed, Unfinished;
    PrefixResumes(prefix, [b]);
    SpellsMore(prefix, b);
    Continued(prefix, b);
    LoopStep([b], Spells(prefix), |prefix|);
  }

  lemma Continued(prefix: seq<byte>, b: byte)
    requires Unfinished(prefix)
    ensures |prefix| <= 9
    ensures |prefix| < 9 && b >= 0x80 ==> Unfinished(prefix + [b])
  {
  }

  /** A decided varint stays decided. */
  lemma {:induction false} ReadIsStable(s: seq<byte>, t: seq<byte>, k: nat)
    requires k <= 9
    ensures Read(s, k) != Err(Truncated) ==> Read(s + t, k) == Read(s, k)
    decreases 9 - k
  {
    if s != [] && s[0] >= 0x80 && k < 9 {
      ReadIsStable(s[1..], t, k + 1);
      assert (s + t)[1..] == s[1..] + t;
    }
  }
}
