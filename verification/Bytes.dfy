/**
 Bytes, big-endian words and the small result types shared by the models.
 A byte is the integer it denotes, so masks and shifts appear as division and
 remainder by powers of two.
 */
module Bytes {
  type byte = b: int | 0 <= b < 0x100
  type u16 = x: int | 0 <= x < 0x1_0000
  type u32 = x: int | 0 <= x < 0x1_0000_0000
  type u64 = x: int | 0 <= x < 0x1_0000_0000_0000_0000

  const U64_MAX: u64 := 0xFFFF_FFFF_FFFF_FFFF

  datatype Option<+T> = None | Some(value: T)

  datatype Result<+T, +E> = Ok(value: T) | Err(error: E)

  function Min(a: int, b: int): int { if a <= b then a else b }

  function Max(a: int, b: int): int { if a <= b then b else a }

  /** `u64::saturating_add`. */
  function SaturatingAdd(a: nat, b: nat): nat { Min(a + b, U64_MAX) }

  function Be16(x: u16): (s: seq<byte>)
    ensures |s| == 2
  {
    [x / 0x100, x % 0x100]
  }

  function Be32(x: u32): (s: seq<byte>)
    ensures |s| == 4
  {
    Be16(x / 0x1_0000) + Be16(x % 0x1_0000)
  }

  function ReadU16(s: seq<byte>, offset: nat): u16
    requires offset + 2 <= |s|
  {
    s[offset] as int * 0x100 + s[offset + 1]
  }

  function ReadU32(s: seq<byte>, offset: nat): u32
    requires offset + 4 <= |s|
  {
    ReadU16(s, offset) as int * 0x1_0000 + ReadU16(s, offset + 2)
  }

  /** A big-endian word is read back from wherever it stands. */
  lemma ReadBack16(s: seq<byte>, offset: nat, x: u16)
    requires offset + 2 <= |s| && s[offset..offset + 2] == Be16(x)
    ensures ReadU16(s, offset) == x
  {
    var w := s[offset..offset + 2];
    assert s[offset] == w[0] && s[offset + 1] == w[1];
  }

  lemma ReadBack32(s: seq<byte>, offset: nat, x: u32)
    requires offset + 4 <= |s| && s[offset..offset + 4] == Be32(x)
    ensures ReadU32(s, offset) == x
  {
    var w := s[offset..offset + 4];
    assert s[offset..offset + 2] == w[..2] == Be16(x / 0x1_0000);
    assert s[offset + 2..offset + 4] == w[2..] == Be16(x % 0x1_0000);
    ReadBack16(s, offset, x / 0x1_0000);
    ReadBack16(s, offset + 2, x % 0x1_0000);
  }

  /** Bit `i` of `b`, bit zero least significant. */
  predicate Bit(b: byte, i: nat)
    requires i < 8
  {
    b / [1, 2, 4, 8, 16, 32, 64, 128][i] % 2 == 1
  }
}
