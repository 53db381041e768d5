/**
 Frame encryption (src/crypto.rs): counter mode, section 6.5 of NIST SP
 800-38A, over a block cipher that stays a parameter. Each frame starts its
 128-bit counter at its identifier, placed in bytes 8 to 11 and masked.
 */
module Crypto {
  import opened Bytes
  import opened FrameIds

  type Block = s: seq<byte> | |s| == 16 witness [0, 0, 0, 0, 0, 0, 0, 0, 0, 0, 0, 0, 0, 0, 0, 0]

  /** The block cipher under a fixed key. */
  type Cipher = Block -> Block

  const COUNTER_SPACE: nat := 0x1_0000_0000_0000_0000_0000_0000_0000_0000

  // ----- Exclusive or ------------------------------------------------------

  function Pow2(n: nat): nat { if n == 0 then 1 else 2 * Pow2(n - 1) }

  /** Exclusive or of the low `width` bits. */
  function XorBits(a: nat, b: nat, width: nat): (r: nat)
    ensures r < Pow2(width)
  {
    if width == 0 then 0 else (a + b) % 2 + 2 * XorBits(a / 2, b / 2, width - 1)
  }

  lemma {:induction false} XorBitsTwice(a: nat, b: nat, width: nat)
    requires a < Pow2(width)
    ensures XorBits(XorBits(a, b, width), b, width) == a
  {
    if width > 0 {
      var high := XorBits(a / 2, b / 2, width - 1);
      XorBitsTwice(a / 2, b / 2, width - 1);
      ParityTwice(a, b, high);
    }
  }

  lemma ParityTwice(a: nat, b: nat, high: nat)
    ensures var r := (a + b) % 2 + 2 * high; r / 2 == high && (r + b) % 2 == a % 2
  {
  }

  function Xor(a: byte, b: byte): byte {
    assert Pow2(8) == 0x100 by { assert Pow2(4) == 16; }
    XorBits(a, b, 8)
  }

  lemma XorTwice(a: byte, b: byte)
    ensures Xor(Xor(a, b), b) == a
  {
    assert Pow2(8) == 0x100 by { assert Pow2(4) == 16; }
    XorBitsTwice(a, b, 8);
  }

  function XorSeq(a: seq<byte>, b: seq<byte>): (r: seq<byte>)
    requires |a| == |b|
    ensures |r| == |a|
    ensures forall i :: 0 <= i < |a| ==> r[i] == Xor(a[i], b[i])
  {
    seq(|a|, i requires 0 <= i < |a| => Xor(a[i], b[i]))
  }

  lemma XorSeqTwice(a: seq<byte>, b: seq<byte>)
    requires |a| == |b|
    ensures XorSeq(XorSeq(a, b), b) == a
  {
    forall i | 0 <= i < |a|
      ensures XorSeq(XorSeq(a, b), b)[i] == a[i]
    {
      XorTwice(a[i], b[i]);
    }
  }

  // ----- Big-endian numbers ------------------------------------------------

  function Pow256(n: nat): (r: nat)
    ensures r >= 1
  {
    if n == 0 then 1 else 256 * Pow256(n - 1)
  }

  function FromBe(s: seq<byte>): (v: nat) {
    if s == [] then 0 else FromBe(s[..|s| - 1]) * 256 + s[|s| - 1]
  }

  function ToBe(v: nat, length: nat): (s: seq<byte>)
    ensures |s| == length
  {
    if length == 0 then [] else ToBe(v / 256, length - 1) + [v % 256]
  }

  lemma {:induction false} NumberReadBack(v: nat, length: nat)
    requires v < Pow256(length)
    ensures FromBe(ToBe(v, length)) == v
  {
    if length > 0 {
      NumberReadBack(v / 256, length - 1);
      assert ToBe(v, length)[..length - 1] == ToBe(v / 256, length - 1);
    }
  }

  lemma {:induction false} BytesReadBack(s: seq<byte>)
    ensures FromBe(s) < Pow256(|s|) && ToBe(FromBe(s), |s|) == s
  {
    if s != [] {
      BytesReadBack(s[..|s| - 1]);
      assert s == s[..|s| - 1] + [s[|s| - 1]];
    }
  }

  lemma {:induction false} FromBeConcat(a: seq<byte>, b: seq<byte>)
    ensures FromBe(a + b) == FromBe(a) * Pow256(|b|) + FromBe(b)
  {
    if b == [] {
      assert a + b == a;
    } else {
      var b' := b[..|b| - 1];
      FromBeConcat(a, b');
      assert (a + b)[..|a + b| - 1] == a + b';
      assert FromBe(a) * Pow256(|b|) == FromBe(a) * Pow256(|b'|) * 256;
    }
  }

  // ----- Counters ----------------------------------------------------------

  /** The frame identifier in counter position, before masking. */
  function CounterBase(frameId: int): Block {
    [0, 0, 0, 0, 0, 0, 0, 0] + Be32(Lower32(frameId)) + [0, 0, 0, 0]
  }

  /** The initial counter block of a frame. */
  function Nonce(mask: Block, frameId: int): Block { XorSeq(CounterBase(frameId), mask) }

  /** The counter block of the frame's `j`-th cipher block. */
  function CounterBlock(mask: Block, frameId: int, j: nat): Block {
    ToBe((FromBe(Nonce(mask, frameId)) + j) % COUNTER_SPACE, 16)
  }

  function Keystream(cipher: Cipher, mask: Block, frameId: int, k: nat): byte {
    cipher(CounterBlock(mask, frameId, k / 16))[k % 16]
  }

  function Encrypted(cipher: Cipher, mask: Block, frameId: int, data: seq<byte>): (r: seq<byte>)
    ensures |r| == |data|
  {
    seq(|data|, k requires 0 <= k < |data| => Xor(data[k], Keystream(cipher, mask, frameId, k)))
  }

  class FrameCrypto {
    const cipher: Cipher
    const ivMask: Block

    constructor (cipher: Cipher, ivMask: Block)
      ensures this.cipher == cipher && this.ivMask == ivMask
    {
      this.cipher := cipher;
      this.ivMask := ivMask;
    }

    method BuildNonce(frameId: int) returns (nonce: array<byte>)
      ensures fresh(nonce) && nonce[..] == Nonce(ivMask, frameId)
    {
      hide Xor, XorSeq, Be32, Lower32;
      nonce := new byte[16](_ => 0);
      var id := Be32(Lower32(frameId));
      nonce[8], nonce[9], nonce[10], nonce[11] := id[0], id[1], id[2], id[3];
      assert nonce[..] == CounterBase(frameId);
      var n := 0;
      while n < 16
        invariant 0 <= n <= 16
        invariant forall i :: 0 <= i < n ==> nonce[i] == Xor(CounterBase(frameId)[i], ivMask[i])
        invariant forall i :: n <= i < 16 ==> nonce[i] == CounterBase(frameId)[i]
      {
        nonce[n] := Xor(nonce[n], ivMask[n]);
        n := n + 1;
      }
      assert nonce[..] == XorSeq(CounterBase(frameId), ivMask);
    }

    method Encrypt(frameId: int, data: array<byte>)
      modifies data
      ensures data[..] == Encrypted(cipher, ivMask, frameId, old(data[..]))
    {
      var nonce := BuildNonce(frameId);
      var counter := FromBe(nonce[..]);
      var k := 0;
      while k < data.Length
        invariant 0 <= k <= data.Length
        invariant forall i :: 0 <= i < k ==> data[i] == Xor(old(data[i]), Keystream(cipher, ivMask, frameId, i))
        invariant forall i :: k <= i < data.Length ==> data[i] == old(data[i])
      {
        data[k] := Xor(data[k], cipher(ToBe((counter + k / 16) % COUNTER_SPACE, 16))[k % 16]);
        k := k + 1;
      }
      assert data[..] == Encrypted(cipher, ivMask, frameId, old(data[..]));
    }
  }

  /** Decryption is encryption again, under every cipher and mask. */
  lemma EncryptTwice(cipher: Cipher, mask: Block, frameId: int, data: seq<byte>)
    ensures Encrypted(cipher, mask, frameId, Encrypted(cipher, mask, frameId, data)) == data
  {
    var once := Encrypted(cipher, mask, frameId, data);
    forall k | 0 <= k < |data|
      ensures Encrypted(cipher, mask, frameId, once)[k] == data[k]
    {
      XorTwice(data[k], Keystream(cipher, mask, frameId, k));
    }
  }

  /** The masked identifier inside the nonce: it determines the identifier. */
  ghost function MaskedId(mask: Block, frameId: int): (x: u32) {
    BytesReadBack(XorSeq(Be32(Lower32(frameId)), mask[8..12]));
    assert Pow256(4) == 0x1_0000_0000;
    FromBe(XorSeq(Be32(Lower32(frameId)), mask[8..12]))
  }

  lemma MaskedIdInjective(mask: Block, f: int, g: int)
    ensures MaskedId(mask, f) == MaskedId(mask, g) <==> Lower32(f) == Lower32(g)
  {
    var m := mask[8..12];
    var x, y := XorSeq(Be32(Lower32(f)), m), XorSeq(Be32(Lower32(g)), m);
    BytesReadBack(x);
    BytesReadBack(y);
    if FromBe(x) == FromBe(y) {
      XorSeqTwice(Be32(Lower32(f)), m);
      XorSeqTwice(Be32(Lower32(g)), m);
      ReadBack32(Be32(Lower32(f)), 0, Lower32(f));
      ReadBack32(Be32(Lower32(g)), 0, Lower32(g));
    }
  }

  /** As a number, the nonce is the masked identifier times 2^32 plus a part fixed by the mask. */
  lemma NonceValue(mask: Block, frameId: int)
    ensures FromBe(Nonce(mask, frameId)) == NonceOffset(mask) + MaskedId(mask, frameId) * 0x1_0000_0000
    ensures 0 <= NonceOffset(mask) + MaskedId(mask, frameId) * 0x1_0000_0000 < COUNTER_SPACE
  {
    var high, low := XorSeq([0, 0, 0, 0, 0, 0, 0, 0], mask[..8]), XorSeq([0, 0, 0, 0], mask[12..]);
    var id := XorSeq(Be32(Lower32(frameId)), mask[8..12]);
    assert Nonce(mask, frameId) == (high + id) + low;
    ThreeParts(high, id, low);
    BytesReadBack(Nonce(mask, frameId));
    Pow256Of16();
  }

  lemma ThreeParts(high: seq<byte>, id: seq<byte>, low: seq<byte>)
    requires |id| == 4 && |low| == 4
    ensures FromBe((high + id) + low)
         == FromBe(high) * 0x1_0000_0000_0000_0000 + FromBe(id) * 0x1_0000_0000 + FromBe(low)
  {
    hide FromBe, Pow256;
    FromBeConcat(high + id, low);
    FromBeConcat(high, id);
    Pow256Of4();
    TwoShifts(FromBe(high), FromBe(id));
  }

  lemma TwoShifts(a: nat, b: nat)
    ensures (a * 0x1_0000_0000 + b) * 0x1_0000_0000 == a * 0x1_0000_0000_0000_0000 + b * 0x1_0000_0000
  {
  }

  lemma Pow256Of4()
    ensures Pow256(4) == 0x1_0000_0000
  {
  }

  lemma Pow256Of16()
    ensures Pow256(16) == COUNTER_SPACE
  {
    assert Pow256(4) == 0x1_0000_0000;
    assert Pow256(8) == 0x1_0000_0000_0000_0000;
    assert Pow256(12) == 0x1_0000_0000_0000_0000_0000_0000;
  }

  ghost function NonceOffset(mask: Block): nat {
    FromBe(XorSeq([0, 0, 0, 0, 0, 0, 0, 0], mask[..8])) * 0x1_0000_0000_0000_0000
    + FromBe(XorSeq([0, 0, 0, 0], mask[12..]))
  }

  /**
   Under any mask, frames whose identifiers differ modulo 2^32 never meet in a
   counter block, as long as neither runs past 2^32 blocks; within one frame
   distinct positions have distinct counters.
   */
  lemma CountersDisjoint(mask: Block, f: int, i: nat, g: int, j: nat)
    requires i < 0x1_0000_0000 && j < 0x1_0000_0000
    ensures CounterBlock(mask, f, i) == CounterBlock(mask, g, j) <==> Lower32(f) == Lower32(g) && i == j
  {
    NonceValue(mask, f);
    NonceValue(mask, g);
    MaskedIdInjective(mask, f, g);
    CounterArithmetic(NonceOffset(mask), MaskedId(mask, f), i, MaskedId(mask, g), j);
    CounterBytesInjective((FromBe(Nonce(mask, f)) + i) % COUNTER_SPACE, (FromBe(Nonce(mask, g)) + j) % COUNTER_SPACE);
  }

  lemma CounterBytesInjective(x: nat, y: nat)
    requires x < COUNTER_SPACE && y < COUNTER_SPACE
    ensures ToBe(x, 16) == ToBe(y, 16) <==> x == y
  {
    Pow256Of16();
    NumberReadBack(x, 16);
    NumberReadBack(y, 16);
  }

  lemma CounterArithmetic(offset: nat, a: u32, i: nat, b: u32, j: nat)
    requires i < 0x1_0000_0000 && j < 0x1_0000_0000
    ensures (offset + a * 0x1_0000_0000 + i) % COUNTER_SPACE == (offset + b * 0x1_0000_0000 + j) % COUNTER_SPACE
       <==> a == b && i == j
  {
  }
}
