/**
 Frame identifiers (src/frame.rs): 64-bit counters of which only the low eight
 bits travel in Cast headers and feedback.
 */
module FrameIds {
  import opened Bytes

  /** The low byte of an identifier, negative identifiers included. */
  function Truncate(id: int): byte { id % 0x100 }

  /** The low 32 bits, which seed the cipher's counter. */
  function Lower32(id: int): u32 { id % 0x1_0000_0000 }

  /** An unsigned byte reinterpreted as `i8`. */
  function AsSigned(b: byte): int { if b < 0x80 then b else b - 0x100 }

  /**
   The identifier nearest to `reference` that truncates to `truncated`: it lies
   in the signed byte range around the reference.
   */
  function Expand(truncated: byte, reference: int): (id: int)
    ensures Truncate(id) == truncated
    ensures reference - 128 <= id <= reference + 127
  {
    reference + AsSigned((truncated - Truncate(reference)) % 0x100)
  }

  /** The identifier at or just below `reference` that truncates to `truncated`. */
  function ExpandLte(truncated: byte, reference: int): (id: int)
    ensures Truncate(id) == truncated
    ensures reference - 255 <= id <= reference
  {
    var expanded := Expand(truncated, reference);
    if expanded > reference then expanded - 0x100 else expanded
  }

  /** Cumulative recovery is exact precisely for the last 256 identifiers. */
  lemma ExpandLteExactness(id: int, reference: int)
    ensures ExpandLte(Truncate(id), reference) == id <==> reference - 255 <= id <= reference
  {
  }

  /** Nearest recovery is exact precisely for the signed byte range. */
  lemma ExpandExactness(id: int, reference: int)
    ensures Expand(Truncate(id), reference) == id <==> reference - 128 <= id <= reference + 127
  {
  }

  /**
   An identifier parsed against one reference, truncated again and expanded
   against a second one is what the second reference alone would give.
   */
  lemma TwoStageExpansion(wire: byte, parserReference: int, senderReference: int)
    ensures Expand(Truncate(Expand(wire, parserReference)), senderReference) == Expand(wire, senderReference)
  {
  }
}
