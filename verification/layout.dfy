/**
 * The probe buffer of `leak_byte`: 256 candidate lines, one per byte value,
 * each `CacheLineSize` bytes wide, laid out back to back in `timing_array`.
 */
module Layout {

  /** Stride between two candidate lines (bytes). */
  const CacheLineSize: nat := 512

  /** One line per possible byte value. */
  const NumLines: nat := 256

  /** Size of `timing_array` in bytes. */
  const ArraySize: nat := NumLines * CacheLineSize

  /** A byte value, equivalently the number of a candidate line. */
  type Byte = b: int | 0 <= b < NumLines

  /** Offset in `timing_array` of the first byte of line `line` (`element_at_line`). */
  function ElementAtLine(line: Byte): (off: nat)
    ensures off % CacheLineSize == 0
    ensures off / CacheLineSize == line
    ensures off + CacheLineSize <= ArraySize
  {
    line * CacheLineSize
  }

  /** The line an offset of `timing_array` falls in. */
  function LineOf(off: nat): (line: Byte)
    requires off < ArraySize
    ensures ElementAtLine(line) <= off < ElementAtLine(line) + CacheLineSize
  {
    off / CacheLineSize
  }

  /** Every byte of line `line` maps back to `line`: lines are the blocks of the buffer. */
  lemma LineOfElement(line: Byte, x: nat)
    requires x < CacheLineSize
    ensures ElementAtLine(line) + x < ArraySize
    ensures LineOf(ElementAtLine(line) + x) == line
  {
  }

  /** Distinct byte values touch disjoint 512-byte blocks of the buffer. */
  lemma LinesDisjoint(a: Byte, b: Byte, x: nat, y: nat)
    requires a != b
    requires x < CacheLineSize && y < CacheLineSize
    ensures ElementAtLine(a) + x != ElementAtLine(b) + y
  {
    LineOfElement(a, x);
    LineOfElement(b, y);
  }
}
