/**
 * The fixed visit order of the timing pass: visit `i` reads line
 * `((i * 167) + 13) & 0xff`. For the non-negative values that occur the mask
 * keeps the low eight bits, which is the remainder modulo 256. Because 167 is
 * odd it has an inverse modulo 256 (167 * 23 = 15 * 256 + 1), so the order is
 * a permutation of the 256 lines.
 */
module VisitOrder {
  import opened Layout

  /** The line read at visit `i` of the timing pass. */
  function Shuffle(i: Byte): (line: Byte)
  {
    (i * 167 + 13) % 256
  }

  /** The visit at which line `line` is read: undoes the `+ 13`, then multiplies by 23. */
  function Unshuffle(line: Byte): (i: Byte)
  {
    ((line + 243) * 23) % 256
  }

  /** Adding a multiple of 256 does not change the remainder. */
  lemma ModAddMultiple(x: int, m: int)
    ensures (x + 256 * m) % 256 == x % 256
  {
  }

  /** Reading back the visit from the line it read gives the visit. */
  lemma UnshuffleShuffle(i: Byte)
    ensures Unshuffle(Shuffle(i)) == i
  {
    var a := i * 167 + 13;
    var q := a / 256;
    var line := a - 256 * q;
    assert Shuffle(i) == line;
    var m := 15 * i + 23 - 23 * q;
    assert (line + 243) * 23 == i + 256 * m by {
      assert (line + 243) * 23 == line * 23 + 243 * 23;
      assert line * 23 == a * 23 - 256 * q * 23;
      assert a * 23 == i * 3841 + 299;
    }
    ModAddMultiple(i, m);
  }

  /** The line read at the visit computed for a line is that line. */
  lemma ShuffleUnshuffle(line: Byte)
    ensures Shuffle(Unshuffle(line)) == line
  {
    var b := (line + 243) * 23;
    var q := b / 256;
    var i := b - 256 * q;
    assert Unshuffle(line) == i;
    var m := 15 * line + 3646 - 167 * q;
    assert i * 167 + 13 == line + 256 * m by {
      assert i * 167 == b * 167 - 256 * q * 167;
      assert b * 167 == line * 3841 + 243 * 3841;
    }
    ModAddMultiple(line, m);
  }

  /** Two different visits never read the same line. */
  lemma ShuffleInjective(i: Byte, i': Byte)
    requires i != i'
    ensures Shuffle(i) != Shuffle(i')
  {
    UnshuffleShuffle(i);
    UnshuffleShuffle(i');
  }

  /** The lines read over one timing pass. */
  function LinesRead(): set<int>
  {
    set i | 0 <= i < NumLines :: Shuffle(i)
  }

  /**
   * The visit order is a bijection of the 256 lines: the lines read over one
   * pass are exactly all lines, each read at exactly one visit.
   */
  lemma ShuffleIsPermutation()
    ensures forall line :: line in LinesRead() <==> 0 <= line < NumLines
    ensures forall line :: 0 <= line < NumLines ==> Shuffle(Unshuffle(line)) == line
    ensures forall i, i' :: 0 <= i < NumLines && 0 <= i' < NumLines && Shuffle(i) == Shuffle(i') ==> i == i'
  {
    forall line | 0 <= line < NumLines
      ensures Shuffle(Unshuffle(line)) == line
    {
      ShuffleUnshuffle(line);
    }
    forall i, i' | 0 <= i < NumLines && 0 <= i' < NumLines && Shuffle(i) == Shuffle(i')
      ensures i == i'
    {
      UnshuffleShuffle(i);
      UnshuffleShuffle(i');
    }
    forall line | 0 <= line < NumLines
      ensures line in LinesRead()
    {
      assert Shuffle(Unshuffle(line)) == line;
    }
  }
}
