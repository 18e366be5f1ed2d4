/** Bytes as bit vectors. */
module ByteBits {
  import opened Bytes

  /** The conversion of a byte to eight bits loses nothing. */
  lemma BitsOfByte(a: byte)
    ensures (a as bv8) as int == a
  {
  }

  lemma ByteOfBits(b: bv8)
    ensures (b as int) as bv8 == b
  {
  }

  lemma Halves(x: bv16)
    ensures ((((x >> 8) & 0xff) as bv8 as bv16) << 8) | ((x & 0xff) as bv8 as bv16) == x
  {
  }

  lemma HalvesUnique(a: bv16, b: bv16, c: bv16, d: bv16)
    requires a & 0xff00 == 0 && b & 0xff00 == 0 && c & 0xff00 == 0 && d & 0xff00 == 0
    requires (a << 8) | b == (c << 8) | d
    ensures a == c && b == d
  {
  }
}
