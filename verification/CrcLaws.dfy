/** What makes the two checksums those of their standards: check values, residues, and that the CRC-32
    tells one changed byte. */
module CrcLaws {
  import opened Bytes
  import opened ByteBits
  import opened Crc
  import opened YmodemPacket

  /** The characters "123456789". */
  const DIGITS: seq<byte> := [0x31, 0x32, 0x33, 0x34, 0x35, 0x36, 0x37, 0x38, 0x39]

  // ----- the CRC-32 register is linear -----

  lemma ShiftCases(x: bv32)
    ensures x & 1 == 0 ==> Shift32(x) == x >> 1
    ensures x & 1 != 0 ==> Shift32(x) == (x >> 1) ^ 0xedb88320
  {
  }

  lemma BothEven(x: bv32, y: bv32)
    requires x & 1 == 0 && y & 1 == 0
    ensures (x ^ y) & 1 == 0 && (x ^ y) >> 1 == (x >> 1) ^ (y >> 1)
  {
  }

  lemma OneOdd(x: bv32, y: bv32)
    requires x & 1 == 0 && y & 1 != 0
    ensures (x ^ y) & 1 != 0 && ((x ^ y) >> 1) ^ 0xedb88320 == (x >> 1) ^ ((y >> 1) ^ 0xedb88320)
  {
  }

  lemma BothOdd(x: bv32, y: bv32)
    requires x & 1 != 0 && y & 1 != 0
    ensures (x ^ y) & 1 == 0 && (x ^ y) >> 1 == ((x >> 1) ^ 0xedb88320) ^ ((y >> 1) ^ 0xedb88320)
  {
  }

  lemma Commutes(x: bv32, y: bv32)
    ensures x ^ y == y ^ x
  {
  }

  lemma ThreeCases(x: bv32, y: bv32)
    ensures x & 1 == 0 && y & 1 == 0 ==> Shift32(x ^ y) == Shift32(x) ^ Shift32(y)
    ensures x & 1 == 0 && y & 1 != 0 ==> Shift32(x ^ y) == Shift32(x) ^ Shift32(y)
    ensures x & 1 != 0 && y & 1 != 0 ==> Shift32(x ^ y) == Shift32(x) ^ Shift32(y)
  {
    ShiftCases(x);
    ShiftCases(y);
    ShiftCases(x ^ y);
    hide Shift32;
    if x & 1 == 0 && y & 1 == 0 {
      BothEven(x, y);
    } else if x & 1 == 0 {
      OneOdd(x, y);
    } else if y & 1 != 0 {
      BothOdd(x, y);
    }
  }

  /** Exclusive-or as a name, so that proofs need not look at its bits. */
  function Xor(x: bv32, y: bv32): bv32
  {
    x ^ y
  }

  lemma ShiftLinear(x: bv32, y: bv32)
    ensures Shift32(Xor(x, y)) == Xor(Shift32(x), Shift32(y))
  {
    hide Shift32;
    ThreeCases(x, y);
    ThreeCases(y, x);
    Commutes(x, y);
    Commutes(Shift32(x), Shift32(y));
  }

  lemma {:induction false} ShiftsLinear(x: bv32, y: bv32, n: nat)
    ensures Shifts32(Xor(x, y), n) == Xor(Shifts32(x, n), Shifts32(y, n))
  {
    hide Shift32, Xor;
    if n > 0 {
      ShiftsLinear(x, y, n - 1);
      ShiftLinear(Shifts32(x, n - 1), Shifts32(y, n - 1));
    }
  }

  lemma {:induction false} ShiftsAdd(x: bv32, m: nat, n: nat)
    ensures Shifts32(x, m + n) == Shifts32(Shifts32(x, m), n)
  {
    hide Shift32;
    if n > 0 { ShiftsAdd(x, m, n - 1); }
  }

  lemma EightZeros(x: bv32)
    requires x & 0xff == 0
    ensures x & 1 == 0 && (x >> 1) & 1 == 0 && (x >> 2) & 1 == 0 && (x >> 3) & 1 == 0 && (x >> 4) & 1 == 0
    ensures (x >> 5) & 1 == 0 && (x >> 6) & 1 == 0 && (x >> 7) & 1 == 0
    ensures (x >> 1) >> 1 == x >> 2 && (x >> 2) >> 1 == x >> 3 && (x >> 3) >> 1 == x >> 4 && (x >> 4) >> 1 == x >> 5
    ensures (x >> 5) >> 1 == x >> 6 && (x >> 6) >> 1 == x >> 7 && (x >> 7) >> 1 == x >> 8
  {
  }

  lemma ZeroBit(x: bv32, n: nat, y: bv32)
    requires Shifts32(x, n) == y && y & 1 == 0
    ensures Shifts32(x, n + 1) == y >> 1
  {
    ShiftCases(y);
    hide Shift32;
  }

  /** Eight zero bits only move out. */
  lemma ZeroByte(x: bv32)
    requires x & 0xff == 0
    ensures Shifts32(x, 8) == x >> 8
  {
    EightZeros(x);
    assert Shifts32(x, 0) == x;
    hide Shift32, Shifts32;
    ZeroBit(x, 0, x);
    ZeroBit(x, 1, x >> 1);
    ZeroBit(x, 2, x >> 2);
    ZeroBit(x, 3, x >> 3);
    ZeroBit(x, 4, x >> 4);
    ZeroBit(x, 5, x >> 5);
    ZeroBit(x, 6, x >> 6);
    ZeroBit(x, 7, x >> 7);
  }

  /** A byte that enters after `n` shifts could have entered at the start, further up: `y` is the byte up
      there, `b` what it has become. */
  lemma EntersEarlier(x: bv32, y: bv32, b: bv32, n: nat)
    requires Shifts32(y, n) == b
    ensures Shifts32(Xor(Shifts32(x, n), b), 8) == Shifts32(Xor(x, y), n + 8)
  {
    hide Shift32, Xor;
    ShiftsLinear(x, y, n);
    ShiftsAdd(Xor(x, y), n, 8);
  }

  lemma MovedDown(b: bv32)
    requires b & 0xffff_ff00 == 0
    ensures (b << 8) & 0xff == 0 && (b << 8) >> 8 == b
    ensures (b << 16) & 0xff == 0 && (b << 16) >> 8 == b << 8
    ensures (b << 24) & 0xff == 0 && (b << 24) >> 8 == b << 16
  {
  }

  lemma MovesDown(b: bv32)
    requires b & 0xffff_ff00 == 0
    ensures Shifts32(b << 8, 8) == b && Shifts32(b << 16, 16) == b && Shifts32(b << 24, 24) == b
  {
    hide Shift32, Shifts32;
    MovedDown(b);
    ZeroByte(b << 8);
    ZeroByte(b << 16);
    ZeroByte(b << 24);
    ShiftsAdd(b << 16, 8, 8);
    ShiftsAdd(b << 24, 8, 16);
  }

  /** Folding in four bytes is folding in the word they make, in 32 shifts. */
  lemma FourBytes(x: bv32, b0: bv32, b1: bv32, b2: bv32, b3: bv32)
    requires b1 & 0xffff_ff00 == 0 && b2 & 0xffff_ff00 == 0 && b3 & 0xffff_ff00 == 0
    ensures Shifts32(Xor(Shifts32(Xor(Shifts32(Xor(Shifts32(Xor(x, b0), 8), b1), 8), b2), 8), b3), 8)
            == Shifts32(Xor(Xor(Xor(Xor(x, b0), b1 << 8), b2 << 16), b3 << 24), 32)
  {
    hide Shift32, Shifts32, Xor;
    MovesDown(b1);
    MovesDown(b2);
    MovesDown(b3);
    EntersEarlier(Xor(x, b0), b1 << 8, b1, 8);
    EntersEarlier(Xor(Xor(x, b0), b1 << 8), b2 << 16, b2, 16);
    EntersEarlier(Xor(Xor(Xor(x, b0), b1 << 8), b2 << 16), b3 << 24, b3, 24);
  }

  // ----- registers as numbers and bytes -----

  /** Byte `k` of a register. */
  function Octet(x: bv32, k: nat): bv32
    requires k < 4
  {
    if k == 0 then x & 0xff
    else if k == 1 then (x >> 8) & 0xff
    else if k == 2 then (x >> 16) & 0xff
    else (x >> 24) & 0xff
  }

  /** The same as a number. */
  function Digit(x: bv32, k: nat): byte
    requires k < 4
  {
    if k == 0 then Low8(x) else if k == 1 then Low8(x >> 8) else if k == 2 then Low8(x >> 16) else Low8(x >> 24)
  }

  lemma NumberOf(x: bv32)
    ensures Number32(x) == FromLe32(Digit(x, 0), Digit(x, 1), Digit(x, 2), Digit(x, 3))
  {
    hide Low8;
  }

  lemma LowWide(x: bv32)
    ensures Wide32(Low8(x)) == x & 0xff
  {
    ByteOfBits((x & 0xff) as bv8);
    WidenLow(x);
  }

  lemma WidenLow(x: bv32)
    ensures ((x & 0xff) as bv8) as bv32 == x & 0xff
  {
  }

  lemma DigitWide(x: bv32, k: nat)
    requires k < 4
    ensures Wide32(Digit(x, k)) == Octet(x, k)
  {
    hide Low8, Wide32;
    if k == 0 {
      LowWide(x);
    } else if k == 1 {
      LowWide(x >> 8);
    } else if k == 2 {
      LowWide(x >> 16);
    } else {
      LowWide(x >> 24);
    }
  }

  lemma Digits(b0: byte, b1: byte, b2: byte, b3: byte)
    ensures Le32(FromLe32(b0, b1, b2, b3)) == [b0, b1, b2, b3]
  {
    var v := FromLe32(b0, b1, b2, b3);
    assert v / 256 == b1 + 256 * b2 + 65536 * b3;
    assert v / 65536 == b2 + 256 * b3;
  }

  lemma SameFour(a0: byte, a1: byte, a2: byte, a3: byte, b0: byte, b1: byte, b2: byte, b3: byte)
    requires FromLe32(a0, a1, a2, a3) == FromLe32(b0, b1, b2, b3)
    ensures a0 == b0 && a1 == b1 && a2 == b2 && a3 == b3
  {
    Digits(a0, a1, a2, a3);
    Digits(b0, b1, b2, b3);
    hide FromLe32, Le32;
    var a, b := [a0, a1, a2, a3], [b0, b1, b2, b3];
    assert a == b;
    assert a[0] == b[0] && a[1] == b[1] && a[2] == b[2] && a[3] == b[3];
  }

  lemma NumberInjective(x: bv32, y: bv32)
    requires Number32(x) == Number32(y)
    ensures x == y
  {
    hide Number32, Digit, Octet, FromLe32, Wide32;
    NumberOf(x);
    NumberOf(y);
    SameFour(Digit(x, 0), Digit(x, 1), Digit(x, 2), Digit(x, 3), Digit(y, 0), Digit(y, 1), Digit(y, 2), Digit(y, 3));
    for k := 0 to 4
      invariant forall i | 0 <= i < k :: Octet(x, i) == Octet(y, i)
    {
      DigitWide(x, k);
      DigitWide(y, k);
      assert Digit(x, k) == Digit(y, k) by { assert k == 0 || k == 1 || k == 2 || k == 3; }
    }
    SameBytes(x, y);
  }

  /** A register from its bytes. */
  function Joined(b0: bv32, b1: bv32, b2: bv32, b3: bv32): bv32
  {
    b0 | (b1 << 8) | (b2 << 16) | (b3 << 24)
  }

  lemma JoinedParts(x: bv32)
    ensures (x & 0xff) | (((x >> 8) & 0xff) << 8) | (((x >> 16) & 0xff) << 16) | (((x >> 24) & 0xff) << 24) == x
  {
  }

  lemma JoinedOctets(x: bv32)
    ensures Joined(Octet(x, 0), Octet(x, 1), Octet(x, 2), Octet(x, 3)) == x
  {
    JoinedParts(x);
  }

  lemma SameBytes(x: bv32, y: bv32)
    requires forall k | 0 <= k < 4 :: Octet(x, k) == Octet(y, k)
    ensures x == y
  {
    hide *;
    JoinedOctets(x);
    JoinedOctets(y);
  }

  /** Four bytes of a word mixed in at their places. */
  function Mixed(x: bv32, b0: bv32, b1: bv32, b2: bv32, b3: bv32): bv32
  {
    Xor(Xor(Xor(Xor(x, b0), b1 << 8), b2 << 16), b3 << 24)
  }

  lemma Complemented(x: bv32)
    ensures var c := Not32(x); Mixed(x, Octet(c, 0), Octet(c, 1), Octet(c, 2), Octet(c, 3)) == 0xffff_ffff
  {
    ComplementParts(x);
  }

  lemma OctetSmall(c: bv32, k: nat)
    requires k < 4
    ensures OneByte(Octet(c, k))
  {
    SmallParts(c);
  }

  lemma ComplementParts(x: bv32)
    ensures var c := !x;
      ((x ^ (c & 0xff)) ^ (((c >> 8) & 0xff) << 8)) ^ (((c >> 16) & 0xff) << 16) ^ (((c >> 24) & 0xff) << 24)
      == 0xffff_ffff
  {
  }

  lemma SmallParts(c: bv32)
    ensures (c & 0xff) & 0xffff_ff00 == 0 && ((c >> 8) & 0xff) & 0xffff_ff00 == 0
    ensures ((c >> 16) & 0xff) & 0xffff_ff00 == 0 && ((c >> 24) & 0xff) & 0xffff_ff00 == 0
  {
  }

  lemma MixIsXor(x: bv32, b: byte, v: bv32)
    requires Wide32(b) == v
    ensures Mix32(x, b) == Xor(x, v)
  {
  }

  lemma FoldFour(x: bv32, b0: byte, b1: byte, b2: byte, b3: byte)
    ensures Fold32(x, [b0, b1, b2, b3])
            == Shifts32(Mix32(Shifts32(Mix32(Shifts32(Mix32(Shifts32(Mix32(x, b0), 8), b1), 8), b2), 8), b3), 8)
  {
    hide Mix32, Shifts32;
    var s: seq<byte> := [b0, b1, b2, b3];
    assert s[..3] == [b0, b1, b2] && s[..3][..2] == [b0, b1] && s[..3][..2][..1] == [b0] && [b0][..0] == [];
    assert Fold32(x, [b0]) == Shifts32(Mix32(x, b0), 8);
    assert Fold32(x, [b0, b1]) == Shifts32(Mix32(Fold32(x, [b0]), b1), 8);
    assert Fold32(x, [b0, b1, b2]) == Shifts32(Mix32(Fold32(x, [b0, b1]), b2), 8);
  }

  lemma AllOnes()
    ensures Shifts32(0xffff_ffff, 32) == 0xdebb_20e3
  {
    assert Shifts32(0xffff_ffff, 8) == 0x2dfd_1072;
    assert Shifts32(0x2dfd_1072, 8) == 0xbe26_ed00;
    assert Shifts32(0xbe26_ed00, 8) == 0x00be_26ed;
    assert Shifts32(0x00be_26ed, 8) == 0xdebb_20e3;
    hide Shift32, Shifts32;
    ShiftsAdd(0xffff_ffff, 8, 8);
    ShiftsAdd(0xffff_ffff, 16, 8);
    ShiftsAdd(0xffff_ffff, 24, 8);
  }

  /** The register after the bytes of its own complement. */
  lemma OwnComplement(x: bv32)
    ensures Fold32(x, Le32(Number32(Not32(x)))) == 0xdebb_20e3
  {
    hide *;
    var c := Not32(x);
    OwnBytes(x, c);
    Complemented(x);
    OctetSmall(c, 1);
    OctetSmall(c, 2);
    OctetSmall(c, 3);
    AllOnesInFour(x, Octet(c, 0), Octet(c, 1), Octet(c, 2), Octet(c, 3));
  }

  /** Bytes that fit into eight bits. */
  predicate OneByte(b: bv32)
  {
    b & 0xffff_ff00 == 0
  }

  lemma AllOnesInFour(x: bv32, b0: bv32, b1: bv32, b2: bv32, b3: bv32)
    requires OneByte(b1) && OneByte(b2) && OneByte(b3) && Mixed(x, b0, b1, b2, b3) == 0xffff_ffff
    ensures Shifts32(Xor(Shifts32(Xor(Shifts32(Xor(Shifts32(Xor(x, b0), 8), b1), 8), b2), 8), b3), 8) == 0xdebb_20e3
  {
    hide Xor, Shifts32;
    FourBytes(x, b0, b1, b2, b3);
    AllOnes();
  }

  lemma OwnBytes(x: bv32, c: bv32)
    ensures Fold32(x, Le32(Number32(c)))
      == Shifts32(Xor(Shifts32(Xor(Shifts32(Xor(Shifts32(Xor(x, Octet(c, 0)), 8), Octet(c, 1)), 8), Octet(c, 2)), 8),
                      Octet(c, 3)), 8)
  {
    hide *;
    var d0, d1, d2, d3 := Digit(c, 0), Digit(c, 1), Digit(c, 2), Digit(c, 3);
    NumberOf(c);
    Digits(d0, d1, d2, d3);
    FoldFour(x, d0, d1, d2, d3);
    DigitWide(c, 0);
    DigitWide(c, 1);
    DigitWide(c, 2);
    DigitWide(c, 3);
    MixIsXor(x, d0, Octet(c, 0));
    var x1 := Shifts32(Mix32(x, d0), 8);
    MixIsXor(x1, d1, Octet(c, 1));
    var x2 := Shifts32(Mix32(x1, d1), 8);
    MixIsXor(x2, d2, Octet(c, 2));
    var x3 := Shifts32(Mix32(x2, d2), 8);
    MixIsXor(x3, d3, Octet(c, 3));
  }

  /** The residue of CRC-32: data followed by its checksum, low byte first, has the same checksum whatever
      the data. */
  lemma Residue32(data: seq<byte>)
    ensures Crc32Of(data + Le32(Crc32Of(data))) == 0x2144_DF1C
  {
    hide Fold32, Number32, Le32;
    var x := Fold32(Not32(0), data);
    OwnComplement(x);
    Fold32Concat(Not32(0), data, Le32(Number32(Not32(x))));
    assert Number32(Not32(0xdebb_20e3)) == 0x2144_DF1C by { ResidueNumber(); }
  }

  lemma ResidueNumber()
    ensures Number32(Not32(0xdebb_20e3)) == 0x2144_DF1C
  {
  }

  // ----- check values -----

  lemma DigitRegisters32()
    ensures Shifts32(Mix32(0xffff_ffff, 0x31), 8) == 0x7c23_1048
    ensures Shifts32(Mix32(0x7c23_1048, 0x32), 8) == 0xb0ac_bb32
    ensures Shifts32(Mix32(0xb0ac_bb32, 0x33), 8) == 0x77b7_9c2d
    ensures Shifts32(Mix32(0x77b7_9c2d, 0x34), 8) == 0x641c_1f5c
    ensures Shifts32(Mix32(0x641c_1f5c, 0x35), 8) == 0x340a_c5e3
    ensures Shifts32(Mix32(0x340a_c5e3, 0x36), 8) == 0xf68d_2c9e
    ensures Shifts32(Mix32(0xf68d_2c9e, 0x37), 8) == 0xaffc_9660
    ensures Shifts32(Mix32(0xaffc_9660, 0x38), 8) == 0x651f_2550
    ensures Shifts32(Mix32(0x651f_2550, 0x39), 8) == 0x340b_c6d9
  {
  }

  lemma FoldDigits()
    ensures Fold32(0xffff_ffff, DIGITS) == 0x340b_c6d9
  {
    DigitRegisters32();
    FoldNone();
    hide Fold32, Shifts32, Mix32;
    FoldDigit(0, 0x31, 0xffff_ffff, 0x7c23_1048);
    FoldDigit(1, 0x32, 0x7c23_1048, 0xb0ac_bb32);
    FoldDigit(2, 0x33, 0xb0ac_bb32, 0x77b7_9c2d);
    FoldDigit(3, 0x34, 0x77b7_9c2d, 0x641c_1f5c);
    FoldDigit(4, 0x35, 0x641c_1f5c, 0x340a_c5e3);
    FoldDigit(5, 0x36, 0x340a_c5e3, 0xf68d_2c9e);
    FoldDigit(6, 0x37, 0xf68d_2c9e, 0xaffc_9660);
    FoldDigit(7, 0x38, 0xaffc_9660, 0x651f_2550);
    FoldDigit(8, 0x39, 0x651f_2550, 0x340b_c6d9);
    assert DIGITS[..9] == DIGITS;
  }

  lemma FoldNone()
    ensures Fold32(0xffff_ffff, DIGITS[..0]) == 0xffff_ffff
  {
  }

  /** The check value of CRC-32. */
  lemma CheckValue32()
    ensures Crc32Of(DIGITS) == 0xCBF4_3926
  {
    assert Not32(0) == 0xffff_ffff;
    hide Fold32, Number32, Not32;
    FoldDigits();
    CheckNumber();
  }

  lemma CheckNumber()
    ensures Number32(Not32(0x340b_c6d9)) == 0xCBF4_3926
  {
  }

  lemma FoldDigit(i: nat, b: byte, x: bv32, y: bv32)
    requires i < 9 && DIGITS[i] == b && Fold32(0xffff_ffff, DIGITS[..i]) == x && Shifts32(Mix32(x, b), 8) == y
    ensures Fold32(0xffff_ffff, DIGITS[..i + 1]) == y
  {
    hide Shifts32, Mix32;
    assert DIGITS[..i + 1][..i] == DIGITS[..i];
  }

  lemma DigitRegisters16()
    ensures Byte16(0x0000, 0x31) == 0x2672
    ensures Byte16(0x2672, 0x32) == 0x20b5
    ensures Byte16(0x20b5, 0x33) == 0x9752
    ensures Byte16(0x9752, 0x34) == 0xd789
    ensures Byte16(0xd789, 0x35) == 0x546c
    ensures Byte16(0x546c, 0x36) == 0x20e4
    ensures Byte16(0x20e4, 0x37) == 0x86d6
    ensures Byte16(0x86d6, 0x38) == 0x9015
    ensures Byte16(0x9015, 0x39) == 0x31c3
  {
  }

  /** The check value of the CRC-16 of XMODEM. */
  lemma CheckValue16()
    ensures Crc16(DIGITS) == 0x31C3
  {
    DigitRegisters16();
    hide Byte16;
    assert DIGITS[..0] == [];
    Crc16Digit(0, 0x0000);
    Crc16Digit(1, 0x2672);
    Crc16Digit(2, 0x20b5);
    Crc16Digit(3, 0x9752);
    Crc16Digit(4, 0xd789);
    Crc16Digit(5, 0x546c);
    Crc16Digit(6, 0x20e4);
    Crc16Digit(7, 0x86d6);
    Crc16Digit(8, 0x9015);
    assert DIGITS[..9] == DIGITS;
  }

  lemma Crc16Digit(i: nat, x: bv16)
    requires i < 9 && Crc16From(0, DIGITS[..i]) == x
    ensures Crc16From(0, DIGITS[..i + 1]) == Byte16(x, DIGITS[i])
  {
    hide Byte16;
    assert DIGITS[..i + 1][..i] == DIGITS[..i];
  }

  // ----- one changed byte -----

  lemma RegisterLost(x: bv32, y: bv32)
    requires (if x & 1 != 0 then (x >> 1) ^ 0xedb88320 else x >> 1)
          == (if y & 1 != 0 then (y >> 1) ^ 0xedb88320 else y >> 1)
    ensures x == y
  {
  }

  lemma ShiftInjective32(x: bv32, y: bv32)
    requires Shift32(x) == Shift32(y)
    ensures x == y
  {
    RegisterLost(x, y);
  }

  lemma {:induction false} ShiftsInjective32(x: bv32, y: bv32, n: nat)
    requires Shifts32(x, n) == Shifts32(y, n)
    ensures x == y
  {
    hide Shift32;
    if n > 0 {
      ShiftInjective32(Shifts32(x, n - 1), Shifts32(y, n - 1));
      ShiftsInjective32(x, y, n - 1);
    }
  }

  lemma MixInjective32(x: bv32, y: bv32, b: byte)
    requires Mix32(x, b) == Mix32(y, b)
    ensures x == y
  {
    hide Wide32;
    XorInjective32(x, y, Wide32(b));
  }

  lemma MixByteInjective32(x: bv32, a: byte, b: byte)
    requires Mix32(x, a) == Mix32(x, b)
    ensures a == b
  {
    hide Wide32;
    XorInjectiveLeft(x, Wide32(a), Wide32(b));
    WideInjective32(a, b);
  }

  lemma XorInjective32(x: bv32, y: bv32, p: bv32)
    requires x ^ p == y ^ p
    ensures x == y
  {
    XorBack(x, p);
    XorBack(y, p);
  }

  lemma XorBack(x: bv32, p: bv32)
    ensures (x ^ p) ^ p == x && p ^ (p ^ x) == x
  {
  }

  lemma XorInjectiveLeft(p: bv32, x: bv32, y: bv32)
    requires p ^ x == p ^ y
    ensures x == y
  {
    XorBack(x, p);
    XorBack(y, p);
  }

  lemma WideInjective32(a: byte, b: byte)
    requires Wide32(a) == Wide32(b)
    ensures a == b
  {
    BitsOfByte(a);
    BitsOfByte(b);
    Widened32(a as bv8, b as bv8);
  }

  lemma Widened32(a: bv8, b: bv8)
    requires a as bv32 == b as bv32
    ensures a == b
  {
  }

  lemma {:induction false} FoldInjective(x: bv32, y: bv32, s: seq<byte>)
    requires Fold32(x, s) == Fold32(y, s)
    ensures x == y
  {
    hide Shifts32, Mix32;
    if s != [] {
      var n := |s| - 1;
      ShiftsInjective32(Mix32(Fold32(x, s[..n]), s[n]), Mix32(Fold32(y, s[..n]), s[n]), 8);
      MixInjective32(Fold32(x, s[..n]), Fold32(y, s[..n]), s[n]);
      FoldInjective(x, y, s[..n]);
    }
  }

  lemma FoldOne(x: bv32, b: byte)
    ensures Fold32(x, [b]) == Shifts32(Mix32(x, b), 8)
  {
    hide Shifts32, Mix32;
    assert [b][..0] == [];
  }

  /** Data of which exactly one byte was changed never keep their CRC-32. */
  lemma OneByteChangeDetected32(a: seq<byte>, i: nat, v: byte)
    requires i < |a| && v != a[i]
    ensures Crc32Of(a[i := v]) != Crc32Of(a)
  {
    hide Shifts32, Mix32, Fold32, Number32, Not32;
    var one := Not32(0);
    var x, rest := Fold32(one, a[..i]), a[i + 1..];
    assert a == a[..i] + ([a[i]] + rest) && a[i := v] == a[..i] + ([v] + rest);
    Fold32Concat(one, a[..i], [a[i]] + rest);
    Fold32Concat(one, a[..i], [v] + rest);
    Fold32Concat(x, [a[i]], rest);
    Fold32Concat(x, [v], rest);
    FoldOne(x, a[i]);
    FoldOne(x, v);
    if Crc32Of(a[i := v]) == Crc32Of(a) {
      NumberInjective(Crc32(0, a[i := v]), Crc32(0, a));
      Complement(Fold32(one, a));
      Complement(Fold32(one, a[i := v]));
      FoldInjective(Shifts32(Mix32(x, a[i]), 8), Shifts32(Mix32(x, v), 8), rest);
      ShiftsInjective32(Mix32(x, a[i]), Mix32(x, v), 8);
      MixByteInjective32(x, a[i], v);
    }
  }

  // ----- the residue of CRC-16 -----

  lemma High16Bits(x: bv16)
    ensures (x ^ (((x >> 8) & 0xff) << 8)) & 0xff00 == 0 && x ^ (((x >> 8) & 0xff) << 8) == x & 0xff
    ensures (x & 0xff) & 0xff00 == 0 && ((x & 0xff) << 8) ^ ((x & 0xff) << 8) == 0
  {
  }

  lemma ShiftPlain16(x: bv16)
    ensures x & 0x8000 == 0 ==> Shift16(x) == x << 1
  {
  }

  lemma EightZeros16(x: bv16)
    requires x & 0xff00 == 0
    ensures x & 0x8000 == 0 && (x << 1) & 0x8000 == 0 && (x << 2) & 0x8000 == 0 && (x << 3) & 0x8000 == 0
    ensures (x << 4) & 0x8000 == 0 && (x << 5) & 0x8000 == 0 && (x << 6) & 0x8000 == 0 && (x << 7) & 0x8000 == 0
    ensures (x << 1) << 1 == x << 2 && (x << 2) << 1 == x << 3 && (x << 3) << 1 == x << 4 && (x << 4) << 1 == x << 5
    ensures (x << 5) << 1 == x << 6 && (x << 6) << 1 == x << 7 && (x << 7) << 1 == x << 8
  {
  }

  lemma ZeroBit16(x: bv16, n: nat, y: bv16)
    requires Shifts16(x, n) == y && y & 0x8000 == 0
    ensures Shifts16(x, n + 1) == y << 1
  {
    ShiftPlain16(y);
    hide Shift16;
  }

  /** A register whose high byte is empty only moves up. */
  lemma EmptyHighByte(x: bv16)
    requires x & 0xff00 == 0
    ensures Shifts16(x, 8) == x << 8
  {
    EightZeros16(x);
    assert Shifts16(x, 0) == x;
    hide Shift16, Shifts16;
    ZeroBit16(x, 0, x);
    ZeroBit16(x, 1, x << 1);
    ZeroBit16(x, 2, x << 2);
    ZeroBit16(x, 3, x << 3);
    ZeroBit16(x, 4, x << 4);
    ZeroBit16(x, 5, x << 5);
    ZeroBit16(x, 6, x << 6);
    ZeroBit16(x, 7, x << 7);
  }

  lemma WideParts(x: bv16)
    ensures Wide16(HighByte(x)) == (x >> 8) & 0xff && Wide16(LowByte(x)) == x & 0xff
  {
    ByteOfBits(((x >> 8) & 0xff) as bv8);
    ByteOfBits((x & 0xff) as bv8);
    WidenParts(x);
  }

  lemma WidenParts(x: bv16)
    ensures (((x >> 8) & 0xff) as bv8) as bv16 == (x >> 8) & 0xff && ((x & 0xff) as bv8) as bv16 == x & 0xff
  {
  }

  /** The register after its own high byte, and then its low byte. */
  lemma OwnHighByte(x: bv16)
    ensures Byte16(x, HighByte(x)) == (x & 0xff) << 8
  {
    hide Shifts16, Wide16, HighByte, LowByte;
    WideParts(x);
    High16Bits(x);
    EmptyHighByte(x & 0xff);
  }

  lemma OwnLowByte(x: bv16)
    ensures Byte16((x & 0xff) << 8, LowByte(x)) == 0
  {
    hide Shifts16, Wide16, HighByte, LowByte;
    WideParts(x);
    High16Bits(x);
    EmptyHighByte(0);
  }

  /** The residue of CRC-16: data followed by its checksum, high byte first, has checksum 0; so has what
      stands behind the block number of every packet. */
  lemma Residue16(data: seq<byte>)
    ensures Crc16(data + [HighByte(Crc16(data)), LowByte(Crc16(data))]) == 0
  {
    hide Byte16, HighByte, LowByte;
    var x := Crc16(data);
    var h, l := HighByte(x), LowByte(x);
    Crc16Concat(0, data, [h, l]);
    assert [h, l][..1] == [h] && [h][..0] == [];
    assert Crc16From(x, [h]) == Byte16(x, h);
    OwnHighByte(x);
    OwnLowByte(x);
  }
}
