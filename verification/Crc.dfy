/** The checksums: CRC-16 of YMODEM (crc16_xmodem, ymodem_crc16) and CRC-32 of the image header. */
module Crc {
  import opened Bytes
  import opened ByteBits

  function Wide16(b: byte): (r: bv16)
  {
    (b as bv8) as bv16
  }

  // ----- CRC-16 -----

  /** One shift of the CRC-16 register. */
  function Shift16(x: bv16): bv16
  {
    if x & 0x8000 != 0 then (x << 1) ^ 0x1021 else x << 1
  }

  function Shifts16(x: bv16, n: nat): bv16
  {
    if n == 0 then x else Shift16(Shifts16(x, n - 1))
  }

  /** A byte enters at the high end of the register. */
  function Mix16(crc: bv16, b: byte): bv16
  {
    crc ^ High16(b)
  }

  function High16(b: byte): bv16
  {
    Wide16(b) << 8
  }

  function Byte16(crc: bv16, b: byte): bv16
  {
    Shifts16(Mix16(crc, b), 8)
  }

  function Crc16From(crc: bv16, data: seq<byte>): bv16
  {
    if data == [] then crc else Byte16(Crc16From(crc, data[..|data| - 1]), data[|data| - 1])
  }

  function Crc16(data: seq<byte>): bv16
  {
    Crc16From(0, data)
  }

  /** One pass of the bit loop. */
  method ShiftOnce(start: bv16) returns (crc: bv16)
    ensures crc == Shift16(start)
  {
    crc := start;
    if crc & 0x8000 != 0 {
      crc := (crc << 1) ^ 0x1021;
    } else {
      crc := crc << 1;
    }
  }

  /** The bit loop. */
  method ShiftEight(start: bv16) returns (crc: bv16)
    ensures crc == Shifts16(start, 8)
  {
    hide Shift16;
    crc := start;
    for bit := 0 to 8
      invariant crc == Shifts16(start, bit)
    {
      crc := ShiftOnce(crc);
    }
  }

  /** The loop both ends of the transfer run. */
  method ComputeCrc16(data: seq<byte>) returns (crc: bv16)
    ensures crc == Crc16(data)
  {
    hide Shifts16, Mix16;
    crc := 0;
    for i := 0 to |data|
      invariant crc == Crc16From(0, data[..i])
    {
      assert data[..i + 1][..i] == data[..i];
      crc := ShiftEight(Mix16(crc, data[i]));
    }
    assert data[..|data|] == data;
  }

  lemma XorCancel(x: bv16, p: bv16)
    ensures (x ^ p) ^ p == x
  {
  }

  lemma ShiftPlain(x: bv16)
    requires x & 0x8000 == 0
    ensures Shift16(x) & 1 == 0 && Shift16(x) >> 1 == x
  {
  }

  lemma ShiftedBack(x: bv16)
    requires x & 0x8000 != 0
    ensures ((x << 1) >> 1) | 0x8000 == x && ((x << 1) ^ 0x1021) & 1 != 0
  {
  }

  lemma ShiftPoly(x: bv16)
    requires x & 0x8000 != 0
    ensures Shift16(x) & 1 != 0 && ((Shift16(x) ^ 0x1021) >> 1) | 0x8000 == x
  {
    XorCancel(x << 1, 0x1021);
    ShiftedBack(x);
  }

  /** The register shift loses nothing. */
  lemma ShiftInjective(x: bv16, y: bv16)
    requires Shift16(x) == Shift16(y)
    ensures x == y
  {
    hide Shift16;
    if x & 0x8000 == 0 { ShiftPlain(x); } else { ShiftPoly(x); }
    if y & 0x8000 == 0 { ShiftPlain(y); } else { ShiftPoly(y); }
  }

  lemma {:induction false} ShiftsInjective(x: bv16, y: bv16, n: nat)
    requires Shifts16(x, n) == Shifts16(y, n)
    ensures x == y
  {
    if n > 0 {
      ShiftInjective(Shifts16(x, n - 1), Shifts16(y, n - 1));
      ShiftsInjective(x, y, n - 1);
    }
  }

  lemma WideInjective(a: byte, b: byte)
    requires Wide16(a) == Wide16(b)
    ensures a == b
  {
    BitsOfByte(a);
    BitsOfByte(b);
    Widen(a as bv8, b as bv8);
  }

  lemma Widen(a: bv8, b: bv8)
    requires a as bv16 == b as bv16
    ensures a == b
  {
  }

  lemma HighByteInjective(x: bv16, a: bv16, b: bv16)
    requires a & 0xff00 == 0 && b & 0xff00 == 0 && x ^ (a << 8) == x ^ (b << 8)
    ensures a == b
  {
  }

  lemma WidenedIsByte(a: bv8)
    ensures (a as bv16) & 0xff00 == 0
  {
  }

  lemma WideIsByte(a: byte)
    ensures Wide16(a) & 0xff00 == 0
  {
    WidenedIsByte(a as bv8);
  }

  lemma XorInjective(x: bv16, y: bv16, p: bv16)
    requires x ^ p == y ^ p
    ensures x == y
  {
    XorCancel(x, p);
    XorCancel(y, p);
  }

  lemma MixInjective(c: bv16, d: bv16, a: byte)
    requires Mix16(c, a) == Mix16(d, a)
    ensures c == d
  {
    hide High16;
    XorInjective(c, d, High16(a));
  }

  lemma MixByteInjective(c: bv16, a: byte, b: byte)
    requires Mix16(c, a) == Mix16(c, b)
    ensures Wide16(a) == Wide16(b)
  {
    hide Wide16;
    WideIsByte(a);
    WideIsByte(b);
    HighByteInjective(c, Wide16(a), Wide16(b));
  }

  lemma Byte16Injective(c: bv16, d: bv16, a: byte, b: byte)
    ensures Byte16(c, a) == Byte16(d, a) ==> c == d
    ensures Byte16(c, a) == Byte16(c, b) ==> a == b
  {
    hide Shifts16, Mix16, Wide16;
    if Byte16(c, a) == Byte16(d, a) {
      ShiftsInjective(Mix16(c, a), Mix16(d, a), 8);
      MixInjective(c, d, a);
    }
    if Byte16(c, a) == Byte16(c, b) {
      ShiftsInjective(Mix16(c, a), Mix16(c, b), 8);
      MixByteInjective(c, a, b);
      WideInjective(a, b);
    }
  }

  lemma {:induction false} Crc16Injective(c: bv16, d: bv16, s: seq<byte>)
    requires Crc16From(c, s) == Crc16From(d, s)
    ensures c == d
  {
    hide Byte16;
    if s != [] {
      var n := |s| - 1;
      Byte16Injective(Crc16From(c, s[..n]), Crc16From(d, s[..n]), s[n], s[n]);
      Crc16Injective(c, d, s[..n]);
    }
  }

  lemma {:induction false} Crc16Concat(c: bv16, s: seq<byte>, t: seq<byte>)
    ensures Crc16From(c, s + t) == Crc16From(Crc16From(c, s), t)
    decreases |t|
  {
    hide Byte16;
    if t == [] {
      assert s + t == s;
    } else {
      assert (s + t)[..|s + t| - 1] == s + t[..|t| - 1];
      Crc16Concat(c, s, t[..|t| - 1]);
    }
  }

  /** A block in which exactly one byte was changed never keeps its CRC-16. */
  lemma OneByteChangeDetected(a: seq<byte>, i: nat, v: byte)
    requires i < |a| && v != a[i]
    ensures Crc16(a[i := v]) != Crc16(a)
  {
    hide Byte16;
    var c, rest := Crc16(a[..i]), a[i + 1..];
    assert a == a[..i] + ([a[i]] + rest) && a[i := v] == a[..i] + ([v] + rest);
    Crc16Concat(0, a[..i], [a[i]] + rest);
    Crc16Concat(0, a[..i], [v] + rest);
    Crc16Concat(c, [a[i]], rest);
    Crc16Concat(c, [v], rest);
    assert Crc16From(c, [a[i]]) == Byte16(c, a[i]) && Crc16From(c, [v]) == Byte16(c, v);
    if Crc16(a[i := v]) == Crc16(a) {
      Crc16Injective(Byte16(c, a[i]), Byte16(c, v), rest);
      Byte16Injective(c, c, a[i], v);
    }
  }

  // ----- CRC-32 -----

  function Wide32(b: byte): bv32
  {
    (b as bv8) as bv32
  }

  /** One shift of the reflected CRC-32 register of IEEE 802.3. */
  function Shift32(x: bv32): bv32
  {
    if x & 1 != 0 then (x >> 1) ^ 0xedb88320 else x >> 1
  }

  function Shifts32(x: bv32, n: nat): bv32
  {
    if n == 0 then x else Shift32(Shifts32(x, n - 1))
  }

  function Mix32(x: bv32, b: byte): bv32
  {
    x ^ Wide32(b)
  }

  function Fold32(x: bv32, data: seq<byte>): bv32
  {
    if data == [] then x else Shifts32(Mix32(Fold32(x, data[..|data| - 1]), data[|data| - 1]), 8)
  }

  function Not32(x: bv32): bv32
  {
    !x
  }

  /** Continue a CRC-32 over further data: complemented on the way in and on the way out. */
  function Crc32(crc: bv32, data: seq<byte>): bv32
  {
    Not32(Fold32(Not32(crc), data))
  }

  /** The low byte of a register. */
  function Low8(x: bv32): byte
  {
    ((x & 0xff) as bv8) as int
  }

  /** The register as a number. */
  function Number32(x: bv32): u32
  {
    FromLe32(Low8(x), Low8(x >> 8), Low8(x >> 16), Low8(x >> 24))
  }

  /** The checksum of the image header. */
  function Crc32Of(data: seq<byte>): u32
  {
    Number32(Crc32(0, data))
  }

  /** The packer's branch-free shift: the polynomial is masked by the low bit. */
  method MaskedShift(start: bv32) returns (crc: bv32)
    ensures crc == Shift32(start)
  {
    crc := start;
    var mask: bv32 := 0 - (crc & 1);
    MaskMeansBit(crc);
    crc := (crc >> 1) ^ (0xedb88320 & mask);
  }

  lemma MaskMeansBit(x: bv32)
    ensures (x >> 1) ^ (0xedb88320 & (0 - (x & 1))) == if x & 1 != 0 then (x >> 1) ^ 0xedb88320 else x >> 1
  {
    if x & 1 != 0 {
      assert 0 - (x & 1) == 0xffffffff;
    } else {
      assert 0 - (x & 1) == 0;
    }
  }

  method MaskedShifts(start: bv32) returns (crc: bv32)
    ensures crc == Shifts32(start, 8)
  {
    hide Shift32;
    crc := start;
    for bit := 0 to 8
      invariant crc == Shifts32(start, bit)
    {
      crc := MaskedShift(crc);
    }
  }

  /** crc32_update of the packer. */
  method UpdateCrc32(crc0: bv32, data: seq<byte>) returns (crc: bv32)
    ensures crc == Crc32(crc0, data)
  {
    hide Shifts32, Mix32, Not32;
    crc := Not32(crc0);
    for i := 0 to |data|
      invariant crc == Fold32(Not32(crc0), data[..i])
    {
      assert data[..i + 1][..i] == data[..i];
      crc := MaskedShifts(Mix32(crc, data[i]));
    }
    assert data[..|data|] == data;
    crc := Not32(crc);
  }

  lemma {:induction false} Fold32Concat(x: bv32, s: seq<byte>, t: seq<byte>)
    ensures Fold32(x, s + t) == Fold32(Fold32(x, s), t)
    decreases |t|
  {
    hide Shifts32, Mix32;
    if t == [] {
      assert s + t == s;
    } else {
      assert (s + t)[..|s + t| - 1] == s + t[..|t| - 1];
      Fold32Concat(x, s, t[..|t| - 1]);
    }
  }

  lemma Complement(x: bv32)
    ensures Not32(Not32(x)) == x
  {
  }

  /** Updating chunk by chunk is updating once: the device's 128-byte chunks and the packer's single
      pass give the same CRC-32. */
  lemma Crc32Chunks(crc: bv32, s: seq<byte>, t: seq<byte>)
    ensures Crc32(Crc32(crc, s), t) == Crc32(crc, s + t)
  {
    hide Fold32, Not32;
    Complement(Fold32(Not32(crc), s));
    Fold32Concat(Not32(crc), s, t);
  }
}
