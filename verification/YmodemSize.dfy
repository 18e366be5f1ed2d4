/** The size in a YMODEM header block: written in decimal by the sender, read back by strtoul. */
module YmodemSize {
  import opened Bytes

  const ZERO: byte := 0x30

  predicate Digit(b: byte)
  {
    0x30 <= b <= 0x39
  }

  /** %lu. */
  function Decimal(n: nat): (r: seq<byte>)
    ensures r != [] && forall i | 0 <= i < |r| :: Digit(r[i])
  {
    if n < 10 then [ZERO + n] else Decimal(n / 10) + [ZERO + n % 10]
  }

  function Value(ds: seq<byte>): int
  {
    if ds == [] then 0 else Value(ds[..|ds| - 1]) * 10 + (ds[|ds| - 1] - ZERO)
  }

  lemma {:induction false} ValueOfDecimal(n: nat)
    ensures Value(Decimal(n)) == n
  {
    if n < 10 {
      assert Decimal(n)[..0] == [];
    } else {
      ValueOfDecimal(n / 10);
      assert Decimal(n)[..|Decimal(n)| - 1] == Decimal(n / 10);
    }
  }

  /** A proper prefix of the digits is a smaller number. */
  lemma {:induction false} ValueOfPrefix(n: nat, k: nat)
    requires 0 < n && k < |Decimal(n)|
    ensures 0 <= Value(Decimal(n)[..k]) < n
  {
    if n < 10 {
      assert Decimal(n)[..k] == [];
    } else {
      var d := Decimal(n / 10);
      assert Decimal(n)[..k] == d[..k];
      if k == |d| {
        assert d[..k] == d;
        ValueOfDecimal(n / 10);
      } else {
        ValueOfPrefix(n / 10, k);
      }
    }
  }

  /** snprintf("%s%c%lu") into the zeroed 128-byte block: at most 127 characters. */
  function HeaderBlock(name: seq<byte>, size: nat): (r: seq<byte>)
    ensures |r| == 128
  {
    var text := name + [0] + Decimal(size);
    var n := if |text| < 127 then |text| else 127;
    text[..n] + Fill(128 - n, 0)
  }

  predicate Space(b: byte)
  {
    b == 0x20 || 0x09 <= b <= 0x0d
  }

  function SkipSpace(s: seq<byte>): (r: seq<byte>)
    ensures |r| <= |s|
  {
    if s != [] && Space(s[0]) then SkipSpace(s[1..]) else s
  }

  /** The number of leading digits. */
  function DigitCount(s: seq<byte>): (k: nat)
    ensures k <= |s| && forall i | 0 <= i < k :: Digit(s[i])
    ensures k < |s| ==> !Digit(s[k])
  {
    if s != [] && Digit(s[0]) then 1 + DigitCount(s[1..]) else 0
  }

  /** strtoul to base 10 with a 32-bit unsigned long: white space, a sign, digits; overflow saturates
      and a minus sign negates modulo 2^32. */
  function Strtoul(s: seq<byte>): u32
  {
    var t := SkipSpace(s);
    var signed := t != [] && (t[0] == 0x2b || t[0] == 0x2d);
    var u := if signed then t[1..] else t;
    var v := Value(u[..DigitCount(u)]);
    if v < 0 || v >= WORD_LIMIT then WORD_LIMIT - 1
    else if signed && t[0] == 0x2d && v > 0 then WORD_LIMIT - v
    else v
  }

  /** Where the file name ends: the first NUL, or the length of the block. */
  function NameEnd(block: seq<byte>): (p: nat)
    ensures p <= |block| && (forall i | 0 <= i < p :: block[i] != 0) && (p < |block| ==> block[p] == 0)
  {
    if block == [] || block[0] == 0 then 0 else 1 + NameEnd(block[1..])
  }

  /** ymodem_parse_file_size. */
  function ParseSize(block: seq<byte>): u32
  {
    var p := NameEnd(block);
    if p + 1 >= |block| || block[p + 1] == 0 then 0 else Strtoul(block[p + 1..])
  }

  method FindNameEnd(block: seq<byte>) returns (p: nat)
    ensures p == NameEnd(block)
  {
    p := 0;
    while p < |block| && block[p] != 0
      invariant p <= |block| && forall i | 0 <= i < p :: block[i] != 0
    {
      p := p + 1;
    }
    NameEndUnique(block, p);
  }

  /** ymodem_parse_file_size, with its scan for the end of the name. */
  method ReadFileSize(block: seq<byte>) returns (size: u32)
    ensures size == ParseSize(block)
  {
    hide Strtoul;
    var p := FindNameEnd(block);
    if p >= |block| || p + 1 >= |block| || block[p + 1] == 0 { return 0; }
    size := Strtoul(block[p + 1..]);
  }

  lemma NameEndUnique(block: seq<byte>, p: nat)
    requires p <= |block| && (forall i | 0 <= i < p :: block[i] != 0) && (p < |block| ==> block[p] == 0)
    ensures NameEnd(block) == p
  {
  }

  lemma DigitCountUnique(s: seq<byte>, k: nat)
    requires k < |s| && (forall i | 0 <= i < k :: Digit(s[i])) && !Digit(s[k])
    ensures DigitCount(s) == k
  {
  }

  /** Reading digits that end in a NUL. */
  lemma StrtoulDigits(s: seq<byte>, n: nat)
    requires 0 < n < |s| && (forall i | 0 <= i < n :: Digit(s[i])) && s[n] == 0
    requires 0 <= Value(s[..n]) < WORD_LIMIT
    ensures Strtoul(s) == Value(s[..n])
  {
    hide Value;
    assert Digit(s[0]);
    DigitCountUnique(s, n);
  }

  lemma LongName(name: seq<byte>, size: nat)
    requires 0 !in name && |name| >= 126
    ensures ParseSize(HeaderBlock(name, size)) == 0
  {
    hide Strtoul, Decimal;
    NameEndUnique(HeaderBlock(name, size), if |name| == 126 then 126 else 127);
  }

  /** How many digits of the size fit behind the name. */
  function Room(name: seq<byte>, size: nat): (k: nat)
    requires |name| < 126
    ensures 0 < k <= |Decimal(size)|
    ensures k == |Decimal(size)| <==> |name| + 1 + |Decimal(size)| <= 127
  {
    if |name| + 1 + |Decimal(size)| <= 127 then |Decimal(size)| else 126 - |name|
  }

  lemma ShortName(name: seq<byte>, size: nat)
    requires 0 !in name && |name| < 126
    ensures var b, k := HeaderBlock(name, size), Room(name, size);
      && NameEnd(b) == |name| && |name| + 1 + k < 128
      && b[|name| + 1..|name| + 1 + k] == Decimal(size)[..k] && b[|name| + 1 + k] == 0
  {
    hide Decimal;
    NameEndUnique(HeaderBlock(name, size), |name|);
  }

  lemma ReadBack(name: seq<byte>, size: nat)
    requires 0 !in name && |name| < 126 && 0 < size < WORD_LIMIT
    ensures ParseSize(HeaderBlock(name, size)) == Value(Decimal(size)[..Room(name, size)])
  {
    hide Value, Decimal, HeaderBlock, Strtoul;
    var b, k := HeaderBlock(name, size), Room(name, size);
    ShortName(name, size);
    RoomValue(name, size);
    var s := b[|name| + 1..];
    assert s[..k] == Decimal(size)[..k];
    forall i | 0 <= i < k ensures Digit(s[i]) { assert s[i] == s[..k][i]; }
    StrtoulDigits(s, k);
  }

  lemma RoomValue(name: seq<byte>, size: nat)
    requires |name| < 126 && 0 < size
    ensures 0 <= Value(Decimal(size)[..Room(name, size)]) <= size
    ensures Value(Decimal(size)[..Room(name, size)]) == size <==> |name| + 1 + |Decimal(size)| <= 127
  {
    hide Value, Decimal;
    var d, k := Decimal(size), Room(name, size);
    if k == |d| { assert d[..k] == d; ValueOfDecimal(size); } else { ValueOfPrefix(size, k); }
  }

  /** The size arrives intact exactly when name, NUL and digits fit in 127 bytes and the size is a
      32-bit number; otherwise the receiver reads a different size. */
  lemma HeaderRoundTrip(name: seq<byte>, size: nat)
    requires 0 !in name && 0 < size
    ensures ParseSize(HeaderBlock(name, size)) == size <==> |name| + 1 + |Decimal(size)| <= 127 && size < WORD_LIMIT
  {
    hide ParseSize, HeaderBlock, Value;
    if |name| >= 126 {
      LongName(name, size);
    } else if size < WORD_LIMIT {
      ReadBack(name, size);
      RoomValue(name, size);
    }
  }

  /** Digits are characters: 1024 is sent as 31 30 32 34. */
  lemma KnownDecimal()
    ensures Decimal(1024) == [0x31, 0x30, 0x32, 0x34]
  {
    assert Decimal(1) == [0x31] && Decimal(10) == [0x31, 0x30] && Decimal(102) == [0x31, 0x30, 0x32];
  }

  /** The name block holds the name, a NUL, the size, and NULs to its end. */
  lemma BlockText(name: seq<byte>, size: nat)
    requires |name| + 1 + |Decimal(size)| <= 127
    ensures var r, n := HeaderBlock(name, size), |name| + 1 + |Decimal(size)|;
      r[..|name|] == name && r[|name|] == 0 && r[|name| + 1..n] == Decimal(size)
      && forall i | n <= i < 128 :: r[i] == 0
  {
    hide Decimal;
  }

  /** White space in front does not count. */
  lemma SpaceSkipped(b: byte, s: seq<byte>)
    requires b in {0x20, 0x09, 0x0A, 0x0B, 0x0C, 0x0D}
    ensures Strtoul([b] + s) == Strtoul(s)
  {
    assert ([b] + s)[1..] == s;
    assert SkipSpace([b] + s) == SkipSpace(s);
  }

  /** Nor does a plus sign; a minus sign negates modulo 2^32. */
  lemma Signed(s: seq<byte>)
    requires s != [] && Digit(s[0]) && Value(s[..DigitCount(s)]) < 0x1_0000_0000
    requires Value(s[..DigitCount(s)]) >= 0
    ensures Strtoul(s) == Value(s[..DigitCount(s)]) && Strtoul([0x2b] + s) == Strtoul(s)
    ensures Strtoul([0x2d] + s) == if Strtoul(s) == 0 then 0 else 0x1_0000_0000 - Strtoul(s)
  {
    hide Value, DigitCount;
    var p, m := [0x2b] + s, [0x2d] + s;
    assert p[1..] == s && m[1..] == s;
    assert SkipSpace(p) == p && SkipSpace(m) == m && SkipSpace(s) == s;
  }

  /** Without a digit the number is 0. */
  lemma NoDigits(s: seq<byte>)
    requires s == [] || (!Digit(s[0]) && s[0] !in {0x2b, 0x2d, 0x20, 0x09, 0x0A, 0x0B, 0x0C, 0x0D})
    ensures Strtoul(s) == 0
  {
    assert DigitCount(s) == 0 && s[..0] == [];
  }

  /** Above 2^32 - 1 it saturates. */
  lemma Saturates(s: seq<byte>)
    requires s != [] && Digit(s[0]) && Value(s[..DigitCount(s)]) >= 0x1_0000_0000
    ensures Strtoul(s) == 0xFFFF_FFFF
  {
  }
}
