/** The 128-byte header of an application image: how the packer fills it in and the device reads it. */
module ImageHeader {
  import opened Bytes
  import opened Errno
  import opened Crc

  const HEADER_SIZE: nat := 128
  const MAGIC: u32 := 0x5746434d
  const VERSION: nat := 2
  const NAME_MAX: nat := 64
  const VERSION_MAX: nat := 16
  const FLAG_NATIVE: u32 := 1
  const ABI_SHIFT: nat := 0x100_0000

  /** struct rtbus_image_header. */
  datatype Header = Header(magic: u32, headerVersion: nat, headerSize: nat, payloadSize: u32, payloadCrc: u32,
                           version: seq<byte>, name: seq<byte>, ram: u32, flags: u32, reserved: seq<byte>)

  function FromLe16(b0: byte, b1: byte): nat
  {
    b0 + 256 * b1
  }

  function Half(mem: seq<byte>, a: nat): nat
    requires a + 2 <= |mem|
  {
    FromLe16(mem[a], mem[a + 1])
  }

  /** The header fields at the front of `img`. */
  function Parse(img: seq<byte>): Header
    requires |img| >= HEADER_SIZE
  {
    Header(Word(img, 0), Half(img, 4), Half(img, 6), Word(img, 8), Word(img, 12), img[16..32], img[32..96],
           Word(img, 96), Word(img, 100), img[104..128])
  }

  /** The checks shared by both header readers; `capacity` bounds the payload. */
  predicate HeaderOk(h: Header, capacity: int)
  {
    && h.magic == MAGIC && h.headerVersion == VERSION && h.headerSize == HEADER_SIZE
    && h.payloadSize != 0 && h.payloadSize <= capacity
  }

  /** What the checks ask for, byte by byte: the eight bytes every header starts with, and a payload size
      from 1 to the capacity, low byte first. */
  predicate Recognised(img: seq<byte>, capacity: int)
    requires |img| >= 128
  {
    && img[..8] == [0x4d, 0x43, 0x46, 0x57, 2, 0, 128, 0]
    && 1 <= img[8] + 0x100 * img[9] + 0x1_0000 * img[10] + 0x100_0000 * img[11] <= capacity
  }

  lemma FirstBytes(img: seq<byte>)
    requires |img| >= 128
    ensures img[..8] == [0x4d, 0x43, 0x46, 0x57, 2, 0, 128, 0] <==>
      && img[0] == 0x4d && img[1] == 0x43 && img[2] == 0x46 && img[3] == 0x57
      && img[4] == 2 && img[5] == 0 && img[6] == 128 && img[7] == 0
  {
    var s := img[..8];
    assert s[0] == img[0] && s[1] == img[1] && s[2] == img[2] && s[3] == img[3];
    assert s[4] == img[4] && s[5] == img[5] && s[6] == img[6] && s[7] == img[7];
  }

  lemma MagicBytes(b0: byte, b1: byte, b2: byte, b3: byte)
    ensures FromLe32(b0, b1, b2, b3) == 0x5746434d <==> b0 == 0x4d && b1 == 0x43 && b2 == 0x46 && b3 == 0x57
  {
  }

  /** The header readers accept exactly what they should. */
  lemma HeaderMeans(img: seq<byte>, capacity: int)
    requires |img| >= HEADER_SIZE
    ensures HeaderOk(Parse(img), capacity) <==> Recognised(img, capacity)
  {
    FirstBytes(img);
    MagicBytes(img[0], img[1], img[2], img[3]);
  }

  /** The payload the header announces. */
  function Payload(img: seq<byte>): seq<byte>
    requires |img| >= HEADER_SIZE && HEADER_SIZE + Parse(img).payloadSize <= |img|
  {
    img[HEADER_SIZE..HEADER_SIZE + Parse(img).payloadSize]
  }

  /** An image the device may run: sound header, RAM within bounds, checksum right. */
  predicate GoodImage(img: seq<byte>, ramMax: nat)
  {
    && |img| >= HEADER_SIZE && HeaderOk(Parse(img), |img| - HEADER_SIZE)
    && Parse(img).ram <= ramMax
    && Crc32Of(Payload(img)) == Parse(img).payloadCrc
  }

  /** The bytes behind the header match its checksum. */
  predicate ChecksumRight(img: seq<byte>)
    requires |img| >= 128 && 128 + Word(img, 8) <= |img|
  {
    Crc32Of(img[128..128 + Word(img, 8)]) == Word(img, 12)
  }

  /** The answer of the device's checks to an image in the store. */
  function Verdict(img: seq<byte>, ramMax: nat): int
    requires |img| >= 128
  {
    if !Recognised(img, |img| - 128) then -ENODATA
    else if Word(img, 96) > ramMax then -ENOMEM
    else if !ChecksumRight(img) then -EBADMSG
    else 0
  }

  /** What a good image is, by its bytes. */
  lemma GoodImageMeans(img: seq<byte>, ramMax: nat)
    ensures GoodImage(img, ramMax) <==>
      && |img| >= 128 && Recognised(img, |img| - 128) && Word(img, 96) <= ramMax && ChecksumRight(img)
  {
    if |img| >= 128 { HeaderMeans(img, |img| - 128); }
  }

  /** The verdict by what the device has parsed. */
  lemma VerdictCases(img: seq<byte>, ramMax: nat)
    requires |img| >= HEADER_SIZE
    ensures var h, v := Parse(img), Verdict(img, ramMax);
      && (!HeaderOk(h, |img| - HEADER_SIZE) ==> v == -ENODATA)
      && (HeaderOk(h, |img| - HEADER_SIZE) ==>
            && HEADER_SIZE + h.payloadSize <= |img|
            && (h.ram > ramMax ==> v == -ENOMEM)
            && (h.ram <= ramMax ==>
                  v == if Crc32Of(img[HEADER_SIZE..HEADER_SIZE + h.payloadSize]) == h.payloadCrc then 0 else -EBADMSG))
      && (GoodImage(img, ramMax) <==> v == 0)
  {
    hide Recognised, Crc32Of;
    HeaderMeans(img, |img| - HEADER_SIZE);
  }

  /** A C string field: the bytes before the first NUL, at most `max` of them. */
  function CString(s: seq<byte>, max: nat): (r: seq<byte>)
    ensures |r| <= max && |r| <= |s| && r == s[..|r|]
  {
    if max == 0 || s == [] || s[0] == 0 then [] else [s[0]] + CString(s[1..], max - 1)
  }

  /** struct rtbus_image_status. */
  datatype Status = Status(valid: bool, name: seq<byte>, version: seq<byte>, payloadSize: nat, payloadCrc: u32,
                           ram: u32, flags: u32)

  /** The parser depends on the first 128 bytes only. */
  lemma ParsePrefix(a: seq<byte>, b: seq<byte>)
    requires |a| >= HEADER_SIZE && |b| >= HEADER_SIZE && a[..HEADER_SIZE] == b[..HEADER_SIZE]
    ensures Parse(a) == Parse(b)
  {
    forall i | 0 <= i < HEADER_SIZE ensures a[i] == b[i] {
      assert a[i] == a[..HEADER_SIZE][i] && b[i] == b[..HEADER_SIZE][i];
    }
    assert a[16..32] == b[16..32] && a[32..96] == b[32..96] && a[104..128] == b[104..128];
  }

  // ----- the packer: system/header.c -----

  /** The symbols of the application map that enter the header, as differences of addresses. */
  datatype Layout = Layout(entry: u32, dataLoad: u32, dataRam: u32, dataSize: u32, bssRam: u32, bssSize: u32)

  /** put_fixed_string: truncated to leave a NUL, and NUL-padded. */
  function FixedString(value: seq<byte>, size: nat): (r: seq<byte>)
    requires size > 0
    ensures |r| == size
  {
    var n := Min(|value|, size - 1);
    value[..n] + Fill(size - n, 0)
  }

  function Le16(v: nat): (s: seq<byte>)
    requires v < 0x1_0000
    ensures |s| == 2
  {
    [v % 256, v / 256]
  }

  /** RTBUS_IMAGE_FLAGS_MAKE_NATIVE_ABI. */
  function NativeFlags(abi: nat): u32
    requires abi < 256
  {
    FLAG_NATIVE + ABI_SHIFT * abi
  }

  function LayoutBytes(l: Layout): (s: seq<byte>)
    ensures |s| == 24
  {
    Le32(l.entry) + Le32(l.dataLoad) + Le32(l.dataRam) + Le32(l.dataSize) + Le32(l.bssRam) + Le32(l.bssSize)
  }

  /** The bytes build_header leaves. */
  function HeaderBytes(l: Layout, name: seq<byte>, version: seq<byte>, ram: u32, size: u32, crc: u32, abi: nat):
      (s: seq<byte>)
    requires abi < 256
    ensures |s| == HEADER_SIZE
  {
    Le32(MAGIC) + Le16(VERSION) + Le16(HEADER_SIZE) + Le32(size) + Le32(crc)
    + FixedString(version, VERSION_MAX) + FixedString(name, NAME_MAX)
    + Le32(ram) + Le32(NativeFlags(abi)) + LayoutBytes(l)
  }

  lemma WordOf(pre: seq<byte>, v: u32, post: seq<byte>)
    ensures Word(pre + Le32(v) + post, |pre|) == v
  {
    FromLe32OfLe32(v);
    var m, s := pre + Le32(v) + post, Le32(v);
    assert m[|pre|] == s[0] && m[|pre| + 1] == s[1] && m[|pre| + 2] == s[2] && m[|pre| + 3] == s[3];
  }

  /** What the device reads from a packed header is what the packer put in. */
  lemma ParseHeaderBytes(l: Layout, name: seq<byte>, version: seq<byte>, ram: u32, size: u32, crc: u32, abi: nat,
                         rest: seq<byte>)
    requires abi < 256
    ensures Parse(HeaderBytes(l, name, version, ram, size, crc, abi) + rest)
            == Header(MAGIC, VERSION, HEADER_SIZE, size, crc, FixedString(version, VERSION_MAX),
                      FixedString(name, NAME_MAX), ram, NativeFlags(abi), LayoutBytes(l))
  {
    hide FixedString, Le32, LayoutBytes, NativeFlags;
    var v, n := FixedString(version, VERSION_MAX), FixedString(name, NAME_MAX);
    var h := HeaderBytes(l, name, version, ram, size, crc, abi);
    var m := h + rest;
    var p4 := Le32(MAGIC);
    var p8 := p4 + Le16(VERSION) + Le16(HEADER_SIZE);
    var p12 := p8 + Le32(size);
    var p16 := p12 + Le32(crc);
    var p96 := p16 + v + n;
    var p100 := p96 + Le32(ram);
    var p104 := p100 + Le32(NativeFlags(abi));
    assert m == [] + Le32(MAGIC) + m[4..];
    assert m == p8 + Le32(size) + m[12..];
    assert m == p12 + Le32(crc) + m[16..];
    assert m == p96 + Le32(ram) + m[100..];
    assert m == p100 + Le32(NativeFlags(abi)) + m[104..];
    assert m[16..32] == v && m[32..96] == n && m[104..128] == LayoutBytes(l);
    WordOf([], MAGIC, m[4..]);
    WordOf(p8, size, m[12..]);
    WordOf(p12, crc, m[16..]);
    WordOf(p96, ram, m[100..]);
    WordOf(p100, NativeFlags(abi), m[104..]);
    assert m[4..6] == Le16(VERSION) && m[6..8] == Le16(HEADER_SIZE);
    assert m[4] == m[4..6][0] && m[5] == m[4..6][1] && m[6] == m[6..8][0] && m[7] == m[6..8][1];
  }

  lemma WordAt(m: seq<byte>, a: nat, v: u32)
    requires a + 4 <= |m| && m[a..a + 4] == Le32(v)
    ensures Word(m, a) == v
  {
    FromLe32OfLe32(v);
    hide Le32;
    var s := m[a..a + 4];
    assert m[a] == s[0] && m[a + 1] == s[1] && m[a + 2] == s[2] && m[a + 3] == s[3];
  }

  /** Where the six words of the layout stand. */
  lemma LayoutWords(l: Layout)
    ensures var m := LayoutBytes(l);
      Layout(Word(m, 0), Word(m, 4), Word(m, 8), Word(m, 12), Word(m, 16), Word(m, 20)) == l
  {
    hide Word, Le32;
    var m := LayoutBytes(l);
    assert m[0..4] == Le32(l.entry) && m[4..8] == Le32(l.dataLoad) && m[8..12] == Le32(l.dataRam);
    assert m[12..16] == Le32(l.dataSize) && m[16..20] == Le32(l.bssRam) && m[20..24] == Le32(l.bssSize);
    WordAt(m, 0, l.entry);
    WordAt(m, 4, l.dataLoad);
    WordAt(m, 8, l.dataRam);
    WordAt(m, 12, l.dataSize);
    WordAt(m, 16, l.bssRam);
    WordAt(m, 20, l.bssSize);
  }

  lemma WordWithin(m: seq<byte>, from: nat, s: seq<byte>, a: nat)
    requires from + |s| <= |m| && m[from..from + |s|] == s && a + 4 <= |s|
    ensures Word(m, from + a) == Word(s, a)
  {
    forall i | 0 <= i < |s| ensures m[from + i] == s[i] { assert m[from..from + |s|][i] == s[i]; }
  }

  /** Every field of a packed header stands at its offset, little-endian. */
  lemma FieldsInPlace(l: Layout, name: seq<byte>, version: seq<byte>, ram: u32, size: u32, crc: u32, abi: nat,
                      rest: seq<byte>)
    requires abi < 256
    ensures var m := HeaderBytes(l, name, version, ram, size, crc, abi) + rest;
      && m[..8] == [0x4d, 0x43, 0x46, 0x57, 2, 0, 128, 0] && Word(m, 8) == size && Word(m, 12) == crc
      && m[16..32] == FixedString(version, 16) && m[32..96] == FixedString(name, 64) && Word(m, 96) == ram
      && Word(m, 100) == 0x100_0000 * abi + 1
      && Layout(Word(m, 104), Word(m, 108), Word(m, 112), Word(m, 116), Word(m, 120), Word(m, 124)) == l
  {
    var m := HeaderBytes(l, name, version, ram, size, crc, abi) + rest;
    ParseHeaderBytes(l, name, version, ram, size, crc, abi, rest);
    FirstBytes(m);
    MagicBytes(m[0], m[1], m[2], m[3]);
    assert Parse(m).magic == MAGIC && Parse(m).headerVersion == VERSION && Parse(m).headerSize == HEADER_SIZE;
    hide HeaderBytes, FixedString, Word;
    LayoutWords(l);
    var reserved := LayoutBytes(l);
    assert m[104..104 + |reserved|] == reserved;
    WordWithin(m, 104, reserved, 0);
    WordWithin(m, 104, reserved, 4);
    WordWithin(m, 104, reserved, 8);
    WordWithin(m, 104, reserved, 12);
    WordWithin(m, 104, reserved, 16);
    WordWithin(m, 104, reserved, 20);
  }
}
