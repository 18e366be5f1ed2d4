/** system/header.c: the packer that puts the header in front of an application's payload. */
module Packer {
  import opened Bytes
  import opened Crc
  import opened ImageHeader

  /** put_le32. */
  method PutLe32(buf: array<byte>, at: nat, v: u32)
    requires at + 4 <= buf.Length
    modifies buf
    ensures buf[..at + 4] == old(buf[..at]) + Le32(v)
  {
    var s := Le32(v);
    buf[at], buf[at + 1], buf[at + 2], buf[at + 3] := s[0], s[1], s[2], s[3];
  }

  /** put_le16. */
  method PutLe16(buf: array<byte>, at: nat, v: nat)
    requires at + 2 <= buf.Length && v < 0x1_0000
    modifies buf
    ensures buf[..at + 2] == old(buf[..at]) + Le16(v)
  {
    buf[at], buf[at + 1] := v % 256, v / 256;
  }

  /** put_fixed_string: clear the field, then copy what leaves room for a NUL. */
  method PutFixedString(buf: array<byte>, at: nat, size: nat, value: seq<byte>)
    requires at + size <= buf.Length && size > 0
    modifies buf
    ensures buf[..at + size] == old(buf[..at]) + FixedString(value, size)
  {
    for i := 0 to size
      invariant buf[..at] == old(buf[..at]) && forall j | at <= j < at + i :: buf[j] == 0
    {
      buf[at + i] := 0;
    }
    var len := if |value| >= size then size - 1 else |value|;
    for i := 0 to len
      invariant buf[..at] == old(buf[..at]) && buf[at..at + i] == value[..i]
      invariant forall j | at + i <= j < at + size :: buf[j] == 0
    {
      buf[at + i] := value[i];
    }
    assert buf[..at + size] == buf[..at] + buf[at..at + len] + buf[at + len..at + size];
  }

  /** build_header. */
  method BuildHeader(header: array<byte>, l: Layout, name: seq<byte>, version: seq<byte>,
                     ram: u32, size: u32, crc: u32, abi: nat)
    requires header.Length == HEADER_SIZE && abi < 256
    modifies header
    ensures header[..] == HeaderBytes(l, name, version, ram, size, crc, abi)
  {
    hide FixedString, Le32, Le16;
    PutFront(header, name, version, ram, size, crc, abi);
    ghost var front := header[..104];
    PutLayout(header, l);
    assert header[..128] == header[..];
  }

  method PutFront(header: array<byte>, name: seq<byte>, version: seq<byte>, ram: u32, size: u32, crc: u32, abi: nat)
    requires header.Length == HEADER_SIZE && abi < 256
    modifies header
    ensures header[..104] == Le32(MAGIC) + Le16(VERSION) + Le16(HEADER_SIZE) + Le32(size) + Le32(crc)
              + FixedString(version, VERSION_MAX) + FixedString(name, NAME_MAX) + Le32(ram) + Le32(NativeFlags(abi))
  {
    hide FixedString, Le32, Le16;
    PutLe32(header, 0, MAGIC);
    PutLe16(header, 4, VERSION);
    PutLe16(header, 6, HEADER_SIZE);
    PutLe32(header, 8, size);
    PutLe32(header, 12, crc);
    PutFixedString(header, 16, VERSION_MAX, version);
    PutFixedString(header, 32, NAME_MAX, name);
    PutLe32(header, 96, ram);
    PutLe32(header, 100, NativeFlags(abi));
  }

  method PutLayout(header: array<byte>, l: Layout)
    requires header.Length == HEADER_SIZE
    modifies header
    ensures header[..128] == old(header[..104]) + LayoutBytes(l)
  {
    hide Le32;
    ghost var front := header[..104];
    PutLe32(header, 104, l.entry);
    PutLe32(header, 108, l.dataLoad);
    PutLe32(header, 112, l.dataRam);
    PutLe32(header, 116, l.dataSize);
    PutLe32(header, 120, l.bssRam);
    PutLe32(header, 124, l.bssSize);
    assert header[..128] == front + LayoutBytes(l);
  }

  /** The file the packer writes: header, then payload. */
  function PackedImage(l: Layout, name: seq<byte>, version: seq<byte>, ram: u32, payload: seq<byte>, abi: nat):
      seq<byte>
    requires abi < 256 && |payload| < WORD_LIMIT
  {
    HeaderBytes(l, name, version, ram, |payload|, Crc32Of(payload), abi) + payload
  }

  /** A packed image passes the device's checks exactly when its payload is not empty and its RAM
      is within the limit; the header then reports what was packed. */
  lemma PackedImageGood(l: Layout, name: seq<byte>, version: seq<byte>, ram: u32, payload: seq<byte>, abi: nat,
                        ramMax: nat)
    requires abi < 256 && |payload| < WORD_LIMIT
    ensures var img := PackedImage(l, name, version, ram, payload, abi);
      && (GoodImage(img, ramMax) <==> payload != [] && ram <= ramMax)
      && Parse(img).payloadSize == |payload| && Parse(img).payloadCrc == Crc32Of(payload)
      && Parse(img).ram == ram && Parse(img).flags == NativeFlags(abi)
      && Payload(img) == payload
  {
    hide Parse, Crc32Of, HeaderBytes;
    ParseHeaderBytes(l, name, version, ram, |payload|, Crc32Of(payload), abi, payload);
    assert Payload(PackedImage(l, name, version, ram, payload, abi)) == payload;
  }

  /** The name and version reported are those given, cut to the room in the header. */
  lemma {:induction false} FieldString(value: seq<byte>, size: nat)
    requires size > 0 && 0 !in value
    ensures CString(FixedString(value, size), size - 1) == value[..Min(|value|, size - 1)]
  {
    var f, n := FixedString(value, size), Min(|value|, size - 1);
    CStringOf(f, value[..n], size - 1);
  }

  lemma {:induction false} CStringOf(f: seq<byte>, v: seq<byte>, max: nat)
    requires |v| <= max && |v| < |f| && f[..|v|] == v && f[|v|] == 0 && 0 !in v
    ensures CString(f, max) == v
  {
    if v != [] {
      assert f[0] == v[0];
      assert f[1..][..|v| - 1] == v[1..];
      CStringOf(f[1..], v[1..], max - 1);
    }
  }
}
