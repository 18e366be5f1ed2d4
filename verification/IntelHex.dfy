/** header.c: the image as an Intel HEX file (Intel Hexadecimal Object File Format Specification, Revision A),
    and a reader of such files after section 3 of that specification, 32-bit linear addressing. */
module IntelHex {
  import opened Bytes
  import opened Wrappers

  const DATA: byte := 0
  const END_OF_FILE: byte := 1
  const EXTENDED_LINEAR: byte := 4
  const ROW: nat := 16

  // ---- hexadecimal ----

  function Digit(n: nat): (c: char)
    requires n < 16
    ensures c != '\n'
  {
    "0123456789ABCDEF"[n]
  }

  function DigitValue(c: char): Option<nat>
  {
    if '0' <= c <= '9' then Some(c as nat - '0' as nat)
    else if 'A' <= c <= 'F' then Some(c as nat - 'A' as nat + 10)
    else None
  }

  lemma DigitBack(n: nat)
    requires n < 16
    ensures DigitValue(Digit(n)) == Some(n)
  {
  }

  /** %02X. */
  function Hex(b: byte): (s: string)
    ensures |s| == 2
  {
    [Digit(b / 16), Digit(b % 16)]
  }

  function HexAll(bs: seq<byte>): (s: string)
    ensures |s| == 2 * |bs| && forall i | 0 <= i < |s| :: s[i] != '\n'
  {
    if bs == [] then "" else HexAll(bs[..|bs| - 1]) + Hex(bs[|bs| - 1])
  }

  function Unhex(s: string): Option<seq<byte>>
  {
    if s == "" then Some([])
    else if |s| == 1 then None
    else
      var front, hi, lo := Unhex(s[..|s| - 2]), DigitValue(s[|s| - 2]), DigitValue(s[|s| - 1]);
      if front.None? || hi.None? || lo.None? || hi.value >= 16 || lo.value >= 16 then None
      else Some(front.value + [hi.value * 16 + lo.value])
  }

  lemma {:induction false} UnhexBack(bs: seq<byte>)
    ensures Unhex(HexAll(bs)) == Some(bs)
  {
    hide DigitValue, Digit;
    if bs != [] {
      var m := |bs| - 1;
      UnhexBack(bs[..m]);
      DigitBack(bs[m] / 16);
      DigitBack(bs[m] % 16);
      assert HexAll(bs)[..|HexAll(bs)| - 2] == HexAll(bs[..m]);
      assert bs[..m] + [bs[m]] == bs;
    }
  }

  // ---- records ----

  function Sum(bs: seq<byte>): nat
  {
    if bs == [] then 0 else Sum(bs[..|bs| - 1]) + bs[|bs| - 1]
  }

  lemma SumMore(bs: seq<byte>, b: byte)
    ensures Sum(bs + [b]) == Sum(bs) + b
  {
    assert (bs + [b])[..|bs|] == bs;
  }

  /** Length, load offset, type and data: what the checksum covers. */
  function Covered(kind: byte, address: nat, data: seq<byte>): seq<byte>
    requires address < 0x10000 && |data| < 256
  {
    [|data|, address / 256, address % 256, kind] + data
  }

  function Checksum(bs: seq<byte>): byte
  {
    (256 - Sum(bs) % 256) % 256
  }

  /** A whole record with its line end. */
  function Record(kind: byte, address: nat, data: seq<byte>): string
    requires address < 0x10000 && |data| < 256
  {
    var bs := Covered(kind, address, data);
    ":" + HexAll(bs + [Checksum(bs)]) + "\n"
  }

  /** The bytes of every record sum to 0 modulo 256. */
  lemma ChecksumCancels(bs: seq<byte>)
    ensures Sum(bs + [Checksum(bs)]) % 256 == 0
  {
    SumMore(bs, Checksum(bs));
    hide Sum;
    Cancels(Sum(bs));
  }

  lemma Cancels(sum: nat)
    ensures (sum + (256 - sum % 256) % 256) % 256 == 0
  {
  }

  // ---- the reader ----

  function LineEnd(s: string): (n: nat)
    ensures n <= |s| && (forall i | 0 <= i < n :: s[i] != '\n') && (n < |s| ==> s[n] == '\n')
  {
    if s == "" || s[0] == '\n' then 0 else 1 + LineEnd(s[1..])
  }

  /** Two bytes, high one first. */
  function Half(hi: byte, lo: byte): nat
  {
    256 * hi + lo
  }

  datatype Parsed = Parsed(kind: byte, address: nat, data: seq<byte>)

  /** One line without its line end. */
  function ReadRecord(line: string): Option<Parsed>
  {
    if line == "" || line[0] != ':' then None
    else
      var bs := Unhex(line[1..]);
      if bs.None? || |bs.value| < 5 || bs.value[0] != |bs.value| - 5 || Sum(bs.value) % 256 != 0 then None
      else Some(Parsed(bs.value[3], Half(bs.value[1], bs.value[2]), bs.value[4..|bs.value| - 1]))
  }

  /** `i` bytes behind an address, modulo 2^32. */
  function Behind(at: nat, i: nat): u32
  {
    (at + i) % WORD_LIMIT
  }

  lemma BehindTwice(at: nat, n: nat, k: nat)
    ensures Behind(Behind(at, n), k) == Behind(at, n + k)
  {
  }

  /** Each byte with its address, from `at` on. */
  function Placed(at: nat, data: seq<byte>): (r: seq<(u32, byte)>)
    ensures |r| == |data|
    ensures forall i | 0 <= i < |data| :: r[i] == (Behind(at, i), data[i])
  {
    seq(|data|, i requires 0 <= i < |data| => (Behind(at, i), data[i]))
  }

  /** The bytes of a file with their addresses; `upper` is the upper half of the linear base address. */
  function Read(text: string, upper: nat): Option<seq<(u32, byte)>>
    decreases |text|
  {
    var n := LineEnd(text);
    if n == |text| then None
    else
      var r, rest := ReadRecord(text[..n]), text[n + 1..];
      if r.None? then None
      else if r.value.kind == END_OF_FILE then (if r.value.data == [] && rest == "" then Some([]) else None)
      else if r.value.kind == EXTENDED_LINEAR then
        (if |r.value.data| == 2 then Read(rest, Half(r.value.data[0], r.value.data[1])) else None)
      else if r.value.kind == DATA then
        var more := Read(rest, upper);
        if more.None? then None else Some(Placed(upper * 0x10000 + r.value.address, r.value.data) + more.value)
      else None
  }

  lemma LineEndUnique(s: string, n: nat)
    requires n <= |s| && (forall i | 0 <= i < n :: s[i] != '\n') && (n < |s| ==> s[n] == '\n')
    ensures LineEnd(s) == n
  {
  }

  lemma RecordRead(kind: byte, address: nat, data: seq<byte>, rest: string)
    requires address < 0x10000 && |data| < 256
    ensures var text, n := Record(kind, address, data) + rest, |Record(kind, address, data)| - 1;
      LineEnd(text) == n < |text| && text[n + 1..] == rest && ReadRecord(text[..n]) == Some(Parsed(kind, address, data))
  {
    hide Checksum, Sum, HexAll, Unhex;
    var bs := Covered(kind, address, data);
    var all := bs + [Checksum(bs)];
    var text, n := Record(kind, address, data) + rest, |HexAll(all)| + 1;
    forall i | 0 <= i < n ensures text[i] != '\n' {
      if i > 0 { assert text[i] == HexAll(all)[i - 1]; }
    }
    LineEndUnique(text, n);
    assert text[n + 1..] == rest && text[..n][1..] == HexAll(all);
    UnhexBack(all);
    ChecksumCancels(bs);
    assert all[4..|all| - 1] == data;
  }

  // ---- the writer ----

  function UpperData(upper: nat): seq<byte>
    requires upper < 0x10000
  {
    [upper / 256, upper % 256]
  }

  /** The records for `image` from `address` on, after a record that set the upper half to `current`
      (-1: none yet). */
  function Rows(address: u32, current: int, image: seq<byte>): string
    decreases |image|
  {
    if image == [] then Record(END_OF_FILE, 0, [])
    else
      var n, upper := Min(ROW, |image|), address / 0x10000;
      (if upper != current then Record(EXTENDED_LINEAR, 0, UpperData(upper)) else "")
      + Record(DATA, address % 0x10000, image[..n])
      + Rows(Behind(address, n), upper, image[n..])
  }

  lemma PlacedOn(at: nat, image: seq<byte>, n: nat)
    requires n <= |image|
    ensures Placed(at, image) == Placed(at, image[..n]) + Placed(Behind(at, n), image[n..])
  {
    hide Behind;
    var whole, front, back := Placed(at, image), Placed(at, image[..n]), Placed(Behind(at, n), image[n..]);
    forall i | 0 <= i < |image| ensures whole[i] == (front + back)[i] {
      if i >= n { BehindTwice(at, n, i - n); }
    }
  }

  lemma ReadData(address: u32, data: seq<byte>, rest: string, more: seq<(u32, byte)>)
    requires |data| < 256 && Read(rest, address / 0x10000) == Some(more)
    ensures Read(Record(DATA, address % 0x10000, data) + rest, address / 0x10000) == Some(Placed(address, data) + more)
  {
    hide Record, ReadRecord, LineEnd, Placed;
    RecordRead(DATA, address % 0x10000, data, rest);
    assert address / 0x10000 * 0x10000 + address % 0x10000 == address;
  }

  lemma ReadUpper(upper: nat, rest: string, before: nat)
    requires upper < 0x10000
    ensures Read(Record(EXTENDED_LINEAR, 0, UpperData(upper)) + rest, before) == Read(rest, upper)
  {
    hide Record, ReadRecord, LineEnd, Placed;
    RecordRead(EXTENDED_LINEAR, 0, UpperData(upper), rest);
    assert Half(UpperData(upper)[0], UpperData(upper)[1]) == upper;
  }

  lemma ReadEnd(upper: nat)
    ensures Read(Record(END_OF_FILE, 0, []), upper) == Some([])
  {
    hide Record, ReadRecord, LineEnd, Placed;
    RecordRead(END_OF_FILE, 0, [], "");
    assert Record(END_OF_FILE, 0, []) + "" == Record(END_OF_FILE, 0, []);
  }

  /** The emitted file reads back as exactly the image at base, base + 1, ..., for every base and length,
      across 64 KiB boundaries, whether or not rows straddle them. */
  lemma {:induction false} RowsReadBack(address: u32, current: int, image: seq<byte>, upper: nat)
    requires current == upper || current == -1
    ensures Read(Rows(address, current, image), upper) == Some(Placed(address, image))
    decreases |image|
  {
    hide Record, Read, Placed, Behind, Rows;
    if image == [] {
      LastRow(address, current, image);
      ReadEnd(upper);
      assert Placed(address, image) == [];
    } else {
      var n, up := Min(ROW, |image|), address / 0x10000;
      var rest := Rows(Behind(address, n), up, image[n..]);
      OneRow(address, current, image);
      RowsReadBack(Behind(address, n), up, image[n..], up);
      ReadData(address, image[..n], rest, Placed(Behind(address, n), image[n..]));
      PlacedOn(address, image, n);
      if up != current {
        ReadUpper(up, Record(DATA, address % 0x10000, image[..n]) + rest, upper);
        Assoc(Record(EXTENDED_LINEAR, 0, UpperData(up)), Record(DATA, address % 0x10000, image[..n]), rest);
      } else {
        assert "" + Record(DATA, address % 0x10000, image[..n]) == Record(DATA, address % 0x10000, image[..n]);
      }
    }
  }

  lemma Assoc(a: string, b: string, c: string)
    ensures a + b + c == a + (b + c)
  {
  }

  lemma {:induction false} HexAllMore(a: seq<byte>, b: byte)
    ensures HexAll(a + [b]) == HexAll(a) + Hex(b)
  {
    assert (a + [b])[..|a|] == a;
  }

  /** write_ihex_record. */
  method WriteRecord(kind: byte, address: nat, data: seq<byte>) returns (text: string)
    requires address < 0x10000 && |data| < 256
    ensures text == Record(kind, address, data)
  {
    hide HexAll, Sum, Hex;
    var head := [|data|, address / 256, address % 256, kind];
    var sum := (|data| + address / 256 + address % 256 + kind) % 256;
    text := ":" + Hex(|data|) + Hex(address / 256) + Hex(address % 256) + Hex(kind);
    HeadText(head);
    for i := 0 to |data|
      invariant text == ":" + HexAll(head + data[..i]) && sum == Sum(head + data[..i]) % 256
    {
      ghost var done := head + data[..i];
      HexAllMore(done, data[i]);
      SumMore(done, data[i]);
      assert head + data[..i + 1] == done + [data[i]];
      sum := (sum + data[i]) % 256;
      text := text + Hex(data[i]);
    }
    assert data[..|data|] == data;
    ghost var bs := Covered(kind, address, data);
    HexAllMore(bs, Checksum(bs));
    text := text + Hex((256 - sum) % 256) + "\n";
  }

  function Total4(a: byte, b: byte, c: byte, d: byte): nat
  {
    a + b + c + d
  }

  lemma HeadText(head: seq<byte>)
    requires |head| == 4
    ensures HexAll(head + []) == Hex(head[0]) + Hex(head[1]) + Hex(head[2]) + Hex(head[3])
    ensures Sum(head + []) == Total4(head[0], head[1], head[2], head[3])
  {
    hide HexAll, Sum, Hex;
    assert HexAll([]) == "" && Sum([]) == 0 by { Nothing(); }
    HexAllMore([], head[0]);
    HexAllMore([head[0]], head[1]);
    HexAllMore([head[0], head[1]], head[2]);
    HexAllMore([head[0], head[1], head[2]], head[3]);
    SumMore([], head[0]);
    SumMore([head[0]], head[1]);
    SumMore([head[0], head[1]], head[2]);
    SumMore([head[0], head[1], head[2]], head[3]);
    assert [] + [head[0]] == [head[0]] && [head[0]] + [head[1]] == [head[0], head[1]];
    assert [head[0], head[1]] + [head[2]] == [head[0], head[1], head[2]];
    assert [head[0], head[1], head[2]] + [head[3]] == head == head + [];
  }

  lemma Nothing()
    ensures HexAll([]) == "" && Sum([]) == 0
  {
  }

  /** The records of one row: a new upper half where it changes, then the data. */
  function RowText(address: u32, current: int, row: seq<byte>): string
    requires |row| < 256
  {
    (if address / 0x10000 != current then Record(EXTENDED_LINEAR, 0, UpperData(address / 0x10000)) else "")
    + Record(DATA, address % 0x10000, row)
  }

  method WriteRow(address: u32, current: int, row: seq<byte>) returns (text: string)
    requires |row| < 256
    ensures text == RowText(address, current, row)
  {
    hide Record;
    var upper := address / 0x10000;
    text := "";
    if upper != current {
      text := WriteRecord(EXTENDED_LINEAR, 0, UpperData(upper));
    }
    var data := WriteRecord(DATA, address % 0x10000, row);
    text := text + data;
  }

  /** write_component_ihex: header, then payload, from `base` on. */
  method WriteComponent(base: u32, header: seq<byte>, payload: seq<byte>) returns (text: string)
    ensures text == Rows(base, -1, header + payload)
    ensures Read(text, 0) == Some(Placed(base, header + payload))
  {
    hide Record, Read, Rows, RowText, Placed, Behind;
    ghost var image := header + payload;
    var address, offset := base, 0;
    var current: int := -1;
    var total := |header| + |payload|;
    text := "";
    assert image[0..] == image;
    while offset < total
      invariant 0 <= offset <= total
      invariant Rows(base, -1, image) == text + Rows(address, current, image[offset..])
    {
      var n := Min(ROW, total - offset);
      var row := ReadRow(header, payload, offset, n);
      OneRowOn(text, address, current, image, offset, n);
      var records := WriteRow(address, current, row);
      text := text + records;
      current := address / 0x10000;
      address := Behind(address, n);
      offset := offset + n;
    }
    var record := WriteRecord(END_OF_FILE, 0, []);
    LastRow(address, current, image[offset..]);
    text := text + record;
    RowsReadBack(base, -1, image, 0);
  }

  lemma SumOfFour(a: byte, b: byte, c: byte, d: byte)
    ensures Sum([a, b, c, d]) == a + b + c + d
  {
    assert [a][..0] == [] && Sum([a]) == a;
    hide Sum;
    SumMore([a], b);
    assert [a] + [b] == [a, b];
    SumMore([a, b], c);
    assert [a, b] + [c] == [a, b, c];
    SumMore([a, b, c], d);
    assert [a, b, c] + [d] == [a, b, c, d];
  }

  /** A hexadecimal digit pair, high digit first and in upper case. */
  lemma KnownDigits()
    ensures Hex(0xAB) == "AB" && Hex(0x04) == "04"
  {
  }

  lemma OneChecksum(sum: nat, checksum: byte)
    requires (sum + checksum) % 256 == 0
    ensures (256 - sum % 256) % 256 == checksum
  {
  }

  /** The text of a record by all its bytes. */
  lemma RecordIs(kind: byte, address: nat, data: seq<byte>, sum: nat, checksum: byte, all: seq<byte>)
    requires address < 0x10000 && |data| < 256 && Sum(Covered(kind, address, data)) == sum
    requires (sum + checksum) % 256 == 0 && all == Covered(kind, address, data) + [checksum]
    ensures Record(kind, address, data) == ":" + HexAll(all) + "\n"
  {
    hide HexAll, Sum, Covered;
    OneChecksum(sum, checksum);
  }

  /** The end record: no data, offset 0, type 01, checksum FF. */
  lemma EndRecord()
    ensures Record(END_OF_FILE, 0, []) == ":" + HexAll([0, 0, 0, 1, 0xFF]) + "\n"
  {
    var all: seq<byte> := [0, 0, 0, 1, 0xFF];
    assert Covered(END_OF_FILE, 0, []) == [0, 0, 0, 1];
    hide Record, HexAll, Sum, Covered;
    SumOfFour(0, 0, 0, 1);
    RecordIs(END_OF_FILE, 0, [], 1, 0xFF, all);
  }

  /** An extended linear address record: two bytes, offset 0, type 04, the upper half with its high byte
      first, checksum. */
  lemma UpperRecord(upper: nat, checksum: byte)
    requires upper < 0x10000 && (6 + upper / 256 + upper % 256 + checksum) % 256 == 0
    ensures Record(EXTENDED_LINEAR, 0, UpperData(upper))
            == ":" + HexAll([2, 0, 0, 4, upper / 256, upper % 256, checksum]) + "\n"
  {
    var four: seq<byte>, hi: byte, lo: byte := [2, 0, 0, 4], upper / 256, upper % 256;
    assert Covered(EXTENDED_LINEAR, 0, UpperData(upper)) == four + [hi] + [lo];
    hide Record, HexAll, Sum, Covered, UpperData;
    SumOfFour(2, 0, 0, 4);
    SumMore(four, hi);
    SumMore(four + [hi], lo);
    RecordIs(EXTENDED_LINEAR, 0, UpperData(upper), 6 + hi + lo, checksum, [2, 0, 0, 4, hi, lo, checksum]);
  }

  /** A data record of one byte: offset with its high byte first, type 00. */
  lemma DataRecord(offset: nat, b: byte, checksum: byte)
    requires offset < 0x10000 && (1 + offset / 256 + offset % 256 + b + checksum) % 256 == 0
    ensures Record(DATA, offset, [b])
            == ":" + HexAll([1, offset / 256, offset % 256, 0, b, checksum]) + "\n"
  {
    var hi: byte, lo: byte := offset / 256, offset % 256;
    var four: seq<byte> := [1, hi, lo, 0];
    assert Covered(DATA, offset, [b]) == four + [b];
    hide Record, HexAll, Sum, Covered;
    SumOfFour(1, hi, lo, 0);
    SumMore(four, b);
    RecordIs(DATA, offset, [b], 1 + hi + lo + b, checksum, [1, hi, lo, 0, b, checksum]);
  }

  lemma OneByteFile(address: u32, b: byte)
    ensures Rows(address, -1, [b])
            == Record(EXTENDED_LINEAR, 0, UpperData(address / 0x10000)) + Record(DATA, address % 0x10000, [b])
             + Record(END_OF_FILE, 0, [])
  {
    hide Record, UpperData;
    var image: seq<byte> := [b];
    assert image[..1] == image && image[1..] == [];
    assert Rows(Behind(address, 1), address / 0x10000, []) == Record(END_OF_FILE, 0, []);
  }

  /** A whole file: the byte 0xAB at 0x08041234. */
  lemma KnownFile()
    ensures Rows(0x0804_1234, -1, [0xAB])
            == (":" + HexAll([2, 0, 0, 4, 0x08, 0x04, 0xEE]) + "\n")
             + (":" + HexAll([1, 0x12, 0x34, 0, 0xAB, 0x0E]) + "\n")
             + (":" + HexAll([0, 0, 0, 1, 0xFF]) + "\n")
  {
    hide Record, HexAll, Rows, UpperData;
    UpperRecord(0x0804, 0xEE);
    DataRecord(0x1234, 0xAB, 0x0E);
    EndRecord();
    OneByteFile(0x0804_1234, 0xAB);
  }

  /** What the next row adds to the text. */
  lemma OneRowOn(text: string, address: u32, current: int, image: seq<byte>, offset: nat, n: nat)
    requires offset < |image| && n == Min(ROW, |image| - offset)
    ensures text + Rows(address, current, image[offset..])
         == text + RowText(address, current, image[offset..offset + n])
            + Rows(Behind(address, n), address / 0x10000, image[offset + n..])
  {
    hide Record, Behind;
    var rest := image[offset..];
    OneRow(address, current, rest);
    assert rest[..n] == image[offset..offset + n] && rest[n..] == image[offset + n..];
    Assoc(text, RowText(address, current, rest[..n]), Rows(Behind(address, n), address / 0x10000, rest[n..]));
  }

  lemma OneRow(address: u32, current: int, image: seq<byte>)
    requires image != []
    ensures var n := Min(ROW, |image|);
      n == (if |image| < 16 then |image| else 16)
      && Rows(address, current, image)
      == RowText(address, current, image[..n]) + Rows(Behind(address, n), address / 0x10000, image[n..])
  {
  }

  lemma LastRow(address: u32, current: int, image: seq<byte>)
    requires image == []
    ensures Rows(address, current, image) == Record(END_OF_FILE, 0, [])
  {
  }

  /** The loop that fills the row from the header and then the payload. */
  method ReadRow(header: seq<byte>, payload: seq<byte>, offset: nat, n: nat) returns (row: seq<byte>)
    requires offset + n <= |header| + |payload|
    ensures row == (header + payload)[offset..offset + n]
  {
    row := [];
    for i := 0 to n
      invariant row == (header + payload)[offset..offset + i]
    {
      var source := offset + i;
      row := row + [if source < |header| then header[source] else payload[source - |header|]];
    }
  }
}
