/** YMODEM packets (XMODEM/YMODEM Protocol Reference, chapters 4 and 5): framing and checking. */
module YmodemPacket {
  import opened Bytes
  import opened ByteBits
  import opened Crc

  const SOH: byte := 0x01
  const STX: byte := 0x02
  const EOT: byte := 0x04
  const ACK: byte := 0x06
  const NAK: byte := 0x15
  const CAN: byte := 0x18
  const READY: byte := 0x43     // 'C'

  const BLOCK_128: nat := 128
  const BLOCK_1024: nat := 1024
  const OVERHEAD: nat := 4

  datatype Block = Bad | Good(number: byte, data: seq<byte>)

  /** (uint8_t)(crc >> 8) and (uint8_t)crc. */
  function HighByte(x: bv16): byte
  {
    (((x >> 8) & 0xff) as bv8) as int
  }

  function LowByte(x: bv16): byte
  {
    ((x & 0xff) as bv8) as int
  }

  /** ((uint16_t)hi << 8) | lo. */
  function Join(hi: byte, lo: byte): bv16
  {
    (Wide16(hi) << 8) | Wide16(lo)
  }

  lemma JoinOfBytes(x: bv16)
    ensures Join(HighByte(x), LowByte(x)) == x
  {
    ByteOfBits(((x >> 8) & 0xff) as bv8);
    ByteOfBits((x & 0xff) as bv8);
    Halves(x);
  }

  lemma JoinInjective(a: byte, b: byte, c: byte, d: byte)
    requires Join(a, b) == Join(c, d)
    ensures a == c && b == d
  {
    hide Wide16;
    WideIsByte(a);
    WideIsByte(b);
    WideIsByte(c);
    WideIsByte(d);
    HalvesUnique(Wide16(a), Wide16(b), Wide16(c), Wide16(d));
    WideInjective(a, c);
    WideInjective(b, d);
  }

  /** (uint8_t)~block_no. */
  function Not8(b: byte): byte
  {
    255 - b
  }

  /** (uint8_t)(a + b). */
  function Add8(a: byte, b: byte): byte
  {
    if a + b < 256 then a + b else a + b - 256
  }

  /** What follows the start byte in send_packet. */
  function Body(number: byte, data: seq<byte>): (r: seq<byte>)
    ensures |r| == |data| + OVERHEAD
  {
    [number, Not8(number)] + data + [HighByte(Crc16(data)), LowByte(Crc16(data))]
  }

  /** A whole packet on the line. */
  function Packet(start: byte, number: byte, data: seq<byte>): seq<byte>
  {
    [start] + Body(number, data)
  }

  /** ymodem_read_packet's checks on the `n + 4` bytes read after the start byte: complement, then
      CRC, high byte first. */
  function Check(body: seq<byte>, n: nat): Block
    requires |body| == n + OVERHEAD
  {
    if Add8(body[0], body[1]) != 0xff then Bad
    else if Join(body[n + 2], body[n + 3]) != Crc16(body[2..n + 2]) then Bad
    else Good(body[0], body[2..n + 2])
  }

  /** An undamaged packet is accepted with its number and data. */
  lemma PacketAccepted(number: byte, data: seq<byte>)
    ensures Check(Body(number, data), |data|) == Good(number, data)
  {
    hide Crc16, HighByte, LowByte, Join;
    var n, b := |data|, Body(number, data);
    JoinOfBytes(Crc16(data));
    assert b[2..n + 2] == data;
  }

  /** A packet in which exactly one byte after the start byte was changed is never accepted,
      wherever the change is: number, complement, data or checksum. */
  lemma DamagedPacketRejected(number: byte, data: seq<byte>, i: nat, v: byte)
    requires i < |data| + OVERHEAD && v != Body(number, data)[i]
    ensures Check(Body(number, data)[i := v], |data|) == Bad
  {
    hide Crc16, HighByte, LowByte, Join;
    var n, b := |data|, Body(number, data);
    var c := b[i := v];
    assert b[2..n + 2] == data;
    JoinOfBytes(Crc16(data));
    if 2 <= i < n + 2 {
      assert c[2..n + 2] == data[i - 2 := v];
      OneByteChangeDetected(data, i - 2, v);
    } else {
      assert c[2..n + 2] == data;
      if Join(c[n + 2], c[n + 3]) == Join(b[n + 2], b[n + 3]) {
        JoinInjective(c[n + 2], c[n + 3], b[n + 2], b[n + 3]);
      }
    }
  }

  /** send_packet: what goes out on the line. */
  method SendPacket(start: byte, number: byte, data: seq<byte>) returns (line: seq<byte>)
    ensures line == Packet(start, number, data)
  {
    hide Crc16, HighByte, LowByte;
    var crc := ComputeCrc16(data);
    var header := [start, number, Not8(number)];
    line := header + data + [HighByte(crc), LowByte(crc)];
  }
}
