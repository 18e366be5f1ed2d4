/** send_ymodem: the uploading half of the protocol, as the list of messages it sends and the answers it
    waits for, as a machine fed by the line, and as the routine itself. */
module YmodemSender {
  import opened Bytes
  import opened YmodemPacket
  import opened YmodemSize
  import opened YmodemReceiver

  const PADDING: byte := 0x1a

  /** How many data blocks a file takes. */
  function Chunks(size: nat): nat
  {
    (size + 1023) / 1024
  }

  /** Where chunk `i` ends in the file. */
  function ChunkEnd(size: nat, i: nat): nat
  {
    if 1024 * (i + 1) <= size then 1024 * (i + 1) else size
  }

  /** Block `i` (from 0) of the file, padded to 1024 bytes. */
  function Chunk(file: seq<byte>, i: nat): (r: seq<byte>)
    requires i < Chunks(|file|)
    ensures |r| == 1024
  {
    file[1024 * i..ChunkEnd(|file|, i)] + Fill(1024 * (i + 1) - ChunkEnd(|file|, i), PADDING)
  }

  /** How many messages an upload takes: the name, the blocks, two ends of transmission, the empty name. */
  function Messages(file: seq<byte>): nat
  {
    Chunks(|file|) + 4
  }

  function Message(name: seq<byte>, file: seq<byte>, i: nat): (r: seq<byte>)
    requires i < Messages(file)
    ensures r != []
  {
    var n := Chunks(|file|);
    if i == 0 then Packet(SOH, 0, HeaderBlock(name, |file|))
    else if i <= n then Packet(STX, i % 256, Chunk(file, i - 1))
    else if i <= n + 2 then [EOT]
    else Packet(SOH, 0, Fill(128, 0))
  }

  /** What the sender waits for after message `i`. */
  function Answer(file: seq<byte>, i: nat): (r: seq<byte>)
    requires i < Messages(file)
    ensures 1 <= |r| <= 2
  {
    var n := Chunks(|file|);
    if i == 0 || i == n + 2 then [ACK, READY]
    else if i == n + 1 then [NAK]
    else [ACK]
  }

  datatype Status = Working | Success | Failure

  /** `next` messages are out; `got` bytes of the answer to the last one are in. */
  datatype Sender = Sender(next: nat, got: nat, sent: seq<byte>, status: Status)

  predicate Proper(file: seq<byte>, s: Sender)
  {
    0 < s.next <= Messages(file) && s.got < |Answer(file, s.next - 1)|
  }

  function First(name: seq<byte>, file: seq<byte>): Sender
  {
    Sender(1, 0, Message(name, file, 0), Working)
  }

  function Expected(file: seq<byte>, s: Sender): byte
    requires Proper(file, s)
  {
    Answer(file, s.next - 1)[s.got]
  }

  /** The expected byte came: on to the rest of the answer, the next message, or the end. */
  function Advance(name: seq<byte>, file: seq<byte>, s: Sender): (t: Sender)
    requires Proper(file, s)
    ensures Proper(file, t)
  {
    if s.got + 1 < |Answer(file, s.next - 1)| then s.(got := s.got + 1)
    else if s.next == Messages(file) then s.(status := Success)
    else s.(next := s.next + 1, got := 0, sent := s.sent + Message(name, file, s.next))
  }

  /** wait_byte ignores what it does not expect, except a cancel. */
  function SenderStep(name: seq<byte>, file: seq<byte>, s: Sender, e: Input): (t: Sender)
    requires Proper(file, s)
    ensures Proper(file, t)
  {
    if s.status != Working then s
    else
      match e
      case Byte(b) =>
        if b == Expected(file, s) then Advance(name, file, s) else if b == CAN then s.(status := Failure) else s
      case Tick => s
      case Expire => s.(status := Failure)
  }

  function SenderRun(name: seq<byte>, file: seq<byte>, inputs: seq<Input>): (t: Sender)
    ensures Proper(file, t)
  {
    if inputs == [] then First(name, file)
    else SenderStep(name, file, SenderRun(name, file, inputs[..|inputs| - 1]), inputs[|inputs| - 1])
  }

  class Uploader {
    const script: seq<Input>
    const name: seq<byte>         // base_name(path)
    const file: seq<byte>
    var pos: nat
    var output: seq<byte>

    constructor (script: seq<Input>, name: seq<byte>, file: seq<byte>)
      ensures pos == 0 && output == [] && this.script == script && this.name == name && this.file == file
    {
      this.script, this.name, this.file, pos, output := script, name, file, 0, [];
    }

    function InputAt(i: nat): Input
    {
      if i < |script| then script[i] else Expire
    }

    ghost function Inputs(n: nat): (r: seq<Input>)
      ensures |r| == n && forall i | 0 <= i < n :: r[i] == InputAt(i)
    {
      seq(n, i requires 0 <= i < n => InputAt(i))
    }

    /** The machine fed with what the line has brought so far. */
    ghost function Now(): (t: Sender)
      reads `pos
      ensures Proper(file, t)
    {
      SenderRun(name, file, Inputs(pos))
    }

    method Put(bytes: seq<byte>)
      modifies `output
      ensures output == old(output) + bytes
    {
      output := output + bytes;
    }

    /** wait_byte. */
    method WaitByte(expected: byte) returns (rc: int)
      requires Now().status == Working && Expected(file, Now()) == expected
      modifies `pos
      ensures rc == 0 ==> Now() == Advance(name, file, old(Now()))
      ensures rc != 0 ==> Now() == old(Now()).(status := Failure)
    {
      hide SenderRun;
      while true
        invariant Now() == old(Now())
        decreases |script| - pos
      {
        var e := InputAt(pos);
        pos := pos + 1;
        RunMore();
        match e {
          case Byte(b) =>
            if b == expected { return 0; }
            if b == CAN { return -1; }
          case Tick =>
          case Expire => return -1;
        }
      }
    }

    lemma RunMore()
      requires pos > 0
      ensures Now() == SenderStep(name, file, SenderRun(name, file, Inputs(pos - 1)), InputAt(pos - 1))
    {
      hide SenderStep;
      var inputs := Inputs(pos);
      assert inputs[..|inputs| - 1] == Inputs(pos - 1);
      assert inputs != [] && inputs[|inputs| - 1] == InputAt(pos - 1);
    }

    /** Data block `k`, cut out of the file, padded, sent and answered. */
    method SendBlock(offset: nat, block: byte, ghost k: nat) returns (rc: int, end: nat)
      requires k < Chunks(|file|) && offset == 1024 * k && block == (k + 1) % 256
      requires Now() == Sender(k + 2, 0, output + Message(name, file, k + 1), Working)
      modifies this
      ensures end == ChunkEnd(|file|, k)
      ensures rc == 0 ==> Now() == Sender(k + 3, 0, output + Message(name, file, k + 2), Working)
      ensures rc != 0 ==> Now().status == Failure && output == Now().sent
    {
      hide SenderRun, Packet, Advance, Message, Answer, Chunk;
      BlockMessage(name, file, k, output + Message(name, file, k + 1));
      ChunkBounds(|file|, k);
      var chunk := |file| - offset;
      if chunk > BLOCK_1024 { chunk := BLOCK_1024; }
      end := offset + chunk;
      CutChunk(file, k, offset, chunk);
      var packet := file[offset..offset + chunk] + Fill(BLOCK_1024 - chunk, PADDING);
      var line := SendPacket(STX, block, packet);
      Put(line);
      rc := WaitByte(ACK);
    }

    /** The data blocks; the end of transmission is due next. */
    method SendBlocks() returns (rc: int)
      requires file != [] && Now() == Sender(2, 0, output + Message(name, file, 1), Working)
      modifies this
      ensures rc == 0 ==>
        Now() == Sender(Chunks(|file|) + 2, 0, output + Message(name, file, Chunks(|file|) + 1), Working)
      ensures rc != 0 ==> Now().status == Failure && output == Now().sent
    {
      hide SenderRun, Message;
      rc := 0;
      var offset, block: byte := 0, 1;
      ghost var k := 0;
      while offset < |file|
        invariant 0 <= k <= Chunks(|file|) && offset == (if k == Chunks(|file|) then |file| else 1024 * k)
        invariant block == (k + 1) % 256
        invariant Now() == Sender(k + 2, 0, output + Message(name, file, k + 1), Working)
      {
        ChunkBounds(|file|, k);
        rc, offset := SendBlock(offset, block, k);
        if rc != 0 { return; }
        block := Add8(block, 1);
        k := k + 1;
      }
    }

    /** Both ends of transmission and the empty name. */
    method SendEnd() returns (rc: int)
      requires Now() == Sender(Chunks(|file|) + 2, 0, output + Message(name, file, Chunks(|file|) + 1), Working)
      modifies this
      ensures Now().status == if rc == 0 then Success else Failure
      ensures output == Now().sent
    {
      hide SenderRun, HeaderBlock, Packet, Chunk;
      Put([EOT]);
      rc := WaitByte(NAK);
      if rc != 0 { return; }
      Put([EOT]);
      rc := WaitByte(ACK);
      if rc != 0 { return; }
      rc := WaitByte(READY);
      if rc != 0 { return; }
      var line := SendPacket(SOH, 0, Fill(128, 0));
      Put(line);
      rc := WaitByte(ACK);
    }

    /** send_ymodem: returns 0 exactly when the machine ends in success, and what went out on the line is
        what the machine sent. */
    method Send() returns (rc: int)
      requires pos == 0 && output == [] && file != []
      modifies this
      ensures Now().status == if rc == 0 then Success else Failure
      ensures output == Now().sent
    {
      hide SenderRun, HeaderBlock, Packet;
      SenderStarts();
      var packet := HeaderBlock(name, |file|);
      var line := SendPacket(SOH, 0, packet);
      Put(line);
      rc := WaitByte(ACK);
      if rc != 0 { return; }
      rc := WaitByte(READY);
      if rc != 0 { return; }
      rc := SendBlocks();
      if rc != 0 { return; }
      rc := SendEnd();
    }

    lemma SenderStarts()
      requires pos == 0
      ensures Now() == First(name, file)
    {
    }
  }

  /** The message that carries block `k`, its answer, and what follows it. */
  lemma BlockMessage(name: seq<byte>, file: seq<byte>, k: nat, sent: seq<byte>)
    requires k < Chunks(|file|)
    ensures Message(name, file, k + 1) == Packet(STX, (k + 1) % 256, Chunk(file, k))
    ensures Answer(file, k + 1) == [ACK]
    ensures var s := Sender(k + 2, 0, sent, Working);
      Proper(file, s) && Expected(file, s) == ACK
      && Advance(name, file, s) == Sender(k + 3, 0, sent + Message(name, file, k + 2), Working)
  {
    hide Packet, Chunk;
  }

  lemma CutChunk(file: seq<byte>, k: nat, offset: nat, chunk: nat)
    requires k < Chunks(|file|) && offset == 1024 * k && offset + chunk == ChunkEnd(|file|, k) && chunk <= 1024
    ensures file[offset..offset + chunk] + Fill(1024 - chunk, PADDING) == Chunk(file, k)
  {
  }

  lemma ChunkBounds(size: nat, k: nat)
    requires k < Chunks(size)
    ensures 1024 * k < size && ChunkEnd(size, k) == (if k + 1 == Chunks(size) then size else 1024 * (k + 1))
    ensures ChunkEnd(size, k) == if size - 1024 * k > 1024 then 1024 * k + 1024 else size
  {
  }

  lemma PacketFront(start: byte, number: byte, data: seq<byte>)
    ensures |Packet(start, number, data)| == |data| + 5
    ensures Packet(start, number, data)[..3] == [start, number, 255 - number]
  {
    hide HighByte, LowByte;
  }

  /** What goes over the line, byte by byte: the name block and the empty name start with 01 00 FF, data block
      `i` with 02, its number and the complement; ends of transmission are single bytes 04. */
  lemma WireMessages(name: seq<byte>, file: seq<byte>, i: nat)
    requires i < Messages(file)
    ensures var n, m := (|file| + 1023) / 1024, Message(name, file, i);
      && Messages(file) == n + 4
      && (i == 0 || i == n + 3 ==> |m| == 133 && m[..3] == [0x01, 0, 255])
      && (1 <= i <= n ==> |m| == 1029 && m[..3] == [0x02, i % 256, 255 - i % 256])
      && (i == n + 1 || i == n + 2 ==> m == [0x04])
  {
    hide HeaderBlock, Chunk, Packet;
    var n := Chunks(|file|);
    if i == 0 {
      PacketFront(SOH, 0, HeaderBlock(name, |file|));
    } else if i <= n {
      PacketFront(STX, i % 256, Chunk(file, i - 1));
    } else if i == n + 3 {
      PacketFront(SOH, 0, Fill(128, 0));
    }
  }

  /** The last packet names no file. */
  lemma WireEnd(name: seq<byte>, file: seq<byte>, k: nat)
    requires k < 128
    ensures |Message(name, file, Messages(file) - 1)| == 133 && Message(name, file, Messages(file) - 1)[3 + k] == 0
  {
    hide Packet, HeaderBlock, Chunk;
    PacketData(SOH, 0, Fill(128, 0), k);
  }

  lemma PacketData(start: byte, number: byte, data: seq<byte>, k: nat)
    requires k < |data|
    ensures |Packet(start, number, data)| == |data| + 5 && Packet(start, number, data)[3 + k] == data[k]
  {
    hide HighByte, LowByte;
  }

  lemma ChunkByte(file: seq<byte>, i: nat, k: nat)
    requires i < Chunks(|file|) && k < 1024
    ensures Chunk(file, i)[k] == if 1024 * i + k < |file| then file[1024 * i + k] else 0x1a
  {
  }

  /** Data block `i` holds bytes 1024 (i - 1) and following of the file, then bytes 1A. */
  lemma WireBlock(name: seq<byte>, file: seq<byte>, i: nat, k: nat)
    requires 1 <= i <= Chunks(|file|) && k < 1024
    ensures |Message(name, file, i)| == 1029
    ensures Message(name, file, i)[3 + k] == if 1024 * (i - 1) + k < |file| then file[1024 * (i - 1) + k] else 0x1a
  {
    hide Packet, Chunk, HeaderBlock;
    PacketData(STX, i % 256, Chunk(file, i - 1), k);
    ChunkByte(file, i - 1, k);
  }

  /** What it takes to go on: 06 and 43 after the name block and after the second end of transmission, 15 after
      the first, 06 after everything else. */
  lemma WireAnswers(file: seq<byte>, i: nat)
    requires i < Messages(file)
    ensures var n := (|file| + 1023) / 1024;
      Answer(file, i) == if i == 0 || i == n + 2 then [0x06, 0x43] else if i == n + 1 then [0x15] else [0x06]
  {
  }

  /** While an answer is awaited a byte 18 or the end of the wait ends the upload in failure; any other byte
      but the expected one changes nothing. */
  lemma WaitingLaws(name: seq<byte>, file: seq<byte>, inputs: seq<Input>, b: byte)
    requires SenderRun(name, file, inputs).status == Working
    ensures var s := SenderRun(name, file, inputs);
      && SenderRun(name, file, inputs + [Byte(0x18)]) == s.(status := Failure)
      && SenderRun(name, file, inputs + [Expire]) == s.(status := Failure)
      && (b !in {0x18, Answer(file, s.next - 1)[s.got]} ==> SenderRun(name, file, inputs + [Byte(b)]) == s)
  {
    hide SenderRun;
    SenderOn(name, file, inputs, Byte(0x18));
    SenderOn(name, file, inputs, Expire);
    SenderOn(name, file, inputs, Byte(b));
  }

  lemma SenderOn(name: seq<byte>, file: seq<byte>, inputs: seq<Input>, e: Input)
    ensures SenderRun(name, file, inputs + [e]) == SenderStep(name, file, SenderRun(name, file, inputs), e)
  {
    hide SenderStep;
    assert (inputs + [e])[..|inputs|] == inputs;
  }
}
