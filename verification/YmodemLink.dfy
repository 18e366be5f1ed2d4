/** The uploader and the receiver joined by a reliable line in each direction: what one has sent and the
    other has not yet read is in flight, in order.  On the device the host's bytes pass the router of
    port 0, which stays in place during the transfer and takes out what looks like a command line.  Waits
    do not expire and the store accepts every call; the device may prompt any number of times before the
    first block. */
module YmodemLink {
  import opened Bytes
  import opened YmodemPacket
  import opened YmodemSize
  import opened YmodemReceiver
  import opened YmodemSender
  import PortRouting

  /** `started`: wait_ready_and_crc has seen the device's prompt; `passed`: how many of the host's bytes
      have come to the router since the line that asked for the transfer; `read`: how many of the
      device's bytes the host has read; `ticks`: how many more seconds of silence the device may notice. */
  datatype Link = Link(started: bool, tx: Sender, passed: nat, read: nat, rx: State, ticks: nat)

  datatype Move = HostReads | DeviceReads | SecondPasses

  predicate Sane(file: seq<byte>, l: Link)
  {
    Proper(file, l.tx) && l.passed <= |HostSent(l)|
  }

  function Begun(name: seq<byte>, file: seq<byte>, ticks: nat): Link
  {
    Link(false, First(name, file), 0, 0, Start(), ticks)
  }

  /** What the host has put on the line. */
  function HostSent(l: Link): seq<byte>
  {
    if l.started then l.tx.sent else []
  }

  predicate Enabled(l: Link, m: Move)
  {
    match m
    case HostReads => l.read < |l.rx.sent| && (l.started ==> l.tx.status == Working)
    case DeviceReads => l.passed < |HostSent(l)| && !IsDone(l.rx)
    case SecondPasses => l.ticks > 0 && !IsDone(l.rx)
  }

  function Make(name: seq<byte>, file: seq<byte>, l: Link, m: Move): (r: Link)
    requires Sane(file, l) && Enabled(l, m)
    ensures Sane(file, r)
  {
    match m
    case HostReads =>
      var b := l.rx.sent[l.read];
      if l.started then l.(tx := SenderStep(name, file, l.tx, Byte(b)), read := l.read + 1)
      else l.(started := b == READY, read := l.read + 1)
    case DeviceReads =>
      var b := HostSent(l)[l.passed];
      var kept := PortRouting.Keeps(HostSent(l)[..l.passed], b);
      l.(passed := l.passed + 1, rx := if kept then Step(l.rx, Event(Byte(b), 0)) else l.rx)
    case SecondPasses => l.(rx := Step(l.rx, Event(Tick, 0)), ticks := l.ticks - 1)
  }

  /** `after` is where the moves lead from `from`. */
  ghost predicate Leads(name: seq<byte>, file: seq<byte>, from: Link, moves: seq<Move>, after: Link)
    requires Sane(file, from)
    decreases |moves|
  {
    if moves == [] then after == from
    else Enabled(from, moves[0]) && Leads(name, file, Make(name, file, from, moves[0]), moves[1..], after)
  }

  /** Nothing more can happen. */
  predicate Stopped(l: Link)
  {
    !Enabled(l, HostReads) && !Enabled(l, DeviceReads) && !Enabled(l, SecondPasses)
  }

  /** Both routines have returned success and the store was given exactly `image`. */
  predicate Succeeded(l: Link, image: seq<byte>)
  {
    l.started && l.tx.status == Success && l.rx.phase == Done(0) && Stored(Writes(l.rx.calls)) == image
  }

  // ---- the shape of every reachable state ----

  /** The first `k` messages. */
  function Sent(name: seq<byte>, file: seq<byte>, k: nat): seq<byte>
    requires k <= Messages(file)
  {
    if k == 0 then [] else Sent(name, file, k - 1) + Message(name, file, k - 1)
  }

  /** The answers to them. */
  function Answers(file: seq<byte>, k: nat): seq<byte>
    requires k <= Messages(file)
  {
    if k == 0 then [] else Answers(file, k - 1) + Answer(file, k - 1)
  }

  function Prompts(p: nat): (r: seq<byte>)
    ensures |r| == p && forall i | 0 <= i < p :: r[i] == READY
  {
    seq(p, _ => READY)
  }

  /** How many data blocks are among the first `j` messages. */
  function Blocks(file: seq<byte>, j: nat): nat
  {
    if j == 0 then 0 else if j - 1 <= Chunks(|file|) then j - 1 else Chunks(|file|)
  }

  /** How much of a file announced with `c` bytes is in after `j` messages. */
  function Taken(file: seq<byte>, c: nat, j: nat): nat
  {
    if 1024 * Blocks(file, j) <= c then 1024 * Blocks(file, j) else c
  }

  /** What the device has heard and said after `p` prompts, `j` whole messages and `h` bytes of the next. */
  predicate Traffic(name: seq<byte>, file: seq<byte>, rx: State, p: nat, j: nat, h: nat)
  {
    && p > 0 && j <= Messages(file) && h <= (if j < Messages(file) then |Message(name, file, j)| - 1 else 0)
    && rx.phase == (if j == Messages(file) then Done(0) else if h == 0 then AtHeader
                    else InPacket(Message(name, file, j)[0], Message(name, file, j)[1..h]))
    && rx.sent == Prompts(p) + Answers(file, j)
    && rx.heard == Sent(name, file, j) + (if j < Messages(file) then Message(name, file, j)[..h] else [])
  }

  /** Its variables, and what the store has been given, after `j` messages about a file announced with
      `c` bytes. */
  predicate Progress(file: seq<byte>, c: nat, rx: State, j: nat)
  {
    && rx.gotMeta == (j > 0) && rx.active == (0 < j < Messages(file)) && rx.eotSeen == (j >= Chunks(|file|) + 2)
    && rx.expected == (if j > 0 then c else 0) && rx.received == Taken(file, c, j)
    && rx.block == (Blocks(file, j) + 1) % 256
    && (Opened(rx.calls) <==> j > 0) && (Closed(rx.calls) <==> j == Messages(file)) && (j == 0 ==> rx.calls == [])
    && c <= |file| && Stored(Writes(rx.calls)) == file[..Taken(file, c, j)]
  }

  predicate IsPacket(file: seq<byte>, j: nat)
  {
    j <= Chunks(|file|) || j == Chunks(|file|) + 3
  }

  function Number(file: seq<byte>, j: nat): byte
  {
    if j <= Chunks(|file|) then j % 256 else 0
  }

  function Contents(name: seq<byte>, file: seq<byte>, j: nat): seq<byte>
  {
    if j == 0 then HeaderBlock(name, |file|) else if j <= Chunks(|file|) then Chunk(file, j - 1) else Fill(128, 0)
  }

  lemma PacketShape(name: seq<byte>, file: seq<byte>, j: nat)
    requires IsPacket(file, j)
    ensures var m := Message(name, file, j);
      && m[0] in {SOH, STX} && |m| == DataLength(m[0]) + 5
      && Check(m[1..], DataLength(m[0])) == Good(Number(file, j), Contents(name, file, j))
  {
    hide HeaderBlock, Chunk, Check, Body;
    var m := Message(name, file, j);
    var kind := if j == 0 || j > Chunks(|file|) then SOH else STX;
    assert m == Packet(kind, Number(file, j), Contents(name, file, j));
    assert m[1..] == Body(Number(file, j), Contents(name, file, j));
    PacketAccepted(Number(file, j), Contents(name, file, j));
  }

  lemma EndShape(name: seq<byte>, file: seq<byte>, j: nat)
    requires !IsPacket(file, j) && j < Messages(file)
    ensures Message(name, file, j) == [EOT]
    ensures Answer(file, j) == if j == Chunks(|file|) + 1 then [NAK] else [ACK, READY]
  {
  }

  /** A byte inside a packet. */
  lemma InsideStep(name: seq<byte>, file: seq<byte>, c: nat, rx: State, p: nat, j: nat, h: nat)
    requires Traffic(name, file, rx, p, j, h) && Progress(file, c, rx, j) && j < Messages(file)
    requires h + 1 < |Message(name, file, j)|
    ensures var t := Step(rx, Event(Byte(Message(name, file, j)[h]), 0));
      Traffic(name, file, t, p, j, h + 1) && Progress(file, c, t, j)
  {
    hide Message, Check, OnPacket, Answers, Sent, Progress;
    var m := Message(name, file, j);
    var b := m[h];
    if !IsPacket(file, j) { EndShape(name, file, j); assert false; }
    PacketShape(name, file, j);
    HeardProgress(file, c, rx, b, j);
    PhaseProgress(file, c, Heard(rx, b), InPacket(m[0], m[1..h + 1]), j);
    assert m[..h] + [m[h]] == m[..h + 1];
    assert Sent(name, file, j) + m[..h] + [m[h]] == Sent(name, file, j) + m[..h + 1];
    if h > 0 { assert m[1..h] + [m[h]] == m[1..h + 1]; } else { assert m[1..1] == []; }
  }

  /** The device as it stands when it has heard the whole of message `j`. */
  function Heard(rx: State, b: byte): State
  {
    rx.(heard := rx.heard + [b])
  }

  /** The last byte of message `j` leaves the traffic as it should be, whatever else it does. */
  lemma LastTraffic(name: seq<byte>, file: seq<byte>, rx: State, t: State, p: nat, j: nat, h: nat)
    requires Traffic(name, file, rx, p, j, h) && j < Messages(file) && h + 1 == |Message(name, file, j)|
    requires t.sent == rx.sent + Answer(file, j) && t.heard == rx.heard + [Message(name, file, j)[h]]
    requires t.phase == if j + 1 == Messages(file) then Done(0) else AtHeader
    ensures Traffic(name, file, t, p, j + 1, 0)
  {
    hide Message, Answer;
    var m := Message(name, file, j);
    assert m[..h] + [m[h]] == m;
    assert rx.sent + Answer(file, j) == Prompts(p) + (Answers(file, j) + Answer(file, j));
    assert t.heard == Sent(name, file, j) + m;
    assert Sent(name, file, j + 1) == Sent(name, file, j) + m;
  }

  lemma EndStep(name: seq<byte>, file: seq<byte>, c: nat, rx: State, p: nat, j: nat)
    requires Traffic(name, file, rx, p, j, 0) && Progress(file, c, rx, j) && j < Messages(file) && !IsPacket(file, j)
    ensures var t := Step(rx, Event(Byte(EOT), 0));
      Message(name, file, j) == [EOT] && Traffic(name, file, t, p, j + 1, 0) && Progress(file, c, t, j + 1)
  {
    hide Message, OnPacket, Answers, Sent, Stored, Writes, Opened, Closed;
    EndShape(name, file, j);
    LastTraffic(name, file, rx, Step(rx, Event(Byte(EOT), 0)), p, j, 0);
  }

  /** The last byte of a packet. */
  lemma PacketStep(name: seq<byte>, file: seq<byte>, rx: State, p: nat, j: nat, h: nat, reply: int)
    requires Traffic(name, file, rx, p, j, h) && j < Messages(file) && IsPacket(file, j)
    requires h + 1 == |Message(name, file, j)|
    ensures var b := Message(name, file, j)[h];
      Step(rx, Event(Byte(b), reply)) == OnPacket(Heard(rx, b), Good(Number(file, j), Contents(name, file, j)), reply)
  {
    hide Message, Contents, Check, OnPacket, Answers, Sent;
    PacketShape(name, file, j);
    var m := Message(name, file, j);
    assert m[1..h] + [m[h]] == m[1..];
  }

  lemma MetadataStep(name: seq<byte>, file: seq<byte>, c: nat, s: State)
    requires Progress(file, c, s, 0) && file != [] && 0 < c == ParseSize(HeaderBlock(name, |file|))
    ensures var t := OnPacket(s, Good(0, HeaderBlock(name, |file|)), 0);
      && Progress(file, c, t, 1) && t.phase == AtHeader && t.heard == s.heard
      && t.sent == s.sent + [ACK, READY]
  {
    hide HeaderBlock, ParseSize;
    var t := OnPacket(s, Good(0, HeaderBlock(name, |file|)), 0);
    assert Writes(t.calls) == [];
  }

  lemma DataStep(name: seq<byte>, file: seq<byte>, c: nat, s: State, j: nat)
    requires Progress(file, c, s, j) && 0 < j <= Chunks(|file|)
    ensures var t := OnPacket(s, Good(j % 256, Chunk(file, j - 1)), 0);
      && Progress(file, c, t, j + 1) && t.phase == AtHeader && t.heard == s.heard && t.sent == s.sent + [ACK]
  {
    hide Stored, Writes, Opened, Closed, Chunk;
    var data := Chunk(file, j - 1);
    var w := Useful(s, 1024);
    var t := OnPacket(s, Good(j % 256, data), 0);
    var call := Write(s.received, data[..w], |s.heard| - 1024 - 5, 0);
    assert t.calls == s.calls + [call];
    WritesGrow(s.calls, call, 0);
    StoredMore(Writes(s.calls), call);
    ChunkTaken(file, c, j);
    assert w == Taken(file, c, j + 1) - Taken(file, c, j);
    assert file[..Taken(file, c, j)] + file[Taken(file, c, j)..Taken(file, c, j + 1)] == file[..Taken(file, c, j + 1)];
  }

  lemma StoredMore(writes: seq<Call>, w: Call)
    requires w.Write?
    ensures Stored(writes + [w]) == Stored(writes) + w.data
  {
    assert (writes + [w])[..|writes|] == writes;
  }

  /** What of block `j` counts is what the announced size still leaves of it. */
  lemma ChunkTaken(file: seq<byte>, c: nat, j: nat)
    requires c <= |file| && 0 < j <= Chunks(|file|)
    ensures Taken(file, c, j) <= Taken(file, c, j + 1) <= Taken(file, c, j) + 1024 && Taken(file, c, j + 1) <= |file|
    ensures Taken(file, c, j + 1) == if Taken(file, c, j) + 1024 <= c then Taken(file, c, j) + 1024 else c
    ensures Chunk(file, j - 1)[..Taken(file, c, j + 1) - Taken(file, c, j)]
         == file[Taken(file, c, j)..Taken(file, c, j + 1)]
  {
    var a, b := Taken(file, c, j), Taken(file, c, j + 1);
    if a < b { assert a == 1024 * (j - 1) && b <= ChunkEnd(|file|, j - 1); }
  }

  lemma CloseStep(file: seq<byte>, c: nat, s: State, data: seq<byte>)
    requires Progress(file, c, s, Messages(file) - 1)
    ensures var t := OnPacket(s, Good(0, data), 0);
      && Progress(file, c, t, Messages(file)) && t.phase == Done(0) && t.heard == s.heard && t.sent == s.sent + [ACK]
  {
    hide Stored;
    assert Writes(OnPacket(s, Good(0, data), 0).calls) == Writes(s.calls);
  }

  /** The last byte of a message. */
  lemma LastStep(name: seq<byte>, file: seq<byte>, c: nat, rx: State, p: nat, j: nat, h: nat)
    requires Traffic(name, file, rx, p, j, h) && Progress(file, c, rx, j) && j < Messages(file)
    requires h + 1 == |Message(name, file, j)| && file != [] && 0 < c == ParseSize(HeaderBlock(name, |file|))
    ensures var t := Step(rx, Event(Byte(Message(name, file, j)[h]), 0));
      Traffic(name, file, t, p, j + 1, 0) && Progress(file, c, t, j + 1)
  {
    hide Message, Step, OnPacket, Progress, HeaderBlock, ParseSize, Chunk;
    if !IsPacket(file, j) {
      EndShape(name, file, j);
      EndStep(name, file, c, rx, p, j);
    } else {
      var b := Message(name, file, j)[h];
      var s := Heard(rx, b);
      PacketStep(name, file, rx, p, j, h, 0);
      HeardProgress(file, c, rx, b, j);
      if j == 0 {
        MetadataStep(name, file, c, s);
      } else if j <= Chunks(|file|) {
        DataStep(name, file, c, s, j);
      } else {
        CloseStep(file, c, s, Fill(128, 0));
      }
      LastTraffic(name, file, rx, Step(rx, Event(Byte(b), 0)), p, j, h);
    }
  }

  lemma HeardProgress(file: seq<byte>, c: nat, rx: State, b: byte, j: nat)
    requires Progress(file, c, rx, j)
    ensures Progress(file, c, Heard(rx, b), j)
  {
    hide Stored, Writes, Opened, Closed, Taken;
  }

  /** How far the host is: it has read the prompts and the answers up to the one it waits for. */
  predicate HostAt(name: seq<byte>, file: seq<byte>, l: Link, p: nat, j: nat, h: nat)
  {
    && Sane(file, l) && l.tx.sent == Sent(name, file, l.tx.next)
    && (if !l.started then l.tx == First(name, file) && j == h == l.read == 0
        else
          && l.tx.status != Failure && l.tx.next - 1 <= j <= l.tx.next
          && (h > 0 ==> j == l.tx.next - 1) && (l.tx.got > 0 ==> j == l.tx.next)
          && (l.tx.status == Success ==> l.tx.next == j == Messages(file) && l.read == p + |Answers(file, j)|)
          && (l.tx.status == Working ==>
                if l.tx.next == 1 && l.tx.got == 0 then l.read <= p
                else l.read == p + |Answers(file, l.tx.next - 1)| + l.tx.got))
  }

  /** The byte the host reads next. */
  lemma NextAnswer(file: seq<byte>, p: nat, j: nat, at: nat)
    requires 0 < j <= Messages(file) && at < |Answer(file, j - 1)|
    ensures var s, i := Prompts(p) + Answers(file, j), p + |Answers(file, j - 1)| + at;
      i < |s| && s[i] == Answer(file, j - 1)[at]
      && |Answers(file, j)| == |Answers(file, j - 1)| + |Answer(file, j - 1)|
  {
    hide Answer;
  }

  lemma HostStep(name: seq<byte>, file: seq<byte>, l: Link, p: nat, j: nat, h: nat)
    requires Traffic(name, file, l.rx, p, j, h) && HostAt(name, file, l, p, j, h) && Enabled(l, HostReads)
    ensures HostAt(name, file, Make(name, file, l, HostReads), p, j, h)
  {
    hide Message, Answers;
    var b := l.rx.sent[l.read];
    if !l.started {
      assert b == READY;
      assert Sent(name, file, 1) == Sent(name, file, 0) + Message(name, file, 0);
    } else if l.tx.next == 1 && l.tx.got == 0 && l.read < p {
      assert b == READY;
    } else {
      AnswerStep(name, file, l, p, j, h);
    }
  }

  /** The host reads the next byte of the answer it waits for. */
  lemma AnswerStep(name: seq<byte>, file: seq<byte>, l: Link, p: nat, j: nat, h: nat)
    requires Traffic(name, file, l.rx, p, j, h) && HostAt(name, file, l, p, j, h) && Enabled(l, HostReads)
    requires l.started && !(l.tx.next == 1 && l.tx.got == 0 && l.read < p)
    ensures HostAt(name, file, Make(name, file, l, HostReads), p, j, h)
  {
    hide Message, Answers, Answer, Sent;
    NoAnswers(file);
    if j < l.tx.next { assert false; }
    NextAnswer(file, p, j, l.tx.got);
    assert l.rx.sent[l.read] == Expected(file, l.tx);
    if l.tx.next < Messages(file) { SentOneMore(name, file, l.tx.next); }
    LastAnswer(file);
  }

  lemma LastAnswer(file: seq<byte>)
    ensures |Answer(file, Messages(file) - 1)| == 1
  {
  }

  lemma NoAnswers(file: seq<byte>)
    ensures Answers(file, 0) == []
  {
  }

  /** Where the device's next byte comes from. */
  lemma NextByte(name: seq<byte>, file: seq<byte>, l: Link, p: nat, j: nat, h: nat)
    requires Traffic(name, file, l.rx, p, j, h) && HostAt(name, file, l, p, j, h)
    ensures |l.rx.heard| < |HostSent(l)| <==> l.started && j < l.tx.next
    ensures l.rx.heard <= HostSent(l)
    ensures l.started && j < l.tx.next ==> HostSent(l)[|l.rx.heard|] == Message(name, file, j)[h]
  {
    hide Message, Answers;
    if l.started && j < l.tx.next {
      assert l.tx.sent == Sent(name, file, j) + Message(name, file, j);
    }
    if !l.started { assert Sent(name, file, 0) == []; }
  }

  /** Messages and answers only add up. */
  lemma {:induction false} Growing(name: seq<byte>, file: seq<byte>, j: nat, k: nat)
    requires j <= k <= Messages(file)
    ensures Sent(name, file, j) <= Sent(name, file, k) && |Answers(file, j)| <= |Answers(file, k)|
    ensures j < k ==> |Sent(name, file, j)| + |Message(name, file, j)| <= |Sent(name, file, k)|
    decreases k
  {
    hide Message, Answer;
    if j < k { Growing(name, file, j, k - 1); }
  }

  /** Where a byte of a message stands in the stream. */
  lemma {:induction false} SentAt(name: seq<byte>, file: seq<byte>, j: nat, h: nat, k: nat)
    requires j < k <= Messages(file) && h < |Message(name, file, j)|
    ensures |Sent(name, file, j)| + h < |Sent(name, file, k)|
    ensures Sent(name, file, k)[|Sent(name, file, j)| + h] == Message(name, file, j)[h]
    decreases k
  {
    hide Message;
    if j + 1 < k { SentAt(name, file, j, h, k - 1); }
  }

  lemma PhaseProgress(file: seq<byte>, c: nat, rx: State, phase: Phase, j: nat)
    requires Progress(file, c, rx, j)
    ensures Progress(file, c, rx.(phase := phase), j)
  {
    hide Stored, Writes, Opened, Closed, Taken;
  }

  lemma SentOneMore(name: seq<byte>, file: seq<byte>, j: nat)
    requires j < Messages(file)
    ensures Sent(name, file, j + 1) == Sent(name, file, j) + Message(name, file, j)
  {
    hide Message;
  }
}
