/** rtbus_ymodem_recv as a machine fed one event at a time: a byte from the line, a second of silence,
    or the end of the wait in progress.  The state holds the routine's variables and, as history, the
    bytes heard and sent and the calls made to the image store with their results. */
module YmodemReceiver {
  import opened Bytes
  import opened Errno
  import opened YmodemPacket
  import opened YmodemSize

  datatype Input = Byte(b: byte) | Tick | Expire

  /** `reply` is what the store answers if this event leads to a call. */
  datatype Event = Event(input: Input, reply: int)

  /** `start` tells where in the bytes heard the written packet begins. */
  datatype Call =
    | Begin(size: nat, rc: int)
    | Write(at: nat, data: seq<byte>, start: int, rc: int)
    | Finish(status: int, rc: int)

  datatype Phase = AtHeader | InPacket(kind: byte, buf: seq<byte>) | Done(rc: int)

  datatype State = State(gotMeta: bool, active: bool, eotSeen: bool, expected: nat, received: nat, block: byte,
                         phase: Phase, sent: seq<byte>, heard: seq<byte>, calls: seq<Call>)

  function DataLength(kind: byte): nat
  {
    if kind == SOH then BLOCK_128 else BLOCK_1024
  }

  /** Waiting for a header byte; before the metadata block the wait opens with a prompt. */
  function Wait(s: State): State
  {
    s.(phase := AtHeader, sent := s.sent + if s.gotMeta then [] else [READY])
  }

  function Reject(s: State): State
  {
    Wait(s.(sent := s.sent + [NAK]))
  }

  function Start(): State
  {
    Wait(State(false, false, false, 0, 0, 1, AtHeader, [], [], []))
  }

  /** Leaving with an error; an open session is finished with it. */
  function Abort(s: State, rc: int): State
  {
    s.(phase := Done(rc), calls := s.calls + if s.active then [Finish(rc, rc)] else [])
  }

  function OnHeader(s: State, b: byte): State
  {
    if b == CAN then Abort(s, -ECANCELED)
    else if b == EOT && !s.eotSeen then Reject(s.(eotSeen := true))
    else if b == EOT then Wait(s.(sent := s.sent + [ACK, READY]))
    else if b == SOH || b == STX then s.(phase := InPacket(b, []))
    else Reject(s)
  }

  function OnMetadata(s: State, number: byte, data: seq<byte>, reply: int): State
  {
    var size := ParseSize(data);
    if number != 0 then Reject(s)
    else if size == 0 then s.(gotMeta := true, sent := s.sent + [NAK], phase := Done(-EINVAL))
    else
      var t := s.(gotMeta := true, expected := size, sent := s.sent + [ACK, READY],
                  calls := s.calls + [Begin(size, reply)]);
      if reply != 0 then t.(sent := t.sent + [CAN], phase := Done(reply)) else t.(active := true, phase := AtHeader)
  }

  /** What of a block of `n` bytes still belongs to the file. */
  function Useful(s: State, n: nat): (w: nat)
    ensures w <= n
  {
    if s.received + n <= s.expected then n else if s.received <= s.expected then s.expected - s.received else 0
  }

  function OnData(s: State, data: seq<byte>, reply: int): State
  {
    var w := Useful(s, |data|);
    var call := Write(s.received, data[..w], |s.heard| - |data| - 5, reply);
    if reply != 0 then s.(calls := s.calls + [call, Finish(reply, reply)], sent := s.sent + [CAN], phase := Done(reply))
    else s.(calls := s.calls + [call], received := s.received + w, block := Add8(s.block, 1),
            sent := s.sent + [ACK], phase := AtHeader)
  }

  function OnPacket(s: State, b: Block, reply: int): State
  {
    if b.Bad? then Reject(s)
    else if !s.gotMeta then OnMetadata(s, b.number, b.data, reply)
    else if s.eotSeen && b.number == 0 then
      s.(active := false, calls := s.calls + [Finish(0, reply)], phase := Done(reply),
         sent := s.sent + [if reply == 0 then ACK else CAN])
    else if b.number != s.block then Reject(s)
    else OnData(s, b.data, reply)
  }

  function Step(s: State, e: Event): State
  {
    match s.phase
    case Done(_) => s
    case AtHeader =>
      (match e.input
       case Byte(b) => OnHeader(s.(heard := s.heard + [b]), b)
       case Tick => if s.gotMeta then s else s.(sent := s.sent + [READY])
       case Expire => Abort(s, -ETIMEDOUT))
    case InPacket(kind, buf) =>
      (match e.input
       case Byte(b) =>
         var t, more := s.(heard := s.heard + [b]), buf + [b];
         if |more| == DataLength(kind) + OVERHEAD then OnPacket(t, Check(more, DataLength(kind)), e.reply)
         else t.(phase := InPacket(kind, more))
       case Tick => s
       case Expire => Reject(s))
  }

  /** The state after a whole history of events. */
  function Run(events: seq<Event>): State
  {
    if events == [] then Start() else Step(Run(events[..|events| - 1]), events[|events| - 1])
  }

  // ---- what every history keeps ----

  /** The bytes of a list of store writes, in order. */
  function Stored(writes: seq<Call>): seq<byte>
  {
    if writes == [] then []
    else Stored(writes[..|writes| - 1]) + (if writes[|writes| - 1].Write? then writes[|writes| - 1].data else [])
  }

  /** Write number `k` (from 0) holds what a sound packet numbered `k + 1` modulo 256, found at its
      place among the bytes heard, brings for a file of `size` bytes. */
  predicate Genuine(w: Call, k: nat, size: nat, heard: seq<byte>)
  {
    && w.Write? && 0 <= w.start && w.at <= size && w.start < |heard| && heard[w.start] in {SOH, STX}
    && var n := DataLength(heard[w.start]);
    && w.start + n + 5 <= |heard|
    && var b := Check(heard[w.start + 1..w.start + n + 5], n);
    && b.Good? && b.number == (k + 1) % 256
    && w.data == b.data[..if w.at + n <= size then n else size - w.at]
  }

  /** Where the packet of a write ends. */
  function PacketEnd(w: Call, heard: seq<byte>): int
    requires w.Write? && 0 <= w.start < |heard|
  {
    w.start + DataLength(heard[w.start]) + 5
  }

  /** The writes of a session on a file of `size` bytes: contiguous from 0, from disjoint sound packets
      in the order of arrival, numbered 1, 2, ... modulo 256, never past the announced size. */
  ghost predicate Faithful(writes: seq<Call>, size: nat, heard: seq<byte>)
  {
    && AllGenuine(writes, size, heard) && Contiguous(writes) && InOrder(writes, size, heard)
    && |Stored(writes)| <= size
  }

  ghost predicate AllGenuine(writes: seq<Call>, size: nat, heard: seq<byte>)
  {
    forall k | 0 <= k < |writes| :: Genuine(writes[k], k, size, heard)
  }

  predicate Contiguous(writes: seq<Call>)
  {
    forall k | 0 <= k < |writes| :: writes[k].Write? && writes[k].at == |Stored(writes[..k])|
  }

  ghost predicate InOrder(writes: seq<Call>, size: nat, heard: seq<byte>)
    requires AllGenuine(writes, size, heard)
  {
    forall k | 0 < k < |writes| :: PacketEnd(writes[k - 1], heard) <= writes[k].start
  }

  predicate AllOk(writes: seq<Call>)
  {
    forall k | 0 <= k < |writes| :: writes[k].Write? && writes[k].rc == 0
  }

  predicate IsDone(s: State)
  {
    s.phase.Done?
  }

  predicate Opened(calls: seq<Call>)
  {
    |calls| > 0 && calls[0].Begin? && calls[0].rc == 0
  }

  predicate Closed(calls: seq<Call>)
  {
    |calls| > 1 && calls[|calls| - 1].Finish?
  }

  /** The calls between begin and finish. */
  function Writes(calls: seq<Call>): seq<Call>
  {
    if calls == [] then [] else if Closed(calls) then calls[1..|calls| - 1] else calls[1..]
  }

  /** Where the packet being read began. */
  function Mark(s: State): int
  {
    if s.phase.InPacket? then |s.heard| - |s.phase.buf| - 1 else |s.heard|
  }

  /** Before the metadata block nothing has been asked of the store. */
  predicate Fresh(s: State)
  {
    s.calls == [] && !s.active && s.expected == s.received == 0 && s.block == 1
  }

  /** The transfer is under way: one session is open and all its writes succeeded. */
  ghost predicate Flowing(s: State)
  {
    && s.active && Opened(s.calls) && !Closed(s.calls) && s.calls[0].size == s.expected
    && AllOk(Writes(s.calls)) && Faithful(Writes(s.calls), s.expected, s.heard)
    && s.received == |Stored(Writes(s.calls))| && s.block == (|Writes(s.calls)| + 1) % 256
    && (Writes(s.calls) != [] ==> PacketEnd(Writes(s.calls)[|Writes(s.calls)| - 1], s.heard) <= Mark(s))
  }

  predicate Framed(s: State)
  {
    s.phase.InPacket? ==>
      && s.phase.kind in {SOH, STX} && |s.phase.buf| < DataLength(s.phase.kind) + OVERHEAD
      && Mark(s) >= 0 && s.heard[Mark(s)..] == [s.phase.kind] + s.phase.buf
  }

  /** How a finished run looks: the session, if one was opened, was finished exactly once and last; the
      routine returns 0 only if that call was a successful finish with status 0. */
  ghost predicate Settled(s: State)
    requires IsDone(s)
  {
    && (s.calls != [] ==> s.calls[0].Begin? && s.calls[0].size == s.expected)
    && (Opened(s.calls) <==> Closed(s.calls))
    && (s.calls != [] && !Opened(s.calls) ==> |s.calls| == 1 && s.phase.rc == s.calls[0].rc)
    && Faithful(Writes(s.calls), s.expected, s.heard)
    && (s.phase.rc == 0 ==> Closed(s.calls) && s.calls[|s.calls| - 1] == Finish(0, 0))
    && (Closed(s.calls) && s.calls[|s.calls| - 1] == Finish(0, 0) ==> s.phase.rc == 0 && AllOk(Writes(s.calls)))
    && (Writes(s.calls) != [] ==> AllOk(Writes(s.calls)[..|Writes(s.calls)| - 1]))
    && (!AllOk(Writes(s.calls)) ==>
          var rc := Writes(s.calls)[|Writes(s.calls)| - 1].rc;
          rc != 0 && s.calls[|s.calls| - 1] == Finish(rc, rc) && s.phase.rc == rc)
  }

  ghost predicate Kept(s: State)
  {
    && Framed(s)
    && (if IsDone(s) then Settled(s) else if s.gotMeta then Flowing(s) else Fresh(s))
  }

  /** Hearing more changes nothing about the writes already made. */
  lemma HearMore(writes: seq<Call>, size: nat, heard: seq<byte>, b: byte)
    requires Faithful(writes, size, heard)
    ensures Faithful(writes, size, heard + [b])
    ensures forall k | 0 <= k < |writes| :: PacketEnd(writes[k], heard + [b]) == PacketEnd(writes[k], heard)
  {
    hide Check, Stored;
    forall k | 0 <= k < |writes|
      ensures Genuine(writes[k], k, size, heard + [b])
      ensures PacketEnd(writes[k], heard + [b]) == PacketEnd(writes[k], heard)
    {
      var w := writes[k];
      var n := DataLength(heard[w.start]);
      assert Genuine(w, k, size, heard);
      assert (heard + [b])[w.start + 1..w.start + n + 5] == heard[w.start + 1..w.start + n + 5];
    }
  }

  /** One more write, of the packet that ends where the line stands. */
  lemma WriteMore(writes: seq<Call>, w: Call, size: nat, heard: seq<byte>)
    requires Faithful(writes, size, heard) && w.Write? && Genuine(w, |writes|, size, heard)
    requires w.at == |Stored(writes)| && 0 <= w.start < |heard|
    requires writes != [] ==> PacketEnd(writes[|writes| - 1], heard) <= w.start
    ensures Faithful(writes + [w], size, heard) && Stored(writes + [w]) == Stored(writes) + w.data
  {
    hide Check, Genuine, Contiguous, AllGenuine, InOrder;
    assert (writes + [w])[..|writes|] == writes;
    WriteFits(w, |writes|, size, heard);
    ContiguousMore(writes, w);
    GenuineMore(writes, w, size, heard);
  }

  lemma GenuineMore(writes: seq<Call>, w: Call, size: nat, heard: seq<byte>)
    requires AllGenuine(writes, size, heard) && InOrder(writes, size, heard)
    requires w.Write? && Genuine(w, |writes|, size, heard)
    requires writes != [] ==> PacketEnd(writes[|writes| - 1], heard) <= w.start
    ensures AllGenuine(writes + [w], size, heard) && InOrder(writes + [w], size, heard)
  {
    hide Check;
  }

  lemma ContiguousMore(writes: seq<Call>, w: Call)
    requires Contiguous(writes) && w.Write? && w.at == |Stored(writes)|
    ensures Contiguous(writes + [w])
  {
    var more := writes + [w];
    forall k | 0 <= k < |more| ensures more[k].Write? && more[k].at == |Stored(more[..k])| {
      assert more[..k] == writes[..k];
      if k == |writes| { assert writes[..k] == writes; }
    }
  }

  lemma WriteFits(w: Call, k: nat, size: nat, heard: seq<byte>)
    requires Genuine(w, k, size, heard)
    ensures w.at + |w.data| <= size
  {
    hide Check;
    var n := DataLength(heard[w.start]);
    CheckLength(heard[w.start + 1..w.start + n + 5], n);
  }

  /** The history lemmas below take the state `s` in which byte `b` has just been added to the bytes
      heard, or nothing has happened yet. */
  lemma HeardKeeps(s: State, b: byte)
    requires Kept(s) && !IsDone(s)
    ensures var t := s.(heard := s.heard + [b], phase := AtHeader);
      Kept(t)
      && (s.gotMeta && Writes(s.calls) != [] ==> PacketEnd(Writes(s.calls)[|Writes(s.calls)| - 1], t.heard) <= Mark(s))
  {
    hide Faithful;
    var t := s.(heard := s.heard + [b], phase := AtHeader);
    if s.gotMeta {
      assert Writes(t.calls) == Writes(s.calls);
      HearMore(Writes(s.calls), s.expected, s.heard, b);
    }
  }

  lemma RejectKeeps(s: State)
    requires Kept(s.(phase := AtHeader))
    ensures Kept(Reject(s))
  {
    hide Faithful;
    assert Writes(Reject(s).calls) == Writes(s.calls);
  }

  lemma AbortKeeps(s: State, rc: int)
    requires Kept(s) && !IsDone(s) && rc != 0
    ensures Kept(Abort(s, rc))
  {
    hide Faithful;
    var t := Abort(s, rc);
    if s.gotMeta {
      assert Writes(t.calls) == Writes(s.calls);
    } else {
      assert Faithful([], t.expected, t.heard) by { NoWrites(t.expected, t.heard); }
    }
  }

  lemma NoWrites(size: nat, heard: seq<byte>)
    ensures Faithful([], size, heard)
  {
  }

  lemma MetadataKeeps(s: State, number: byte, data: seq<byte>, reply: int)
    requires Kept(s) && s.phase == AtHeader && !s.gotMeta
    ensures Kept(OnMetadata(s, number, data, reply))
  {
    hide Faithful, ParseSize;
    NoWrites(0, s.heard);
    NoWrites(ParseSize(data), s.heard);
    if number == 0 && ParseSize(data) != 0 {
      assert Writes(OnMetadata(s, number, data, reply).calls) == [];
    }
  }

  lemma CloseKeeps(s: State, b: Block, reply: int)
    requires Kept(s) && s.phase == AtHeader && s.gotMeta && s.eotSeen && b.Good? && b.number == 0
    ensures Kept(OnPacket(s, b, reply))
  {
    hide Faithful;
    assert Writes(OnPacket(s, b, reply).calls) == Writes(s.calls);
  }

  /** The write for a completed packet. */
  lemma WriteGenuine(s: State, data: seq<byte>, kind: byte, body: seq<byte>, reply: int, k: nat)
    requires kind in {SOH, STX} && s.received <= s.expected && s.block == (k + 1) % 256
    requires |body| == DataLength(kind) + OVERHEAD && Check(body, DataLength(kind)) == Good(s.block, data)
    requires |data| == DataLength(kind) && |s.heard| >= |body| + 1
    requires s.heard[|s.heard| - |body| - 1] == kind && s.heard[|s.heard| - |body|..] == body
    ensures Genuine(Write(s.received, data[..Useful(s, |data|)], |s.heard| - |data| - 5, reply), k, s.expected, s.heard)
  {
    hide Check;
    var at := |s.heard| - |body|;
    assert s.heard[at..at + |body|] == s.heard[at..];
  }

  /** A data packet just completed: `heard` ends with it. */
  lemma DataKeeps(s: State, data: seq<byte>, kind: byte, body: seq<byte>, reply: int)
    requires Kept(s) && s.phase == AtHeader && s.gotMeta && kind in {SOH, STX}
    requires |body| == DataLength(kind) + OVERHEAD && Check(body, DataLength(kind)) == Good(s.block, data)
    requires |s.heard| >= |body| + 1 && s.heard[|s.heard| - |body| - 1..] == [kind] + body
    requires Writes(s.calls) != [] ==>
      PacketEnd(Writes(s.calls)[|Writes(s.calls)| - 1], s.heard) <= |s.heard| - |body| - 1
    ensures Kept(OnData(s, data, reply))
  {
    hide Faithful, Check, OnData, Stored;
    var n := DataLength(kind);
    var w := Write(s.received, data[..Useful(s, |data|)], |s.heard| - |data| - 5, reply);
    CheckLength(body, n);
    StaysWithin(s);
    Tail(s.heard, kind, body);
    WriteGenuine(s, data, kind, body, reply, |Writes(s.calls)|);
    WriteMore(Writes(s.calls), w, s.expected, s.heard);
    if reply == 0 { DataTaken(s, data, w); } else { DataFailed(s, data, w, reply); }
  }

  lemma DataTaken(s: State, data: seq<byte>, w: Call)
    requires Flowing(s) && s.phase == AtHeader && s.gotMeta && |s.heard| - |data| - 5 >= 0
    requires w == Write(s.received, data[..Useful(s, |data|)], |s.heard| - |data| - 5, 0)
    requires Faithful(Writes(s.calls) + [w], s.expected, s.heard)
    requires Stored(Writes(s.calls) + [w]) == Stored(Writes(s.calls)) + w.data
    requires PacketEnd(w, s.heard) == |s.heard|
    ensures Kept(OnData(s, data, 0))
  {
    hide Faithful, Stored, PacketEnd, Writes, Closed, Opened;
    WritesGrow(s.calls, w, 0);
    var t := OnData(s, data, 0);
    assert Writes(t.calls) == Writes(s.calls) + [w] && t.received == |Stored(Writes(t.calls))|;
    assert t.block == (|Writes(t.calls)| + 1) % 256;
  }

  lemma DataFailed(s: State, data: seq<byte>, w: Call, reply: int)
    requires Flowing(s) && s.phase == AtHeader && s.gotMeta && reply != 0
    requires w == Write(s.received, data[..Useful(s, |data|)], |s.heard| - |data| - 5, reply)
    requires Faithful(Writes(s.calls) + [w], s.expected, s.heard)
    ensures Kept(OnData(s, data, reply))
  {
    hide Faithful, Stored, Writes, Closed, Opened;
    WritesGrow(s.calls, w, reply);
    var t := OnData(s, data, reply);
    assert Writes(t.calls) == Writes(s.calls) + [w];
    assert !AllOk(Writes(t.calls)) by { assert Writes(t.calls)[|Writes(s.calls)|] == w; }
    assert Writes(t.calls)[..|Writes(t.calls)| - 1] == Writes(s.calls);
  }

  lemma CheckLength(body: seq<byte>, n: nat)
    requires |body| == n + OVERHEAD && Check(body, n).Good?
    ensures |Check(body, n).data| == n
  {
  }

  lemma StaysWithin(s: State)
    requires s.gotMeta && !IsDone(s) && Kept(s)
    ensures s.received <= s.expected
  {
  }

  lemma Tail(heard: seq<byte>, kind: byte, body: seq<byte>)
    requires |heard| >= |body| + 1 && heard[|heard| - |body| - 1..] == [kind] + body
    ensures heard[|heard| - |body| - 1] == kind && heard[|heard| - |body|..] == body
  {
    var m := |heard| - |body| - 1;
    assert heard[m] == heard[m..][0];
    assert heard[m + 1..] == heard[m..][1..];
  }

  lemma WritesGrow(calls: seq<Call>, w: Call, reply: int)
    requires Opened(calls) && !Closed(calls) && w.Write?
    ensures Opened(calls + [w]) && !Closed(calls + [w]) && Writes(calls + [w]) == Writes(calls) + [w]
    ensures var c := calls + [w, Finish(reply, reply)]; Opened(c) && Closed(c) && Writes(c) == Writes(calls) + [w]
  {
    var c := calls + [w, Finish(reply, reply)];
    assert (calls + [w])[1..] == calls[1..] + [w];
    assert c[1..|c| - 1] == calls[1..] + [w];
  }

  lemma PacketKeeps(s: State, kind: byte, body: seq<byte>, reply: int)
    requires Kept(s) && s.phase == AtHeader && kind in {SOH, STX} && |body| == DataLength(kind) + OVERHEAD
    requires |s.heard| >= |body| + 1 && s.heard[|s.heard| - |body| - 1..] == [kind] + body
    requires s.gotMeta && Writes(s.calls) != [] ==>
      PacketEnd(Writes(s.calls)[|Writes(s.calls)| - 1], s.heard) <= |s.heard| - |body| - 1
    ensures Kept(OnPacket(s, Check(body, DataLength(kind)), reply))
  {
    hide Kept, Check, OnData, OnMetadata;
    var b := Check(body, DataLength(kind));
    if b.Bad? {
      RejectKeeps(s);
    } else if !s.gotMeta {
      MetadataKeeps(s, b.number, b.data, reply);
    } else if s.eotSeen && b.number == 0 {
      CloseKeeps(s, b, reply);
    } else if b.number != s.block {
      RejectKeeps(s);
    } else {
      DataKeeps(s, b.data, kind, body, reply);
    }
  }

  lemma HeaderKeeps(s: State, b: byte)
    requires Kept(s) && s.phase == AtHeader
    ensures Kept(OnHeader(s.(heard := s.heard + [b]), b))
  {
    hide Faithful;
    HeardKeeps(s, b);
    var t := s.(heard := s.heard + [b]);
    if b == CAN {
      AbortKeeps(t, -ECANCELED);
    } else if b == EOT && !s.eotSeen {
      assert Kept(t.(eotSeen := true)) by { assert Writes(t.(eotSeen := true).calls) == Writes(t.calls); }
      RejectKeeps(t.(eotSeen := true));
    } else if b == EOT || b == SOH || b == STX {
      assert Writes(OnHeader(t, b).calls) == Writes(t.calls);
    } else {
      RejectKeeps(t);
    }
  }

  lemma ByteKeeps(s: State, b: byte, reply: int)
    requires Kept(s) && s.phase.InPacket?
    ensures Kept(Step(s, Event(Byte(b), reply)))
  {
    hide Faithful, Check, OnPacket;
    HeardKeeps(s, b);
    var t := s.(heard := s.heard + [b], phase := AtHeader);
    var kind, more := s.phase.kind, s.phase.buf + [b];
    var m := |t.heard| - |more| - 1;
    assert t.heard[m..] == [kind] + more by { assert t.heard[m..] == s.heard[m..] + [b]; }
    if |more| == DataLength(kind) + OVERHEAD {
      PacketKeeps(t, kind, more, reply);
      PhaseIgnored(s.(heard := s.heard + [b]), Check(more, DataLength(kind)), reply);
    } else {
      assert Writes(t.(phase := InPacket(kind, more)).calls) == Writes(s.calls);
    }
  }

  /** What a packet does does not depend on the phase it is found in. */
  lemma PhaseIgnored(s: State, b: Block, reply: int)
    ensures OnPacket(s, b, reply) == OnPacket(s.(phase := AtHeader), b, reply)
  {
  }

  lemma StepKeeps(s: State, e: Event)
    requires Kept(s)
    ensures Kept(Step(s, e))
  {
    hide Faithful, Check, OnPacket, OnHeader, Abort;
    match s.phase
    case Done(_) =>
    case AtHeader =>
      if e.input.Byte? { HeaderKeeps(s, e.input.b); }
      else if e.input.Expire? { AbortKeeps(s, -ETIMEDOUT); }
      else { assert Writes(s.(sent := s.sent + [READY]).calls) == Writes(s.calls); }
    case InPacket(_, _) =>
      if e.input.Byte? { ByteKeeps(s, e.input.b, e.reply); }
      else if e.input.Expire? {
        assert Writes(s.(phase := AtHeader).calls) == Writes(s.calls);
        RejectKeeps(s);
      }
  }

  /** In every history, whatever bytes, silences and store failures it brings: the store sees at most
      one session, written contiguously from 0 out of sound packets numbered 1, 2, ... modulo 256 and
      never past the announced size; a session that was opened is finished exactly once, and last, by the
      time the routine returns; and it returns 0 only after a successful finish with status 0. */
  lemma {:induction false} ReceiverSafe(events: seq<Event>)
    ensures var s := Run(events);
      && Kept(s) && Faithful(Writes(s.calls), s.expected, s.heard)
      && (forall i | 0 < i < |s.calls| - 1 :: s.calls[i].Write?)
      && (!IsDone(s) ==> !Closed(s.calls))
  {
    hide Faithful, Step;
    if events == [] {
      NoWrites(0, []);
    } else {
      ReceiverSafe(events[..|events| - 1]);
      StepKeeps(Run(events[..|events| - 1]), events[|events| - 1]);
    }
    var s := Run(events);
    assert Faithful(Writes(s.calls), s.expected, s.heard) by { if Fresh(s) { NoWrites(s.expected, s.heard); } }
    forall i | 0 < i < |s.calls| - 1 ensures s.calls[i].Write? {
      assert s.calls[i] == Writes(s.calls)[i - 1];
      FaithfulWrites(Writes(s.calls), s.expected, s.heard, i - 1);
    }
  }

  lemma FaithfulWrites(writes: seq<Call>, size: nat, heard: seq<byte>, k: nat)
    requires Faithful(writes, size, heard) && k < |writes|
    ensures writes[k].Write?
  {
    hide Check;
    assert Genuine(writes[k], k, size, heard);
  }

  /** What a step makes the receiver send, byte by byte, and what that says about the store: 06 alone
      acknowledges a block that was written or a transfer that was finished, and nothing else; 15 leaves
      store and counters as they are; 18 tells that the store has refused. */
  predicate Replied(s: State, t: State, answer: seq<byte>)
  {
    && t.sent == s.sent + answer
    && (answer == [] || answer == [0x43] || answer == [0x15] || answer == [0x15, 0x43] || answer == [0x06]
        || answer == [0x06, 0x43] || answer == [0x06, 0x43, 0x43] || answer == [0x06, 0x43, 0x18] || answer == [0x18])
    && (answer == [] ==> t.phase.InPacket? || t == s || t.phase == Done(-ETIMEDOUT) || t.phase == Done(-ECANCELED))
    && (answer == [0x15] && IsDone(t) ==> t.phase == Done(-EINVAL))
    && (answer == [0x06] ==>
          && t.calls != [] && t.calls == s.calls + [t.calls[|t.calls| - 1]]
          && var call := t.calls[|t.calls| - 1];
             call == Finish(0, 0) || (call.Write? && call.rc == 0 && t.received == s.received + |call.data|))
    && (t.calls != s.calls && !IsDone(t) ==> answer == [0x06] || answer == [0x06, 0x43])
    && (answer == [0x15] || answer == [0x15, 0x43] ==>
          t.calls == s.calls && t.received == s.received && t.block == s.block && t.expected == s.expected)
    && (answer == [0x18] ==> IsDone(t) && t.phase.rc != 0 && t.calls != s.calls)
  }

  lemma HeaderAnswer(s: State, b: byte) returns (answer: seq<byte>)
    ensures Replied(s, OnHeader(s.(heard := s.heard + [b]), b), answer)
  {
    if b == CAN || b == SOH || b == STX {
      answer := [];
    } else if b == EOT && s.eotSeen {
      answer := if s.gotMeta then [0x06, 0x43] else [0x06, 0x43, 0x43];
    } else {
      answer := if s.gotMeta then [0x15] else [0x15, 0x43];
    }
    assert OnHeader(s.(heard := s.heard + [b]), b).sent == s.sent + answer;
  }

  lemma PacketAnswer(s: State, b: Block, reply: int) returns (answer: seq<byte>)
    ensures Replied(s, OnPacket(s, b, reply), answer)
  {
    hide ParseSize;
    if b.Bad? || (!s.gotMeta && b.number != 0) {
      answer := if s.gotMeta then [0x15] else [0x15, 0x43];
    } else if !s.gotMeta {
      answer := if ParseSize(b.data) == 0 then [0x15] else if reply == 0 then [0x06, 0x43] else [0x06, 0x43, 0x18];
    } else if !(s.eotSeen && b.number == 0) && b.number != s.block {
      answer := [0x15];
    } else {
      answer := if reply == 0 then [0x06] else [0x18];
    }
    assert OnPacket(s, b, reply).sent == s.sent + answer;
  }

  /** So it is at every moment of every history. */
  lemma EveryAnswer(events: seq<Event>, e: Event) returns (answer: seq<byte>)
    ensures Replied(Run(events), Run(events + [e]), answer)
  {
    hide Check, Run, OnHeader, OnPacket, Replied;
    RunOn(events, e);
    answer := StepAnswer(Run(events), e);
  }

  lemma StepAnswer(s: State, e: Event) returns (answer: seq<byte>)
    ensures Replied(s, Step(s, e), answer)
  {
    hide Check, OnHeader, OnPacket;
    answer := [];
    match s.phase
    case Done(_) =>
    case AtHeader =>
      match e.input {
        case Byte(b) => answer := HeaderAnswer(s, b);
        case Tick => answer := if s.gotMeta then [] else [0x43];
        case Expire =>
      }
    case InPacket(kind, buf) =>
      match e.input {
        case Byte(b) =>
          if |buf| + 1 == DataLength(kind) + OVERHEAD {
            answer := PacketAnswer(s.(heard := s.heard + [b]), Check(buf + [b], DataLength(kind)), e.reply);
          }
        case Tick =>
        case Expire => answer := if s.gotMeta then [0x15] else [0x15, 0x43];
      }
    assert Step(s, e).sent == s.sent + answer;
  }

  lemma RunOn(events: seq<Event>, e: Event)
    ensures Run(events + [e]) == Step(Run(events), e)
  {
    hide Step;
    assert (events + [e])[..|events|] == events;
  }

  /** The ends of a history: a cancel in place of a packet, silence in place of one, and what the routine
      then returns. */
  lemma HeaderEnds(events: seq<Event>, reply: int)
    requires Run(events).phase == AtHeader
    ensures Run(events + [Event(Byte(0x18), reply)]).phase == Done(-ECANCELED)
    ensures Run(events + [Event(Expire, reply)]).phase == Done(-ETIMEDOUT)
    ensures forall b: byte | b in {0x01, 0x02} :: Run(events + [Event(Byte(b), reply)]).phase == InPacket(b, [])
    ensures forall b: byte | b !in {0x01, 0x02, 0x18} :: Run(events + [Event(Byte(b), reply)]).phase == AtHeader
  {
    hide Run;
    RunOn(events, Event(Byte(0x18), reply));
    RunOn(events, Event(Expire, reply));
    forall b: byte ensures Run(events + [Event(Byte(b), reply)]) == Step(Run(events), Event(Byte(b), reply)) {
      RunOn(events, Event(Byte(b), reply));
    }
  }

  /** Silence inside a packet drops the packet, not the transfer; a packet is complete after 132 or 1028 bytes
      behind its first. */
  lemma PacketEnds(events: seq<Event>, b: byte, reply: int)
    requires Run(events).phase.InPacket?
    ensures Run(events + [Event(Expire, reply)]).phase == AtHeader
    ensures Run(events + [Event(Expire, reply)]).calls == Run(events).calls
    ensures var s := Run(events); var more := s.phase.buf + [b];
      |more| != (if s.phase.kind == 0x01 then 132 else 1028) ==>
        Run(events + [Event(Byte(b), reply)]).phase == InPacket(s.phase.kind, more)
  {
    hide Run, Check;
    RunOn(events, Event(Expire, reply));
    RunOn(events, Event(Byte(b), reply));
  }

  /** A name block with no size ends the routine, whatever else is in it. */
  lemma NoSizeEnds(s: State, data: seq<byte>, reply: int)
    requires !s.gotMeta && ParseSize(data) == 0
    ensures var t := OnPacket(s, Good(0, data), reply);
      t.phase == Done(-EINVAL) && t.sent == s.sent + [0x15] && t.calls == s.calls
  {
    hide ParseSize;
  }
}
