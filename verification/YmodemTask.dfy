/** rtbus_ymodem_recv as the loop it is, over a scripted line and the image store. */
module YmodemTask {
  import opened Bytes
  import opened Errno
  import opened YmodemPacket
  import opened Crc
  import opened YmodemSize
  import opened YmodemReceiver
  import opened Alignment
  import opened ImageHeader
  import opened ImageStores

  /** The variables of rtbus_ymodem_recv. */
  datatype Vars = Vars(gotMeta: bool, active: bool, eotSeen: bool, expected: nat, received: nat, block: byte)

  predicate Agree(s: State, v: Vars)
  {
    v == Vars(s.gotMeta, s.active, s.eotSeen, s.expected, s.received, s.block)
  }

  /** A store without device faults takes a session of `size` bytes. */
  predicate Takes(store: ImageStore, size: nat)
  {
    && HEADER_SIZE <= size <= store.slot.size && size <= store.direct.size && store.direct.align <= store.pending.Length
    && Multiple(store.pending.Length, store.direct.align) && (store.slot == store.direct || store.slot.align <= CHUNK)
  }

  /** Every call of begin and write succeeded. */
  predicate Smooth(calls: seq<Call>)
  {
    forall i | 0 <= i < |calls| && !calls[i].Finish? :: calls[i].rc == 0
  }

  /** All announced bytes are in, and they are a sound image. */
  ghost predicate Whole(s: State, ramMax: nat)
  {
    |Stored(Writes(s.calls))| == s.expected && GoodImage(Stored(Writes(s.calls)), ramMax)
  }

  /** A run as a store without device faults answers it: begin and write succeed, and finishing with
      status 0 succeeds exactly if the whole of a sound image is in. */
  ghost predicate Fair(s: State, ramMax: nat)
  {
    && Smooth(s.calls)
    && (s.calls != [] && s.calls[|s.calls| - 1].Finish? && s.calls[|s.calls| - 1].status == 0 ==>
          (s.calls[|s.calls| - 1].rc == 0 <==> Whole(s, ramMax)))
  }

  /** Part of a packet has been read. */
  function Reading(was: State, kind: byte, buf: seq<byte>): State
  {
    was.(phase := InPacket(kind, buf), heard := was.heard + buf)
  }

  lemma ReadingStep(was: State, kind: byte, buf: seq<byte>, b: byte, reply: int)
    ensures var t := Step(Reading(was, kind, buf), Event(Byte(b), reply));
      t == if |buf| + 1 == DataLength(kind) + OVERHEAD
           then OnPacket(was.(heard := was.heard + buf + [b]), Check(buf + [b], DataLength(kind)), reply)
           else Reading(was, kind, buf + [b])
  {
    hide Check;
    assert was.heard + buf + [b] == was.heard + (buf + [b]);
    if |buf| + 1 == DataLength(kind) + OVERHEAD {
      PhaseIgnored(Reading(was, kind, buf).(heard := was.heard + buf + [b]), Check(buf + [b], DataLength(kind)), reply);
      PhaseIgnored(was.(heard := was.heard + buf + [b]), Check(buf + [b], DataLength(kind)), reply);
    }
  }

  class Receiver {
    const script: seq<Input>      // what the line brings; after its end only silence
    const store: ImageStore
    var pos: nat
    var output: seq<byte>
    ghost var trace: seq<Event>   // the events so far, with the store's replies

    constructor (script: seq<Input>, store: ImageStore)
      ensures Synced() && pos == 0 && output == [] && this.script == script && this.store == store
    {
      this.script, this.store, pos, output, trace := script, store, 0, [], [];
    }

    function InputAt(i: nat): Input
    {
      if i < |script| then script[i] else Expire
    }

    ghost predicate Synced()
      reads `pos, `trace
    {
      pos == |trace| && forall i | 0 <= i < pos :: trace[i].input == InputAt(i)
    }

    /** Where the machine stands. */
    ghost function Now(): State
      reads `trace
    {
      Run(trace)
    }

    /** The last event was the byte that completed the packet `kind`, `body`, begun in state `was`. */
    ghost predicate Completed(was: State, kind: byte, body: seq<byte>)
      reads `trace
    {
      && trace != [] && body != [] && trace[|trace| - 1].input == Byte(body[|body| - 1])
      && Run(trace[..|trace| - 1]) == Reading(was, kind, body[..|body| - 1])
    }

    /** ymodem_put. */
    method Put(b: byte)
      modifies `output
      ensures output == old(output) + [b]
    {
      output := output + [b];
    }

    method Next() returns (e: Input)
      requires Synced()
      modifies `pos, `trace
      ensures Synced() && e == InputAt(old(pos)) && pos == old(pos) + 1
      ensures trace != [] && trace[..|trace| - 1] == old(trace) && trace[|trace| - 1].input == e
      ensures Now() == Step(old(Now()), Event(e, 0))
    {
      hide Step;
      e := InputAt(pos);
      trace := trace + [Event(e, 0)];
      assert trace[..|trace| - 1] == old(trace);
      pos := pos + 1;
    }

    /** The store's reply to the call the last event led to. */
    ghost method Answered(reply: int)
      requires Synced() && trace != []
      modifies `trace
      ensures Synced() && trace != []
      ensures Now() == Step(Run(old(trace)[..|old(trace)| - 1]), Event(old(trace)[|old(trace)| - 1].input, reply))
    {
      hide Step;
      ghost var before, last := trace[..|trace| - 1], trace[|trace| - 1].input;
      trace := before + [Event(last, reply)];
      assert trace[..|trace| - 1] == before;
    }

    /** ymodem_wait_header: prompts, once a second, until a byte comes. */
    method WaitHeader() returns (rc: int, header: byte)
      requires Synced() && Now().phase == AtHeader && !Now().gotMeta && output + [READY] == Now().sent
      modifies `pos, `trace, `output
      ensures Synced() && (rc == 0 || rc == -ETIMEDOUT)
      ensures rc == 0 ==> old(pos) < pos <= |script|
      ensures rc == 0 ==>
        Now() == OnHeader(old(Now()).(sent := output, heard := old(Now()).heard + [header]), header)
      ensures rc != 0 ==> Now() == Abort(old(Now()).(sent := output), -ETIMEDOUT)
    {
      hide OnHeader, OnPacket, Run;
      Put(READY);
      header := 0;
      while true
        invariant Synced() && pos >= old(pos) && Now() == old(Now()).(sent := output)
        decreases |script| - pos
      {
        var e := Next();
        match e {
          case Byte(b) => return 0, b;
          case Tick => Put(READY);
          case Expire => return -ETIMEDOUT, 0;
        }
      }
    }

    /** ymodem_read_byte. */
    method ReadByte() returns (rc: int, header: byte)
      requires Synced() && Now().phase == AtHeader && Now().gotMeta
      modifies `pos, `trace
      ensures Synced() && (rc == 0 || rc == -ETIMEDOUT)
      ensures rc == 0 ==> old(pos) < pos <= |script|
      ensures rc == 0 ==> Now() == OnHeader(old(Now()).(heard := old(Now()).heard + [header]), header)
      ensures rc != 0 ==> Now() == Abort(old(Now()), -ETIMEDOUT)
    {
      hide OnHeader, OnPacket, Run;
      header := 0;
      while true
        invariant Synced() && pos >= old(pos) && Now() == old(Now())
        decreases |script| - pos
      {
        var e := Next();
        match e {
          case Byte(b) => return 0, b;
          case Tick =>
          case Expire => return -ETIMEDOUT, 0;
        }
      }
    }

    /** ymodem_read_exact: a silence ends it.  When it succeeds, the last byte has completed a packet. */
    method ReadExact(kind: byte) returns (rc: int, body: seq<byte>)
      requires Synced() && kind in {SOH, STX} && Now().phase == InPacket(kind, [])
      modifies `pos, `trace
      ensures Synced() && pos >= old(pos) && (rc == 0 || rc == -ETIMEDOUT)
      ensures rc == 0 ==> |body| == DataLength(kind) + OVERHEAD && Completed(old(Now()), kind, body)
      ensures rc != 0 ==> Now() == Reject(old(Now()).(heard := Now().heard))
    {
      hide OnPacket, Run, Check;
      body := [];
      var n := DataLength(kind) + OVERHEAD;
      ghost var was := Now();
      while |body| < n
        invariant Synced() && pos >= old(pos) && |body| <= n
        invariant |body| < n ==> Now() == Reading(was, kind, body)
        invariant |body| == n ==> Completed(was, kind, body)
        decreases n - |body|, |script| - pos
      {
        var e := Next();
        match e {
          case Byte(b) =>
            ReadingStep(was, kind, body, b, 0);
            body := body + [b];
            assert body[..|body| - 1] + [b] == body;
          case Tick =>
          case Expire => return -ETIMEDOUT, body;
        }
      }
      rc := 0;
    }

    /** ymodem_read_packet. */
    method ReadPacket(header: byte) returns (rc: int, number: byte, data: seq<byte>, ghost body: seq<byte>)
      requires Synced() && (header in {SOH, STX} ==> Now().phase == InPacket(header, []))
      modifies `pos, `trace
      ensures Synced() && pos >= old(pos)
      ensures header !in {SOH, STX} ==> rc == -EINVAL && Now() == old(Now())
      ensures rc == 0 ==> header in {SOH, STX} && |body| == DataLength(header) + OVERHEAD
      ensures rc == 0 ==> Completed(old(Now()), header, body) && Check(body, DataLength(header)) == Good(number, data)
      ensures rc != 0 && header in {SOH, STX} ==> Now() == Reject(old(Now()).(heard := Now().heard))
    {
      hide Run, Crc16, Step, OnPacket;
      number, data, body := 0, [], [];
      if header != SOH && header != STX { return -EINVAL, number, data, body; }
      var n := DataLength(header);
      var packet;
      ghost var was := Now();
      rc, packet := ReadExact(header);
      body := packet;
      if rc != 0 { return; }
      if Add8(packet[0], packet[1]) != 0xff {
        rc := -EBADMSG;
      } else {
        var crc := ComputeCrc16(packet[2..n + 2]);
        if Join(packet[n + 2], packet[n + 3]) != crc { rc := -EBADMSG; }
      }
      number, data := packet[0], packet[2..n + 2];
      if rc != 0 { Resolve(was, header, packet, 0); RejectBad(was, packet, n); }
    }

    /** The packet just completed has its effect, with this reply from the store. */
    ghost method Resolve(was: State, kind: byte, body: seq<byte>, reply: int)
      requires Synced() && |body| == DataLength(kind) + OVERHEAD && Completed(was, kind, body)
      modifies `trace
      ensures Synced()
      ensures Now() == OnPacket(was.(heard := was.heard + body), Check(body, DataLength(kind)), reply)
    {
      hide Run, Check, OnPacket, Step, Reading;
      ghost var m := |body| - 1;
      ReadingStep(was, kind, body[..m], body[m], reply);
      assert body[..m] + [body[m]] == body;
      assert was.heard + body[..m] + [body[m]] == was.heard + body;
      Answered(reply);
    }

    /** The open session holds exactly the bytes of the writes made up to state `s`. */
    ghost predicate Tied(s: State)
      reads store, store.slot, store.direct, store.pending
    {
      && store.Valid()
      && (s.gotMeta ==>
            && store.active && store.clean && store.accepted == Stored(Writes(s.calls))
            && store.expected == s.expected)
    }

    ghost function Faults(): (nat, nat)
      reads store.direct, store.slot
    {
      (store.direct.faults, store.slot.faults)
    }

    ghost predicate NotFewer(before: (nat, nat))
      reads store.direct, store.slot
    {
      before.0 <= store.direct.faults && before.1 <= store.slot.faults
    }

    /** The routine has returned `rc` as the machine does.  After 0 the slot starts with the bytes of the
        writes, as many as were announced, and they are a sound image; a session that was opened is closed. */
    ghost predicate Ended(rc: int, committing: bool)
      reads `trace, `output, store, store.slot, store.direct, store.pending
    {
      Now().phase == Done(rc) && output == Now().sent && Outcome(Now(), rc, committing)
    }

    ghost predicate Outcome(s: State, rc: int, committing: bool)
      reads store, store.slot, store.direct, store.pending
    {
      && store.Valid() && (Opened(s.calls) ==> !store.active)
      && (rc == 0 ==>
            && |Stored(Writes(s.calls))| == s.expected
            && Installed(store.slot.cells, Stored(Writes(s.calls)), store.ramMax))
      && (committing ==> GoodImage(Stored(Writes(s.calls)), store.ramMax))
    }

    lemma NoEvents()
      requires Synced() && pos == 0
      ensures trace == []
    {
    }

    /** Leaving with an error that did not come from the store. */
    method Abandon(rc: int, active: bool, ghost was: State)
      requires Synced() && rc != 0 && store.Valid() && output == was.sent && was.active == active
      requires Kept(was) && !IsDone(was) && Now() == Abort(was, rc)
      modifies store, store.pending, store.direct, store.slot
      ensures Ended(rc, false) && NotFewer(old(Faults()))
      ensures store.slot != store.direct ==> store.slot.cells == old(store.slot.cells)
    {
      hide Run, Stored, Writes, Faithful, GoodImage, Installed, Synced, Abort, Kept, Opened;
      AbortEnds(was, rc);
      if active { var _, _ := store.Finish(rc); }
    }

    /** The file name block. */
    method TakeMetadata(ghost was: State, ghost kind: byte, ghost body: seq<byte>, data: seq<byte>)
      returns (rc: int, size: u32)
      requires Synced() && store.Valid() && output == was.sent && Kept(was) && !IsDone(was) && !was.gotMeta
      requires |body| == DataLength(kind) + OVERHEAD && Completed(was, kind, body)
      requires Check(body, DataLength(kind)) == Good(0, data)
      modifies store, store.pending, store.direct, `trace, `output
      ensures Synced() && Now() == OnMetadata(was.(heard := was.heard + body), 0, data, rc)
      ensures size == ParseSize(data) == Now().expected && (rc == 0 ==> size != 0)
      ensures output == Now().sent && (rc == 0 ==> Tied(Now()))
      ensures rc != 0 ==> Ended(rc, false)
      ensures NotFewer(old(Faults()))
      ensures old(Faults()) == Faults() && !old(store.active) && Takes(store, size) ==> rc == 0 && Smooth(Now().calls)
      ensures store.slot != store.direct ==> store.slot.cells == old(store.slot.cells)
    {
      hide Run, ParseSize, Check, Completed, GoodImage, Installed, Synced, Kept, Opened, Stored, Writes, OnMetadata,
        Reject;
      ghost var s := was.(heard := was.heard + body);
      size := ReadFileSize(data);
      NoCallsYet(was);
      if size == 0 {
        Resolve(was, kind, body, -EINVAL);
        MetadataEnds(was, s, data, -EINVAL);
        Put(NAK);
        return -EINVAL, size;
      }
      Put(ACK);
      Put(READY);
      rc := store.Begin(size);
      Resolve(was, kind, body, rc);
      MetadataEnds(was, s, data, rc);
      MetadataSmooth(s, data);
      if rc != 0 { Put(CAN); }
    }

    /** The empty block after the end of the file. */
    method TakeEnd(ghost was: State, ghost kind: byte, ghost body: seq<byte>, ghost data: seq<byte>)
      returns (rc: int, ghost committing: bool)
      requires Synced() && Tied(was) && output == was.sent && Kept(was) && !IsDone(was) && was.gotMeta && was.eotSeen
      requires |body| == DataLength(kind) + OVERHEAD && Completed(was, kind, body)
      requires Check(body, DataLength(kind)) == Good(0, data)
      modifies store, store.pending, store.direct, store.slot, `trace, `output
      ensures Synced() && Ended(rc, committing) && !store.active
      ensures Now() == OnPacket(was.(heard := was.heard + body), Good(0, data), rc) && NotFewer(old(Faults()))
      ensures old(Faults()) == Faults() && Takes(store, was.expected) && Smooth(was.calls) ==> Fair(Now(), store.ramMax)
      ensures !committing && store.slot != store.direct ==> store.slot.cells == old(store.slot.cells)
    {
      hide Run, Check, Completed, GoodImage, Installed, Synced, Kept, Opened, Stored, Writes;
      rc, committing := store.Finish(0);
      Resolve(was, kind, body, rc);
      CloseEnds(was, was.(heard := was.heard + body), data, rc);
      if Smooth(was.calls) && (rc == 0 <==> Whole(was, store.ramMax)) {
        CloseFair(was, was.(heard := was.heard + body), data, rc, store.ramMax);
      }
      if rc != 0 {
        Put(CAN);
        return;
      }
      Put(ACK);
    }

    /** The write of a block: without a fault the open session takes it. */
    method StoreBlock(at: nat, bytes: seq<byte>) returns (rc: int)
      requires store.Valid() && store.active && store.clean
      requires at == |store.accepted| && at + |bytes| <= store.expected
      modifies store, store.pending, store.direct
      ensures store.Valid() && store.expected == old(store.expected) && store.active
      ensures rc == 0 ==> store.clean && store.accepted == old(store.accepted) + bytes
      ensures old(Faults()) == Faults() && Takes(store, store.expected) ==> rc == 0
      ensures NotFewer(old(Faults()))
      ensures store.slot != store.direct ==> store.slot.cells == old(store.slot.cells)
    {
      rc := store.Write(at, bytes);
    }

    /** The session is given up with an error. */
    method GiveUp(rc: int)
      requires store.Valid() && rc != 0
      modifies store, store.pending, store.direct, store.slot
      ensures store.Valid() && !store.active && NotFewer(old(Faults()))
      ensures store.slot != store.direct ==> store.slot.cells == old(store.slot.cells)
    {
      var _, _ := store.Finish(rc);
    }

    /** A data block: what of it belongs to the file goes to the store. */
    method TakeData(ghost was: State, ghost kind: byte, ghost body: seq<byte>, data: seq<byte>,
                    received: nat, expected: nat)
      returns (rc: int, len: nat)
      requires Synced() && Tied(was) && output == was.sent && Kept(was) && !IsDone(was) && was.gotMeta
      requires received == was.received && expected == was.expected
      requires |body| == DataLength(kind) + OVERHEAD && Completed(was, kind, body)
      requires Check(body, DataLength(kind)) == Good(was.block, data) && !(was.eotSeen && was.block == 0)
      modifies store, store.pending, store.direct, store.slot, `trace, `output
      ensures Synced() && Now() == OnData(was.(heard := was.heard + body), data, rc) && output == Now().sent
      ensures len == Useful(was, |data|)
      ensures rc == 0 ==> Tied(Now())
      ensures rc != 0 ==> Ended(rc, false)
      ensures NotFewer(old(Faults()))
      ensures old(Faults()) == Faults() && Takes(store, was.expected) && Smooth(was.calls) ==>
        rc == 0 && Smooth(Now().calls)
      ensures store.slot != store.direct ==> store.slot.cells == old(store.slot.cells)
    {
      hide Run, Step, Check, Completed, GoodImage, Installed, Synced, Kept, Opened, Stored, Writes, OnData, Smooth,
        Takes, OnPacket, ImageStore.Valid, ImageStore.Config, InputAt, DataLength;
      len := |data|;
      ReceivedFits(was);
      if len > expected - received { len := expected - received; }
      rc := StoreBlock(received, data[..len]);
      Resolve(was, kind, body, rc);
      DataEnds(was, was.(heard := was.heard + body), data, rc);
      if Smooth(was.calls) { DataSmooth(was.(heard := was.heard + body), data); }
      if rc != 0 {
        GiveUp(rc);
        Put(CAN);
        return;
      }
      Put(ACK);
    }

    /** The machine waits for a header byte and the routine's variables are its fields; the prompt that
        opens a wait for the first block is still to be sent. */
    ghost predicate Looping(v: Vars)
      reads `pos, `trace, `output, store, store.slot, store.direct, store.pending
    {
      && Synced() && Now().phase == AtHeader && Tied(Now()) && Agree(Now(), v)
      && output + (if v.gotMeta then [] else [READY]) == Now().sent
    }

    /** What follows the header byte of a packet. */
    method TakePacket(header: byte, v: Vars) returns (done: bool, rc: int, ghost committing: bool, w: Vars)
      requires Synced() && Tied(Now()) && Agree(Now(), v)
      requires header in {SOH, STX} ==> Now().phase == InPacket(header, []) && output == Now().sent
      requires header !in {SOH, STX} ==>
        Now().phase == AtHeader && output + [NAK] + (if v.gotMeta then [] else [READY]) == Now().sent
      modifies this, store, store.pending, store.direct, store.slot
      ensures pos >= old(pos) && (done ==> Synced() && Ended(rc, committing)) && (!done ==> !committing && Looping(w))
      ensures NotFewer(old(Faults()))
      ensures (old(Faults()) == Faults() && (v.gotMeta || !old(store.active)) && Takes(store, Now().expected)
               && Smooth(old(Now()).calls)) ==> if done then Fair(Now(), store.ramMax) else Smooth(Now().calls)
      ensures !done && !w.gotMeta ==> !v.gotMeta && store.active == old(store.active)
      ensures v.gotMeta ==> Now().expected == v.expected
      ensures !(done && committing) && store.slot != store.direct ==> store.slot.cells == old(store.slot.cells)
    {
      hide Run, Step, Check, Kept, Stored, Writes, ParseSize, Completed, Installed, GoodImage, Closed, Opened, Synced,
        OnHeader, Outcome, Fair, Smooth, Takes, ImageStore.Valid, ImageStore.Config, InputAt;
      done, committing, w := false, false, v;
      ReceiverSafe(trace);
      ghost var s := Now();
      var number, data;
      ghost var body;
      rc, number, data, body := ReadPacket(header);
      if rc != 0 {
        Put(NAK);
        return;
      }
      if !v.gotMeta {
        if number != 0 {
          Resolve(s, header, body, 0);
          Put(NAK);
          return;
        }
        var size;
        rc, size := TakeMetadata(s, header, body, data);
        if rc != 0 { return true, rc, false, v; }
        w := v.(gotMeta := true, active := true, expected := size);
        return;
      }
      if v.eotSeen && number == 0 {
        rc, committing := TakeEnd(s, header, body, data);
        return true, rc, committing, v;
      }
      if number != v.block {
        Resolve(s, header, body, 0);
        Put(NAK);
        return;
      }
      var len;
      rc, len := TakeData(s, header, body, data, v.received, v.expected);
      if rc != 0 { return true, rc, false, v; }
      w := v.(received := v.received + len, block := Add8(v.block, 1));
    }

    /** The header byte; a silent line or the sender's cancel ends the transfer. */
    method TakeHeader(v: Vars) returns (rc: int, header: byte)
      requires Looping(v)
      modifies `pos, `trace, `output, store, store.pending, store.direct, store.slot
      ensures Synced() && (rc != 0 ==> Ended(rc, false))
      ensures rc == 0 ==> old(pos) < pos <= |script| && Tied(Now()) && header != CAN
      ensures rc == 0 ==>
        Now() == OnHeader(old(Now()).(sent := output, heard := old(Now()).heard + [header]), header)
      ensures store.slot != store.direct ==> store.slot.cells == old(store.slot.cells)
      ensures NotFewer(old(Faults())) && (rc == 0 ==> Faults() == old(Faults()) && store.active == old(store.active))
      ensures rc != 0 && Smooth(old(Now()).calls) ==> Fair(Now(), store.ramMax)
      ensures Now().expected == old(Now()).expected
    {
      hide Run, Step, Check, Kept, Stored, Writes, Installed, GoodImage, Closed, Opened, Synced, OnPacket, Outcome,
        Fair, Smooth, Takes, ImageStore.Valid, ImageStore.Config, InputAt;
      ReceiverSafe(trace);
      ghost var before := Now();
      if !v.gotMeta {
        rc, header := WaitHeader();
      } else {
        rc, header := ReadByte();
      }
      if rc != 0 {
        SentIgnored(before, output);
        Abandon(rc, v.active, before.(sent := output));
        if Smooth(before.calls) { AbortFair(before.(sent := output), rc, store.ramMax); }
        return;
      }
      if header == CAN {
        HeardIgnored(before, output, header);
        Abandon(-ECANCELED, v.active, before.(sent := output, heard := before.heard + [header]));
        if Smooth(before.calls) {
          AbortFair(before.(sent := output, heard := before.heard + [header]), -ECANCELED, store.ramMax);
        }
        rc := -ECANCELED;
      }
    }

    /** The end of the transmission: refused once, then acknowledged. */
    method TakeEot(v: Vars, ghost s: State) returns (w: Vars)
      requires Synced() && Now() == OnHeader(s, EOT) && s.phase == AtHeader
      requires Agree(s, v) && s.sent == output && Tied(s)
      modifies `output
      ensures Looping(w) && w == v.(eotSeen := true) && Now().calls == s.calls
    {
      hide Run, Stored, Writes, Synced;
      w := v;
      if !v.eotSeen {
        w := v.(eotSeen := true);
        Put(NAK);
      } else {
        Put(ACK);
        Put(READY);
      }
    }

    /** One turn of the loop. */
    method Turn(v: Vars) returns (done: bool, rc: int, ghost committing: bool, w: Vars)
      requires Looping(v)
      modifies this, store, store.pending, store.direct, store.slot
      ensures done ==> Synced() && Ended(rc, committing)
      ensures !done ==> Looping(w) && !committing && old(pos) < |script| && old(pos) < pos
      ensures !(done && committing) && store.slot != store.direct ==> store.slot.cells == old(store.slot.cells)
      ensures NotFewer(old(Faults()))
      ensures (old(Faults()) == Faults() && (v.gotMeta || !old(store.active)) && Takes(store, Now().expected)
               && Smooth(old(Now()).calls)) ==> if done then Fair(Now(), store.ramMax) else Smooth(Now().calls)
      ensures !done && !w.gotMeta ==> !v.gotMeta && store.active == old(store.active)
      ensures v.gotMeta ==> Now().expected == v.expected
    {
      hide Run, Step, Check, Kept, Stored, Writes, Completed, Installed, GoodImage, Closed, Opened, Synced, OnPacket,
        Outcome, Fair, Smooth, Takes, ImageStore.Valid, ImageStore.Config, InputAt;
      done, committing, w := true, false, v;
      ghost var before := Now();
      var header;
      rc, header := TakeHeader(v);
      if rc != 0 { return; }
      if header == EOT {
        w := TakeEot(v, before.(sent := output, heard := before.heard + [header]));
        done := false;
        return;
      }
      done, rc, committing, w := TakePacket(header, v);
    }

    /** rtbus_ymodem_recv.  The routine does what the machine does; unless the commit of a checked image
        had begun, a slot with its own staging area is untouched; and on a store without faults that takes
        the announced size, the replies are those of success, the last one exactly for a sound image. */
    method Recv() returns (rc: int, ghost committing: bool)
      requires Synced() && pos == 0 && output == [] && store.Valid()
      modifies this, store, store.pending, store.direct, store.slot
      ensures Synced() && Ended(rc, committing)
      ensures !committing && store.slot != store.direct ==> store.slot.cells == old(store.slot.cells)
      ensures old(Faults()) == Faults() && !old(store.active) && Takes(store, Now().expected) ==>
        Fair(Now(), store.ramMax)
    {
      hide Run, Kept, Stored, Writes, Synced, Ended, Fair, Smooth, Takes;
      var v := Vars(false, false, false, 0, 0, 1);
      rc, committing := 0, false;
      assert trace == [] by { NoEvents(); }
      RunNothing(trace);
      var done := false;
      while !done
        invariant done ==> Synced() && Ended(rc, committing)
        invariant !done ==> Looping(v) && !committing
        invariant !done && !v.gotMeta ==> store.active == old(store.active)
        invariant NotFewer(old(Faults()))
        invariant old(Faults()) == Faults() && !old(store.active) && Takes(store, Now().expected) ==>
          if done then Fair(Now(), store.ramMax) else Smooth(Now().calls)
        invariant !(done && committing) && store.slot != store.direct ==> store.slot.cells == old(store.slot.cells)
        decreases !done, |script| - pos
      {
        NotYetSmooth(trace);
        done, rc, committing, v := Turn(v);
      }
    }
  }

  lemma MetadataSmooth(s: State, data: seq<byte>)
    requires s.calls == []
    ensures Smooth(OnMetadata(s, 0, data, 0).calls)
  {
    hide ParseSize;
  }

  lemma DataSmooth(s: State, data: seq<byte>)
    requires Smooth(s.calls)
    ensures Smooth(OnData(s, data, 0).calls)
  {
  }

  lemma CloseFair(was: State, s: State, data: seq<byte>, rc: int, ramMax: nat)
    requires Kept(was) && !IsDone(was) && was.gotMeta && was.eotSeen && s == was.(heard := s.heard)
    requires Smooth(was.calls) && (rc == 0 <==> Whole(was, ramMax))
    ensures Fair(OnPacket(s, Good(0, data), rc), ramMax)
  {
    hide Kept, GoodImage, Stored, Writes;
    CloseEnds(was, s, data, rc);
  }

  /** A run that ends with an error of its own making asked for no successful finish. */
  lemma AbortFair(s: State, rc: int, ramMax: nat)
    requires Kept(s) && !IsDone(s) && rc != 0 && Smooth(s.calls)
    ensures Fair(Abort(s, rc), ramMax)
  {
    hide Faithful, GoodImage, Stored;
  }

  lemma NoCallsYet(s: State)
    requires Kept(s) && !IsDone(s) && !s.gotMeta
    ensures s.calls == [] && s.expected == 0
  {
  }

  lemma NotYetSmooth(trace: seq<Event>)
    ensures var s := Run(trace); !IsDone(s) && !s.gotMeta ==> Smooth(s.calls)
  {
    hide Run, Kept;
    ReceiverSafe(trace);
    if !IsDone(Run(trace)) && !Run(trace).gotMeta { NoCallsYet(Run(trace)); }
  }

  lemma AbortEnds(was: State, rc: int)
    requires Kept(was) && !IsDone(was)
    ensures var t := Abort(was, rc); t.phase == Done(rc) && t.sent == was.sent && (Opened(t.calls) ==> was.active)
  {
    hide Faithful, Stored, Writes;
  }

  lemma MetadataEnds(was: State, s: State, data: seq<byte>, rc: int)
    requires Kept(was) && !IsDone(was) && !was.gotMeta && s == was.(heard := s.heard)
    ensures var t := OnMetadata(s, 0, data, rc);
      && OnPacket(s, Good(0, data), rc) == t
      && (ParseSize(data) == 0 ==>
            t.phase == Done(-EINVAL) && t.expected == was.expected && t.sent == was.sent + [NAK] && !Opened(t.calls))
      && (ParseSize(data) != 0 ==>
            && t.gotMeta && t.expected == ParseSize(data) && Stored(Writes(t.calls)) == []
            && t.sent == was.sent + [ACK] + [READY] + (if rc == 0 then [] else [CAN])
            && (rc != 0 ==> t.phase == Done(rc) && !Opened(t.calls)))
  {
    hide Faithful, ParseSize;
  }

  lemma CloseEnds(was: State, s: State, data: seq<byte>, rc: int)
    requires Kept(was) && !IsDone(was) && was.gotMeta && was.eotSeen && s == was.(heard := s.heard)
    ensures var t := OnPacket(s, Good(0, data), rc);
      && t.phase == Done(rc) && t.sent == was.sent + [if rc == 0 then ACK else CAN]
      && t.expected == was.expected && Writes(t.calls) == Writes(was.calls)
  {
    hide Faithful;
  }

  lemma DataEnds(was: State, s: State, data: seq<byte>, rc: int)
    requires Kept(was) && !IsDone(was) && was.gotMeta && !(was.eotSeen && was.block == 0) && s == was.(heard := s.heard)
    ensures var t := OnData(s, data, rc);
      && OnPacket(s, Good(was.block, data), rc) == t
      && t.gotMeta && t.expected == was.expected
      && (if rc == 0 then t.sent == was.sent + [ACK] else t.phase == Done(rc) && t.sent == was.sent + [CAN])
      && Stored(Writes(t.calls)) == Stored(Writes(was.calls)) + data[..Useful(was, |data|)]
  {
    hide Faithful, Writes, Opened, Closed;
    var w := Write(was.received, data[..Useful(was, |data|)], |s.heard| - |data| - 5, rc);
    WritesGrow(was.calls, w, rc);
    assert (Writes(was.calls) + [w])[..|Writes(was.calls)|] == Writes(was.calls);
  }

  lemma ReceivedFits(s: State)
    requires Kept(s) && !IsDone(s) && s.gotMeta
    ensures s.received <= s.expected && s.received == |Stored(Writes(s.calls))|
  {
    hide AllGenuine, Contiguous, InOrder;
  }

  lemma SentIgnored(s: State, sent: seq<byte>)
    requires Kept(s)
    ensures Kept(s.(sent := sent))
  {
    hide Faithful, Opened, Closed, Writes;
  }

  lemma HeardIgnored(s: State, sent: seq<byte>, b: byte)
    requires Kept(s) && s.phase == AtHeader
    ensures Kept(s.(sent := sent, heard := s.heard + [b]))
  {
    hide Kept;
    HeardKeeps(s, b);
    SentIgnored(s.(heard := s.heard + [b], phase := AtHeader), sent);
  }

  lemma RunNothing(trace: seq<Event>)
    requires trace == []
    ensures Run(trace) == Start() && Smooth(Run(trace).calls)
  {
  }

  lemma RejectBad(s: State, body: seq<byte>, n: nat)
    requires |body| == n + OVERHEAD && Check(body, n) == Bad
    ensures OnPacket(s.(heard := s.heard + body), Check(body, n), 0) == Reject(s.(heard := s.heard + body))
  {
    hide Check;
  }
}
