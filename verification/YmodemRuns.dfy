/** Whole uploads: what every order of events leads to. */
module YmodemRuns {
  import opened Bytes
  import opened YmodemPacket
  import opened YmodemSize
  import opened YmodemReceiver
  import opened YmodemSender
  import opened YmodemLink
  import PortRouting

  // ---- the two kinds of reachable state ----

  /** Everything sent so far has passed the router: the two sides are in step. */
  predicate InStep(name: seq<byte>, file: seq<byte>, c: nat, l: Link, p: nat, j: nat, h: nat)
  {
    && 0 < c == ParseSize(HeaderBlock(name, |file|)) && file != []
    && Traffic(name, file, l.rx, p, j, h) && Progress(file, c, l.rx, j) && HostAt(name, file, l, p, j, h)
    && l.passed == |l.rx.heard| && PortRouting.Plain(l.rx.heard)
  }

  /** The router has taken bytes out of packet `j`: the device waits for a packet it will never have whole,
      and the host for an answer it will never get. */
  predicate Robbed(name: seq<byte>, file: seq<byte>, c: nat, l: Link, p: nat, j: nat)
  {
    && Sane(file, l) && l.started && l.tx.status == Working && l.tx.got == 0 && l.tx.next == j + 1
    && l.tx.sent == Sent(name, file, j + 1) && !PortRouting.Plain(l.tx.sent)
    && l.rx.phase.InPacket? && l.rx.phase.kind in {SOH, STX}
    && |Message(name, file, j)| == DataLength(l.rx.phase.kind) + 5
    && |Sent(name, file, j)| + |l.rx.phase.buf| + 2 <= l.passed
    && p > 0 && l.rx.sent == Prompts(p) + Answers(file, j) && Progress(file, c, l.rx, j)
    && (if j == 0 then l.read <= p else l.read == |l.rx.sent|)
  }

  /** A byte on its way to the device while the two are in step. */
  lemma DeviceStep(name: seq<byte>, file: seq<byte>, c: nat, l: Link, p: nat, j: nat, h: nat)
      returns (i: nat, g: nat, robbed: bool)
    requires InStep(name, file, c, l, p, j, h) && Enabled(l, DeviceReads)
    ensures var next := Make(name, file, l, DeviceReads);
      if robbed then Robbed(name, file, c, next, p, i) else InStep(name, file, c, next, p, i, g)
  {
    hide Message, Answers, Step, Progress, HeaderBlock, ParseSize, Sent;
    NextByte(name, file, l, p, j, h);
    var b := Message(name, file, j)[h];
    assert HostSent(l)[..l.passed] == l.rx.heard;
    PortRouting.KeepsPlain(l.rx.heard, b);
    i, g, robbed := j, 0, false;
    if !PortRouting.Keeps(l.rx.heard, b) {
      robbed := true;
      RobbedHere(name, file, c, l, p, j, h);
    } else {
      HearsOne(l.rx, b);
      if h + 1 < |Message(name, file, j)| {
        InsideStep(name, file, c, l.rx, p, j, h);
        g := h + 1;
      } else {
        LastStep(name, file, c, l.rx, p, j, h);
        i := j + 1;
      }
    }
  }

  /** No message starts with an '@', so what the router takes out is inside a packet. */
  lemma RobbedHere(name: seq<byte>, file: seq<byte>, c: nat, l: Link, p: nat, j: nat, h: nat)
    requires InStep(name, file, c, l, p, j, h) && Enabled(l, DeviceReads) && l.started && j < l.tx.next
    requires Message(name, file, j)[h] == PortRouting.AT && HostSent(l)[..l.passed] == l.rx.heard
    requires HostSent(l)[l.passed] == PortRouting.AT && !PortRouting.Plain(l.rx.heard + [PortRouting.AT])
    ensures Robbed(name, file, c, l.(passed := l.passed + 1), p, j)
  {
    hide Message, Answers, HeaderBlock, ParseSize, Sent, Progress, PortRouting.Plain;
    StartByte(name, file, j);
    assert h > 0;
    var m := Message(name, file, j);
    assert |l.rx.heard| == |Sent(name, file, j)| + h && |m[1..h]| == h - 1;
    if PortRouting.Plain(l.tx.sent) {
      assert l.rx.heard + [PortRouting.AT] == l.tx.sent[..l.passed + 1];
      PortRouting.PlainPrefix(l.rx.heard + [PortRouting.AT], l.tx.sent);
    }
    NoAnswers(file);
  }

  lemma StartByte(name: seq<byte>, file: seq<byte>, j: nat)
    requires j < Messages(file)
    ensures var m := Message(name, file, j);
      m[0] != PortRouting.AT && (|m| > 1 ==> m[0] in {SOH, STX} && |m| == DataLength(m[0]) + 5)
  {
    hide Message, Check, HeaderBlock, Chunk;
    if IsPacket(file, j) { PacketShape(name, file, j); } else { EndShape(name, file, j); }
  }

  /** What is lost stays lost. */
  lemma RobbedStays(name: seq<byte>, file: seq<byte>, c: nat, l: Link, p: nat, j: nat, m: Move)
    requires Robbed(name, file, c, l, p, j) && Enabled(l, m)
    ensures Robbed(name, file, c, Make(name, file, l, m), p, j)
  {
    hide Message, Sent, Check, OnPacket, Progress;
    NoAnswers(file);
    match m
    case HostReads =>
      assert j == 0 && l.rx.sent[l.read] == READY;
      assert Expected(file, l.tx) == ACK;
    case SecondPasses =>
    case DeviceReads =>
      assert |l.tx.sent| == |Sent(name, file, j)| + |Message(name, file, j)| by { SentOneMore(name, file, j); }
      HeardProgress(file, c, l.rx, HostSent(l)[l.passed], j);
      var b := HostSent(l)[l.passed];
      PhaseProgress(file, c, Heard(l.rx, b), InPacket(l.rx.phase.kind, l.rx.phase.buf + [b]), j);
  }

  lemma TickStep(name: seq<byte>, file: seq<byte>, c: nat, l: Link, p: nat, j: nat, h: nat) returns (q: nat)
    requires InStep(name, file, c, l, p, j, h) && Enabled(l, SecondPasses)
    ensures InStep(name, file, c, Make(name, file, l, SecondPasses), q, j, h) && q <= p + 1
  {
    hide Message, Sent, HeaderBlock, ParseSize, Opened, Closed, Writes, Stored, Taken;
    if j == 0 && h == 0 {
      q := p + 1;
      assert Answers(file, 0) == [];
      assert Prompts(p) + [READY] == Prompts(p + 1);
    } else {
      q := p;
    }
  }

  lemma HearsOne(s: State, b: byte)
    requires !IsDone(s)
    ensures Step(s, Event(Byte(b), 0)).heard == s.heard + [b]
  {
    hide Check, ParseSize;
  }

  // ---- how long it takes, and where it ends ----

  /** What is still to come at most: seconds of silence, bytes for the device, bytes for the host. */
  function Left(name: seq<byte>, file: seq<byte>, l: Link, p: nat): int
  {
    2 * l.ticks + |Sent(name, file, Messages(file))| - l.passed + p + |Answers(file, Messages(file))| - l.read
  }

  /** A state of one of the two kinds. */
  predicate Somewhere(name: seq<byte>, file: seq<byte>, c: nat, l: Link, p: nat, j: nat, h: nat, robbed: bool)
  {
    if robbed then Robbed(name, file, c, l, p, j) else InStep(name, file, c, l, p, j, h)
  }

  lemma SomethingLeft(name: seq<byte>, file: seq<byte>, c: nat, l: Link, p: nat, j: nat, h: nat, robbed: bool)
    requires Somewhere(name, file, c, l, p, j, h, robbed)
    ensures Left(name, file, l, p) >= 0
  {
    hide Message, Sent, Answers, Progress, HeaderBlock, ParseSize;
    Growing(name, file, j, Messages(file));
    Growing(name, file, l.tx.next - 1, Messages(file));
    Growing(name, file, l.tx.next, Messages(file));
    Growing(name, file, l.tx.next - 1, l.tx.next);
    if j == l.tx.next && l.tx.status == Working && l.started { NextAnswer(file, p, j, l.tx.got); }
    NoAnswers(file);
  }

  /** No deadlock while the two are in step: when nothing can happen, both have succeeded. */
  lemma NeverStuck(name: seq<byte>, file: seq<byte>, c: nat, l: Link, p: nat, j: nat, h: nat)
    requires InStep(name, file, c, l, p, j, h)
    ensures Stopped(l) <==> Succeeded(l, file[..c])
    ensures Stopped(l) ==> PortRouting.Plain(Sent(name, file, Messages(file)))
  {
    hide Message, HeaderBlock, ParseSize, Writes, Stored, Opened, Closed;
    NextByte(name, file, l, p, j, h);
    if l.started && l.tx.status == Working && j == l.tx.next { NextAnswer(file, p, j, l.tx.got); }
    if l.tx.status == Success { ChunkBounds(|file|, Chunks(|file|) - 1); }
    NoAnswers(file);
  }

  /** A robbed upload has not succeeded and never will, and the bytes to send say so beforehand. */
  lemma RobbedFails(name: seq<byte>, file: seq<byte>, c: nat, l: Link, p: nat, j: nat, image: seq<byte>)
    requires Robbed(name, file, c, l, p, j)
    ensures !Succeeded(l, image) && !PortRouting.Plain(Sent(name, file, Messages(file)))
  {
    hide Message, Sent, Progress;
    Growing(name, file, j + 1, Messages(file));
    if PortRouting.Plain(Sent(name, file, Messages(file))) {
      PortRouting.PlainPrefix(l.tx.sent, Sent(name, file, Messages(file)));
    }
  }

  lemma {:induction false} Runs(name: seq<byte>, file: seq<byte>, c: nat, from: Link, p: nat, j: nat, h: nat,
                                robbed: bool, moves: seq<Move>, after: Link)
      returns (q: nat, i: nat, g: nat, lost: bool)
    requires Somewhere(name, file, c, from, p, j, h, robbed)
    requires Sane(file, from) && Leads(name, file, from, moves, after)
    ensures Somewhere(name, file, c, after, q, i, g, lost)
    ensures |moves| + Left(name, file, after, q) <= Left(name, file, from, p)
    decreases |moves|
  {
    hide Somewhere;
    q, i, g, lost := p, j, h, robbed;
    if moves != [] {
      var next := Make(name, file, from, moves[0]);
      q, i, g, lost := OneMove(name, file, c, from, p, j, h, robbed, moves[0]);
      q, i, g, lost := Runs(name, file, c, next, q, i, g, lost, moves[1..], after);
    }
  }

  lemma OneMove(name: seq<byte>, file: seq<byte>, c: nat, l: Link, p: nat, j: nat, h: nat, robbed: bool, m: Move)
      returns (q: nat, i: nat, g: nat, lost: bool)
    requires Somewhere(name, file, c, l, p, j, h, robbed) && Sane(file, l) && Enabled(l, m)
    ensures var next := Make(name, file, l, m);
      Somewhere(name, file, c, next, q, i, g, lost) && Left(name, file, next, q) < Left(name, file, l, p)
  {
    hide Progress, HostAt, Traffic, Sent, Answers, HeaderBlock, ParseSize;
    q, i, g, lost := p, j, h, robbed;
    if robbed {
      hide Robbed;
      RobbedStays(name, file, c, l, p, j, m);
    } else {
      match m
      case HostReads => HostStep(name, file, l, p, j, h);
      case DeviceReads => i, g, lost := DeviceStep(name, file, c, l, p, j, h);
      case SecondPasses => q := TickStep(name, file, c, l, p, j, h);
    }
  }

  /** Every upload of a non-empty file, in every order of events, takes a bounded number of steps, never
      has more than one message in flight, never ends in failure, and gives the store nothing but the front
      of the file.  When it comes to rest, both sides have succeeded and the store holds the file's first
      `c` bytes, `c` being the size the receiver makes of the header block, exactly if no '@' stands at a
      line start of the bytes to be sent; with such an '@' it rests with the sender waiting. */
  lemma UploadCompletes(name: seq<byte>, file: seq<byte>, c: nat, ticks: nat, moves: seq<Move>, after: Link)
    requires file != [] && 0 < c == ParseSize(HeaderBlock(name, |file|)) && 0 !in name
    requires Leads(name, file, Begun(name, file, ticks), moves, after)
    ensures |moves| <= 2 * ticks + |Sent(name, file, Messages(file))| + |Answers(file, Messages(file))| + 1
    ensures |HostSent(after)| - after.passed <= 1029
    ensures after.tx.status != Failure && (IsDone(after.rx) ==> after.rx.phase == Done(0))
    ensures Stored(Writes(after.rx.calls)) <= file
    ensures Stopped(after) ==>
      (Succeeded(after, Front(file, c)) <==> PortRouting.Plain(Sent(name, file, Messages(file))))
    ensures PortRouting.Plain(Sent(name, file, Messages(file))) ==>
      (Stopped(after) <==> Succeeded(after, Front(file, c)))
    ensures Stopped(after) && !PortRouting.Plain(Sent(name, file, Messages(file))) ==> after.tx.status == Working
  {
    hide HeaderBlock, ParseSize, Sent, Answers, Left;
    SizeAtMost(name, |file|);
    BegunInStep(name, file, c, ticks);
    var q, i, g, lost := Runs(name, file, c, Begun(name, file, ticks), 1, 0, 0, false, moves, after);
    SomethingLeft(name, file, c, after, q, i, g, lost);
    LeftAtFirst(name, file, ticks);
    InFlight(name, file, c, after, q, i, g, lost);
    if lost {
      RobbedFails(name, file, c, after, q, i, Front(file, c));
    } else {
      NeverStuck(name, file, c, after, q, i, g);
    }
  }

  function Front(file: seq<byte>, c: nat): seq<byte>
  {
    if c <= |file| then file[..c] else file
  }

  lemma InFlight(name: seq<byte>, file: seq<byte>, c: nat, l: Link, p: nat, j: nat, h: nat, robbed: bool)
    requires Somewhere(name, file, c, l, p, j, h, robbed)
    ensures |HostSent(l)| - l.passed <= 1029
    ensures l.tx.status != Failure && (IsDone(l.rx) ==> l.rx.phase == Done(0)) && Stored(Writes(l.rx.calls)) <= file
  {
    hide Message, HeaderBlock, ParseSize, Stored, Writes, Opened, Closed, Answers;
    if l.started {
      MessageLength(name, file, l.tx.next - 1);
      SentOneMore(name, file, l.tx.next - 1);
    }
  }

  lemma MessageLength(name: seq<byte>, file: seq<byte>, j: nat)
    requires j < Messages(file)
    ensures |Message(name, file, j)| <= 1029
  {
    hide Message;
    if IsPacket(file, j) { PacketShape(name, file, j); } else { EndShape(name, file, j); }
  }

  lemma LeftAtFirst(name: seq<byte>, file: seq<byte>, ticks: nat)
    ensures Left(name, file, Begun(name, file, ticks), 1)
         == 2 * ticks + |Sent(name, file, Messages(file))| + |Answers(file, Messages(file))| + 1
  {
    hide Sent, Answers;
  }

  lemma BegunInStep(name: seq<byte>, file: seq<byte>, c: nat, ticks: nat)
    requires file != [] && 0 < c == ParseSize(HeaderBlock(name, |file|)) && c <= |file|
    ensures InStep(name, file, c, Begun(name, file, ticks), 1, 0, 0)
  {
    hide HeaderBlock, ParseSize, Message;
    var l := Begun(name, file, ticks);
    assert Sent(name, file, 1) == Message(name, file, 0) by { assert Sent(name, file, 0) == []; }
    assert l.rx.sent == Prompts(1) + Answers(file, 0);
  }

  lemma SizeAtMost(name: seq<byte>, size: nat)
    requires 0 !in name && size > 0
    ensures ParseSize(HeaderBlock(name, size)) <= size
  {
    hide HeaderBlock, ParseSize, Value;
    if |name| >= 126 {
      LongName(name, size);
    } else if size < WORD_LIMIT {
      ReadBack(name, size);
      RoomValue(name, size);
    }
  }

  // ---- a header block that does not fit ----

  /** The receiver makes nothing of the header block: it refuses it, and the sender gets no answer. */
  predicate Refusing(name: seq<byte>, file: seq<byte>, l: Link, p: nat, h: nat)
  {
    && Sane(file, l) && l.tx == First(name, file) && ParseSize(HeaderBlock(name, |file|)) == 0
    && (forall i | 0 <= i < |l.rx.sent| :: l.rx.sent[i] == READY || l.rx.sent[i] == NAK)
    && (IsDone(l.rx)
        || (Traffic(name, file, l.rx, p, 0, h) && Progress(file, 0, l.rx, 0)
            && l.passed == |l.rx.heard| && PortRouting.Plain(l.rx.heard) && (l.started ==> l.read <= p)))
  }

  lemma RefusalStep(name: seq<byte>, file: seq<byte>, l: Link, p: nat, h: nat, m: Move)
      returns (q: nat, g: nat, robbed: bool)
    requires Refusing(name, file, l, p, h) && Enabled(l, m)
    ensures var next := Make(name, file, l, m);
      if robbed then Robbed(name, file, 0, next, q, 0) else Refusing(name, file, next, q, g)
  {
    hide HeaderBlock, ParseSize, Message, Opened, Closed, Writes, Stored, Taken, Answers, PortRouting.Plain;
    q, g, robbed := p, h, false;
    match m
    case HostReads =>
      NoAckIn(name, file, l);
      NoAnswers(file);
    case SecondPasses =>
      NoAnswers(file);
      if h == 0 {
        q := p + 1;
        assert Prompts(p) + [READY] == Prompts(p + 1);
      }
    case DeviceReads => g, robbed := RefusalByte(name, file, l, p, h);
  }

  lemma RefusalByte(name: seq<byte>, file: seq<byte>, l: Link, p: nat, h: nat) returns (g: nat, robbed: bool)
    requires Refusing(name, file, l, p, h) && Enabled(l, DeviceReads)
    ensures var next := Make(name, file, l, DeviceReads);
      if robbed then Robbed(name, file, 0, next, p, 0) else Refusing(name, file, next, p, g)
  {
    hide HeaderBlock, ParseSize, Message, Opened, Closed, Writes, Stored, Taken, Answers, PortRouting.Plain, Step;
    assert HostSent(l) == Message(name, file, 0) == Sent(name, file, 1) by { assert Sent(name, file, 0) == []; }
    var b := Message(name, file, 0)[h];
    assert HostSent(l)[..l.passed] == l.rx.heard;
    PortRouting.KeepsPlain(l.rx.heard, b);
    g, robbed := 0, false;
    if !PortRouting.Keeps(l.rx.heard, b) {
      robbed := true;
      RefusalRobbed(name, file, l, p, h);
    } else {
      HearsOne(l.rx, b);
      if h + 1 < |Message(name, file, 0)| {
        InsideStep(name, file, 0, l.rx, p, 0, h);
        g := h + 1;
      } else {
        PacketStep(name, file, l.rx, p, 0, h, 0);
        Refuses(Heard(l.rx, b), HeaderBlock(name, |file|));
      }
    }
  }

  lemma RefusalRobbed(name: seq<byte>, file: seq<byte>, l: Link, p: nat, h: nat)
    requires Refusing(name, file, l, p, h) && Enabled(l, DeviceReads)
    requires HostSent(l) == Message(name, file, 0) == Sent(name, file, 1) && HostSent(l)[..l.passed] == l.rx.heard
    requires HostSent(l)[l.passed] == PortRouting.AT && !PortRouting.Plain(l.rx.heard + [PortRouting.AT])
    ensures Robbed(name, file, 0, l.(passed := l.passed + 1), p, 0)
  {
    hide Message, Answers, HeaderBlock, ParseSize, Progress, PortRouting.Plain, Sent;
    StartByte(name, file, 0);
    NoMessages(name, file);
    var m := Message(name, file, 0);
    assert h == l.passed > 0 && |m[1..h]| == h - 1;
    if PortRouting.Plain(l.tx.sent) {
      assert l.rx.heard + [PortRouting.AT] == l.tx.sent[..l.passed + 1];
      PortRouting.PlainPrefix(l.rx.heard + [PortRouting.AT], l.tx.sent);
    }
    NoAnswers(file);
  }

  lemma NoMessages(name: seq<byte>, file: seq<byte>)
    ensures Sent(name, file, 0) == []
  {
  }

  lemma NoAckIn(name: seq<byte>, file: seq<byte>, l: Link)
    ensures Expected(file, First(name, file)) == ACK
  {
  }

  lemma Refuses(s: State, data: seq<byte>)
    requires !s.gotMeta && ParseSize(data) == 0
    ensures var t := OnPacket(s, Good(0, data), 0); IsDone(t) && t.sent == s.sent + [NAK]
  {
    hide ParseSize;
  }

  lemma {:induction false} RefusalRuns(name: seq<byte>, file: seq<byte>, from: Link, p: nat, h: nat, robbed: bool,
                                       moves: seq<Move>, after: Link)
    requires if robbed then Robbed(name, file, 0, from, p, 0) else Refusing(name, file, from, p, h)
    requires Sane(file, from) && Leads(name, file, from, moves, after)
    ensures after.tx.status == Working
    decreases |moves|
  {
    hide HeaderBlock, ParseSize, Message, Traffic, Progress;
    if moves != [] {
      var q, g, lost := p, h, robbed;
      if robbed {
        RobbedStays(name, file, 0, from, p, 0, moves[0]);
      } else {
        q, g, lost := RefusalStep(name, file, from, p, h, moves[0]);
      }
      RefusalRuns(name, file, Make(name, file, from, moves[0]), q, g, lost, moves[1..], after);
    }
  }

  lemma RefusingBegins(name: seq<byte>, file: seq<byte>, ticks: nat)
    requires ParseSize(HeaderBlock(name, |file|)) == 0
    ensures Refusing(name, file, Begun(name, file, ticks), 1, 0)
  {
    hide HeaderBlock, ParseSize, Message;
    var l := Begun(name, file, ticks);
    assert l.rx.sent == Prompts(1) + Answers(file, 0);
    assert Sent(name, file, 0) == [];
  }

  /** When nothing more can happen, the whole file has arrived, with both sides successful, exactly if name,
      NUL and decimal size fit into 127 bytes, the size is a 32-bit number, and no '@' stands at a line start
      of the bytes to be sent. */
  lemma WholeFileIff(name: seq<byte>, file: seq<byte>, ticks: nat, moves: seq<Move>, after: Link)
    requires file != [] && 0 !in name
    requires Leads(name, file, Begun(name, file, ticks), moves, after) && Stopped(after)
    ensures Succeeded(after, file)
      <==> |name| + 1 + |Decimal(|file|)| <= 127 && |file| < WORD_LIMIT
           && PortRouting.Plain(Sent(name, file, Messages(file)))
  {
    hide HeaderBlock, ParseSize, Decimal, Stopped, Message, Sent, Answers;
    var c := ParseSize(HeaderBlock(name, |file|));
    HeaderRoundTrip(name, |file|);
    if c == 0 {
      RefusingBegins(name, file, ticks);
      RefusalRuns(name, file, Begun(name, file, ticks), 1, 0, false, moves, after);
    } else {
      SizeAtMost(name, |file|);
      UploadCompletes(name, file, c, ticks, moves, after);
    }
  }

  /** Where the condition fails: a line feed and an '@' side by side in a block of the file are enough, so
      such a file never arrives, however often it is sent. */
  lemma LineFeedAtBlocksUpload(name: seq<byte>, file: seq<byte>, k: nat)
    requires k + 1 < |file| && file[k] == PortRouting.LF && file[k + 1] == PortRouting.AT && k % 1024 != 1023
    ensures !PortRouting.Plain(Sent(name, file, Messages(file)))
  {
    hide Sent, Message;
    var j, h := k / 1024, k % 1024;
    SameBlock(k);
    ByteInBlock(name, file, k);
    ByteInBlock(name, file, k + 1);
    SentAt(name, file, j + 1, h + 3, Messages(file));
    SentAt(name, file, j + 1, h + 4, Messages(file));
    AtAfterLine(Sent(name, file, Messages(file)), |Sent(name, file, j + 1)| + h + 4);
  }

  lemma SameBlock(k: nat)
    requires k % 1024 != 1023
    ensures (k + 1) / 1024 == k / 1024 && (k + 1) % 1024 == k % 1024 + 1
  {
  }

  lemma AtAfterLine(s: seq<byte>, i: nat)
    requires 0 < i < |s| && s[i] == PortRouting.AT && s[i - 1] == PortRouting.LF
    ensures !PortRouting.Plain(s)
  {
  }

  /** Byte `k` of the file travels in message `k / 1024 + 1`, behind start byte, number and complement. */
  lemma ByteInBlock(name: seq<byte>, file: seq<byte>, k: nat)
    requires k < |file|
    ensures k / 1024 + 1 < Messages(file) && k % 1024 + 3 < |Message(name, file, k / 1024 + 1)|
    ensures Message(name, file, k / 1024 + 1)[k % 1024 + 3] == file[k]
  {
    hide HeaderBlock;
    var i := k / 1024;
    ChunkBounds(|file|, i);
    assert Chunk(file, i)[k % 1024] == file[k];
    assert Message(name, file, i + 1) == Packet(STX, (i + 1) % 256, Chunk(file, i));
  }
}
