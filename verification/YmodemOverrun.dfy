/** The receive ring under a transfer: how large it must be to lose nothing. */
module YmodemOverrun {
  import opened Bytes
  import opened YmodemPacket
  import opened YmodemSize
  import opened YmodemReceiver
  import opened YmodemSender
  import opened YmodemLink
  import opened YmodemRuns
  import opened RxRings
  import PortRouting

  lemma {:induction false} ApplicationGrows(s: seq<byte>, t: seq<byte>)
    requires s <= t
    ensures PortRouting.Application(s) <= PortRouting.Application(t)
    ensures |PortRouting.Application(t)| - |PortRouting.Application(s)| <= |t| - |s|
    decreases |t|
  {
    hide PortRouting.Application;
    if |s| == |t| {
      assert s == t;
    } else {
      var m := |t| - 1;
      ApplicationGrows(s, t[..m]);
      PortRouting.OneMoreKept(t[..m], t[m]);
      assert t[..m] + [t[m]] == t;
    }
  }

  /** The receiver has heard of the host's bytes what the router leaves of them. */
  predicate HeardThroughRouter(l: Link)
    requires l.passed <= |HostSent(l)|
  {
    l.rx.heard == PortRouting.Application(HostSent(l)[..l.passed])
  }

  lemma HearsMore(name: seq<byte>, file: seq<byte>, l: Link, m: Move)
    requires Sane(file, l) && Enabled(l, m) && HeardThroughRouter(l)
    ensures HeardThroughRouter(Make(name, file, l, m))
  {
    hide PortRouting.Application, OnHeader, OnPacket, Message, Answer, PortRouting.Unfinished, PortRouting.InCommand;
    var r := Make(name, file, l, m);
    match m
    case HostReads =>
      assert HostSent(l) <= HostSent(r);
      assert HostSent(r)[..l.passed] == HostSent(l)[..l.passed];
    case SecondPasses =>
    case DeviceReads =>
      var b, before := HostSent(l)[l.passed], HostSent(l)[..l.passed];
      assert HostSent(r)[..r.passed] == before + [b];
      PortRouting.OneMoreKept(before, b);
      HearsOne(l.rx, b);
  }

  lemma {:induction false} HearsAll(name: seq<byte>, file: seq<byte>, from: Link, moves: seq<Move>, after: Link)
    requires Sane(file, from) && Leads(name, file, from, moves, after) && HeardThroughRouter(from)
    ensures Sane(file, after) && HeardThroughRouter(after)
    decreases |moves|
  {
    hide HeardThroughRouter, Make;
    if moves != [] {
      HearsMore(name, file, from, moves[0]);
      HearsAll(name, file, Make(name, file, from, moves[0]), moves[1..], after);
    }
  }

  /** What a ring holds of a transfer of which `kept` has passed the router and `heard` has been read. */
  lemma RingHolds(ring: RxRing, before: seq<byte>, heard: seq<byte>, kept: seq<byte>)
    requires ring.Valid() && heard <= kept && ring.all == before + kept && ring.mark == |before| + |heard|
    ensures ring.Contents() == ring.all[ring.mark..] <==> |kept| - |heard| < ring.buffer.Length
    ensures |kept| - |heard| < ring.buffer.Length ==> heard + ring.Contents() == kept
  {
    hide Between;
    assert ring.all[ring.mark..] == kept[|heard|..];
  }

  /** At any time of any upload the router may be ahead of the receiver: it has dealt with the first `m` of
      the host's bytes, the receiver has read `|l.rx.heard|` bytes of the transfer out of the ring.  A ring
      of 1030 bytes or more still holds all the others, whatever was in it before. */
  lemma NothingOverrun(name: seq<byte>, file: seq<byte>, ticks: nat, moves: seq<Move>, l: Link,
                       before: seq<byte>, m: nat, ring: RxRing)
    requires file != [] && 0 < ParseSize(HeaderBlock(name, |file|)) && 0 !in name
    requires Leads(name, file, Begun(name, file, ticks), moves, l)
    requires l.passed <= m <= |HostSent(l)|
    requires ring.Valid() && ring.buffer.Length >= 1030
    requires ring.all == before + PortRouting.Application(HostSent(l)[..m])
    requires ring.mark == |before| + |l.rx.heard|
    ensures ring.Contents() == ring.all[ring.mark..]
    ensures l.rx.heard + ring.Contents() == PortRouting.Application(HostSent(l)[..m])
  {
    hide HeaderBlock, ParseSize, PortRouting.Application, Leads, Between;
    KeptInFlight(name, file, ticks, moves, l, m);
    RingHolds(ring, before, l.rx.heard, PortRouting.Application(HostSent(l)[..m]));
  }

  lemma KeptInFlight(name: seq<byte>, file: seq<byte>, ticks: nat, moves: seq<Move>, l: Link, m: nat)
    requires file != [] && 0 < ParseSize(HeaderBlock(name, |file|)) && 0 !in name
    requires Leads(name, file, Begun(name, file, ticks), moves, l)
    requires l.passed <= m <= |HostSent(l)|
    ensures l.rx.heard <= PortRouting.Application(HostSent(l)[..m])
    ensures |PortRouting.Application(HostSent(l)[..m])| - |l.rx.heard| <= 1029
  {
    hide HeaderBlock, ParseSize, PortRouting.Application, Leads;
    assert HeardThroughRouter(Begun(name, file, ticks)) by { Empty(); }
    HearsAll(name, file, Begun(name, file, ticks), moves, l);
    UploadCompletes(name, file, ParseSize(HeaderBlock(name, |file|)), ticks, moves, l);
    assert HostSent(l)[..l.passed] <= HostSent(l)[..m];
    ApplicationGrows(HostSent(l)[..l.passed], HostSent(l)[..m]);
  }

  lemma Empty()
    ensures PortRouting.Application([]) == []
  {
  }

  /** One more byte of the name block. */
  lemma NameByte(name: seq<byte>, file: seq<byte>, c: nat, l: Link, h: nat) returns (i: nat, g: nat)
    requires InStep(name, file, c, l, 1, 0, h) && l.started && l.tx == First(name, file)
    requires PortRouting.Plain(l.tx.sent)
    ensures Enabled(l, DeviceReads) && InStep(name, file, c, Make(name, file, l, DeviceReads), 1, i, g)
    ensures i <= 1 && (i == 0 ==> h < g < |Message(name, file, 0)|) && (i == 1 ==> g == 0)
  {
    hide InStep, Message, Step, PortRouting.Plain, PortRouting.Keeps;
    NameComing(name, file, c, l, h);
    HeardOfName(name, file, c, l, 0, h);
    var lost;
    i, g, lost := DeviceStep(name, file, c, l, 1, 0, h);
    var next := Make(name, file, l, DeviceReads);
    assert !lost by { hide Progress, Answers, Sent; }
    HeardOfName(name, file, c, next, i, g);
  }

  lemma NameComing(name: seq<byte>, file: seq<byte>, c: nat, l: Link, h: nat)
    requires InStep(name, file, c, l, 1, 0, h) && l.started && l.tx == First(name, file)
    ensures Enabled(l, DeviceReads) && l.passed < |Message(name, file, 0)|
  {
    hide Message, Answers, Progress, HeaderBlock, ParseSize, Step, PortRouting.Plain;
    NextByte(name, file, l, 1, 0, h);
  }

  /** Where in the first messages the device is when it has heard no more than the name block. */
  lemma HeardOfName(name: seq<byte>, file: seq<byte>, c: nat, l: Link, i: nat, g: nat)
    requires InStep(name, file, c, l, 1, i, g) && l.passed <= |Message(name, file, 0)|
    ensures i <= 1 && (i == 0 ==> l.passed == g < |Message(name, file, 0)|)
    ensures i == 1 ==> g == 0 && l.passed == |Message(name, file, 0)|
  {
    hide Message, Answers, Progress, HeaderBlock, ParseSize, HostAt, PortRouting.Plain;
    SentFirst(name, file);
    if i > 0 { Growing(name, file, 1, i); }
    if i > 1 {
      Growing(name, file, 2, i);
      SentOneMore(name, file, 1);
    }
  }

  /** The name block on its way: the device reads the rest of it. */
  lemma {:induction false} NameBlockPasses(name: seq<byte>, file: seq<byte>, c: nat, l: Link, h: nat)
      returns (moves: seq<Move>, after: Link)
    requires InStep(name, file, c, l, 1, 0, h) && l.started && l.tx == First(name, file)
    requires PortRouting.Plain(l.tx.sent)
    ensures Leads(name, file, l, moves, after) && InStep(name, file, c, after, 1, 1, 0)
    ensures after.started && after.tx == l.tx && after.read == l.read
    decreases |Message(name, file, 0)| - h
  {
    hide InStep, Message, Step, PortRouting.Plain, PortRouting.Keeps;
    var i, g := NameByte(name, file, c, l, h);
    moves, after := [], Make(name, file, l, DeviceReads);
    if i == 0 { moves, after := NameBlockPasses(name, file, c, after, g); }
    moves := [DeviceReads] + moves;
  }

  lemma SentFirst(name: seq<byte>, file: seq<byte>)
    ensures Sent(name, file, 0) == [] && Sent(name, file, 1) == Message(name, file, 0)
  {
    hide Message;
  }

  lemma {:induction false} ThenRead(name: seq<byte>, file: seq<byte>, from: Link, moves: seq<Move>, l: Link)
    requires Sane(file, from) && Leads(name, file, from, moves, l) && Sane(file, l) && Enabled(l, HostReads)
    ensures Leads(name, file, from, moves + [HostReads], Make(name, file, l, HostReads))
    decreases |moves|
  {
    hide Make;
    var all := moves + [HostReads];
    if moves == [] {
      assert all[1..] == [];
    } else {
      ThenRead(name, file, Make(name, file, from, moves[0]), moves[1..], l);
      assert all[1..] == moves[1..] + [HostReads];
    }
  }

  /** The answer to the name block makes the host send its first data block. */
  lemma HostGoesOn(name: seq<byte>, file: seq<byte>, l: Link)
    requires Sane(file, l) && l.started && l.tx == First(name, file) && l.read == 1
    requires l.rx.sent == Prompts(1) + Answers(file, 1)
    ensures Enabled(l, HostReads)
    ensures var a := Make(name, file, l, HostReads);
      Enabled(a, HostReads)
      && Make(name, file, a, HostReads) == l.(read := 3, tx := Sender(2, 0, Sent(name, file, 2), Working))
  {
    hide Message;
    assert Answers(file, 1) == Answers(file, 0) + Answer(file, 0) == [ACK, READY];
    assert l.rx.sent == [READY, ACK, READY];
    SentFirst(name, file);
    assert Sent(name, file, 2) == Sent(name, file, 1) + Message(name, file, 1);
  }

  /** The bound is reached: whenever the name block passes the router, there is a run that ends with all
      1029 bytes of the first data block in flight. */
  lemma FullFlight(name: seq<byte>, file: seq<byte>, ticks: nat) returns (moves: seq<Move>, l: Link)
    requires file != [] && 0 < ParseSize(HeaderBlock(name, |file|)) && 0 !in name
    requires PortRouting.Plain(Message(name, file, 0))
    ensures Leads(name, file, Begun(name, file, ticks), moves, l)
    ensures HostSent(l) == Message(name, file, 0) + Message(name, file, 1) && l.rx.heard == Message(name, file, 0)
    ensures |HostSent(l)| - l.passed == 1029
  {
    hide Message, HeaderBlock, ParseSize, Progress, PortRouting.Plain;
    var c, from := ParseSize(HeaderBlock(name, |file|)), Begun(name, file, ticks);
    SizeAtMost(name, |file|);
    BegunInStep(name, file, c, ticks);
    SentFirst(name, file);
    FirstPrompt(name, file, c, ticks);
    var more, mid := NameBlockPasses(name, file, c, Make(name, file, from, HostReads), 0);
    moves := [HostReads] + more;
    HostGoesOn(name, file, mid);
    ThenRead(name, file, from, moves, mid);
    l := Make(name, file, mid, HostReads);
    ThenRead(name, file, from, moves + [HostReads], l);
    moves, l := moves + [HostReads] + [HostReads], Make(name, file, l, HostReads);
    SentOneMore(name, file, 1);
    PacketShape(name, file, 1);
  }

  lemma FirstPrompt(name: seq<byte>, file: seq<byte>, c: nat, ticks: nat)
    requires InStep(name, file, c, Begun(name, file, ticks), 1, 0, 0)
    ensures var l := Begun(name, file, ticks);
      Enabled(l, HostReads) && InStep(name, file, c, Make(name, file, l, HostReads), 1, 0, 0)
    ensures Make(name, file, Begun(name, file, ticks), HostReads)
         == Begun(name, file, ticks).(started := true, read := 1)
  {
    hide Message, HeaderBlock, ParseSize, Progress, Traffic;
    HostStep(name, file, Begun(name, file, ticks), 1, 0, 0);
  }

  /** So 1030 bytes are needed: a smaller ring loses bytes of the first data block when the router takes all
      of it before the receiver reads on. */
  lemma SmallRingOverrun(name: seq<byte>, file: seq<byte>, l: Link, before: seq<byte>, ring: RxRing)
    requires file != [] && HostSent(l) == Message(name, file, 0) + Message(name, file, 1)
    requires l.rx.heard == Message(name, file, 0) && PortRouting.Plain(HostSent(l))
    requires ring.Valid() && ring.all == before + PortRouting.Application(HostSent(l))
    requires ring.mark == |before| + |l.rx.heard|
    ensures ring.Contents() == ring.all[ring.mark..] <==> ring.buffer.Length >= 1030
  {
    hide Message, PortRouting.Application, PortRouting.Plain;
    PortRouting.UnchangedIffNoCommand(HostSent(l));
    PacketShape(name, file, 1);
    RingHolds(ring, before, l.rx.heard, HostSent(l));
  }
}
