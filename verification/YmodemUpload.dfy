/** An upload from end to end: the sender's bytes, over the line, through the receiver, into flash. */
module YmodemUpload {
  import opened Bytes
  import opened YmodemPacket
  import opened YmodemSize
  import opened YmodemReceiver
  import opened YmodemSender
  import opened YmodemLink
  import opened YmodemTask
  import PortRouting
  import opened Crc
  import opened ImageHeader
  import opened ImageStores
  import opened Packer

  /** The bytes among some inputs. */
  function BytesOf(inputs: seq<Input>): seq<byte>
  {
    if inputs == [] then []
    else BytesOf(inputs[..|inputs| - 1]) + match inputs[|inputs| - 1] case Byte(b) => [b] case _ => []
  }

  function InputsOf(events: seq<Event>): (r: seq<Input>)
    ensures |r| == |events| && forall i | 0 <= i < |events| :: r[i] == events[i].input
  {
    seq(|events|, i requires 0 <= i < |events| => events[i].input)
  }

  /** No wait expires. */
  predicate Lively(inputs: seq<Input>)
  {
    forall i | 0 <= i < |inputs| :: !inputs[i].Expire?
  }

  /** The transfer is over: the store was given the first `c` bytes and asked to finish. */
  predicate Finished(file: seq<byte>, c: nat, s: State)
  {
    && s.phase.Done? && Opened(s.calls) && s.calls[|s.calls| - 1] == Finish(0, s.phase.rc)
    && s.expected == c <= |file| && Stored(Writes(s.calls)) == file[..c]
  }

  lemma {:induction false} BytesOfPrefix(inputs: seq<Input>, k: nat)
    requires k <= |inputs|
    ensures BytesOf(inputs[..k]) <= BytesOf(inputs)
    decreases |inputs|
  {
    if k < |inputs| {
      var m := |inputs| - 1;
      BytesOfPrefix(inputs[..m], k);
      assert inputs[..m][..k] == inputs[..k];
    } else {
      assert inputs[..k] == inputs;
    }
  }

  lemma CallsGrow(s: State, e: Event)
    ensures s.calls <= Step(s, e).calls && (Smooth(Step(s, e).calls) ==> Smooth(s.calls))
  {
    hide Check, ParseSize;
    var t := Step(s, e);
    assert s.calls <= t.calls;
    if Smooth(t.calls) {
      forall i | 0 <= i < |s.calls| && !s.calls[i].Finish? ensures s.calls[i].rc == 0 {
        assert t.calls[i] == s.calls[i];
      }
    }
  }

  /** A step all of whose calls succeed, and which does not finish the session, is one of an accepting
      store. */
  lemma ReplyZero(s: State, e: Event)
    requires Smooth(Step(s, e).calls) && Closed(Step(s, Event(e.input, 0)).calls) == Closed(s.calls)
    requires !Closed(s.calls) && (s.phase.InPacket? && s.gotMeta ==> Opened(s.calls))
    ensures Step(s, e) == Step(s, Event(e.input, 0))
  {
    hide Check, ParseSize;
    var t := Step(s, e);
    if e.reply != 0 && t.calls != s.calls {
      assert t.calls[|s.calls|].Finish? || t.calls[|s.calls|].rc == 0;
    }
  }

  /** The receiver reads byte `h` of message `j`, whatever the store answers, as long as it does not
      refuse. */
  lemma ReadsOn(name: seq<byte>, file: seq<byte>, c: nat, s: State, e: Event, p: nat, j: nat, h: nat)
      returns (i: nat, g: nat)
    requires Traffic(name, file, s, p, j, h) && Progress(file, c, s, j) && j < Messages(file)
    requires file != [] && 0 < c == ParseSize(HeaderBlock(name, |file|))
    requires e.input == Byte(Message(name, file, j)[h]) && Smooth(Step(s, e).calls)
    requires !(j + 1 == Messages(file) && h + 1 == |Message(name, file, j)|)
    ensures Traffic(name, file, Step(s, e), p, i, g) && Progress(file, c, Step(s, e), i) && i < Messages(file)
  {
    hide Message, Step, OnPacket, HeaderBlock, ParseSize, Writes, Stored, Taken, Closed, Opened, Answers, Sent, Smooth;
    if h + 1 < |Message(name, file, j)| {
      InsideStep(name, file, c, s, p, j, h);
      i, g := j, h + 1;
    } else {
      LastStep(name, file, c, s, p, j, h);
      i, g := j + 1, 0;
    }
    ReplyZero(s, e);
  }

  /** The last byte of all: the store is asked to finish. */
  lemma ReadsLast(name: seq<byte>, file: seq<byte>, c: nat, s: State, e: Event, p: nat, j: nat, h: nat)
    requires Traffic(name, file, s, p, j, h) && Progress(file, c, s, j) && j + 1 == Messages(file)
    requires h + 1 == |Message(name, file, j)| && e.input == Byte(Message(name, file, j)[h])
    ensures Finished(file, c, Step(s, e))
  {
    hide Message, Step, HeaderBlock, ParseSize, Stored, Answers, Sent, Contents;
    PacketStep(name, file, s, p, j, h, e.reply);
    var t := OnPacket(Heard(s, Message(name, file, j)[h]), Good(Number(file, j), Contents(name, file, j)), e.reply);
    assert t.calls == s.calls + [Finish(0, e.reply)];
    assert Writes(t.calls) == Writes(s.calls);
    AllTaken(file, c);
  }

  lemma AllTaken(file: seq<byte>, c: nat)
    requires c <= |file|
    ensures Taken(file, c, Messages(file) - 1) == c
  {
  }

  /** A line that brings some bytes without a pause. */
  function Unbroken(bytes: seq<byte>): (r: seq<Input>)
    ensures |r| == |bytes| && forall i | 0 <= i < |bytes| :: r[i] == Byte(bytes[i])
  {
    seq(|bytes|, i requires 0 <= i < |bytes| => Byte(bytes[i]))
  }

  lemma {:induction false} UnbrokenBrings(bytes: seq<byte>)
    ensures BytesOf(Unbroken(bytes)) == bytes && Lively(Unbroken(bytes))
  {
    if bytes != [] {
      var m := |bytes| - 1;
      UnbrokenBrings(bytes[..m]);
      assert Unbroken(bytes)[..m] == Unbroken(bytes[..m]);
      assert bytes[..m] + [bytes[m]] == bytes;
    }
  }

  /** What the receiver has heard, and where that puts it. */
  predicate Following(name: seq<byte>, file: seq<byte>, c: nat, s: State, heard: seq<byte>, p: nat, j: nat, h: nat)
  {
    Traffic(name, file, s, p, j, h) && Progress(file, c, s, j) && j < Messages(file) && s.heard == heard
  }

  /** Whatever part of the sender's bytes has come in, with seconds of silence anywhere and every store
      reply a success, the receiver is where the protocol puts it; after the last byte it has finished. */
  lemma {:induction false} Follow(name: seq<byte>, file: seq<byte>, c: nat, events: seq<Event>)
      returns (p: nat, j: nat, h: nat)
    requires file != [] && 0 < c == ParseSize(HeaderBlock(name, |file|)) && c <= |file|
    requires Lively(InputsOf(events)) && BytesOf(InputsOf(events)) <= Sent(name, file, Messages(file))
    requires Smooth(Run(events).calls)
    ensures |BytesOf(InputsOf(events))| < |Sent(name, file, Messages(file))| ==>
      Following(name, file, c, Run(events), BytesOf(InputsOf(events)), p, j, h)
    ensures BytesOf(InputsOf(events)) == Sent(name, file, Messages(file)) ==> Finished(file, c, Run(events))
    decreases |events|
  {
    hide Following, HeaderBlock, ParseSize, Sent, Step, Smooth, Finished;
    if events == [] {
      p, j, h := 1, 0, 0;
      FollowsAtFirst(name, file, c);
    } else {
      var m := |events| - 1;
      var front, e := events[..m], events[m];
      assert InputsOf(front) == InputsOf(events)[..m];
      BytesOfPrefix(InputsOf(events), m);
      CallsGrow(Run(front), e);
      assert !InputsOf(events)[m].Expire?;
      p, j, h := Follow(name, file, c, front);
      p, j, h := FollowOne(name, file, c, Run(front), BytesOf(InputsOf(front)), e, p, j, h);
    }
  }

  lemma FollowsAtFirst(name: seq<byte>, file: seq<byte>, c: nat)
    requires c <= |file|
    ensures Following(name, file, c, Run([]), [], 1, 0, 0) && Sent(name, file, Messages(file)) != []
  {
    hide Message, HeaderBlock, ParseSize;
    assert Start().sent == Prompts(1) + Answers(file, 0);
    SentAt(name, file, 0, 0, Messages(file));
  }

  lemma FollowOne(name: seq<byte>, file: seq<byte>, c: nat, s: State, heard: seq<byte>, e: Event,
                  p: nat, j: nat, h: nat)
      returns (q: nat, i: nat, g: nat)
    requires file != [] && 0 < c == ParseSize(HeaderBlock(name, |file|)) && c <= |file|
    requires !e.input.Expire? && Smooth(Step(s, e).calls)
    requires heard <= Sent(name, file, Messages(file))
    requires |heard| < |Sent(name, file, Messages(file))| ==> Following(name, file, c, s, heard, p, j, h)
    requires heard == Sent(name, file, Messages(file)) ==> Finished(file, c, s)
    requires e.input.Byte? ==> heard + [e.input.b] <= Sent(name, file, Messages(file))
    ensures var now := heard + (if e.input.Byte? then [e.input.b] else []);
      && (|now| < |Sent(name, file, Messages(file))| ==> Following(name, file, c, Step(s, e), now, q, i, g))
      && (now == Sent(name, file, Messages(file)) ==> Finished(file, c, Step(s, e)))
  {
    hide Message, HeaderBlock, ParseSize, Sent, Step, Smooth, Finished, Traffic, Progress;
    q, i, g := p, j, h;
    if heard == Sent(name, file, Messages(file)) {
      DoneStays(s, e, file, c);
    } else if e.input.Tick? {
      q := FollowTick(name, file, c, s, heard, e, p, j, h);
    } else {
      FollowPlace(name, file, c, s, heard, p, j, h);
      var now := heard + [e.input.b];
      assert Sent(name, file, Messages(file))[|heard|] == now[|heard|];
      HeardGrows(s, e);
      if j + 1 == Messages(file) && h + 1 == |Message(name, file, j)| {
        ReadsLast(name, file, c, s, e, p, j, h);
      } else {
        i, g := ReadsOn(name, file, c, s, e, p, j, h);
        FollowPlace(name, file, c, Step(s, e), now, q, i, g);
      }
    }
  }

  lemma FollowPlace(name: seq<byte>, file: seq<byte>, c: nat, s: State, heard: seq<byte>, p: nat, j: nat, h: nat)
    requires Following(name, file, c, s, heard, p, j, h)
    ensures !IsDone(s) && h < |Message(name, file, j)| && |heard| < |Sent(name, file, Messages(file))|
    ensures Sent(name, file, Messages(file))[|heard|] == Message(name, file, j)[h]
    ensures j + 1 == Messages(file) && h + 1 == |Message(name, file, j)| ==>
      |heard| + 1 == |Sent(name, file, Messages(file))|
  {
    hide Message, Progress, Answers;
    SentAt(name, file, j, h, Messages(file));
  }

  lemma HeardGrows(s: State, e: Event)
    requires !IsDone(s) && e.input.Byte?
    ensures Step(s, e).heard == s.heard + [e.input.b]
  {
    hide Check, ParseSize;
  }

  lemma DoneStays(s: State, e: Event, file: seq<byte>, c: nat)
    requires Finished(file, c, s)
    ensures Step(s, e) == s
  {
    hide Stored, Writes;
  }

  lemma FollowTick(name: seq<byte>, file: seq<byte>, c: nat, s: State, heard: seq<byte>, e: Event,
                   p: nat, j: nat, h: nat)
      returns (q: nat)
    requires Following(name, file, c, s, heard, p, j, h) && e.input.Tick?
    ensures Following(name, file, c, Step(s, e), heard, q, j, h)
  {
    hide Message, Sent, Opened, Closed, Writes, Stored, Taken;
    q := p;
    if j == 0 && h == 0 {
      q := p + 1;
      assert Prompts(p) + Answers(file, 0) + [READY] == Prompts(p + 1) + Answers(file, 0);
    }
  }

  /** The events of a run played from a script that ends in silence. */
  predicate Plays(events: seq<Event>, script: seq<Input>)
  {
    forall i | 0 <= i < |events| :: events[i].input == if i < |script| then script[i] else Expire
  }

  lemma {:induction false} Prefixes(name: seq<byte>, events: seq<Event>, k: nat)
    requires k <= |events| && Smooth(Run(events).calls)
    ensures Smooth(Run(events[..k]).calls)
    decreases |events|
  {
    hide Step, Smooth;
    if k == |events| {
      assert events[..k] == events;
    } else {
      var m := |events| - 1;
      CallsGrow(Run(events[..m]), events[m]);
      Prefixes(name, events[..m], k);
      assert events[..m][..k] == events[..k];
    }
  }

  lemma {:induction false} FinishedStays(file: seq<byte>, c: nat, events: seq<Event>, k: nat)
    requires k <= |events| && Finished(file, c, Run(events[..k]))
    ensures Finished(file, c, Run(events))
    decreases |events|
  {
    hide Step, Finished;
    if k == |events| {
      assert events[..k] == events;
    } else {
      var m := |events| - 1;
      assert events[..m][..k] == events[..k];
      FinishedStays(file, c, events[..m], k);
      DoneStays(Run(events[..m]), events[m], file, c);
    }
  }

  /** The receiver returns only when it has asked the store to finish with the whole announced file. */
  lemma Delivered(name: seq<byte>, file: seq<byte>, c: nat, script: seq<Input>, events: seq<Event>)
    requires file != [] && 0 < c == ParseSize(HeaderBlock(name, |file|)) && c <= |file|
    requires Lively(script) && BytesOf(script) == Sent(name, file, Messages(file))
    requires Plays(events, script) && IsDone(Run(events)) && Smooth(Run(events).calls)
    ensures Finished(file, c, Run(events))
  {
    hide Following, HeaderBlock, ParseSize, Sent, Smooth, Finished;
    var k := if |events| < |script| then |events| else |script|;
    var front := events[..k];
    assert InputsOf(front) == script[..k];
    BytesOfPrefix(script, k);
    Prefixes(name, events, k);
    var p, j, h := Follow(name, file, c, front);
    assert k == |events| ==> front == events;
    assert k == |script| ==> script[..k] == script;
    if |BytesOf(script[..k])| < |Sent(name, file, Messages(file))| {
      FollowPlace(name, file, c, Run(front), BytesOf(script[..k]), p, j, h);
      assert false;
    }
    FinishedStays(file, c, events, k);
  }

  /** Before the metadata block nothing is asked of the store. */
  lemma {:induction false} NoMetadataNoCalls(events: seq<Event>)
    ensures !Run(events).gotMeta ==> Run(events).calls == [] && !Run(events).active
    decreases |events|
  {
    hide Check, ParseSize;
    if events != [] { NoMetadataNoCalls(events[..|events| - 1]); }
  }

  lemma SizeStays(s: State, e: Event)
    requires s.gotMeta
    ensures Step(s, e).gotMeta && Step(s, e).expected == s.expected
  {
    hide Check, ParseSize;
  }

  /** The metadata block that comes from this sender announces `c` bytes. */
  lemma {:induction false} SizeKnown(name: seq<byte>, file: seq<byte>, c: nat, script: seq<Input>, events: seq<Event>)
    requires file != [] && 0 < c == ParseSize(HeaderBlock(name, |file|)) && c <= |file|
    requires Lively(script) && BytesOf(script) == Sent(name, file, Messages(file)) && Plays(events, script)
    ensures Run(events).gotMeta ==> Run(events).expected == c
    decreases |events|
  {
    hide Following, HeaderBlock, ParseSize, Sent, Step, Finished;
    if events != [] {
      var m := |events| - 1;
      var s := Run(events[..m]);
      SizeKnown(name, file, c, script, events[..m]);
      if s.gotMeta {
        SizeStays(s, events[m]);
      } else {
        NoMetadataNoCalls(events[..m]);
        var p, j, h := EarlyOn(name, file, c, script, events[..m]);
        assert InputsOf(events[..m]) == script[..m];
        BytesOfPrefix(script, m + 1);
        assert script[..m + 1][..m] == script[..m];
        SizeAnnounced(name, file, c, s, BytesOf(script[..m]), events[m], p, j, h);
      }
    }
  }

  /** As long as nothing has been asked of the store, the script is not exhausted. */
  lemma EarlyOn(name: seq<byte>, file: seq<byte>, c: nat, script: seq<Input>, events: seq<Event>)
      returns (p: nat, j: nat, h: nat)
    requires file != [] && 0 < c == ParseSize(HeaderBlock(name, |file|)) && c <= |file|
    requires Lively(script) && BytesOf(script) == Sent(name, file, Messages(file)) && Plays(events, script)
    requires Run(events).calls == []
    ensures |events| < |script|
    ensures Following(name, file, c, Run(events), BytesOf(script[..|events|]), p, j, h)
  {
    hide Following, HeaderBlock, ParseSize, Sent;
    var k := if |events| < |script| then |events| else |script|;
    var front := events[..k];
    assert InputsOf(front) == script[..k];
    assert k == |events| ==> front == events;
    assert k == |script| ==> script[..k] == script;
    BytesOfPrefix(script, k);
    Prefixes(name, events, k);
    p, j, h := Follow(name, file, c, front);
    if BytesOf(script[..k]) == Sent(name, file, Messages(file)) {
      FinishedStays(file, c, events, k);
      assert false;
    }
  }

  lemma SizeAnnounced(name: seq<byte>, file: seq<byte>, c: nat, s: State, heard: seq<byte>, e: Event,
                      p: nat, j: nat, h: nat)
    requires file != [] && 0 < c == ParseSize(HeaderBlock(name, |file|)) && c <= |file| && !s.gotMeta
    requires Following(name, file, c, s, heard, p, j, h) && !e.input.Expire?
    requires e.input.Byte? ==> heard + [e.input.b] <= Sent(name, file, Messages(file))
    ensures Step(s, e).gotMeta ==> Step(s, e).expected == c
  {
    hide Message, HeaderBlock, ParseSize, Sent, Step, Traffic;
    assert j == 0;
    if e.input.Tick? {
      var q := FollowTick(name, file, c, s, heard, e, p, j, h);
    } else {
      FollowPlace(name, file, c, s, heard, p, j, h);
      assert Sent(name, file, Messages(file))[|heard|] == (heard + [e.input.b])[|heard|];
      if h + 1 < |Message(name, file, 0)| {
        InsideStep(name, file, c, s, p, 0, h);
        InsideReply(name, file, s, e, p, h);
      } else {
        PacketStep(name, file, s, p, 0, h, e.reply);
      }
    }
  }

  /** Inside a packet the store is not asked anything. */
  lemma InsideReply(name: seq<byte>, file: seq<byte>, s: State, e: Event, p: nat, h: nat)
    requires Traffic(name, file, s, p, 0, h) && e.input.Byte? && h + 1 < |Message(name, file, 0)|
    ensures Step(s, e) == Step(s, Event(e.input, 0))
  {
    hide Message, Check, OnPacket, Sent, Answers, HeaderBlock;
    PacketShape(name, file, 0);
  }

  /** An upload of a file whose header fits and whose messages pass the router of port 0, into a store without
      device faults that has room for it: the receiver returns 0 exactly if the file is a sound image, and
      then the slot starts with it.  The line brings what the router leaves of the sender's bytes. */
  method Upload(r: Receiver, name: seq<byte>, file: seq<byte>) returns (rc: int)
    requires r.Synced() && r.pos == 0 && r.output == [] && r.store.Valid() && !r.store.active
    requires 0 !in name && |name| + 1 + |Decimal(|file|)| <= 127 && 0 < |file| < WORD_LIMIT
    requires Takes(r.store, |file|)
    requires PortRouting.Plain(Sent(name, file, Messages(file)))
    requires Lively(r.script) && BytesOf(r.script) == PortRouting.Application(Sent(name, file, Messages(file)))
    modifies r, r.store, r.store.pending, r.store.direct, r.store.slot
    ensures r.store.Valid()
    ensures old(r.Faults()) == r.Faults() ==> (rc == 0 <==> GoodImage(file, r.store.ramMax))
    ensures old(r.Faults()) == r.Faults() && rc == 0 ==> Installed(r.store.slot.cells, file, r.store.ramMax)
  {
    hide Decimal, HeaderBlock, ParseSize, Run, Sent, GoodImage, Installed, Stored, Writes, Opened;
    HeaderRoundTrip(name, |file|);
    PortRouting.UnchangedIffNoCommand(Sent(name, file, Messages(file)));
    ghost var committing;
    rc, committing := r.Recv();
    if old(r.Faults()) == r.Faults() { UploadEnds(r.store, name, file, r.script, r.trace); }
  }

  /** The same over a line that brings all the bytes without a pause. */
  method UploadAtOnce(store: ImageStore, name: seq<byte>, file: seq<byte>) returns (rc: int)
    requires store.Valid() && !store.active && Takes(store, |file|)
    requires 0 !in name && |name| + 1 + |Decimal(|file|)| <= 127 && 0 < |file| < WORD_LIMIT
    requires PortRouting.Plain(Sent(name, file, Messages(file)))
    modifies store, store.pending, store.direct, store.slot
    ensures store.Valid()
    ensures old(store.direct.faults) == store.direct.faults && old(store.slot.faults) == store.slot.faults ==>
      (rc == 0 <==> GoodImage(file, store.ramMax)) && (rc == 0 ==> Installed(store.slot.cells, file, store.ramMax))
  {
    hide Decimal, GoodImage, Installed, Sent, PortRouting.Application, PortRouting.Plain, BytesOf, Takes;
    var line := PortRouting.Application(Sent(name, file, Messages(file)));
    UnbrokenBrings(line);
    var r := new Receiver(Unbroken(line), store);
    rc := Upload(r, name, file);
  }

  /** What the fair replies of the store come to. */
  lemma UploadEnds(store: ImageStore, name: seq<byte>, file: seq<byte>, script: seq<Input>, events: seq<Event>)
    requires file != [] && ParseSize(HeaderBlock(name, |file|)) == |file| && Takes(store, |file|)
    requires Lively(script) && BytesOf(script) == Sent(name, file, Messages(file)) && Plays(events, script)
    requires IsDone(Run(events)) && (Takes(store, Run(events).expected) ==> Fair(Run(events), store.ramMax))
    ensures var s := Run(events);
      Stored(Writes(s.calls)) == file && (s.phase.rc == 0 <==> GoodImage(file, store.ramMax))
  {
    hide HeaderBlock, ParseSize, Run, Sent, GoodImage, Stored, Writes;
    SizeKnown(name, file, |file|, script, events);
    if !Run(events).gotMeta { NoMetadataNoCalls(events); }
    Delivered(name, file, |file|, script, events);
  }

  /** An installed image that came from the packer is reported with the name and version it was packed
      with (cut to the header's room), its payload's size and checksum, its RAM and flags, and every read
      of the payload returns what was packed. */
  lemma ReportedAsPacked(cells: seq<byte>, ramMax: nat, l: Layout, name: seq<byte>, version: seq<byte>, ram: u32,
                         payload: seq<byte>, abi: nat, at: nat, size: nat)
    requires abi < 256 && |payload| < WORD_LIMIT && 0 !in name && 0 !in version
    ensures Installed(cells, PackedImage(l, name, version, ram, payload, abi), ramMax) ==>
      && Runnable(cells)
      && StatusOf(Parse(cells)) == Status(true, name[..Min(|name|, NAME_MAX - 1)],
                                          version[..Min(|version|, VERSION_MAX - 1)], |payload|,
                                          Crc32Of(payload), ram, NativeFlags(abi))
      && Window(cells, at, size) == if at >= |payload| then [] else payload[at..at + Min(size, |payload| - at)]
  {
    hide Parse, Crc32Of, HeaderBytes, FixedString, CString, Runnable, GoodImage;
    var img := PackedImage(l, name, version, ram, payload, abi);
    InstalledIsRunnable(cells, img, ramMax, at, size);
    ParseHeaderBytes(l, name, version, ram, |payload|, Crc32Of(payload), abi, payload);
    PackedImageGood(l, name, version, ram, payload, abi, ramMax);
    FieldString(name, NAME_MAX);
    FieldString(version, VERSION_MAX);
  }
}
