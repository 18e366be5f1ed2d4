/** rtbus_cli.c: the bytes of the input queue are put together to command lines again. */
module CommandLines {
  import opened Bytes
  import opened PortRouting
  import CliWake

  /** The line being put together and the lines given to rtbus_cli_dispatch_line so far. */
  datatype Desk = Desk(buffer: seq<byte>, lines: seq<seq<byte>>)

  function Handle(d: Desk, b: byte): Desk
  {
    if EndsLine(b) then Desk([], if d.buffer == [] then d.lines else d.lines + [d.buffer])
    else if |d.buffer| >= LINE_MAX - 1 then Desk([], d.lines)
    else Desk(d.buffer + [b], d.lines)
  }

  function HandleAll(d: Desk, s: seq<byte>): Desk
  {
    if s == [] then d else Handle(HandleAll(d, s[..|s| - 1]), s[|s| - 1])
  }

  lemma {:induction false} HandleConcat(d: Desk, s: seq<byte>, t: seq<byte>)
    ensures HandleAll(d, s + t) == HandleAll(HandleAll(d, s), t)
  {
    if t == [] {
      assert s + t == s;
    } else {
      assert (s + t)[..|s + t| - 1] == s + t[..|t| - 1];
      HandleConcat(d, s, t[..|t| - 1]);
    }
  }

  predicate Whole(line: seq<byte>)
  {
    0 < |line| < LINE_MAX && forall i | 0 <= i < |line| :: !EndsLine(line[i])
  }

  lemma HandleByte(lines: seq<seq<byte>>, buffer: seq<byte>, b: byte)
    requires |buffer| + 1 < LINE_MAX && !EndsLine(b)
    ensures Handle(Desk(buffer, lines), b) == Desk(buffer + [b], lines)
  {
  }

  lemma {:induction false} HandleLine(lines: seq<seq<byte>>, line: seq<byte>)
    requires |line| < LINE_MAX && forall i | 0 <= i < |line| :: !EndsLine(line[i])
    ensures HandleAll(Desk([], lines), line) == Desk(line, lines)
  {
    hide EndsLine, Handle;
    if line != [] {
      var m := |line| - 1;
      HandleLine(lines, line[..m]);
      assert !EndsLine(line[m]);
      HandleByte(lines, line[..m], line[m]);
      assert line[..m] + [line[m]] == line;
    }
  }

  lemma HandleLineFeed(lines: seq<seq<byte>>, line: seq<byte>)
    requires Whole(line)
    ensures HandleAll(Desk([], lines), line + [LF]) == Desk([], lines + [line])
  {
    HandleLine(lines, line);
    assert (line + [LF])[..|line|] == line;
  }

  lemma HandleOneMore(lines: seq<seq<byte>>, line: seq<byte>)
    requires Whole(line) && HandleAll(Desk([], []), Joined(lines)) == Desk([], lines)
    ensures HandleAll(Desk([], []), Joined(lines + [line])) == Desk([], lines + [line])
  {
    hide Whole, HandleAll;
    JoinedMore(lines, line);
    HandleConcat(Desk([], []), Joined(lines), line + [LF]);
    HandleLineFeed(lines, line);
    assert Joined(lines) + line + [LF] == Joined(lines) + (line + [LF]);
  }

  /** Lines that fit come out as they went in. */
  lemma {:induction false} HandleJoined(lines: seq<seq<byte>>)
    requires forall line | line in lines :: Whole(line)
    ensures HandleAll(Desk([], []), Joined(lines)) == Desk([], lines)
  {
    if lines != [] {
      hide Whole, HandleAll, Joined;
      var n := |lines| - 1;
      HandleJoined(lines[..n]);
      HandleOneMore(lines[..n], lines[n]);
      assert lines[..n] + [lines[n]] == lines;
    }
  }

  lemma {:induction false} CommandsWhole(s: seq<byte>)
    ensures forall i | 0 <= i < |Commands(s)| :: Whole(Commands(s)[i]) && Commands(s)[i][0] == AT
    decreases |s|
  {
    if s != [] {
      CommandsWhole(Rest(s));
      if IsCommand(s) { assert !EndsLine(AT); }
    }
  }

  /** What the port router submits for any stream is put together again to exactly the stream's terminated
      '@' lines of at most 255 bytes, in order, as long as the input queue takes every byte. */
  lemma CommandsArrive(s: seq<byte>)
    ensures HandleAll(Desk([], []), Joined(Commands(s))) == Desk([], Commands(s))
  {
    CommandsWhole(s);
    HandleJoined(Commands(s));
  }

  /** Whatever is heard, no line that is dispatched is empty, longer than 255 bytes or has a line end in it,
      nor does the line in progress. */
  lemma {:induction false} OnlyWholeLines(s: seq<byte>)
    ensures var d := HandleAll(Desk([], []), s);
      && (forall line | line in d.lines :: 0 < |line| <= 255 && 0x0A !in line && 0x0D !in line)
      && |d.buffer| <= 255 && 0x0A !in d.buffer && 0x0D !in d.buffer
  {
    if s != [] { OnlyWholeLines(s[..|s| - 1]); }
  }

  /** A byte that ends a line dispatches what is in progress, if anything. */
  lemma LineEnds(s: seq<byte>, end: byte)
    requires end in {0x0A, 0x0D}
    ensures var d := HandleAll(Desk([], []), s);
      HandleAll(Desk([], []), s + [end]) == Desk([], if d.buffer == [] then d.lines else d.lines + [d.buffer])
  {
    assert (s + [end])[..|s|] == s;
  }

  /** With 255 bytes in progress a further byte drops them, and itself. */
  lemma Overlong(s: seq<byte>, b: byte)
    requires b !in {0x0A, 0x0D}
    ensures var d := HandleAll(Desk([], []), s);
      HandleAll(Desk([], []), s + [b]) == if |d.buffer| >= 255 then Desk([], d.lines) else Desk(d.buffer + [b], d.lines)
  {
    assert (s + [b])[..|s|] == s;
  }

  // ---- the input queue in between ----

  /** The bytes put by these steps, taken or not. */
  function PutBytes(moves: seq<CliWake.Move>): seq<byte>
  {
    if moves == [] then []
    else (if moves[0].Put? then [moves[0].b] else []) + PutBytes(moves[1..])
  }

  /** The runtime thread fetches nothing, as while an interrupt runs. */
  predicate NoTakes(moves: seq<CliWake.Move>)
  {
    forall i | 0 <= i < |moves| :: !moves[i].Take?
  }

  function Front(s: seq<byte>, n: nat): seq<byte>
  {
    if |s| <= n then s else s[..n]
  }

  /** As long as nothing is fetched, the queue takes the front of what is put, up to its depth, and drops
      the rest. */
  lemma {:induction false} QueueFills(from: CliWake.Cli, moves: seq<CliWake.Move>, after: CliWake.Cli)
    requires CliWake.Leads(from, moves, after) && NoTakes(moves) && |from.queue| <= CliWake.DEPTH
    ensures after.queue == from.queue + Front(PutBytes(moves), CliWake.DEPTH - |from.queue|)
    decreases |moves|
  {
    if moves != [] {
      hide CliWake.Make, CliWake.Enabled, Front;
      assert !moves[0].Take?;
      var next := CliWake.Make(from, moves[0]);
      QueueStep(from, moves[0]);
      QueueFills(next, moves[1..], after);
      var rest := PutBytes(moves[1..]);
      if moves[0].Put? {
        FrontStep(from.queue, moves[0].b, rest, CliWake.DEPTH);
      } else {
        assert PutBytes(moves) == rest;
      }
    } else {
      assert Front([], CliWake.DEPTH - |from.queue|) == [];
    }
  }

  lemma QueueStep(s: CliWake.Cli, m: CliWake.Move)
    requires CliWake.Enabled(s, m) && !m.Take?
    ensures CliWake.Make(s, m).queue ==
            if m.Put? && |s.queue| < CliWake.DEPTH then s.queue + [m.b] else s.queue
  {
  }

  lemma FrontStep(q: seq<byte>, b: byte, rest: seq<byte>, depth: nat)
    requires |q| <= depth
    ensures |q| < depth ==> q + [b] + Front(rest, depth - |q| - 1) == q + Front([b] + rest, depth - |q|)
    ensures |q| == depth ==> Front(rest, 0) == Front([b] + rest, 0) == []
  {
    if |q| < depth { assert Front([b] + rest, depth - |q|) == [b] + Front(rest, depth - |q| - 1); }
  }

  /** A line submitted by one interrupt, behind `|from.queue|` bytes that end in a line: it is put together
      again exactly if the queue has room for it and its line feed.  Otherwise its end and the line feed are
      lost, and what is left of it stays in front of whatever comes next. */
  lemma LineArrivesIff(d: Desk, lines: seq<seq<byte>>, line: seq<byte>, from: CliWake.Cli,
                       moves: seq<CliWake.Move>, after: CliWake.Cli)
    requires Whole(line) && HandleAll(d, from.queue) == Desk([], lines)
    requires CliWake.Leads(from, moves, after) && NoTakes(moves) && PutBytes(moves) == line + [LF]
    requires |from.queue| <= CliWake.DEPTH
    ensures HandleAll(d, after.queue) == Desk([], lines + [line])
       <==> |from.queue| + |line| + 1 <= 128
    ensures |from.queue| + |line| + 1 > 128 ==>
      HandleAll(d, after.queue) == Desk(line[..128 - |from.queue|], lines)
  {
    hide Handle, CliWake.Leads;
    QueueFills(from, moves, after);
    var room := CliWake.DEPTH - |from.queue|;
    var part := Front(line + [LF], room);
    HandleConcat(d, from.queue, part);
    if |line| + 1 <= room {
      HandleLineFeed(lines, line);
    } else {
      assert part == line[..room];
      HandleLine(lines, line[..room]);
    }
  }

  /** The remains of a line that was cut off run into the next one. */
  lemma CutLineRunsOn(lines: seq<seq<byte>>, rest: seq<byte>, next: seq<byte>)
    requires Whole(rest + next)
    ensures HandleAll(Desk(rest, lines), next + [LF]) == Desk([], lines + [rest + next])
  {
    forall i | 0 <= i < |rest| ensures !EndsLine(rest[i]) { assert rest[i] == (rest + next)[i]; }
    HandleLine(lines, rest);
    HandleConcat(Desk([], lines), rest, next + [LF]);
    assert rest + (next + [LF]) == rest + next + [LF];
    HandleLineFeed(lines, rest + next);
  }

  /** A line the router submits, put into an empty queue, and lost: an '@' and 127 more bytes. */
  lemma LongLineLost(b: byte, moves: seq<CliWake.Move>, after: CliWake.Cli)
    requires !EndsLine(b)
    requires var line := [AT] + seq(127, _ => b); PutBytes(moves) == line + [LF]
    requires CliWake.Leads(CliWake.Boot(), moves, after) && NoTakes(moves)
    ensures var line := [AT] + seq(127, _ => b);
      Commands(line + [LF]) == [line] && HandleAll(Desk([], []), after.queue) == Desk(line, [])
  {
    var line := [AT] + seq(127, _ => b);
    OneCommand(line);
    LineArrivesIff(Desk([], []), [], line, CliWake.Boot(), moves, after);
  }

  lemma OneCommand(line: seq<byte>)
    requires Whole(line) && line[0] == AT
    ensures Commands(line + [LF]) == [line]
  {
  }

  class CommandLine {
    const line: array<byte>               // rtbus_cli_line
    var len: nat
    var dispatched: seq<seq<byte>>
    ghost var heard: seq<byte>

    constructor ()
      ensures Valid() && heard == [] && dispatched == [] && fresh(line)
    {
      line := new byte[LINE_MAX];
      len, dispatched, heard := 0, [], [];
    }

    ghost predicate Valid()
      reads this, line
    {
      line.Length == LINE_MAX && len < LINE_MAX && HandleAll(Desk([], []), heard) == Desk(line[..len], dispatched)
    }

    /** rtbus_cli_process_byte; rtbus_cli_dispatch_line empties the line whatever it does with it. */
    method ProcessByte(b: byte)
      requires Valid()
      modifies this, line
      ensures Valid() && heard == old(heard) + [b]
    {
      ghost var was := heard;
      heard := heard + [b];
      assert heard[..|heard| - 1] == was;
      if EndsLine(b) {
        if len == 0 { return; }
        dispatched := dispatched + [line[..len]];
        len := 0;
        return;
      }
      if len >= line.Length - 1 {
        len := 0;
        return;
      }
      line[len] := b;
      len := len + 1;
    }
  }
}
