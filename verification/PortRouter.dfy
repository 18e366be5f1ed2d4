/** rtbus_serial.c: the control-line demultiplexer in front of port 0. */
module PortRouting {
  import opened Bytes
  import opened RxRings

  const AT: byte := 0x40        // '@'
  const CR: byte := 0x0d
  const LF: byte := 0x0a
  const LINE_MAX: nat := 256    // RTBUS_CLI_LINE_MAX

  predicate EndsLine(b: byte)
  {
    b == CR || b == LF
  }

  /** The length of the first line of `s`, its terminator included. */
  function LineLength(s: seq<byte>): (n: nat)
    requires s != []
    ensures 0 < n <= |s| && (forall i | 0 <= i < n - 1 :: !EndsLine(s[i])) && (n < |s| ==> EndsLine(s[n - 1]))
  {
    if EndsLine(s[0]) || |s| == 1 then 1 else 1 + LineLength(s[1..])
  }

  predicate Terminated(s: seq<byte>)
    requires s != []
  {
    EndsLine(s[LineLength(s) - 1])
  }

  /** The first line, and what follows it. */
  function Line(s: seq<byte>): seq<byte>
    requires s != []
  {
    s[..LineLength(s)]
  }

  function Rest(s: seq<byte>): (r: seq<byte>)
    requires s != []
    ensures |r| == |s| - LineLength(s)
  {
    s[LineLength(s)..]
  }

  /** The stream without its control lines. */
  function Application(s: seq<byte>): seq<byte>
    decreases |s|
  {
    if s == [] then [] else (if s[0] == AT then [] else Line(s)) + Application(Rest(s))
  }

  predicate IsCommand(s: seq<byte>)
    requires s != []
  {
    s[0] == AT && Terminated(s) && LineLength(s) <= LINE_MAX
  }

  /** The terminated control lines of at most 255 bytes. */
  function Commands(s: seq<byte>): seq<seq<byte>>
    decreases |s|
  {
    if s == [] then [] else (if IsCommand(s) then [s[..LineLength(s) - 1]] else []) + Commands(Rest(s))
  }

  /** The last line, as long as it is not terminated. */
  function Unfinished(s: seq<byte>): seq<byte>
    decreases |s|
  {
    if s == [] then [] else if Terminated(s) then Unfinished(Rest(s)) else s
  }

  /** What goes to the command interpreter: each line, ended by a line feed. */
  function Joined(lines: seq<seq<byte>>): seq<byte>
  {
    if lines == [] then [] else Joined(lines[..|lines| - 1]) + lines[|lines| - 1] + [LF]
  }

  lemma LineLengthUnique(s: seq<byte>, n: nat)
    requires 0 < n <= |s| && (forall i | 0 <= i < n - 1 :: !EndsLine(s[i])) && (n < |s| ==> EndsLine(s[n - 1]))
    ensures LineLength(s) == n
  {
  }

  predicate InCommand(s: seq<byte>)
  {
    Unfinished(s) != [] && Unfinished(s)[0] == AT
  }

  /** A byte behind a finished first line leaves that line as it is. */
  lemma FirstLineStays(s: seq<byte>, b: byte)
    requires s != [] && Terminated(s)
    ensures LineLength(s + [b]) == LineLength(s) && Line(s + [b]) == Line(s) && Rest(s + [b]) == Rest(s) + [b]
    ensures Terminated(s + [b]) && (s + [b])[0] == s[0]
    ensures (s + [b])[..LineLength(s) - 1] == s[..LineLength(s) - 1]
  {
    var n := LineLength(s);
    LineLengthUnique(s + [b], n);
    assert (s + [b])[n..] == s[n..] + [b] && (s + [b])[..n] == s[..n] && (s + [b])[..n - 1] == s[..n - 1];
  }

  /** A stream of one line. */
  lemma OneLine(s: seq<byte>)
    requires s != [] && LineLength(s) == |s|
    ensures Application(s) == if s[0] == AT then [] else s
    ensures Commands(s) == if IsCommand(s) then [s[..|s| - 1]] else []
    ensures Unfinished(s) == if Terminated(s) then [] else s
  {
    assert Rest(s) == [] && Line(s) == s;
    assert Application([]) == [] && Commands([]) == [] && Unfinished([]) == [];
  }

  lemma {:induction false} OneMoreUnfinished(s: seq<byte>, b: byte)
    ensures Unfinished(s + [b]) == if EndsLine(b) then [] else Unfinished(s) + [b]
    decreases |s|
  {
    hide Line, Rest;
    if s != [] && Terminated(s) {
      FirstLineStays(s, b);
      OneMoreUnfinished(Rest(s), b);
    } else {
      LineGrows(s, b);
      OneLine(s + [b]);
    }
  }

  /** An unfinished line grows. */
  lemma LineGrows(s: seq<byte>, b: byte)
    requires s == [] || !Terminated(s)
    ensures LineLength(s + [b]) == |s| + 1 && (Terminated(s + [b]) <==> EndsLine(b))
    ensures s != [] ==> LineLength(s) == |s| && (s + [b])[0] == s[0]
    ensures (s + [b])[..|s|] == s
  {
    hide LineLength, EndsLine;
    OpenLine(s);
    var m := s + [b];
    forall i | 0 <= i < |s| ensures !EndsLine(m[i]) { assert m[i] == s[i]; }
    LineLengthUnique(m, |s| + 1);
  }

  /** A line that is not terminated is all of the stream. */
  lemma OpenLine(s: seq<byte>)
    requires s == [] || !Terminated(s)
    ensures s != [] ==> LineLength(s) == |s|
    ensures forall i | 0 <= i < |s| :: !EndsLine(s[i])
  {
    hide EndsLine;
  }

  lemma {:induction false} OneMoreKept(s: seq<byte>, b: byte)
    ensures Application(s + [b])
         == Application(s) + if InCommand(s) || (Unfinished(s) == [] && b == AT) then [] else [b]
    decreases |s|
  {
    hide Line, Rest;
    if s != [] && Terminated(s) {
      FirstLineStays(s, b);
      OneMoreKept(Rest(s), b);
    } else {
      LineGrows(s, b);
      OneLine(s + [b]);
      if s != [] { OneLine(s); }
    }
  }

  lemma NoCommands(s: seq<byte>)
    requires s == [] || !Terminated(s)
    ensures Commands(s) == [] && Unfinished(s) == s
  {
    if s != [] {
      LineLengthUnique(s, |s|);
      OneLine(s);
    }
  }

  lemma {:induction false} OneMoreCommand(s: seq<byte>, b: byte)
    ensures var t := Unfinished(s);
      Commands(s + [b]) == Commands(s) + if InCommand(s) && EndsLine(b) && |t| < LINE_MAX then [t] else []
    decreases |s|
  {
    hide Line, Rest;
    if s != [] && Terminated(s) {
      FirstLineStays(s, b);
      OneMoreCommand(Rest(s), b);
      assert IsCommand(s + [b]) == IsCommand(s);
    } else {
      hide Commands;
      NoCommands(s);
      LineGrows(s, b);
      OneLine(s + [b]);
    }
  }

  /** No '@' stands at the start of a line. */
  predicate Plain(s: seq<byte>)
  {
    forall i | 0 <= i < |s| && s[i] == AT :: i > 0 && !EndsLine(s[i - 1])
  }

  lemma LineAndRest(s: seq<byte>)
    requires s != []
    ensures s == Line(s) + Rest(s) && |Line(s)| > 0 && Rest(s) == s[LineLength(s)..]
  {
  }

  lemma StartsPlain(s: seq<byte>)
    requires s != [] && Plain(s)
    ensures s[0] != AT
  {
  }

  lemma SameFront(a: seq<byte>, b: seq<byte>, c: seq<byte>)
    ensures a + b == a + c <==> b == c
  {
    if a + b == a + c { assert b == (a + b)[|a|..] == (a + c)[|a|..] == c; }
  }

  /** The stream passes unchanged exactly when no '@' stands at the start of a line; otherwise bytes are
      taken out of it. */
  lemma {:induction false} UnchangedIffNoCommand(s: seq<byte>)
    ensures |Application(s)| <= |s|
    ensures Application(s) == s <==> Plain(s)
    ensures |Application(s)| == |s| ==> Application(s) == s
    decreases |s|
  {
    if s == [] {
      assert Plain(s);
    } else {
      hide Plain, Line, Rest;
      UnchangedIffNoCommand(Rest(s));
      LineAndRest(s);
      if s[0] == AT {
        if Plain(s) { StartsPlain(s); }
      } else {
        StartsLater(s, LineLength(s));
        SameFront(Line(s), Application(Rest(s)), Rest(s));
      }
    }
  }

  /** Line starts behind the first line are the line starts of the rest. */
  lemma StartsLater(s: seq<byte>, n: nat)
    requires s != [] && n == LineLength(s) && s[0] != AT
    ensures Plain(s) <==> Plain(s[n..])
  {
    var rest := s[n..];
    if Plain(s) {
      forall i | 0 <= i < |rest| && rest[i] == AT ensures i > 0 && !EndsLine(rest[i - 1]) {
        assert s[n + i] == AT;
      }
    }
    if Plain(rest) {
      forall i | 0 <= i < |s| && s[i] == AT ensures i > 0 && !EndsLine(s[i - 1]) {
        if i >= n { assert rest[i - n] == AT; }
      }
    }
  }

  /** Whether the router hands byte `b` on when it comes behind the stream `s`. */
  predicate Keeps(s: seq<byte>, b: byte)
  {
    !(InCommand(s) || (Unfinished(s) == [] && b == AT))
  }

  /** Behind a plain stream it keeps a byte exactly if the stream stays plain. */
  lemma KeepsPlain(s: seq<byte>, b: byte)
    requires Plain(s)
    ensures Keeps(s, b) <==> Plain(s + [b])
    ensures !Keeps(s, b) ==> b == AT
  {
    UnchangedIffNoCommand(s);
    UnchangedIffNoCommand(s + [b]);
    OneMoreKept(s, b);
    if b != AT { assert Plain(s + [b]); }
  }

  lemma PlainPrefix(s: seq<byte>, t: seq<byte>)
    requires s <= t && Plain(t)
    ensures Plain(s)
  {
    forall i | 0 <= i < |s| && s[i] == AT ensures i > 0 && !EndsLine(s[i - 1]) {
      assert t[i] == AT;
      if i > 0 { assert t[i - 1] == s[i - 1]; }
    }
  }

  /** What comes behind a finished line is routed as if it came first. */
  lemma {:induction false} BehindLine(before: seq<byte>, s: seq<byte>)
    requires Unfinished(before) == []
    ensures Application(before + s) == Application(before) + Application(s)
    ensures Unfinished(before + s) == Unfinished(s)
    decreases |before|
  {
    hide Line, Rest;
    if before == [] {
      assert before + s == s;
    } else {
      FirstLineBefore(before, s);
      BehindLine(Rest(before), s);
    }
  }

  /** So the bytes of a transfer are routed as if they came first, since the line that asks for it ends in
      a terminator. */
  lemma BehindTerminator(before: seq<byte>, s: seq<byte>)
    requires before != [] && EndsLine(before[|before| - 1])
    ensures Application(before + s) == Application(before) + Application(s)
  {
    var n := |before| - 1;
    OneMoreUnfinished(before[..n], before[n]);
    assert before[..n] + [before[n]] == before;
    BehindLine(before, s);
  }

  lemma FirstLineBefore(before: seq<byte>, s: seq<byte>)
    requires before != [] && Terminated(before)
    ensures LineLength(before + s) == LineLength(before) && Line(before + s) == Line(before)
    ensures Rest(before + s) == Rest(before) + s && Terminated(before + s) && (before + s)[0] == before[0]
  {
    var n := LineLength(before);
    LineLengthUnique(before + s, n);
    assert (before + s)[n..] == before[n..] + s && (before + s)[..n] == before[..n];
  }

  /** The line buffer holds the line `t`, or the first 255 bytes of it. */
  predicate Buffers(buffer: seq<byte>, t: seq<byte>, overflow: bool)
  {
    |buffer| == (if overflow then LINE_MAX - 1 else |t|) && buffer <= t
  }

  class PortRouter {
    const line: array<byte>       // rtbus_runtime_serial_control_line
    var len: nat
    var active: bool
    var overflow: bool
    var lineStart: bool
    var submitted: seq<byte>      // the bytes given to rtbus_cli_submit_byte
    ghost var heard: seq<byte>    // everything received since boot

    constructor ()
      ensures Valid() && heard == [] && submitted == [] && fresh(line)
    {
      line := new byte[LINE_MAX];
      len, active, overflow, lineStart, submitted, heard := 0, false, false, true, [], [];
    }

    ghost predicate Valid()
      reads this, line
    {
      var t := Unfinished(heard);
      && line.Length == LINE_MAX && len < LINE_MAX && submitted == Joined(Commands(heard))
      && (lineStart <==> t == []) && (active <==> InCommand(heard))
      && (active ==> (overflow <==> |t| >= LINE_MAX) && Buffers(line[..len], t, overflow))
    }

    /** rtbus_runtime_serial_submit_control_line. */
    method SubmitLine()
      requires line.Length == LINE_MAX && len < LINE_MAX
      modifies this`submitted, this`len, this`active, this`overflow, this`lineStart
      ensures submitted == old(submitted) + if old(overflow) then [] else old(line[..len]) + [0x0A]
      ensures len == 0 && !active && !overflow && lineStart
    {
      if !overflow {
        for i := 0 to len
          invariant submitted == old(submitted) + line[..i] && len == old(len) && overflow == old(overflow)
        {
          submitted := submitted + [line[i]];
          assert line[..i + 1] == line[..i] + [line[i]];
        }
        submitted := submitted + [LF];
      }
      len, active, overflow, lineStart := 0, false, false, true;
    }

    /** rtbus_runtime_serial_route_port0_byte: says whether the byte is the application's.  What has been
        kept and what has been submitted are those parts of the whole stream at any time. */
    method Route(b: byte) returns (keep: bool)
      requires Valid()
      modifies this, line
      ensures Valid() && heard == old(heard) + [b]
      ensures Application(heard) == Application(old(heard)) + if keep then [b] else []
    {
      ghost var was := heard;
      hide Application, Commands, Unfinished, Joined;
      OneMoreKept(was, b);
      OneMoreCommand(was, b);
      OneMoreUnfinished(was, b);
      JoinedMore(Commands(was), Unfinished(was));
      heard := heard + [b];
      if active {
        if EndsLine(b) {
          SubmitLine();
          return false;
        }
        if len < LINE_MAX - 1 {
          line[len] := b;
          len := len + 1;
        } else {
          overflow := true;
        }
        return false;
      }
      if lineStart && b == AT {
        active, lineStart, len, overflow := true, false, 0, false;
        line[len] := b;
        len := len + 1;
        return false;
      }
      lineStart := EndsLine(b);
      return true;
    }

    /** A burst from the UART: the application's bytes go to the receive ring, which at any time holds the
        newest of the application's unread bytes. */
    method Receive(burst: seq<byte>, ring: RxRing)
      requires Valid() && ring.Valid() && ring.buffer != line && ring.all == Application(heard)
      modifies this, line, ring, ring.buffer
      ensures Valid() && ring.Valid() && heard == old(heard) + burst
      ensures ring.all == Application(heard) && ring.mark == old(ring.mark) <= |ring.all|
      ensures ring.Contents() == Newest(Application(heard)[ring.mark..], ring.buffer.Length - 1)
    {
      hide Application, Valid, Newest, Between;
      for i := 0 to |burst|
        invariant Valid() && ring.Valid() && heard == old(heard) + burst[..i]
        invariant ring.all == Application(heard) && ring.mark == old(ring.mark)
      {
        var keep := Route(burst[i]);
        if keep { ring.Put(burst[i]); }
        assert burst[..i + 1] == burst[..i] + [burst[i]];
      }
      assert burst[..|burst|] == burst;
    }
  }

  lemma JoinedMore(lines: seq<seq<byte>>, line: seq<byte>)
    ensures Joined(lines + [line]) == Joined(lines) + line + [LF] && lines + [] == lines
  {
    assert (lines + [line])[..|lines|] == lines;
  }

  /** What a plain stream is, by its bytes: no 40 comes first or behind 0A or 0D. */
  lemma PlainBytes(s: seq<byte>)
    ensures Application(s) == s <==> forall i | 0 <= i < |s| && s[i] == 0x40 :: i > 0 && s[i - 1] !in {0x0A, 0x0D}
  {
    UnchangedIffNoCommand(s);
  }

  /** A line that starts with 40 and is ended by 0D or 0A goes to the interpreter, without its end, if it has at
      most 255 bytes, and in no case to the application. */
  lemma ControlLine(body: seq<byte>, end: byte)
    requires end in {0x0A, 0x0D} && forall i | 0 <= i < |body| :: body[i] !in {0x0A, 0x0D}
    ensures var s := [0x40] + body + [end];
      && Application(s) == [] && Unfinished(s) == []
      && Commands(s) == if |body| + 1 <= 255 then [[0x40] + body] else []
  {
    var line := [0x40] + body;
    var s := line + [end];
    assert s[..|line|] == line;
    LineLengthUnique(s, |s|);
    OneLine(s);
  }

  /** A line that starts with anything else goes to the application. */
  lemma OtherLine(body: seq<byte>, end: byte)
    requires end in {0x0A, 0x0D} && forall i | 0 <= i < |body| :: body[i] !in {0x0A, 0x0D}
    requires body == [] || body[0] != 0x40
    ensures var s := body + [end]; Application(s) == s && Commands(s) == [] && Unfinished(s) == []
  {
    var s := body + [end];
    LineLengthUnique(s, |s|);
    OneLine(s);
  }
}
