/** Posts as a caller sees them: what emos_post is asked for, what it answers, and what a list of posts,
    such as those of a handler, comes to. */
module PostScripts {
  import opened Bytes
  import opened Wrappers
  import opened Errno
  import opened Blocks
  import opened HeapSteps
  import opened Entries
  import opened BusRuns
  import opened EventMemory

  /** The arguments of emos_post; `payload` is None for a NULL pointer. */
  datatype Request = Request(task: byte, id: u32, payload: Option<seq<byte>>, len: nat)

  /** What callers owe: a non-NULL payload has `len` readable bytes, and the node size fits in the
      32-bit `alloc_len`. */
  predicate Readable(r: Request)
  {
    (r.payload.Some? ==> r.len <= |r.payload.value|) && r.len <= 0xFFFF_FFEF
  }

  function EventOf(r: Request): Event
    requires Readable(r)
  {
    Event(r.task, r.id, if r.payload.Some? then r.payload.value[..r.len] else [])
  }

  /** The checks of emos_post before it allocates; 0 when all pass. */
  ghost function Refusal(entries: seq<Entry>, r: Request): int
  {
    if entries == [] then -ENODEV
    else if !Registered(entries, r.task) then -ENOENT
    else if r.len != 0 && r.payload.None? then -EINVAL
    else if PriorityOf(entries, r.task) >= PRIORITIES then -EINVAL
    else if NODE_SIZE + r.len > 0xFFFF then -ENOMEM
    else 0
  }

  /** The events of those requests whose post succeeded. */
  function Accepted(script: seq<Request>, rcs: seq<int>): seq<Event>
    requires |rcs| == |script| && forall r | r in script :: Readable(r)
  {
    if script == [] then []
    else
      var n := |script| - 1;
      Accepted(script[..n], rcs[..n]) + (if rcs[n] == 0 then [EventOf(script[n])] else [])
  }

  /** What decides over a post: the registry and the pool. */
  datatype Site = Site(entries: seq<Entry>, active: bool, top: nat, area: Area)

  /** The pool has room for the node of a request. */
  ghost predicate Granted(s: Site, r: Request)
  {
    s.active && Fits(s.area.blocks, s.area.high, s.top, Round(NODE_SIZE + r.len))
  }

  /** The return code of emos_post. */
  ghost function CodeOf(s: Site, r: Request): int
  {
    if Refusal(s.entries, r) != 0 then Refusal(s.entries, r) else if Granted(s, r) then 0 else -ENOMEM
  }

  /** The codes of emos_post by the table, the arguments and the blocks of the pool. */
  lemma CodeTable(s: Site, r: Request)
    requires WellFormed(s.entries)
    ensures var known := exists i :: 0 <= i < |s.entries| && s.entries[i].task == r.task;
      && (CodeOf(s, r) == -ENODEV <==> s.entries == [])
      && (CodeOf(s, r) == -ENOENT <==> s.entries != [] && !known)
      && (CodeOf(s, r) == -EINVAL <==> known && r.len > 0 && r.payload.None?)
      && (CodeOf(s, r) == 0 <==>
            && known && (r.len == 0 || r.payload.Some?) && 16 + r.len <= 65535 && s.active
            && (|| Round(16 + r.len) + 8 <= s.top - s.area.high
                || exists b :: b in s.area.blocks && !s.area.blocks[b].busy
                               && s.area.blocks[b].end - b >= Round(16 + r.len) + 8))
      && CodeOf(s, r) in {0, -ENODEV, -ENOENT, -EINVAL, -ENOMEM}
  {
    NoEntry(s.entries, r.task);
    assert forall b | FitsBlock(s.area.blocks, b, Round(16 + r.len)) ::
      b in s.area.blocks && s.area.blocks[b].end - b >= Round(16 + r.len) + 8;
    if b: nat :| b in s.area.blocks && !s.area.blocks[b].busy && s.area.blocks[b].end - b >= Round(16 + r.len) + 8 {
      assert FitsBlock(s.area.blocks, b, Round(16 + r.len));
    }
  }

  /** `after` is `before` with the event of request `r` at the end of the queue of its task's entry. */
  ghost predicate Arrived(entries: seq<Entry>, before: seq<seq<Event>>, r: Request, after: seq<seq<Event>>)
    requires Readable(r)
  {
    exists i ::
      && 0 <= i < |entries| && entries[i].task == r.task && entries[i].priority < |before|
      && after == before[entries[i].priority := before[entries[i].priority]
                         + [Event(r.task, r.id, if r.payload.Some? then r.payload.value[..r.len] else [])]]
  }

  lemma PostArrives(b: Bus, r: Request)
    requires Shaped(b) && Readable(r) && Known(b.entries, EventOf(r))
    ensures Arrived(b.entries, b.queues, r, BusRuns.Post(b, EventOf(r)).queues)
  {
    NoEntry(b.entries, r.task);
    var i: nat :| i < |b.entries| && b.entries[i].task == r.task;
    EntryPriority(b.entries, i);
  }

  ghost function AfterPost(s: Site, r: Request): (t: Site)
    ensures t.entries == s.entries && t.active == s.active && t.top == s.top
  {
    if CodeOf(s, r) == 0 then s.(area := Placed(s.area, s.top, Round(NODE_SIZE + r.len))) else s
  }

  /** The posts of a script one after the other, each in what its predecessors left, whatever they returned. */
  ghost function AfterScript(s: Site, script: seq<Request>): (t: Site)
    ensures t.entries == s.entries && t.active == s.active && t.top == s.top
  {
    if script == [] then s
    else AfterPost(AfterScript(s, script[..|script| - 1]), script[|script| - 1])
  }

  ghost function Codes(s: Site, script: seq<Request>): (rcs: seq<int>)
    ensures |rcs| == |script|
  {
    if script == [] then []
    else
      var before := script[..|script| - 1];
      Codes(s, before) + [CodeOf(AfterScript(s, before), script[|script| - 1])]
  }

  /** The events a script gets accepted. */
  ghost function PostedBy(s: Site, script: seq<Request>): seq<Event>
    requires forall r | r in script :: Readable(r)
  {
    Accepted(script, Codes(s, script))
  }

  lemma ScriptStep(s: Site, script: seq<Request>, i: nat)
    requires i < |script| && forall r | r in script :: Readable(r)
    ensures var before, code := AfterScript(s, script[..i]), CodeOf(AfterScript(s, script[..i]), script[i]);
      && AfterScript(s, script[..i + 1]) == AfterPost(before, script[i])
      && Codes(s, script[..i + 1]) == Codes(s, script[..i]) + [code]
      && PostedBy(s, script[..i + 1])
         == if code == 0 then PostedBy(s, script[..i]) + [EventOf(script[i])] else PostedBy(s, script[..i])
  {
    hide CodeOf, AfterPost;
    assert script[..i + 1][..i] == script[..i];
  }

  lemma NoScript(s: Site)
    ensures AfterScript(s, []) == s && Codes(s, []) == [] && PostedBy(s, []) == []
  {
  }

  lemma {:induction false} ScriptAppend(s: Site, script: seq<Request>, more: seq<Request>)
    ensures AfterScript(s, script + more) == AfterScript(AfterScript(s, script), more)
    ensures Codes(s, script + more) == Codes(s, script) + Codes(AfterScript(s, script), more)
    decreases |more|
  {
    hide CodeOf, AfterPost;
    if more == [] {
      assert script + more == script;
    } else {
      var n := |more| - 1;
      ScriptAppend(s, script, more[..n]);
      assert (script + more)[..|script| + n] == script + more[..n];
    }
  }

  /** The node sizes a script asks for. */
  function NodeSizes(script: seq<Request>): seq<nat>
  {
    if script == [] then [] else [Round(NODE_SIZE + script[0].len)] + NodeSizes(script[1..])
  }

  /** Every post of a script succeeds exactly if none is refused by its arguments and the pool has room for
      all the nodes, one after the other. */
  lemma {:induction false} AllPosted(s: Site, script: seq<Request>)
    ensures (forall i | 0 <= i < |script| :: Codes(s, script)[i] == 0)
       <==> && (forall r | r in script :: Refusal(s.entries, r) == 0)
            && (script == [] || (s.active && Room(s.area, s.top, NodeSizes(script))))
    decreases |script|
  {
    hide Refusal, Fits, Placed;
    if script != [] {
      var r, rest := script[0], script[1..];
      var next := AfterPost(s, r);
      assert script == [r] + rest;
      FirstPost(s, r);
      ScriptAppend(s, [r], rest);
      AllPosted(next, rest);
      var codes, left := Codes(s, script), Codes(next, rest);
      assert codes == [CodeOf(s, r)] + left;
      assert NodeSizes(script)[1..] == NodeSizes(rest);
      assert (forall i | 0 <= i < |codes| :: codes[i] == 0)
        <==> CodeOf(s, r) == 0 && (forall i | 0 <= i < |left| :: left[i] == 0) by { HeadAndRest(codes, left); }
      assert r in script && forall q | q in script :: q == r || q in rest;
      assert forall q | q in rest :: q in script;
      if rest == [] { assert Room(next.area, s.top, NodeSizes(rest)); }
    }
  }

  lemma HeadAndRest(codes: seq<int>, left: seq<int>)
    requires codes != [] && codes[1..] == left
    ensures (forall i | 0 <= i < |codes| :: codes[i] == 0)
       <==> codes[0] == 0 && forall i | 0 <= i < |left| :: left[i] == 0
  {
    assert forall i | 0 <= i < |left| :: left[i] == codes[i + 1];
    assert forall i | 1 <= i < |codes| :: codes[i] == left[i - 1];
  }

  lemma FirstPost(s: Site, r: Request)
    ensures AfterScript(s, [r]) == AfterPost(s, r) && Codes(s, [r]) == [CodeOf(s, r)]
  {
    hide AfterPost, CodeOf;
    assert [r][..0] == [];
  }

  /** A bus that is not started takes no post. */
  lemma {:induction false} NothingStarted(s: Site, script: seq<Request>)
    requires s.entries == []
    ensures AfterScript(s, script) == s
  {
    if script != [] { NothingStarted(s, script[..|script| - 1]); }
  }

  predicate SomePolled(entries: seq<Entry>)
  {
    exists i | 0 <= i < |entries| :: Polls(entries[i])
  }

  /** What one call of emos_process does to a bus: nothing before a start; else it takes what the async
      hook posts, and unless that hook reports an error, hands out one queued event if there is one, or
      else polls one entry if any is polled.  The handler posts into the pool the hook has left. */
  ghost predicate Ran(b: Bus, s: Site, asyncRc: int, asyncScript: seq<Request>, script: seq<Request>, ret: int,
                      steps: seq<Step>)
    requires forall r | r in asyncScript :: Readable(r)
    requires forall r | r in script :: Readable(r)
  {
    if b.entries == [] then ret == 0 && steps == []
    else
      && |steps| >= 1 && steps[0] == Posts(PostedBy(s, asyncScript)) && Can(b, steps[0])
      && var mid, es := Do(b, steps[0]), PostedBy(AfterScript(s, asyncScript), script);
         if asyncRc != 0 then ret == asyncRc && |steps| == 1
         else if !Quiet(mid.queues) then ret == 1 && |steps| == 2 && steps[1] == Queued(es)
         else if SomePolled(b.entries) then ret == 1 && |steps| == 2 && steps[1].Polled? && steps[1].es == es
         else ret == 0 && |steps| == 1
  }

  /** The pool after such a call.  While its handler posts, the node of a queued event is still allocated;
      it is given back when the handler has returned. */
  ghost predicate Leaves(s: Site, asyncScript: seq<Request>, script: seq<Request>, steps: seq<Step>, area: Area)
  {
    var s1 := AfterScript(s, asyncScript);
    var s2 := AfterScript(s1, script);
    if |steps| < 2 then area == s1.area
    else if steps[1].Queued? then exists node :: GivenBack(s1.area, s2.area, node, area)
    else area == s2.area
  }

  ghost predicate GivenBack(before: Area, after: Area, node: nat, area: Area)
  {
    node in Busy(before.blocks) && node in Busy(after.blocks) && Busy(area.blocks) == Busy(after.blocks) - {node}
  }
}
