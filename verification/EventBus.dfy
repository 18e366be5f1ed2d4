/** emos.c on its pool: the queues of the bus are the linked lists in pool memory. */
module EventBuses {
  import opened Bytes
  import opened Wrappers
  import opened Errno
  import opened Blocks
  import opened HeapSteps
  import opened PoolMemory
  import opened Pools
  import opened NodeLists
  import opened Entries
  import opened BusRuns
  import opened EventMemory
  import opened PostScripts

  /** A list node that holds an INIT event, with its block header. */
  const INIT_NODE: nat := NODE_SIZE + H

  /** Pool and table are such that emos_init gets to the INIT events. */
  ghost predicate Startable(at: nat, size: nat, table: Option<seq<Entry>>)
  {
    at != 0 && size != 0 && table.Some? && table.value != [] && WellFormed(table.value)
  }

  /** The answer to a table that cannot be used: the error of its first faulty entry, if it has any. */
  ghost predicate TableFault(table: Option<seq<Entry>>, rc: int)
  {
    if table.None? || table.value == [] then rc == -EINVAL
    else exists i: nat :: FirstFault(table.value, i) && rc == if Usable(table.value[i]) then -EALREADY else -EINVAL
  }

  /** The INIT events of the table fit into the pool. */
  ghost predicate InitsFit(at: nat, size: nat, entries: seq<Entry>)
  {
    InitEvents(entries) == [] || Round(at) + INIT_NODE * |InitEvents(entries)| <= at + size - 1
  }

  /** A pool of 24 bytes is one too small for a single INIT event. */
  lemma PoolTooSmall(task: byte)
    ensures var table := Some([Entry(task, 0, true, true, false)]);
      Startable(4, 24, table) && !InitsFit(4, 24, table.value) && InitsFit(4, 25, table.value)
  {
    var entries := [Entry(task, 0, true, true, false)];
    assert entries[..0] == [] && entries[0].init;
    assert InitEvents(entries) == [Event(task, INIT_ID, [])];
  }

  class EventBus {
    const pool: Pool
    const registry: Registry
    var heads: seq<nat>          // task_tbl: the three list heads
    var count: nat               // entry_count
    var next: nat                // poll_next_index
    ghost var nodes: seq<seq<nat>>
    ghost var bus: Bus
    ghost var stale: bool        // the pool still has the blocks of a bus that was given up

    ghost predicate Valid()
      reads this, pool, pool.ram, registry
    {
      && pool.Valid() && Shaped(bus)
      && registry.entries == bus.entries && count == |bus.entries| && next == bus.next
      && |heads| == PRIORITIES && |nodes| == PRIORITIES
      && (stale ==> count == 0 && Quiet(bus.queues) && nodes == [[], [], []] && pool.Live() != map[])
      && (!stale ==> BusMemory(pool.ram[..], pool.Live(), heads, nodes, bus.queues))
    }

    constructor (ram: array<byte>)
      requires ram.Length <= WORD_LIMIT
      ensures Valid() && !stale && bus == Empty([]) && pool.ram == ram && fresh(pool) && fresh(registry)
    {
      pool := new Pool(ram);
      registry := new Registry();
      heads, count, next := [0, 0, 0], 0, 0;
      nodes, bus, stale := [[], [], []], Empty([]), false;
      new;
      NothingBusy();
      EmptyBusMemory(ram[..]);
    }

    /** Every busy block of the pool is a node of exactly one queue, and every node is a busy block. */
    ghost predicate NodesFillPool()
      reads this, pool
    {
      Partition(pool.Live(), nodes)
    }

    /** There is one busy block for each queued event, unless blocks of an earlier bus are left over. */
    lemma OneBlockEach()
      requires Valid()
      ensures stale <==> !NodesFillPool()
      ensures !stale ==> |pool.Live()| == Waiting(bus)
    {
      if stale {
        NothingListed(pool.Live());
      } else {
        LiveCount(pool.ram[..], pool.Live(), heads, nodes, bus.queues);
      }
    }

    /** With every queue empty nothing is allocated, and the high-water mark is back at the base,
        in whatever order the nodes were freed, unless blocks of an earlier bus are left over. */
    lemma DrainedPoolIsEmpty()
      requires Valid() && Quiet(bus.queues)
      ensures pool.blocks == map[] <==> !stale
      ensures !stale ==> pool.High() == pool.heap
    {
      NothingBusy();
      if !stale {
        QuietMeansNoLive(pool.ram[..], pool.Live(), heads, nodes, bus.queues);
        if pool.active { EmptyWhenNothingBusy(pool.blocks, pool.heap, pool.High()); }
      }
    }

    /** What decides over the next post. */
    ghost function Site(): Site
      reads this, pool
    {
      PostScripts.Site(bus.entries, pool.active, pool.top, pool.Area())
    }

    /** emos_post: on success exactly one queue grows, by exactly this event, and its node is placed; on
        failure nothing changes.  The return code is fixed by the arguments, the registry and the room in
        the pool. */
    method Post(r: Request) returns (rc: int)
      requires Valid() && Readable(r)
      modifies this, pool, pool.ram
      ensures Valid() && stale == old(stale)
      ensures rc == CodeOf(old(Site()), r) && Site() == AfterPost(old(Site()), r)
      ensures rc != 0 ==> bus == old(bus)
      ensures rc == 0 ==> Arrived(bus.entries, old(bus).queues, r, bus.queues)
      ensures rc == 0 ==> Known(bus.entries, EventOf(r)) && bus == BusRuns.Post(old(bus), EventOf(r))
      ensures bus.entries == old(bus.entries) && count == old(count)
      ensures forall k | 0 <= k < PRIORITIES :: old(nodes)[k] <= nodes[k]
      ensures pool.active == old(pool.active) && pool.heap == old(pool.heap) && pool.top == old(pool.top)
    {
      hide Sound, BusMemory, Placed, Fits, Busy, Partition;
      if count == 0 { return -ENODEV; }
      var entry := registry.Find(r.task);
      if entry.None? { return -ENOENT; }
      if r.len != 0 && r.payload.None? { return -EINVAL; }
      var k := entry.value.priority;
      if k >= PRIORITIES { return -EINVAL; }
      if NODE_SIZE + r.len > 0xFFFF { return -ENOMEM; }
      PostArrives(bus, r);
      var ok := Enqueue(k, EventOf(r));
      rc := if ok then 0 else -ENOMEM;
    }

    /** The part of emos_post behind its checks. */
    method Enqueue(k: nat, e: Event) returns (ok: bool)
      requires Valid() && count > 0 && k < PRIORITIES && k == PriorityOf(bus.entries, e.task)
      requires NODE_SIZE + |e.payload| <= 0xFFFF
      modifies pool, pool.ram, `heads, `nodes, `bus
      ensures Valid()
      ensures ok <==>
        pool.active && Fits(old(pool.blocks), old(pool.High()), pool.top, Round(NODE_SIZE + |e.payload|))
      ensures bus == if ok then BusRuns.Post(old(bus), e) else old(bus)
      ensures pool.Area() ==
        if ok then Placed(old(pool.Area()), pool.top, Round(NODE_SIZE + |e.payload|)) else old(pool.Area())
      ensures forall k | 0 <= k < PRIORITIES :: old(nodes)[k] <= nodes[k]
      ensures pool.active == old(pool.active) && pool.heap == old(pool.heap) && pool.top == old(pool.top)
    {
      hide Sound, Fits, ListAt, BusMemory, SamePayloadsBut, Busy, NodeHolds, WellFormed, Spaced, Placed;
      ghost var m0, live := pool.ram[..], pool.Live();
      QueueFacts(m0, live, heads, nodes, bus.queues, k);
      var node, head := NewEvent(pool, heads[k], e, nodes[k]);
      if node == 0 { return false; }
      ghost var s: nat := node - H;
      PostMemory(live, m0, pool.ram[..], heads, nodes, bus.queues, k, head, s, pool.Live()[s], e);
      heads := heads[k := head];
      nodes := nodes[k := nodes[k] + [s]];
      bus := BusRuns.Post(bus, e);
      ok := true;
    }

    /** A handler's posts, one after the other; it may post anything, and ignore any failure. */
    method PostScript(script: seq<Request>) returns (rcs: seq<int>)
      requires Valid() && forall r | r in script :: Readable(r)
      modifies this, pool, pool.ram
      ensures Valid() && count == old(count) && stale == old(stale)
      ensures rcs == Codes(old(Site()), script) && Site() == AfterScript(old(Site()), script)
      ensures forall e | e in PostedBy(old(Site()), script) :: Known(old(bus).entries, e)
      ensures bus == PostAll(old(bus), PostedBy(old(Site()), script))
      ensures forall k | 0 <= k < PRIORITIES :: old(nodes)[k] <= nodes[k]
      ensures pool.heap == old(pool.heap)
    {
      hide PostAll, WellFormed, Sound, BusMemory, CodeOf, AfterPost, AfterScript, Codes, PostedBy;
      ghost var s, b := Site(), bus;
      NothingPosted(bus);
      NoScript(s);
      rcs := [];
      for i := 0 to |script|
        invariant Valid() && count == old(count) && stale == old(stale) && bus.entries == b.entries
        invariant rcs == Codes(s, script[..i]) && Site() == AfterScript(s, script[..i])
        invariant forall e | e in PostedBy(s, script[..i]) :: Known(b.entries, e)
        invariant bus == PostAll(b, PostedBy(s, script[..i]))
        invariant forall k | 0 <= k < PRIORITIES :: old(nodes)[k] <= nodes[k]
        invariant pool.heap == old(pool.heap)
      {
        ScriptStep(s, script, i);
        var rc := Post(script[i]);
        if rc == 0 { PostAllSnoc(b, PostedBy(s, script[..i]), EventOf(script[i])); }
        rcs := rcs + [rc];
      }
      assert script[..|script|] == script;
    }

    /** linklist_remove on the head of queue `k`. */
    method RemoveHead(k: nat)
      requires Valid() && count > 0 && k < PRIORITIES && bus.queues[k] != []
      modifies this, pool, pool.ram
      ensures Valid() && bus == old(bus).(queues := Pop(old(bus).queues, k)) && count == old(count)
      ensures old(nodes)[k] != [] && old(nodes)[k][0] in old(pool.Live())
      ensures pool.Live() == old(pool.Live()) - {old(nodes)[k][0]}
      ensures pool.active == old(pool.active) && pool.heap == old(pool.heap) && pool.top == old(pool.top)
    {
      hide Sound, ListAt, BusMemory, SamePayloadsBut, Busy, NodeHolds, WellFormed, Spaced;
      ghost var m0, live := pool.ram[..], pool.Live();
      QueueFacts(m0, live, heads, nodes, bus.queues, k);
      NothingBusy();
      HeadLive(m0, live, heads, nodes, bus.queues, k);
      ghost var blocks, high := pool.blocks, pool.High();
      LiveSpaced(m0, blocks, pool.heap, high);
      var source := heads[k];
      var head, i := Remove(pool, source, source, nodes[k]);
      HeadIndex(m0, source, nodes[k], i);
      PopMemory(live, m0, pool.ram[..], heads, nodes, bus.queues, k, head);
      heads := heads[k := head];
      nodes := nodes[k := nodes[k][1..]];
      bus := bus.(queues := Pop(bus.queues, k));
    }

    /** The handler of the event at the head of queue `k` runs; it finds the event where it was when it
        returns. */
    method RunHandler(k: nat, seen: Event, script: seq<Request>) returns (rcs: seq<int>, late: Event)
      requires Valid() && count > 0 && forall r | r in script :: Readable(r)
      requires k < PRIORITIES && bus.queues[k] != [] && seen == bus.queues[k][0]
      modifies this, pool, pool.ram
      ensures Valid() && count == old(count) && pool.heap == old(pool.heap) && late == seen
      ensures rcs == Codes(old(Site()), script) && Site() == AfterScript(old(Site()), script)
      ensures forall e | e in PostedBy(old(Site()), script) :: Known(old(bus).entries, e)
      ensures bus == PostAll(Logged(old(bus), seen), PostedBy(old(Site()), script))
      ensures bus.queues[k] != [] && bus.queues[k][0] == seen
      ensures old(nodes)[k] != [] && old(nodes)[k] <= nodes[k]
      ensures old(nodes)[k][0] in old(pool.Live()) && old(nodes)[k][0] in pool.Live()
    {
      hide Sound, BusMemory, WellFormed, PostAll, NodeHolds, Codes, AfterScript, PostedBy, Busy;
      ghost var s, c := Site(), Logged(bus, seen);
      var first := Peek(k);
      bus := c;
      assert Valid() && Site() == s;
      rcs := PostScript(script);
      PostKeepsHeads(c, PostedBy(s, script));
      assert c.queues[k] <= bus.queues[k];
      late := Peek(k);
    }

    /** emos_process_queued_event.  `script` is what the handler posts while it runs; `seen` is the
        context it finds at its pointer when called, `late` what is there when it returns.  The node of
        the event is still allocated while the handler posts. */
    method ProcessQueued(script: seq<Request>) returns (ret: int, rcs: seq<int>, seen: Event, late: Event)
      requires Valid() && count > 0 && forall r | r in script :: Readable(r)
      modifies this, pool, pool.ram
      ensures Valid() && count == old(count) && pool.heap == old(pool.heap)
      ensures ret == 0 <==> Quiet(old(bus).queues)
      ensures ret == 0 ==> bus == old(bus) && Site() == old(Site())
      ensures ret != 0 ==> ret == 1 && seen == late == old(bus).queues[First(old(bus).queues)][0]
      ensures ret != 0 && Registered(old(bus).entries, seen.task) ==>
        && rcs == Codes(old(Site()), script)
        && (forall e | e in PostedBy(old(Site()), script) :: Known(old(bus).entries, e))
        && bus == Dispatch(old(bus), PostedBy(old(Site()), script))
        && exists node :: GivenBack(old(pool.Area()), AfterScript(old(Site()), script).area, node, pool.Area())
      ensures ret != 0 && !Registered(old(bus).entries, seen.task) ==>
        && bus == old(bus).(queues := Pop(old(bus).queues, First(old(bus).queues)))
        && exists node :: GivenBack(old(pool.Area()), old(pool.Area()), node, pool.Area())
    {
      hide Sound, BusMemory, WellFormed, PostAll, NodeHolds, Codes, AfterScript, PostedBy, Busy;
      seen, late, rcs := Event(0, 0, []), Event(0, 0, []), [];
      ghost var b, s := bus, Site();
      var k := TopQueue();
      if k == PRIORITIES { return 0, rcs, seen, late; }
      assert k == First(b.queues);
      seen := Peek(k);
      ghost var node := nodes[k][0];
      var entry := registry.Find(seen.task);
      late := seen;
      if entry.Some? {
        if entry.value.bound {
          rcs, late := RunHandler(k, seen, script);
        } else {
          BoundEntries(b.entries, seen.task);
          assert false;
        }
      }
      ghost var area := pool.Area();
      RemoveHead(k);
      assert GivenBack(s.area, area, node, pool.Area());
      ret := 1;
    }

    /** The scan over task_tbl for the first non-empty list. */
    method TopQueue() returns (k: nat)
      requires Valid() && count > 0
      ensures k <= PRIORITIES && (k == PRIORITIES <==> Quiet(bus.queues))
      ensures k < PRIORITIES ==> !Quiet(bus.queues) && k == First(bus.queues)
    {
      k := 0;
      while k < PRIORITIES && heads[k] == 0
        invariant k <= PRIORITIES && forall j | 0 <= j < k :: bus.queues[j] == []
      {
        assert QueueOf(pool.ram[..], pool.Live(), heads, nodes, bus.queues, k);
        k := k + 1;
      }
      if k < PRIORITIES { assert QueueOf(pool.ram[..], pool.Live(), heads, nodes, bus.queues, k); }
    }

    /** The context a handler of queue `k` is given a pointer to. */
    method Peek(k: nat) returns (e: Event)
      requires Valid() && count > 0 && k < PRIORITIES && bus.queues[k] != []
      ensures e == bus.queues[k][0] && nodes[k] != [] && nodes[k][0] in pool.Live()
    {
      ghost var mem := pool.ram[..];
      QueueFacts(mem, pool.Live(), heads, nodes, bus.queues, k);
      HeadLive(mem, pool.Live(), heads, nodes, bus.queues, k);
      e := ReadContext(pool.ram, heads[k], bus.queues[k][0]);
    }

    /** The scan of emos_process_poll_event: the entry whose turn it is, if any entry is polled. */
    method FindPoll() returns (found: bool, index: nat)
      requires Valid() && count > 0
      ensures found ==> index < count && bus.entries[index].always && bus.entries[index].bound
      ensures !found ==> forall i | 0 <= i < count :: !(bus.entries[i].always && bus.entries[i].bound)
      ensures found ==> PollTurn(bus.entries, bus.next, index)
      ensures !found ==> forall i | 0 <= i < |bus.entries| :: !Polls(bus.entries[i])
    {
      hide Sound, BusMemory, WellFormed;
      for i := 0 to count
        invariant forall c | 0 <= c < i :: !PollsAt(bus.entries, bus.next, c)
      {
        index := Wrap(next + i, count);
        var entry := registry.GetByIndex(index);
        if entry.None? { assert false; }
        if entry.value.always && entry.value.bound {
          assert PollDistance(bus.entries, bus.next, index, i);
          return true, index;
        }
      }
      forall i | 0 <= i < |bus.entries| ensures !Polls(bus.entries[i]) {
        assert !PollsAt(bus.entries, bus.next, if i >= bus.next then i - bus.next else i + count - bus.next);
      }
      return false, 0;
    }

    /** emos_process_poll_event; `script` is what the polled handler posts. */
    method ProcessPoll(script: seq<Request>) returns (ret: int, index: nat, rcs: seq<int>)
      requires Valid() && count > 0 && forall r | r in script :: Readable(r)
      modifies this, pool, pool.ram
      ensures Valid() && count == old(count) && pool.heap == old(pool.heap)
      ensures ret == 0 <==> forall i | 0 <= i < |bus.entries| :: !Polls(bus.entries[i])
      ensures ret == 0 ==> bus == old(bus) && Site() == old(Site())
      ensures ret == 0 <==> forall i | 0 <= i < |bus.entries| :: !(bus.entries[i].always && bus.entries[i].bound)
      ensures ret != 0 ==>
        && index < |bus.entries| && bus.entries[index].always && bus.entries[index].bound
        && bus.handled == old(bus).handled + [Event(bus.entries[index].task, 0x2000_0000, [])]
      ensures ret != 0 ==>
        && ret == 1 && PollTurn(old(bus).entries, old(bus).next, index)
        && rcs == Codes(old(Site()), script) && Site() == AfterScript(old(Site()), script)
        && (forall e | e in PostedBy(old(Site()), script) :: Known(old(bus).entries, e))
        && bus == Poll(old(bus), index, PostedBy(old(Site()), script))
    {
      hide Sound, BusMemory, WellFormed, PostAll, Codes, AfterScript, PostedBy;
      ghost var b := bus;
      rcs := [];
      var found;
      found, index := FindPoll();
      if !found { return 0, 0, rcs; }
      bus := LoggedPoll(b, index);
      assert Valid();
      rcs := PostScript(script);
      next := Wrap(index + 1, count);
      bus := bus.(next := next);
      ret := 1;
    }

    /** emos_process: the async hook (what it posts and returns is given), then one queued event,
        else one poll.  The bus takes the steps `steps` of the abstract bus. */
    method Process(asyncRc: int, asyncScript: seq<Request>, script: seq<Request>)
        returns (ret: int, ghost steps: seq<Step>)
      requires Valid() && Conserved(bus)
      requires forall r | r in asyncScript :: Readable(r)
      requires forall r | r in script :: Readable(r)
      modifies this, pool, pool.ram
      ensures Valid() && Conserved(bus) && count == old(count) && pool.heap == old(pool.heap)
      ensures Run(old(bus), steps) && bus == After(old(bus), steps)
      ensures Ran(old(bus), old(Site()), asyncRc, asyncScript, script, ret, steps)
      ensures Leaves(old(Site()), asyncScript, script, steps, pool.Area())
      ensures asyncRc != 0 && count > 0 ==> ret == asyncRc && bus.handled == old(bus).handled
    {
      hide Sound, BusMemory, WellFormed, PostAll, Conserved, Dispatch, Poll, PollTurn, Codes, AfterScript, PostedBy,
        GivenBack;
      ghost var b, s := bus, Site();
      steps := [];
      if count == 0 {
        NothingStarted(s, asyncScript);
        return 0, [];
      }
      var rcs := PostScript(asyncScript);
      ghost var first := Posts(PostedBy(s, asyncScript));
      steps := [first];
      StepConserves(b, first);
      OneStep(b, first);
      if asyncRc != 0 { return asyncRc, steps; }
      ghost var mid, s1 := bus, Site();
      var seen, late, index;
      ret, rcs, seen, late := ProcessQueued(script);
      if ret != 0 {
        HeadRegistered(mid);
        TwoSteps(b, first, mid, Queued(PostedBy(s1, script)));
        steps := [first, Queued(PostedBy(s1, script))];
        return;
      }
      ret, index, rcs := ProcessPoll(script);
      if ret != 0 {
        TwoSteps(b, first, mid, Polled(index, PostedBy(s1, script)));
        steps := [first, Polled(index, PostedBy(s1, script))];
      }
    }

    /** emos_init_pool: forget all queues and entries, then lay out the pool anew.  At a refused address the
        pool keeps the blocks it has, although no queue refers to them any more. */
    method InitPool(at: nat, size: nat) returns (rc: int)
      requires Valid() && at + size <= pool.ram.Length
      modifies this, pool, pool.ram, registry
      ensures Valid() && bus == Empty([]) && count == 0 && heads == [0, 0, 0]
      ensures nodes == [[], [], []]
      ensures rc == if at == 0 || size == 0 then -EINVAL else 0
      ensures rc != 0 ==> pool.ram[..] == old(pool.ram[..]) && pool.Area() == old(pool.Area())
      ensures rc != 0 ==>
        pool.active == old(pool.active) && pool.heap == old(pool.heap) && pool.top == old(pool.top)
      ensures rc == 0 ==> pool.blocks == map[] && (pool.active <==> size > Round(at) - at + H)
      ensures rc == 0 && pool.active ==> pool.heap == pool.High() == Round(at) && pool.top == at + size - 1
      ensures stale <==> rc != 0 && old(pool.Live()) != map[]
    {
      hide Sound, BusMemory, Busy;
      heads := [0, 0, 0];
      registry.Reset();
      count, next := 0, 0;
      nodes, bus := [[], [], []], Empty([]);
      NothingBusy();
      if at == 0 || size == 0 {
        stale := pool.Live() != map[];
        EmptyBusMemory(pool.ram[..]);
        return -EINVAL;
      }
      pool.Init(at, size);
      stale := false;
      EmptyBusMemory(pool.ram[..]);
      rc := 0;
    }

    /** emos_init up to the posting of the INIT events. */
    method InitTable(at: nat, size: nat, table: Option<seq<Entry>>) returns (rc: int)
      requires Valid() && at + size <= pool.ram.Length
      requires table.Some? ==> |table.value| <= 255
      modifies this, pool, pool.ram, registry
      ensures Valid()
      ensures rc == 0 <==> Startable(at, size, table)
      ensures rc == 0 ==> bus == Empty(table.value) && count == |table.value| && registry.entries == table.value
      ensures rc == 0 ==> FilledTo(at, size, 0)
      ensures rc != 0 ==> rc != -ENOMEM && bus == Empty([]) && nodes == [[], [], []]
      ensures rc != 0 ==> if at == 0 || size == 0 then rc == -EINVAL else TableFault(table, rc)
      ensures at == 0 || size == 0 ==> pool.ram[..] == old(pool.ram[..]) && pool.Area() == old(pool.Area())
      ensures rc != 0 && at != 0 && size != 0 ==> pool.blocks == map[]
      ensures stale <==> (at == 0 || size == 0) && old(pool.Live()) != map[]
    {
      hide WellFormed, FirstFault, Sound, BusMemory, Busy;
      rc := InitPool(at, size);
      if rc != 0 { return; }
      rc := registry.Init(table);
      if rc != 0 { return; }
      count := |registry.entries|;
      bus := Empty(table.value);
    }

    /** The pool over `size` bytes at `at` holds `k` INIT nodes, one behind the other, and no hole. */
    ghost predicate FilledTo(at: nat, size: nat, k: nat)
      reads pool
    {
      && AllBusy(pool.blocks) && (pool.active <==> size > Round(at) - at + H)
      && (pool.active ==> pool.top == at + size - 1 && pool.heap == Round(at))
      && (pool.active ==> pool.High() == Round(at) + INIT_NODE * k)
      && (!pool.active ==> k == 0)
    }

    /** Whether one more INIT node fits, and what it leaves. */
    lemma OneMoreInit(at: nat, size: nat, k: nat)
      requires Valid() && at != 0 && size != 0 && FilledTo(at, size, k)
      ensures pool.active && Fits(pool.blocks, pool.High(), pool.top, Round(NODE_SIZE))
         <==> Round(at) + INIT_NODE * (k + 1) <= at + size - 1
      ensures Fits(pool.blocks, pool.High(), pool.top, Round(NODE_SIZE)) && pool.active ==>
        var a := Placed(pool.Area(), pool.top, Round(NODE_SIZE));
        AllBusy(a.blocks) && a.high == pool.High() + INIT_NODE
    {
      hide Sound, BusMemory;
      assert Round(NODE_SIZE) == NODE_SIZE;
    }

    /** One iteration of emos_init's loop. */
    method PostInit(at: nat, size: nat, ghost entries: seq<Entry>, i: nat) returns (rc: int)
      requires Valid() && at != 0 && size != 0 && WellFormed(entries) && i < count == |entries|
      requires bus == Posted(entries, i) && FilledTo(at, size, |InitEvents(entries[..i])|)
      modifies this, pool, pool.ram
      ensures Valid() && count == old(count) && stale == old(stale)
      ensures rc == 0 ==> bus == Posted(entries, i + 1) && FilledTo(at, size, |InitEvents(entries[..i + 1])|)
      ensures rc != 0 ==> rc == -ENOMEM && StoppedAt(bus, entries, i) && !InitsFit(at, size, entries)
    {
      hide Sound, BusMemory, WellFormed, PostAll, Started, Placed, InitEvents, Fits;
      var entry := registry.GetByIndex(i);
      if entry.None? { assert false; }
      PostedStep(entries, i);
      InitCount(entries, i);
      rc := 0;
      if entry.value.init {
        var r := Request(entry.value.task, INIT_ID, None, 0);
        EntryKnown(entries, i);
        OneMoreInit(at, size, |InitEvents(entries[..i])|);
        rc := Post(r);
      }
    }

    /** emos_init: it succeeds exactly if pool and table are usable and the INIT events fit into the pool;
        then every queue holds exactly the INIT events of its entries, in table order, one node behind the
        other at the base of the pool, and nothing was handled yet.  Only a pool that is too small stops
        the posting midway. */
    method Init(at: nat, size: nat, table: Option<seq<Entry>>) returns (rc: int)
      requires Valid() && at + size <= pool.ram.Length
      requires table.Some? ==> |table.value| <= 255
      modifies this, pool, pool.ram, registry
      ensures Valid()
      ensures rc == 0 <==> Startable(at, size, table) && InitsFit(at, size, table.value)
      ensures rc == 0 ==> bus == Started(table.value) && FilledTo(at, size, |InitEvents(table.value)|)
      ensures rc == 0 ==> bus.delivered == bus.handled == []
      ensures rc == 0 ==> forall e :: e in bus.accepted <==> exists i: nat :: InitOf(table.value, i, e)
      ensures rc == -ENOMEM <==> Startable(at, size, table) && !InitsFit(at, size, table.value)
      ensures rc == -ENOMEM ==> exists i: nat :: StoppedAt(bus, table.value, i)
      ensures !Startable(at, size, table) ==> bus == Empty([])
      ensures at == 0 || size == 0 ==> rc == -EINVAL
      ensures !Startable(at, size, table) && at != 0 && size != 0 ==> TableFault(table, rc)
      ensures at == 0 || size == 0 ==> pool.ram[..] == old(pool.ram[..]) && pool.Area() == old(pool.Area())
      ensures !Startable(at, size, table) && at != 0 && size != 0 ==> pool.blocks == map[]
      ensures stale <==> (at == 0 || size == 0) && old(pool.Live()) != map[]
      ensures NodesFillPool() <==> (at != 0 && size != 0) || old(pool.Live()) == map[]
    {
      hide Sound, BusMemory, Busy, Partition, FirstFault, PostAll, InitOf;
      rc := InitTable(at, size, table);
      OneBlockEach();
      if rc != 0 { return; }
      ghost var entries := table.value;
      InitPrefixEmpty(entries);
      for i := 0 to count
        invariant Valid() && count == |entries| && !stale
        invariant bus == Posted(entries, i)
        invariant FilledTo(at, size, |InitEvents(entries[..i])|)
      {
        hide Sound, BusMemory, WellFormed, PostAll, Started, FilledTo, InitEvents, Startable;
        rc := PostInit(at, size, entries, i);
        if rc != 0 {
          OneBlockEach();
          return;
        }
      }
      OneBlockEach();
      StartedWaits(entries);
      assert entries[..|entries|] == entries;
      rc := 0;
    }
  }

  /** A bus that is given up for a refused address: the node of its SYS_INIT event stays allocated, and no
      queue refers to it. */
  method RefusedRestart(ram: array<byte>, task: byte) returns (b: EventBus, rc: int)
    requires 29 <= ram.Length <= WORD_LIMIT
    modifies ram
    ensures b.Valid() && rc == -EINVAL && b.stale && !b.NodesFillPool()
    ensures Quiet(b.bus.queues) && |b.pool.Live()| == 1
  {
    hide Sound, BusMemory, Busy, Started, WellFormed, Partition, InitsFit, InitEvents, AllBusy, EventBus.FilledTo;
    b := new EventBus(ram);
    PoolTooSmall(task);
    rc := b.Init(4, 25, Some([Entry(task, 0, true, true, false)]));
    OneInit(task);
    b.OneBlockEach();
    rc := b.Init(0, 25, None);
  }

  lemma OneInit(task: byte)
    requires WellFormed([Entry(task, 0, true, true, false)])
    ensures Shaped(Started([Entry(task, 0, true, true, false)]))
    ensures Waiting(Started([Entry(task, 0, true, true, false)])) == 1
  {
    hide WellFormed, PostAll, Known;
    var entries := [Entry(task, 0, true, true, false)];
    assert entries[..0] == [] && entries[..1] == entries;
    assert InitEvents(entries) == [Event(task, INIT_ID, [])];
    InitKnown(entries, 1);
    PostsWait(Empty(entries), InitEvents(entries));
  }

  /** Stores task id, context id, length and payload behind the link of a node. */
  method WriteContext(ram: array<byte>, p: nat, e: Event)
    requires p + NODE_SIZE + |e.payload| <= ram.Length && |e.payload| < WORD_LIMIT
    modifies ram
    ensures SameOutside(old(ram[..]), ram[..], p + 4, p + NODE_SIZE + |e.payload|) && Holds(ram[..], p, e)
  {
    WriteFields(ram, p, e.task, e.id, |e.payload|);
    ghost var m := ram[..];
    for i := 0 to |e.payload|
      invariant SameOutside(m, ram[..], p + NODE_SIZE, p + NODE_SIZE + |e.payload|)
      invariant ram[p + NODE_SIZE..p + NODE_SIZE + i] == e.payload[..i]
    {
      ram[p + NODE_SIZE + i] := e.payload[i];
    }
  }

  /** What code that follows the context pointer reads. */
  method ReadContext(ram: array<byte>, p: nat, ghost e: Event) returns (r: Event)
    requires Holds(ram[..], p, e)
    ensures r == e
  {
    var len := Word(ram[..], p + 12);
    r := Event(ram[p + 4], Word(ram[..], p + 8), ram[p + NODE_SIZE..p + NODE_SIZE + len]);
  }

  method WriteFields(ram: array<byte>, p: nat, task: byte, id: u32, len: u32)
    requires p + NODE_SIZE <= ram.Length
    modifies ram
    ensures SameOutside(old(ram[..]), ram[..], p + 4, p + NODE_SIZE)
    ensures ram[p + 4] == task && Word(ram[..], p + 8) == id && Word(ram[..], p + 12) == len
  {
    ram[p + 4] := task;
    StoreWord(ram, p + 8, id);
    StoreWord(ram, p + 12, len);
  }

  /** A list node for event `e`: allocated, linked last, filled in. */
  method NewEvent(pool: Pool, source: nat, e: Event, ghost nodes: seq<nat>) returns (node: nat, head: nat)
    requires pool.Valid() && ListAt(pool.ram[..], source, nodes) && AllLive(pool.Live(), nodes)
    requires NODE_SIZE + |e.payload| <= 0xFFFF
    modifies pool, pool.ram
    ensures pool.Valid() && pool.heap == old(pool.heap) && pool.top == old(pool.top) && pool.active == old(pool.active)
    ensures node == 0 <==>
      !(pool.active && Fits(old(pool.blocks), old(pool.High()), pool.top, Round(NODE_SIZE + |e.payload|)))
    ensures node == 0 ==> pool.ram[..] == old(pool.ram[..]) && pool.Area() == old(pool.Area())
    ensures node != 0 ==> pool.Area() == Placed(old(pool.Area()), pool.top, Round(NODE_SIZE + |e.payload|))
    ensures node != 0 ==> node >= H && var s: nat := node - H;
      && s !in old(pool.Live()) && s in pool.Live() && pool.Live() == old(pool.Live())[s := pool.Live()[s]]
      && ListAt(pool.ram[..], head, nodes + [s]) && NodeHolds(pool.ram[..], pool.Live(), s, e)
      && Spaced(old(pool.Live()), |old(pool.ram[..])|)
      && SamePayloadsBut(old(pool.Live()), old(pool.ram[..]), pool.ram[..], TailLink(nodes), TailLink(nodes) + 4)
  {
    hide Sound, Fits, ListAt, SamePayloadsBut, Spaced, NodeHolds, Placed;
    ghost var m0, live, blocks, high := pool.ram[..], pool.Live(), pool.blocks, pool.High();
    node, head := New(pool, source, NODE_SIZE + |e.payload|, nodes);
    if node == 0 { return; }
    ghost var s: nat := node - H;
    LiveSpaced(m0, blocks, pool.heap, high);
    FillNode(pool, e, node, s, head, nodes, live, m0);
  }

  /** memcpy and field stores of emos_post on the freshly linked node. */
  method FillNode(pool: Pool, e: Event, node: nat, ghost s: nat, ghost head: nat, ghost nodes: seq<nat>,
                  ghost live: Heap, ghost m0: seq<byte>)
    requires pool.Valid() && pool.active && s in pool.Live() && node == Ptr(s) && live == pool.Live() - {s}
    requires node + NODE_SIZE + |e.payload| <= pool.Live()[s].end && |e.payload| < WORD_LIMIT
    requires ListAt(pool.ram[..], head, nodes + [s]) && AllLive(live, nodes)
    requires SamePayloadsBut(live, m0, pool.ram[..], TailLink(nodes), TailLink(nodes) + 4)
    modifies pool.ram
    ensures pool.Valid()
    ensures ListAt(pool.ram[..], head, nodes + [s]) && NodeHolds(pool.ram[..], pool.Live(), s, e)
    ensures SamePayloadsBut(live, m0, pool.ram[..], TailLink(nodes), TailLink(nodes) + 4)
  {
    hide Sound, ListAt, SamePayloadsBut, Spaced, NodeHolds, Holds, AllLive, Busy;
    ghost var m1 := pool.ram[..];
    LiveSpaced(m1, pool.blocks, pool.heap, pool.High());
    SpacedAt(pool.Live(), |m1|, s);
    WriteContext(pool.ram, node, e);
    FillMemory(m1, pool.blocks, pool.heap, pool.High(), nodes, head, s, pool.ram[..], live, m0, TailLink(nodes), e);
    assert Sound(pool.ram[..], pool.blocks, pool.heap, pool.High());
  }

  lemma QueueFacts(mem: seq<byte>, live: Heap, heads: seq<nat>, nodes: seq<seq<nat>>, queues: seq<seq<Event>>, k: nat)
    requires BusMemory(mem, live, heads, nodes, queues) && k < PRIORITIES
    ensures ListAt(mem, heads[k], nodes[k]) && AllLive(live, nodes[k]) && |nodes[k]| == |queues[k]|
    ensures nodes[k] != [] ==> NodeHolds(mem, live, nodes[k][0], queues[k][0])
  {
    assert QueueOf(mem, live, heads, nodes, queues, k);
    if nodes[k] != [] { assert EventAt(mem, live, nodes[k], queues[k], 0); }
  }

  lemma HeadLive(mem: seq<byte>, live: Heap, heads: seq<nat>, nodes: seq<seq<nat>>, queues: seq<seq<Event>>, k: nat)
    requires BusMemory(mem, live, heads, nodes, queues) && k < PRIORITIES && queues[k] != []
    ensures nodes[k] != [] && nodes[k][0] in live && heads[k] == Ptr(nodes[k][0]) && live != map[]
  {
    assert QueueOf(mem, live, heads, nodes, queues, k);
  }

  /** Searching a list for its own head finds the first node. */
  lemma HeadIndex(mem: seq<byte>, head: nat, nodes: seq<nat>, i: nat)
    requires ListAt(mem, head, nodes) && nodes != [] && i <= |nodes|
    requires if i == |nodes| then forall j | 0 <= j < |nodes| :: Ptr(nodes[j]) != head else head == Ptr(nodes[i])
    ensures i == 0 && Without(nodes, i) == nodes[1..] && LinkTo(nodes, i) == 0
  {
    assert Ptr(nodes[0]) == head;
  }

  lemma BoundEntries(entries: seq<Entry>, task: byte)
    requires WellFormed(entries) && Registered(entries, task)
    ensures Lookup(entries, task).value.bound && PriorityOf(entries, task) < PRIORITIES
  {
  }

  /** The bus after the INIT posts of the first `n` entries. */
  ghost function Posted(entries: seq<Entry>, n: nat): Bus
    requires WellFormed(entries) && n <= |entries|
  {
    InitKnown(entries, n);
    PostAll(Empty(entries), InitEvents(entries[..n]))
  }

  /** Initialization stopped at entry `i`: the INIT events before it are queued, its own is not. */
  ghost predicate StoppedAt(b: Bus, entries: seq<Entry>, i: nat)
  {
    i < |entries| && WellFormed(entries) && entries[i].init && b == Posted(entries, i)
  }

  lemma InitPrefixEmpty(entries: seq<Entry>)
    requires WellFormed(entries)
    ensures Posted(entries, 0) == Empty(entries)
  {
  }

  lemma PostedStep(entries: seq<Entry>, i: nat)
    requires WellFormed(entries) && i < |entries|
    ensures var e := Event(entries[i].task, INIT_ID, []);
            && Known(entries, e) && Shaped(Posted(entries, i)) && Posted(entries, i).entries == entries
            && Posted(entries, i + 1) ==
               if entries[i].init then BusRuns.Post(Posted(entries, i), e) else Posted(entries, i)
  {
    var e := Event(entries[i].task, INIT_ID, []);
    LookupMember(entries, i);
    InitKnown(entries, i);
    assert entries[..i + 1][..i] == entries[..i];
    PostAllSnoc(Empty(entries), InitEvents(entries[..i]), e);
  }

  lemma InitCount(entries: seq<Entry>, i: nat)
    requires i < |entries|
    ensures |InitEvents(entries[..i + 1])| == |InitEvents(entries[..i])| + if entries[i].init then 1 else 0
    ensures |InitEvents(entries[..i + 1])| <= |InitEvents(entries)|
  {
    assert entries[..i + 1][..i] == entries[..i];
    InitCountMore(entries, i + 1);
  }

  lemma {:induction false} InitCountMore(entries: seq<Entry>, i: nat)
    requires i <= |entries|
    ensures |InitEvents(entries[..i])| <= |InitEvents(entries)|
    decreases |entries| - i
  {
    if i == |entries| {
      assert entries[..i] == entries;
    } else {
      assert entries[..i + 1][..i] == entries[..i];
      InitCountMore(entries, i + 1);
    }
  }

  lemma EntryKnown(entries: seq<Entry>, i: nat)
    requires WellFormed(entries) && i < |entries|
    ensures Refusal(entries, Request(entries[i].task, INIT_ID, None, 0)) == 0
  {
    LookupMember(entries, i);
  }

  lemma OneStep(b: Bus, s: Step)
    requires Can(b, s)
    ensures Run(b, [s]) && After(b, [s]) == Do(b, s)
  {
    assert [s][..0] == [];
  }

  lemma TwoSteps(b: Bus, s: Step, c: Bus, t: Step)
    requires Can(b, s) && c == Do(b, s) && Can(c, t) && Conserved(c)
    ensures Run(b, [s, t]) && After(b, [s, t]) == Do(c, t)
    ensures Conserved(Do(c, t))
  {
    OneStep(b, s);
    assert [s, t][..1] == [s];
    StepConserves(c, t);
  }

  /** In a conserved bus the event at the head of a queue has a registered task. */
  lemma HeadRegistered(b: Bus)
    requires Conserved(b) && !Quiet(b.queues)
    ensures Registered(b.entries, b.queues[First(b.queues)][0].task)
  {
    var k := First(b.queues);
    assert Sorted(b, k) && b.queues[k][0] in b.queues[k];
  }

  lemma NothingPosted(b: Bus)
    requires Shaped(b)
    ensures PostAll(b, []) == b
  {
  }

  lemma NothingBusy()
    ensures Busy(map[]) == map[]
  {
  }
}
