/** rtbus.c: the public bus with its delayed-event table. */
module Rtbuses {
  import opened Bytes
  import opened Wrappers
  import opened Errno
  import opened Blocks
  import opened HeapSteps
  import opened PoolMemory
  import opened Entries
  import opened BusRuns
  import opened EventMemory
  import opened PostScripts
  import opened EventBuses
  import opened Clock

  const PAYLOAD_MAX: nat := 32   // CONFIG_RTBUS_DELAYED_EVENT_PAYLOAD_MAX

  /** A table slot; `due` is the wrapped due time. */
  datatype Slot = Unused | Used(event: Event, due: u32)

  /** An event with its true due time. */
  datatype Timed = Timed(event: Event, due: nat)

  predicate IsDue(s: Slot, now: u32)
  {
    s.Used? && DueReached(now, s.due)
  }

  /** The post that moves a delayed event to its queue. */
  function MoveRequest(e: Event): Request
  {
    Request(e.task, e.id, if e.payload == [] then None else Some(e.payload), |e.payload|)
  }

  /** The posts that move several of them. */
  function Moves(es: seq<Event>): (script: seq<Request>)
    ensures |script| == |es|
  {
    seq(|es|, i requires 0 <= i < |es| => MoveRequest(es[i]))
  }

  /** The due events among the first `n` slots, in slot order. */
  function DueEvents(slots: seq<Slot>, now: u32, n: nat): seq<Event>
    requires n <= |slots|
  {
    if n == 0 then []
    else DueEvents(slots, now, n - 1) + (if IsDue(slots[n - 1], now) then [slots[n - 1].event] else [])
  }

  /** The table with the due ones among the first `n` slots cleared. */
  function Cleared(slots: seq<Slot>, now: u32, n: nat): (r: seq<Slot>)
    requires n <= |slots|
    ensures |r| == |slots|
  {
    seq(|slots|, i requires 0 <= i < |slots| => if i < n && IsDue(slots[i], now) then Unused else slots[i])
  }

  /** The pending events with their true due times. */
  ghost function Pending(slots: seq<Slot>, dueAt: seq<nat>): multiset<Timed>
    requires |slots| == |dueAt|
  {
    if slots == [] then multiset{}
    else
      var n := |slots| - 1;
      Pending(slots[..n], dueAt[..n]) + Share(slots[n], dueAt[n])
  }

  ghost function Share(s: Slot, due: nat): multiset<Timed>
  {
    if s.Used? then multiset{Timed(s.event, due)} else multiset{}
  }

  lemma {:induction false} PendingUpdate(slots: seq<Slot>, dueAt: seq<nat>, i: nat, s: Slot, due: nat)
    requires |slots| == |dueAt| && i < |slots|
    ensures Pending(slots[i := s], dueAt[i := due]) + Share(slots[i], dueAt[i])
            == Pending(slots, dueAt) + Share(s, due)
  {
    hide Share;
    var n := |slots| - 1;
    var a, d := slots[i := s], dueAt[i := due];
    if i < n {
      assert a[..n] == slots[..n][i := s] && d[..n] == dueAt[..n][i := due];
      PendingUpdate(slots[..n], dueAt[..n], i, s, due);
      assert a[n] == slots[n] && d[n] == dueAt[n];
      assert slots[..n][i] == slots[i] && dueAt[..n][i] == dueAt[i];
      Exchange(Pending(a[..n], d[..n]), Pending(slots[..n], dueAt[..n]), Share(slots[i], dueAt[i]),
               Share(s, due), Share(slots[n], dueAt[n]));
    } else {
      assert a[..n] == slots[..n] && d[..n] == dueAt[..n];
      Exchange(Pending(a[..n], d[..n]) + Share(s, due), Pending(slots[..n], dueAt[..n]), multiset{},
               Share(s, due), Share(slots[n], dueAt[n]));
    }
  }

  lemma Exchange(p: multiset<Timed>, q: multiset<Timed>, x: multiset<Timed>, y: multiset<Timed>, z: multiset<Timed>)
    requires p + x == q + y
    ensures p + z + x == q + z + y
  {
    assert p + z + x == (p + x) + z == (q + y) + z == q + z + y;
  }

  /** Every pending event was armed with a delay below 2^31 ms and is looked at less than 2^31 ms
      after its due time. */
  ghost predicate InWindow(slots: seq<Slot>, dueAt: seq<nat>, now: nat)
    requires |slots| == |dueAt|
  {
    forall i | 0 <= i < |slots| && slots[i].Used? :: now < dueAt[i] + HALF && dueAt[i] < now + HALF
  }

  lemma DueInWindow(slots: seq<Slot>, dueAt: seq<nat>, now: nat, i: nat)
    requires |slots| == |dueAt| && InWindow(slots, dueAt, now) && i < |slots| && slots[i].Used?
    requires slots[i].due == Low32(dueAt[i])
    ensures IsDue(slots[i], Low32(now)) <==> dueAt[i] <= now
    ensures TimeoutUntil(Low32(now), slots[i].due) == if dueAt[i] <= now then 0 else dueAt[i] - now
  {
    DueReachedExact(now, dueAt[i]);
    TimeoutExact(now, dueAt[i]);
  }

  class Rtbus {
    const core: EventBus
    const delayed: array<Slot>
    ghost var dueAt: seq<nat>             // true due time of each used slot
    ghost var armed: multiset<Timed>      // every delayed event accepted since the last init
    ghost var moved: multiset<Timed>      // those moved to their queues

    ghost predicate Valid()
      reads this, delayed, core, core.pool, core.pool.ram, core.registry
    {
      && core.Valid() && |dueAt| == delayed.Length
      && (forall i | 0 <= i < delayed.Length && delayed[i].Used? ::
            delayed[i].due == Low32(dueAt[i]) && |delayed[i].event.payload| <= PAYLOAD_MAX)
      && armed == moved + Pending(delayed[..], dueAt)
    }

    constructor (core: EventBus, delayed: array<Slot>)
      requires core.Valid() && forall i | 0 <= i < delayed.Length :: delayed[i] == Unused
      ensures Valid() && this.core == core && this.delayed == delayed
    {
      this.core, this.delayed := core, delayed;
      dueAt := seq(delayed.Length, _ => 0);
      armed, moved := multiset{}, multiset{};
      new;
      NothingPending(delayed[..], dueAt);
    }

    /** rtbus_reset_delayed_events. */
    method ResetDelayed()
      requires core.Valid()
      modifies this, delayed
      ensures Valid() && armed == moved == multiset{}
      ensures forall i | 0 <= i < delayed.Length :: delayed[i] == Unused
    {
      hide BusMemory, Partition, Busy, WellFormed, Sound, Pending, Low32;
      for i := 0 to delayed.Length
        invariant forall j | 0 <= j < i :: delayed[j] == Unused
        invariant core.Valid()
      {
        delayed[i] := Unused;
      }
      dueAt := seq(delayed.Length, _ => 0);
      armed, moved := multiset{}, multiset{};
      NothingPending(delayed[..], dueAt);
    }

    /** rtbus_init. */
    method Init(at: nat, size: nat, table: Option<seq<Entry>>) returns (rc: int)
      requires Valid() && at + size <= core.pool.ram.Length && (table.Some? ==> |table.value| <= 255)
      modifies this, delayed, core, core.pool, core.pool.ram, core.registry
      ensures Valid() && armed == moved == multiset{}
      ensures forall i | 0 <= i < delayed.Length :: delayed[i] == Unused
      ensures rc == 0 <==> Startable(at, size, table) && InitsFit(at, size, table.value)
      ensures rc == -ENOMEM <==> Startable(at, size, table) && !InitsFit(at, size, table.value)
      ensures rc == 0 ==> core.bus == Started(table.value) && core.FilledTo(at, size, |InitEvents(table.value)|)
      ensures rc == 0 ==> Conserved(core.bus) && InitFirst(core.bus)
      ensures at == 0 || size == 0 ==> rc == -EINVAL
      ensures at != 0 && size != 0 && !Startable(at, size, table) ==> TableFault(table, rc)
      ensures core.NodesFillPool() <==> (at != 0 && size != 0) || old(core.pool.Live()) == map[]
    {
      hide Conserved, InitFirst, Started, BusMemory, InitEvents, TableFault, Busy, Partition;
      ResetDelayed();
      ghost var slots := delayed[..];
      rc := core.Init(at, size, table);
      assert delayed[..] == slots;
      if rc != 0 {
        ResetDelayed();
      } else {
        StartedConserved(table.value);
        StartedInitFirst(table.value);
      }
    }

    /** rtbus_post. */
    method Post(r: Request) returns (rc: int)
      requires Valid() && Readable(r)
      modifies core, core.pool, core.pool.ram
      ensures Valid() && delayed[..] == old(delayed[..])
      ensures rc == 0 ==> Known(core.bus.entries, EventOf(r)) && core.bus == BusRuns.Post(old(core.bus), EventOf(r))
      ensures rc != 0 ==> core.bus == old(core.bus)
      ensures var code := CodeOf(old(core.Site()), r); rc == if code == -ENOENT then -ENOTSUP else code
      ensures core.Site() == AfterPost(old(core.Site()), r)
      ensures rc == -ENOTSUP <==>
        core.bus.entries != [] && forall i | 0 <= i < |core.bus.entries| :: core.bus.entries[i].task != r.task
    {
      CodeTable(core.Site(), r);
      hide CodeOf, AfterPost, BusMemory;
      ghost var slots := delayed[..];
      rc := core.Post(r);
      assert delayed[..] == slots;
      if rc == -ENOENT { rc := -ENOTSUP; }
    }

    /** The first unused slot, or the table size. */
    method FreeSlot() returns (i: nat)
      ensures i <= delayed.Length && (i < delayed.Length ==> delayed[i] == Unused)
      ensures forall j | 0 <= j < i :: delayed[j].Used?
    {
      i := 0;
      while i < delayed.Length && delayed[i].Used?
        invariant i <= delayed.Length && forall j | 0 <= j < i :: delayed[j].Used?
      {
        i := i + 1;
      }
    }

    /** rtbus_post_delay at true time `now`. */
    method PostDelay(r: Request, delay: u32, now: nat) returns (rc: int)
      requires Valid() && Readable(r)
      modifies this, delayed, core, core.pool, core.pool.ram
      ensures Valid() && moved == old(moved)
      ensures delay == 0 ==> delayed[..] == old(delayed[..]) && armed == old(armed)
      ensures delay == 0 && rc == 0 ==>
        Known(core.bus.entries, EventOf(r)) && core.bus == BusRuns.Post(old(core.bus), EventOf(r))
      ensures delay > 0 || rc != 0 ==> core.bus == old(core.bus)
      ensures delay == 0 ==> var code := CodeOf(old(core.Site()), r);
        rc == (if code == -ENOENT then -ENOTSUP else code) && core.Site() == AfterPost(old(core.Site()), r)
      ensures delay > 0 ==> core.Site() == old(core.Site())
      ensures delay > 0 ==>
        rc == if r.len != 0 && r.payload.None? then -EINVAL
              else if r.len > 32 then -EMSGSIZE
              else if forall i | 0 <= i < delayed.Length :: old(delayed[i]).Used? then -ENOMEM
              else 0
      ensures delay > 0 && rc == 0 ==> armed == old(armed) + multiset{Timed(EventOf(r), now + delay)}
      ensures delay > 0 && rc == 0 ==>
        exists i | 0 <= i < delayed.Length ::
          && old(delayed[i]) == Unused && (forall j | 0 <= j < i :: old(delayed[j]).Used?)
          && delayed[..] == old(delayed[..])[i := Used(EventOf(r), Low32(now + delay))]
      ensures rc != 0 ==> delayed[..] == old(delayed[..]) && armed == old(armed)
    {
      hide BusMemory, Partition, Busy, WellFormed, Pending, Low32, CodeOf, AfterPost, Known;
      if delay == 0 {
        rc := Post(r);
        return;
      }
      if r.len != 0 && r.payload.None? { return -EINVAL; }
      if r.len > PAYLOAD_MAX { return -EMSGSIZE; }
      var i := FreeSlot();
      if i == delayed.Length { return -ENOMEM; }
      ghost var slots := delayed[..];
      Arm(i, EventOf(r), now + delay);
      assert delayed[..] == slots[i := Used(EventOf(r), Low32(now + delay))];
      rc := 0;
    }

    method Arm(i: nat, e: Event, due: nat)
      requires Valid() && i < delayed.Length && delayed[i] == Unused && |e.payload| <= PAYLOAD_MAX
      modifies `dueAt, `armed, delayed
      ensures Valid() && armed == old(armed) + multiset{Timed(e, due)}
      ensures delayed[..] == old(delayed[..])[i := Used(e, Low32(due))]
    {
      hide Pending, Low32, BusMemory;
      ArmBalances(armed, moved, delayed[..], dueAt, i, e, Low32(due), due);
      ghost var slots := delayed[..];
      delayed[i] := Used(e, Low32(due));
      assert delayed[..] == slots[i := Used(e, Low32(due))];
      dueAt := dueAt[i := due];
      armed := armed + multiset{Timed(e, due)};
    }

    /** rtbus_next_timeout_ms: -1 when nothing is pending, else the time to the earliest due time,
        0 when that has passed. */
    method NextTimeout(now: nat) returns (t: int)
      requires Valid()
      ensures t == -1 <==> forall i | 0 <= i < delayed.Length :: delayed[i] == Unused
      ensures t != -1 ==> t >= 0
      ensures InWindow(delayed[..], dueAt, now) ==>
        forall i | 0 <= i < delayed.Length && delayed[i].Used? :: t <= (if dueAt[i] <= now then 0 else dueAt[i] - now)
      ensures InWindow(delayed[..], dueAt, now) && t != -1 ==>
        exists i | 0 <= i < delayed.Length && delayed[i].Used? :: t == if dueAt[i] <= now then 0 else dueAt[i] - now
    {
      hide BusMemory, Partition, Busy, WellFormed, Sound, Pending;
      var found, best := false, 0;
      ghost var at := 0;
      for i := 0 to delayed.Length
        invariant found <==> exists j | 0 <= j < i :: delayed[j].Used?
        invariant forall j | 0 <= j < i && delayed[j].Used? :: best <= TimeoutUntil(Low32(now), delayed[j].due)
        invariant found ==> 0 <= at < i && delayed[at].Used? && best == TimeoutUntil(Low32(now), delayed[at].due)
      {
        if delayed[i].Used? {
          var timeout := TimeoutUntil(Low32(now), delayed[i].due);
          if !found || timeout < best {
            best, found, at := timeout, true, i;
          }
        }
      }
      t := if found then best else -1;
      if InWindow(delayed[..], dueAt, now) {
        forall i | 0 <= i < delayed.Length && delayed[i].Used?
          ensures TimeoutUntil(Low32(now), delayed[i].due) == if dueAt[i] <= now then 0 else dueAt[i] - now
        {
          DueInWindow(delayed[..], dueAt, now, i);
        }
      }
    }

    /** The runtime loop's wait: never longer than `max`, and never past the earliest due time. */
    method RuntimeWait(now: nat, max: nat) returns (wait: int)
      requires Valid()
      ensures 0 <= wait <= max
      ensures InWindow(delayed[..], dueAt, now) ==>
        forall i | 0 <= i < delayed.Length && delayed[i].Used? ::
          wait <= (if dueAt[i] <= now then 0 else dueAt[i] - now)
      ensures InWindow(delayed[..], dueAt, now) && wait < max ==>
        exists i | 0 <= i < delayed.Length && delayed[i].Used? :: wait == if dueAt[i] <= now then 0 else dueAt[i] - now
    {
      wait := NextTimeout(now);
      if wait < 0 || wait > max {
        wait := max;
      }
    }

    /** One iteration of rtbus_move_due_events: post the event of slot `i`, then clear the slot. */
    method MoveSlot(i: nat) returns (rc: int)
      requires Valid() && i < delayed.Length && delayed[i].Used?
      modifies `moved, delayed, core, core.pool, core.pool.ram
      ensures Valid()
      ensures rc == CodeOf(old(core.Site()), MoveRequest(old(delayed[i]).event))
      ensures core.Site() == AfterPost(old(core.Site()), MoveRequest(old(delayed[i]).event))
      ensures core.pool.heap == old(core.pool.heap)
      ensures rc != 0 ==>
        rc < 0 && core.bus == old(core.bus) && moved == old(moved) && delayed[..] == old(delayed[..])
      ensures rc == 0 ==> Known(old(core.bus).entries, old(delayed[i]).event)
      ensures rc == 0 ==> core.bus == BusRuns.Post(old(core.bus), old(delayed[i]).event)
      ensures rc == 0 ==> moved == old(moved) + multiset{Timed(old(delayed[i]).event, dueAt[i])}
      ensures rc == 0 ==> delayed[..] == old(delayed[..])[i := Unused]
    {
      hide Refusal, BusMemory, Known, Pending, Low32, PriorityOf, AfterPost, Granted;
      ghost var slots, e := delayed[..], delayed[i].event;
      RefusalNegative(core.bus.entries, MoveRequest(e));
      MoveKeepsEvent(e);
      MoveBalances(armed, moved, slots, dueAt, i);
      var r := MoveRequest(delayed[i].event);
      rc := core.Post(r);
      assert delayed[..] == slots;
      if rc != 0 { return; }
      delayed[i] := Unused;
      assert delayed[..] == slots[i := Unused];
      moved := moved + multiset{Timed(e, dueAt[i])};
    }

    /** Every due event can be posted: none is refused whatever the room, and the pool has room for their
        nodes, one after the other. */
    ghost predicate Movable(now: u32)
      reads this, delayed, core, core.pool
    {
      MovableFrom(core.Site(), delayed[..], now, 0)
    }

    /** Of the table `slots` the first `n` slots have been gone through, starting from bus `b` in `site`. */
    ghost predicate MovedSoFar(b: Bus, site: Site, slots: seq<Slot>, moved0: multiset<Timed>, now: u32, n: nat)
      reads this, delayed, core, core.pool
    {
      && n <= |slots| == delayed.Length
      && MovedUpTo(b, slots, dueAt, moved0, now, n, core.bus, delayed[..], moved)
      && core.Site() == AfterScript(site, Moves(DueEvents(slots, now, n)))
      && (MovableFrom(site, slots, now, 0) <==> MovableFrom(core.Site(), slots, now, n))
    }

    /** One iteration of rtbus_move_due_events. */
    method MoveNext(now: nat, i: nat, ghost b: Bus, ghost site: Site, ghost slots: seq<Slot>,
                    ghost moved0: multiset<Timed>)
        returns (rc: int)
      requires Valid() && i < delayed.Length && MovedSoFar(b, site, slots, moved0, Low32(now), i)
      modifies `moved, delayed, core, core.pool, core.pool.ram
      ensures Valid() && core.pool.heap == old(core.pool.heap)
      ensures MovedSoFar(b, site, slots, moved0, Low32(now), if rc == 0 then i + 1 else i)
      ensures rc != 0 ==>
        rc < 0 && IsDue(slots[i], Low32(now)) && rc == CodeOf(core.Site(), MoveRequest(slots[i].event))
      ensures rc != 0 ==> !MovableFrom(site, slots, Low32(now), 0)
    {
      hide BusMemory, Known, Pending, Refusal, WellFormed, Low32, MovedUpTo, DueTimed, MovableFrom, DueReached,
        AfterScript, AfterPost, Moves, CodeOf, DueEvents;
      ghost var bus, left, m, before := core.bus, delayed[..], moved, core.Site();
      MovableStep(before, slots, Low32(now), i);
      MoveFacts(b, slots, dueAt, moved0, Low32(now), i, bus, left, m);
      MovesStep(site, slots, Low32(now), i);
      rc := 0;
      if delayed[i].Used? && DueReached(Low32(now), delayed[i].due) {
        rc := MoveSlot(i);
        if rc == 0 {
          NotRefused(before, MoveRequest(slots[i].event));
          PostStep(b, slots, dueAt, moved0, Low32(now), i, bus, left, m);
        } else {
          SamePost(before, MoveRequest(slots[i].event));
        }
      } else {
        SkipStep(b, slots, dueAt, moved0, Low32(now), i, bus, left, m);
      }
    }

    /** rtbus_move_due_events at true time `now`: due events go to their queues in slot order, up
        to the first one that cannot be posted; `n` slots were dealt with. */
    method MoveDue(now: nat) returns (rc: int, ghost n: nat)
      requires Valid()
      modifies `moved, delayed, core, core.pool, core.pool.ram
      ensures Valid() && core.pool.heap == old(core.pool.heap)
      ensures MovedUpTo(old(core.bus), old(delayed[..]), dueAt, old(moved), Low32(now), n, core.bus, delayed[..], moved)
      ensures n <= delayed.Length
      ensures core.Site() == AfterScript(old(core.Site()), Moves(DueEvents(old(delayed[..]), Low32(now), n)))
      ensures rc == 0 <==> n == delayed.Length
      ensures rc == 0 <==> old(Movable(Low32(now)))
      ensures rc != 0 ==> rc < 0 && IsDue(old(delayed[..])[n], Low32(now))
                          && rc == CodeOf(core.Site(), MoveRequest(old(delayed[..])[n].event))
      ensures InWindow(old(delayed[..]), dueAt, now) ==>
        forall t | t in DueTimed(old(delayed[..]), dueAt, Low32(now), n) :: t.due <= now
    {
      hide BusMemory, Known, Pending, WellFormed, Low32, MovedUpTo, DueTimed, MovableFrom, AfterScript, Moves, CodeOf,
        DueEvents, IsDue;
      ghost var slots, b, moved0, site := delayed[..], core.bus, moved, core.Site();
      MoveStart(b, slots, dueAt, moved0, Low32(now));
      DueTimesPassed(slots, dueAt, now);
      NothingMoved(site, slots, Low32(now));
      n := 0;
      for i := 0 to delayed.Length
        invariant Valid() && n == i && core.pool.heap == old(core.pool.heap)
        invariant MovedSoFar(b, site, slots, moved0, Low32(now), i)
      {
        rc := MoveNext(now, i, b, site, slots, moved0);
        if rc != 0 { return; }
        n := n + 1;
      }
      MovableEnd(core.Site(), slots, Low32(now));
      rc := 0;
    }

    /** rtbus_process at true time `now`.  Exactly if every due event can be posted, all of them move and the
        bus runs once, with its result; otherwise the call ends at the first one that is refused, which stays
        armed, and nothing is handled.  Posts of the async hook and of the handler are given by the scripts. */
    method Process(now: nat, asyncRc: int, asyncScript: seq<Request>, script: seq<Request>)
        returns (ret: int, ghost n: nat, ghost steps: seq<Step>)
      requires Valid() && Conserved(core.bus)
      requires forall r | r in asyncScript :: Readable(r)
      requires forall r | r in script :: Readable(r)
      modifies `moved, delayed, core, core.pool, core.pool.ram
      ensures Valid() && Conserved(core.bus) && (InitFirst(old(core.bus)) ==> InitFirst(core.bus))
      ensures core.count == old(core.count) && core.pool.heap == old(core.pool.heap)
      ensures Run(old(core.bus), steps) && core.bus == After(old(core.bus), steps)
      ensures n <= delayed.Length && delayed[..] == Cleared(old(delayed[..]), Low32(now), n)
      ensures |steps| >= 1 && steps[0] == Posts(DueEvents(old(delayed[..]), Low32(now), n))
      ensures moved == old(moved) + DueTimed(old(delayed[..]), dueAt, Low32(now), n)
      ensures InWindow(old(delayed[..]), dueAt, now) ==>
        forall t | t in DueTimed(old(delayed[..]), dueAt, Low32(now), n) :: t.due <= now
      ensures n == delayed.Length <==> old(Movable(Low32(now)))
      ensures n == delayed.Length && InWindow(old(delayed[..]), dueAt, now) ==>
        forall i | 0 <= i < delayed.Length && delayed[i].Used? :: dueAt[i] > now
      ensures n < delayed.Length ==> ret < 0 && |steps| == 1 && IsDue(old(delayed[..])[n], Low32(now))
      ensures n < delayed.Length ==> core.bus.handled == old(core.bus).handled
      ensures n < delayed.Length ==> core.Site() == AfterScript(old(core.Site()), Moves(steps[0].es))
                                     && ret == CodeOf(core.Site(), MoveRequest(old(delayed[..])[n].event))
      ensures n == delayed.Length ==>
        Can(old(core.bus), steps[0])
        && (var site := AfterScript(old(core.Site()), Moves(steps[0].es));
            && Ran(Do(old(core.bus), steps[0]), site, asyncRc, asyncScript, script, ret, steps[1..])
            && Leaves(site, asyncScript, script, steps[1..], core.pool.Area()))
      ensures n == delayed.Length ==>
        Run(Do(old(core.bus), steps[0]), steps[1..]) && core.bus == After(Do(old(core.bus), steps[0]), steps[1..])
      ensures n == delayed.Length && asyncRc == 0 && !Quiet(old(core.bus).queues) ==>
        ret == 1 && |steps| == 3 && steps[2].Queued?
      ensures core.bus.entries == old(core.bus).entries
      ensures forall i | 0 <= i < delayed.Length && Blocked(old(core.bus).entries, old(delayed[..])[i], Low32(now)) ::
        n <= i && ret < 0 && delayed[i] == old(delayed[..])[i] && core.bus.handled == old(core.bus).handled
    {
      hide BusMemory, Known, Pending, Refusal, WellFormed, Low32, MovedUpTo, DueTimed, Conserved, InitFirst, Cleared,
        AfterScript, Moves, Ran, Leaves, CodeOf, MovableFrom, DueEvents;
      ghost var b, slots, moved0 := core.bus, delayed[..], moved;
      ret, n := MoveDue(now);
      ghost var mid, left, site := core.bus, delayed[..], core.Site();
      ghost var first := Posts(DueEvents(slots, Low32(now), n));
      MoveIsStep(b, slots, dueAt, moved0, Low32(now), n, mid, left, moved);
      NoneOverdue(slots, dueAt, now);
      steps := [first];
      OneStep(b, first);
      RunKeeps(b, steps);
      RunEntries(b, steps);
      if ret != 0 { return; }
      ghost var more;
      ret, more := core.Process(asyncRc, asyncScript, script);
      assert delayed[..] == left;
      StillBusy(b, first, site, asyncRc, asyncScript, script, ret, more);
      RunConcat(b, steps, more);
      steps := steps + more;
      assert steps[1..] == more;
      RunKeeps(b, steps);
      RunEntries(b, steps);
    }

    /** One call of the runtime loop when nobody posts and no due event is refused: the due events move and
        one event of the queues is handed out, if there is any. */
    method SilentCall(now: nat) returns (ghost steps: seq<Step>)
      requires Valid() && Conserved(core.bus) && core.count > 0 && Movable(Low32(now))
      modifies `moved, delayed, core, core.pool, core.pool.ram
      ensures Valid() && Conserved(core.bus)
      ensures core.count == old(core.count) && core.pool.heap == old(core.pool.heap)
      ensures Run(old(core.bus), steps) && core.bus == After(old(core.bus), steps)
      ensures delayed[..] == Cleared(old(delayed[..]), Low32(now), delayed.Length)
      ensures var all := Waiting(old(core.bus)) + |DueEvents(old(delayed[..]), Low32(now), delayed.Length)|;
        Waiting(core.bus) == if all == 0 then 0 else all - 1
    {
      hide BusMemory, WellFormed, Low32, Conserved, Cleared, AfterScript, Moves, Leaves, Ran, MovableFrom, DueTimed,
        Known, Refusal, Run, After, PostAll, InitFirst, Pending, CodeOf;
      ghost var b, due, site := core.bus, DueEvents(delayed[..], Low32(now), delayed.Length), core.Site();
      var ret;
      ghost var n;
      ret, n, steps := Process(now, 0, [], []);
      StepConserves(b, Posts(due));
      SilentSteps(Do(b, Posts(due)), AfterScript(site, Moves(due)), ret, steps[1..]);
      PostsWait(b, due);
    }

    /** The runtime loop over calls at the times `times`, while nobody posts: after as many calls as events
        are queued or due at first, and no fewer, the queues are empty, and with them the pool. */
    method Drain(times: seq<nat>) returns (ghost steps: seq<Step>)
      requires Valid() && Conserved(core.bus) && core.count > 0 && times != [] && Movable(Low32(times[0]))
      requires forall i, j | 0 <= i < delayed.Length && 0 <= j < |times| && IsDue(delayed[i], Low32(times[j])) ::
        IsDue(delayed[i], Low32(times[0]))
      modifies `moved, delayed, core, core.pool, core.pool.ram
      ensures Valid() && Conserved(core.bus)
      ensures Run(old(core.bus), steps) && core.bus == After(old(core.bus), steps)
      ensures delayed[..] == Cleared(old(delayed[..]), Low32(times[0]), delayed.Length)
      ensures var all := Waiting(old(core.bus)) + |DueEvents(old(delayed[..]), Low32(times[0]), delayed.Length)|;
        && Waiting(core.bus) == (if |times| < all then all - |times| else 0)
        && (Quiet(core.bus.queues) <==> |times| >= all)
        && (|times| >= all ==> core.pool.blocks == map[] && core.pool.High() == core.pool.heap == old(core.pool.heap))
    {
      hide BusMemory, WellFormed, Low32, Conserved, Run, After, InitFirst, Pending, MovableFrom, DueReached;
      ghost var slots, b := delayed[..], core.bus;
      steps := SilentCall(times[0]);
      for i := 1 to |times|
        invariant Valid() && Conserved(core.bus) && core.count > 0 && core.pool.heap == old(core.pool.heap)
        invariant Run(b, steps) && core.bus == After(b, steps)
        invariant delayed[..] == Cleared(slots, Low32(times[0]), delayed.Length)
        invariant var all := Waiting(b) + |DueEvents(slots, Low32(times[0]), delayed.Length)|;
          Waiting(core.bus) == if i < all then all - i else 0
      {
        StaysCleared(slots, Low32(times[0]), Low32(times[i]));
        NothingDue(core.Site(), delayed[..], Low32(times[i]), 0);
        NoDueEvents(delayed[..], Low32(times[i]), delayed.Length);
        ghost var more := SilentCall(times[i]);
        RunConcat(b, steps, more);
        steps := steps + more;
      }
      NobodyWaits(core.bus);
      if Quiet(core.bus.queues) { core.DrainedPoolIsEmpty(); }
    }
  }

  lemma SilentSteps(b: Bus, s: Site, ret: int, steps: seq<Step>)
    requires Conserved(b) && b.entries != [] && Ran(b, s, 0, [], [], ret, steps) && Run(b, steps)
    ensures Waiting(After(b, steps)) == if Waiting(b) == 0 then 0 else Waiting(b) - 1
  {
    hide WellFormed, Known;
    NoScript(s);
    NobodyWaits(b);
    assert PostAll(b, []) == b;
    OneStep(b, steps[0]);
    if |steps| == 2 {
      TwoSteps(b, steps[0], b, steps[1]);
      assert steps == [steps[0], steps[1]];
      if steps[1].Queued? {
        SilentDispatch(b);
      } else {
        assert PostAll(LoggedPoll(b, steps[1].i), []).queues == b.queues;
      }
    } else {
      assert steps == [steps[0]];
    }
  }

  /** Slots cleared at one time are not due later, nor are those that are due no earlier. */
  lemma StaysCleared(slots: seq<Slot>, now: u32, later: u32)
    requires forall i | 0 <= i < |slots| && IsDue(slots[i], later) :: IsDue(slots[i], now)
    ensures forall i | 0 <= i < |slots| :: !IsDue(Cleared(slots, now, |slots|)[i], later)
    ensures Cleared(Cleared(slots, now, |slots|), later, |slots|) == Cleared(slots, now, |slots|)
  {
    hide DueReached;
  }

  lemma {:induction false} NoDueEvents(slots: seq<Slot>, now: u32, n: nat)
    requires n <= |slots| && forall i | 0 <= i < |slots| :: !IsDue(slots[i], now)
    ensures DueEvents(slots, now, n) == []
  {
    if n > 0 { NoDueEvents(slots, now, n - 1); }
  }

  /** A bus with an event in its queues hands one out when it runs, however many more are posted first. */
  lemma StillBusy(b: Bus, first: Step, s: Site, asyncRc: int, asyncScript: seq<Request>, script: seq<Request>,
                  ret: int, more: seq<Step>)
    requires Conserved(b) && first.Posts? && Can(b, first)
    requires (forall r | r in asyncScript :: Readable(r)) && (forall r | r in script :: Readable(r))
    requires Ran(Do(b, first), s, asyncRc, asyncScript, script, ret, more)
    ensures asyncRc == 0 && !Quiet(b.queues) ==> ret == 1 && |more| == 2 && more[1].Queued?
  {
    hide PostAll, Conserved, PostedBy, AfterScript, Shaped;
    if !Quiet(b.queues) {
      HeadRegistered(b);
      StepNext(b, first);
      var c := Do(b, first);
      var k := First(b.queues);
      ShapedQueues(b);
      ShapedQueues(c);
      PostKeepsHeads(b, first.es);
      assert b.queues[k] <= c.queues[k];
      ShapedQueues(Do(c, more[0]));
      PostKeepsHeads(c, more[0].es);
      assert c.queues[k] <= Do(c, more[0]).queues[k];
    }
  }

  lemma ShapedQueues(b: Bus)
    requires Shaped(b)
    ensures |b.queues| == PRIORITIES
  {
  }

  /** The rounded size of the node of an event. */
  function NodeBytes(e: Event): nat
  {
    Round(NODE_SIZE + |e.payload|)
  }

  /** The node sizes of the due events from slot `i` on. */
  function DueSizes(slots: seq<Slot>, now: u32, i: nat): seq<nat>
    requires i <= |slots|
    decreases |slots| - i
  {
    if i == |slots| then []
    else (if IsDue(slots[i], now) then [NodeBytes(slots[i].event)] else []) + DueSizes(slots, now, i + 1)
  }

  ghost predicate MovableFrom(s: Site, slots: seq<Slot>, now: u32, i: nat)
    requires i <= |slots|
  {
    && (forall j | i <= j < |slots| :: !Blocked(s.entries, slots[j], now))
    && (DueSizes(slots, now, i) != [] ==> s.active && Room(s.area, s.top, DueSizes(slots, now, i)))
  }

  lemma MovableEnd(s: Site, slots: seq<Slot>, now: u32)
    ensures MovableFrom(s, slots, now, |slots|)
  {
  }

  /** What slot `i` asks for. */
  lemma MovableStep(s: Site, slots: seq<Slot>, now: u32, i: nat)
    requires i < |slots|
    ensures !IsDue(slots[i], now) ==> (MovableFrom(s, slots, now, i) <==> MovableFrom(s, slots, now, i + 1))
    ensures IsDue(slots[i], now) ==> var r := MoveRequest(slots[i].event);
      MovableFrom(s, slots, now, i) <==> CodeOf(s, r) == 0 && MovableFrom(AfterPost(s, r), slots, now, i + 1)
  {
    hide Fits, Placed, Refusal, DueReached;
    var sizes, rest := DueSizes(slots, now, i), DueSizes(slots, now, i + 1);
    assert (forall j | i <= j < |slots| :: !Blocked(s.entries, slots[j], now))
      <==> !Blocked(s.entries, slots[i], now)
           && (forall j | i + 1 <= j < |slots| :: !Blocked(s.entries, slots[j], now));
    if IsDue(slots[i], now) {
      var n := NodeBytes(slots[i].event);
      assert sizes == [n] + rest && sizes[1..] == rest;
      if Granted(s, MoveRequest(slots[i].event)) && rest == [] { assert Room(Placed(s.area, s.top, n), s.top, []); }
    } else {
      assert sizes == rest;
    }
  }

  lemma NothingMoved(s: Site, slots: seq<Slot>, now: u32)
    ensures AfterScript(s, Moves(DueEvents(slots, now, 0))) == s
  {
  }

  /** The posts that move the due ones among one slot more. */
  lemma MovesStep(s: Site, slots: seq<Slot>, now: u32, i: nat)
    requires i < |slots|
    ensures var before := AfterScript(s, Moves(DueEvents(slots, now, i)));
      AfterScript(s, Moves(DueEvents(slots, now, i + 1)))
      == if IsDue(slots[i], now) then AfterPost(before, MoveRequest(slots[i].event)) else before
  {
    hide AfterPost, DueReached, MoveRequest, AfterScript, Cleared;
    ClearedStep(slots, now, i);
    if IsDue(slots[i], now) {
      var es, e := DueEvents(slots, now, i), slots[i].event;
      assert Moves(es + [e]) == Moves(es) + [MoveRequest(e)];
      ScriptAppend(s, Moves(es), [MoveRequest(e)]);
      FirstPost(AfterScript(s, Moves(es)), MoveRequest(e));
    }
  }

  lemma NotRefused(s: Site, r: Request)
    ensures CodeOf(s, r) == 0 ==> Refusal(s.entries, r) == 0
  {
  }

  lemma SamePost(s: Site, r: Request)
    ensures CodeOf(s, r) != 0 ==> AfterPost(s, r) == s
  {
  }

  /** A test of the total size is enough: due events that are not blocked can be moved if their nodes fit
      together above the high-water mark. */
  lemma MovableAboveMark(s: Site, slots: seq<Slot>, now: u32)
    requires s.active && forall j | 0 <= j < |slots| :: !Blocked(s.entries, slots[j], now)
    requires Footprint(DueSizes(slots, now, 0)) <= s.top - s.area.high
    ensures MovableFrom(s, slots, now, 0)
  {
    RoomAboveMark(s.area, s.top, DueSizes(slots, now, 0));
  }

  /** Without a due event there is nothing to be refused. */
  lemma {:induction false} NothingDue(s: Site, slots: seq<Slot>, now: u32, i: nat)
    requires i <= |slots| && forall j | i <= j < |slots| :: !IsDue(slots[j], now)
    ensures MovableFrom(s, slots, now, i)
    decreases |slots| - i
  {
    hide MovableFrom, DueReached;
    if i == |slots| {
      MovableEnd(s, slots, now);
    } else {
      NothingDue(s, slots, now, i + 1);
      MovableStep(s, slots, now, i);
    }
  }

  /** One overdue event for a task nobody registered is enough to keep the bus from running, whatever the
      pool and the other slots. */
  lemma UnknownTaskBlocks(s: Site, slots: seq<Slot>, now: u32, i: nat)
    requires s.entries != [] && i < |slots| && IsDue(slots[i], now) && !Registered(s.entries, slots[i].event.task)
    ensures Blocked(s.entries, slots[i], now) && !MovableFrom(s, slots, now, 0)
  {
  }

  /** And it stays blocked for 2^31 ms after its due time, since its slot is not cleared. */
  lemma BlockedStays(entries: seq<Entry>, s: Slot, dueAt: nat, now: nat, later: nat)
    requires s.Used? && s.due == Low32(dueAt) && Blocked(entries, s, Low32(now))
    requires dueAt <= now <= later < dueAt + HALF
    ensures Blocked(entries, s, Low32(later))
  {
    hide Refusal;
    DueReachedExact(later, dueAt);
  }

  /** An event that fits nowhere: a bus whose only registered task has one overdue event, and a pool with
      20 bytes left and no hole. */
  lemma FullPoolBlocks(task: byte, id: u32)
    ensures var entries, slots := [Entry(task, 0, true, false, false)], [Used(Event(task, id, []), 0)];
      && !Blocked(entries, slots[0], 5)
      && !MovableFrom(Site(entries, true, 28, Area(map[], 8)), slots, 5, 0)
      && MovableFrom(Site(entries, true, 32, Area(map[], 8)), slots, 5, 0)
  {
    var entries, slots := [Entry(task, 0, true, false, false)], [Used(Event(task, id, []), 0)];
    assert entries[0].task == task && Registered(entries, task);
    assert IsDue(slots[0], 5) && DueSizes(slots, 5, 1) == [];
    assert DueSizes(slots, 5, 0) == [NodeBytes(slots[0].event)] == [16];
    RoomWithoutHoles(Area(map[], 8), 28, [16]);
    RoomWithoutHoles(Area(map[], 8), 32, [16]);
    assert Footprint([16]) == 24;
  }

  /** The state of bus, table and history once the first `n` slots have been gone through and all
      due ones among them were posted. */
  ghost predicate MovedUpTo(b: Bus, slots: seq<Slot>, dueAt: seq<nat>, moved0: multiset<Timed>, now: u32, n: nat,
                            bus: Bus, left: seq<Slot>, moved: multiset<Timed>)
  {
    && n <= |slots| && |slots| == |dueAt| && Shaped(b)
    && left == Cleared(slots, now, n)
    && (forall e | e in DueEvents(slots, now, n) :: Known(b.entries, e))
    && bus == PostAll(b, DueEvents(slots, now, n))
    && moved == moved0 + DueTimed(slots, dueAt, now, n)
    && (forall i | 0 <= i < n && IsDue(slots[i], now) :: Refusal(b.entries, MoveRequest(slots[i].event)) == 0)
  }

  /** A due event whose post is refused whatever the room in the pool, such as one for a task
      nobody registered. */
  ghost predicate Blocked(entries: seq<Entry>, s: Slot, now: u32)
  {
    IsDue(s, now) && Refusal(entries, MoveRequest(s.event)) != 0
  }

  /** Moving due events is a step of posts; it stops no later than at a blocked slot. */
  lemma MoveIsStep(b: Bus, slots: seq<Slot>, dueAt: seq<nat>, moved0: multiset<Timed>, now: u32, n: nat,
                   bus: Bus, left: seq<Slot>, moved: multiset<Timed>)
    requires MovedUpTo(b, slots, dueAt, moved0, now, n, bus, left, moved)
    ensures var s := Posts(DueEvents(slots, now, n)); Can(b, s) && bus == Do(b, s) && bus.handled == b.handled
    ensures left == Cleared(slots, now, n) && moved == moved0 + DueTimed(slots, dueAt, now, n)
    ensures n <= |slots| && |slots| == |dueAt|
    ensures forall i | 0 <= i < |slots| && Blocked(b.entries, slots[i], now) :: n <= i && left[i] == slots[i]
  {
  }

  lemma MoveStart(b: Bus, slots: seq<Slot>, dueAt: seq<nat>, moved0: multiset<Timed>, now: u32)
    requires Shaped(b) && |slots| == |dueAt|
    ensures MovedUpTo(b, slots, dueAt, moved0, now, 0, b, slots, moved0)
  {
    assert Cleared(slots, now, 0) == slots;
  }

  lemma MoveFacts(b: Bus, slots: seq<Slot>, dueAt: seq<nat>, moved0: multiset<Timed>, now: u32, i: nat,
                  bus: Bus, left: seq<Slot>, moved: multiset<Timed>)
    requires i < |slots| && MovedUpTo(b, slots, dueAt, moved0, now, i, bus, left, moved)
    ensures bus.entries == b.entries && Shaped(bus) && |left| == |slots| && left[i] == slots[i] && i < |dueAt|
  {
  }

  /** A slot that is not due is skipped. */
  lemma SkipStep(b: Bus, slots: seq<Slot>, dueAt: seq<nat>, moved0: multiset<Timed>, now: u32, i: nat,
                 bus: Bus, left: seq<Slot>, moved: multiset<Timed>)
    requires i < |slots| && MovedUpTo(b, slots, dueAt, moved0, now, i, bus, left, moved)
    requires !IsDue(slots[i], now)
    ensures MovedUpTo(b, slots, dueAt, moved0, now, i + 1, bus, left, moved)
  {
    hide Refusal, Known, Shaped, IsDue, Low32, PostAll;
    ClearedStep(slots, now, i);
  }

  /** A due slot is posted, cleared and recorded. */
  lemma PostStep(b: Bus, slots: seq<Slot>, dueAt: seq<nat>, moved0: multiset<Timed>, now: u32, i: nat,
                 bus: Bus, left: seq<Slot>, moved: multiset<Timed>)
    requires i < |slots| && MovedUpTo(b, slots, dueAt, moved0, now, i, bus, left, moved)
    requires IsDue(slots[i], now) && Shaped(bus) && bus.entries == b.entries && |left| == |slots| && i < |dueAt|
    requires Known(bus.entries, slots[i].event) && Refusal(b.entries, MoveRequest(slots[i].event)) == 0
    ensures MovedUpTo(b, slots, dueAt, moved0, now, i + 1, BusRuns.Post(bus, slots[i].event), left[i := Unused],
                      moved + multiset{Timed(slots[i].event, dueAt[i])})
  {
    hide Refusal, Known, Shaped, DueReached, PostAll, BusRuns.Post;
    ClearedStep(slots, now, i);
    PostAllSnoc(b, DueEvents(slots, now, i), slots[i].event);
  }

  lemma ArmBalances(armed: multiset<Timed>, moved: multiset<Timed>, slots: seq<Slot>, dueAt: seq<nat>,
                    i: nat, e: Event, low: u32, due: nat)
    requires |slots| == |dueAt| && i < |slots| && slots[i] == Unused && armed == moved + Pending(slots, dueAt)
    ensures armed + multiset{Timed(e, due)} == moved + Pending(slots[i := Used(e, low)], dueAt[i := due])
  {
    PendingUpdate(slots, dueAt, i, Used(e, low), due);
    var p, q, t := Pending(slots, dueAt), Pending(slots[i := Used(e, low)], dueAt[i := due]), multiset{Timed(e, due)};
    assert q == q + multiset{} == p + t;
    assert (moved + p) + t == moved + (p + t);
  }

  lemma MoveBalances(armed: multiset<Timed>, moved: multiset<Timed>, slots: seq<Slot>, dueAt: seq<nat>, i: nat)
    requires |slots| == |dueAt| && i < |slots| && slots[i].Used? && armed == moved + Pending(slots, dueAt)
    ensures armed == moved + multiset{Timed(slots[i].event, dueAt[i])} + Pending(slots[i := Unused], dueAt)
  {
    PendingUpdate(slots, dueAt, i, Unused, dueAt[i]);
    assert dueAt[i := dueAt[i]] == dueAt;
    var p, q, t := Pending(slots, dueAt), Pending(slots[i := Unused], dueAt), multiset{Timed(slots[i].event, dueAt[i])};
    assert q + t == p + multiset{} == p;
    assert moved + t + q == moved + (q + t);
  }

  lemma MoveKeepsEvent(e: Event)
    requires |e.payload| <= PAYLOAD_MAX
    ensures Readable(MoveRequest(e)) && EventOf(MoveRequest(e)) == e
  {
  }

  /** The due ones among the first `n` slots with their true due times. */
  ghost function DueTimed(slots: seq<Slot>, dueAt: seq<nat>, now: u32, n: nat): multiset<Timed>
    requires |slots| == |dueAt| && n <= |slots|
  {
    if n == 0 then multiset{}
    else DueTimed(slots, dueAt, now, n - 1)
         + (if IsDue(slots[n - 1], now) then multiset{Timed(slots[n - 1].event, dueAt[n - 1])} else multiset{})
  }

  /** No event is moved before its due time. */
  lemma {:induction false} DueTimedPassed(slots: seq<Slot>, dueAt: seq<nat>, now: nat, n: nat)
    requires |slots| == |dueAt| && n <= |slots| && InWindow(slots, dueAt, now)
    requires forall i | 0 <= i < |slots| && slots[i].Used? :: slots[i].due == Low32(dueAt[i])
    ensures forall t | t in DueTimed(slots, dueAt, Low32(now), n) :: t.due <= now
  {
    if n > 0 {
      DueTimedPassed(slots, dueAt, now, n - 1);
      if slots[n - 1].Used? { DueInWindow(slots, dueAt, now, n - 1); }
    }
  }

  lemma DueTimesPassed(slots: seq<Slot>, dueAt: seq<nat>, now: nat)
    requires |slots| == |dueAt|
    requires forall i | 0 <= i < |slots| && slots[i].Used? :: slots[i].due == Low32(dueAt[i])
    ensures InWindow(slots, dueAt, now) ==>
      forall n: nat, t | n <= |slots| && t in DueTimed(slots, dueAt, Low32(now), n) :: t.due <= now
  {
    if InWindow(slots, dueAt, now) {
      forall n: nat, t | n <= |slots| && t in DueTimed(slots, dueAt, Low32(now), n) ensures t.due <= now {
        DueTimedPassed(slots, dueAt, now, n);
      }
    }
  }

  /** A table whose due slots are cleared has no event left whose true due time has come. */
  lemma NoneOverdue(slots: seq<Slot>, dueAt: seq<nat>, now: nat)
    requires |slots| == |dueAt| && forall i | 0 <= i < |slots| && slots[i].Used? :: slots[i].due == Low32(dueAt[i])
    ensures InWindow(slots, dueAt, now) ==> var left := Cleared(slots, Low32(now), |slots|);
      forall i | 0 <= i < |left| && left[i].Used? :: dueAt[i] > now
  {
    if InWindow(slots, dueAt, now) {
      var left := Cleared(slots, Low32(now), |slots|);
      forall i | 0 <= i < |left| && left[i].Used? ensures dueAt[i] > now {
        assert slots[i].Used?;
        DueInWindow(slots, dueAt, now, i);
      }
    }
  }

  lemma ClearedStep(slots: seq<Slot>, now: u32, i: nat)
    requires i < |slots|
    ensures Cleared(slots, now, i)[i] == slots[i]
    ensures Cleared(slots, now, i + 1) ==
            if IsDue(slots[i], now) then Cleared(slots, now, i)[i := Unused] else Cleared(slots, now, i)
    ensures DueEvents(slots, now, i + 1) ==
            if IsDue(slots[i], now) then DueEvents(slots, now, i) + [slots[i].event] else DueEvents(slots, now, i)
  {
  }

  lemma RefusalNegative(entries: seq<Entry>, r: Request)
    ensures Refusal(entries, r) <= 0
  {
  }

  lemma {:induction false} NothingPending(slots: seq<Slot>, dueAt: seq<nat>)
    requires |slots| == |dueAt| && forall i | 0 <= i < |slots| :: slots[i] == Unused
    ensures Pending(slots, dueAt) == multiset{}
  {
    if slots != [] { NothingPending(slots[..|slots| - 1], dueAt[..|slots| - 1]); }
  }
}
