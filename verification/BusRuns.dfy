/** What the event bus does, without its memory: three FIFO queues, posts, dispatches and polls,
    and what holds in every run. */
module BusRuns {
  import opened Bytes
  import opened Entries

  datatype Event = Event(task: byte, id: u32, payload: seq<byte>)

  /** SYS_EVT(EMOS_SYS_INIT) and SYS_EVT(EMOS_SYS_POLL): the system id sits in the top four bits. */
  const INIT_ID: u32 := 0x1000_0000
  const POLL_ID: u32 := 0x2000_0000

  /** The queues and the round-robin position, with three histories: the queued events accepted
      so far, those handed to their handlers, and all events handled, polls included. */
  datatype Bus = Bus(entries: seq<Entry>, queues: seq<seq<Event>>, next: nat,
                     accepted: seq<Event>, delivered: seq<Event>, handled: seq<Event>)

  ghost predicate Shaped(b: Bus)
  {
    |b.queues| == PRIORITIES && WellFormed(b.entries) && (b.entries == [] || b.next < |b.entries|)
  }

  ghost function PriorityOf(entries: seq<Entry>, task: byte): nat
  {
    match Lookup(entries, task)
    case Some(e) => e.priority
    case None => PRIORITIES
  }

  /** A task has the priority of its entry. */
  lemma EntryPriority(entries: seq<Entry>, i: nat)
    requires WellFormed(entries) && i < |entries|
    ensures PriorityOf(entries, entries[i].task) == entries[i].priority < 3
  {
    LookupMember(entries, i);
  }

  /** Whether a task has an entry at all. */
  lemma NoEntry(entries: seq<Entry>, task: byte)
    requires WellFormed(entries)
    ensures PriorityOf(entries, task) < 3 <==> exists i :: 0 <= i < |entries| && entries[i].task == task
  {
    if Registered(entries, task) { EntryPriority(entries, IndexOf(entries, task)); }
  }

  /** An event emos_post can queue. */
  ghost predicate Known(entries: seq<Entry>, e: Event)
  {
    PriorityOf(entries, e.task) < PRIORITIES
  }

  function Push(queues: seq<seq<Event>>, p: nat, e: Event): seq<seq<Event>>
    requires p < |queues|
  {
    queues[p := queues[p] + [e]]
  }

  ghost function Post(b: Bus, e: Event): Bus
    requires Shaped(b) && Known(b.entries, e)
  {
    b.(queues := Push(b.queues, PriorityOf(b.entries, e.task), e), accepted := b.accepted + [e])
  }

  ghost function PostAll(b: Bus, es: seq<Event>): (r: Bus)
    requires Shaped(b) && forall e | e in es :: Known(b.entries, e)
    ensures Shaped(r) && r.entries == b.entries && r.next == b.next
    ensures r.delivered == b.delivered && r.handled == b.handled
    decreases |es|
  {
    if es == [] then b else Post(PostAll(b, es[..|es| - 1]), es[|es| - 1])
  }

  lemma PostAllSnoc(b: Bus, es: seq<Event>, e: Event)
    requires Shaped(b) && Known(b.entries, e) && forall x | x in es :: Known(b.entries, x)
    ensures PostAll(b, es + [e]) == Post(PostAll(b, es), e)
  {
    assert (es + [e])[..|es|] == es;
  }

  predicate Quiet(queues: seq<seq<Event>>)
  {
    forall k | 0 <= k < |queues| :: queues[k] == []
  }

  /** The highest non-empty priority. */
  function First(queues: seq<seq<Event>>): (k: nat)
    requires !Quiet(queues)
    ensures k < |queues| && queues[k] != [] && forall j | 0 <= j < k :: queues[j] == []
  {
    if queues[0] != [] then 0 else 1 + First(queues[1..])
  }

  function Pop(queues: seq<seq<Event>>, k: nat): seq<seq<Event>>
    requires k < |queues| && queues[k] != []
  {
    queues[k := queues[k][1..]]
  }

  /** One queued dispatch: the handler of the head event runs and posts `es`; only then is the
      event taken off its queue. */
  ghost function Dispatch(b: Bus, es: seq<Event>): Bus
    requires Shaped(b) && !Quiet(b.queues) && forall e | e in es :: Known(b.entries, e)
  {
    var k := First(b.queues);
    var b1 := PostAll(Logged(b, b.queues[k][0]), es);
    PostKeepsHeads(Logged(b, b.queues[k][0]), es);
    b1.(queues := Pop(b1.queues, k))
  }

  /** The histories when a queued event is handed to its handler. */
  ghost function Logged(b: Bus, e: Event): Bus
  {
    b.(delivered := b.delivered + [e], handled := b.handled + [e])
  }

  lemma {:induction false} PostKeepsHeads(b: Bus, es: seq<Event>)
    requires Shaped(b) && forall e | e in es :: Known(b.entries, e)
    ensures forall k | 0 <= k < PRIORITIES :: b.queues[k] <= PostAll(b, es).queues[k]
    decreases |es|
  {
    if es != [] { PostKeepsHeads(b, es[..|es| - 1]); }
  }

  predicate Polls(e: Entry)
  {
    e.always && e.bound
  }

  /** Positions wrap around the table. */
  function Wrap(x: nat, n: nat): (r: nat)
    requires 0 < n && x < 2 * n
    ensures r == if x < n then x else x - n
  {
    x % n
  }

  /** The entry the poll scan stops at: the first polled one from position `next` on, cyclically. */
  ghost predicate PollTurn(entries: seq<Entry>, next: nat, i: nat)
  {
    && i < |entries| && Polls(entries[i])
    && exists d :: PollDistance(entries, next, i, d)
  }

  ghost predicate PollDistance(entries: seq<Entry>, next: nat, i: nat, d: nat)
  {
    && d < |entries| && next < |entries| && i == Wrap(next + d, |entries|)
    && forall c | 0 <= c < d :: !PollsAt(entries, next, c)
  }

  predicate PollsAt(entries: seq<Entry>, next: nat, c: nat)
    requires next < |entries| && c < |entries|
  {
    Polls(entries[Wrap(next + c, |entries|)])
  }

  ghost function Poll(b: Bus, i: nat, es: seq<Event>): Bus
    requires Shaped(b) && i < |b.entries| && forall e | e in es :: Known(b.entries, e)
  {
    PostAll(LoggedPoll(b, i), es).(next := Wrap(i + 1, |b.entries|))
  }

  ghost function LoggedPoll(b: Bus, i: nat): Bus
    requires i < |b.entries|
  {
    b.(handled := b.handled + [Event(b.entries[i].task, POLL_ID, [])])
  }

  /** One step of a running bus.  Posts come from anywhere: other code, due delayed events, the
      async hook; handlers post whatever they like while they run. */
  datatype Step = Posts(es: seq<Event>) | Queued(es: seq<Event>) | Polled(i: nat, es: seq<Event>) | Idle

  ghost predicate Can(b: Bus, s: Step)
  {
    && Shaped(b)
    && (!s.Idle? ==> forall e | e in s.es :: Known(b.entries, e))
    && (s.Queued? ==> !Quiet(b.queues))
    && (s.Polled? ==> Quiet(b.queues) && PollTurn(b.entries, b.next, s.i))
  }

  ghost function Do(b: Bus, s: Step): Bus
    requires Can(b, s)
  {
    match s
    case Posts(es) => PostAll(b, es)
    case Queued(es) => Dispatch(b, es)
    case Polled(i, es) => Poll(b, i, es)
    case Idle => b
  }

  ghost function InitEvents(entries: seq<Entry>): (es: seq<Event>)
  {
    if entries == [] then []
    else
      var rest, e := InitEvents(entries[..|entries| - 1]), entries[|entries| - 1];
      if e.init then rest + [Event(e.task, INIT_ID, [])] else rest
  }

  ghost function Empty(entries: seq<Entry>): Bus
  {
    Bus(entries, [[], [], []], 0, [], [], [])
  }

  /** A successful initialization registers the table and queues SYS_INIT for each `init` entry. */
  ghost function Started(entries: seq<Entry>): Bus
    requires WellFormed(entries)
  {
    InitKnown(entries, |entries|);
    assert entries[..|entries|] == entries;
    PostAll(Empty(entries), InitEvents(entries))
  }

  lemma {:induction false} InitKnown(entries: seq<Entry>, n: nat)
    requires WellFormed(entries) && n <= |entries|
    ensures forall e | e in InitEvents(entries[..n]) :: Known(entries, e)
  {
    if n > 0 {
      InitKnown(entries, n - 1);
      assert entries[..n][..n - 1] == entries[..n - 1];
      LookupMember(entries, n - 1);
    }
  }

  /** A run: a starting state followed by steps that were possible. */
  ghost predicate Run(b: Bus, steps: seq<Step>)
    decreases |steps|, 0
  {
    steps == [] || (Run(b, steps[..|steps| - 1]) && Can(After(b, steps[..|steps| - 1]), steps[|steps| - 1]))
  }

  ghost function After(b: Bus, steps: seq<Step>): Bus
    requires Run(b, steps)
    decreases |steps|, 1
  {
    if steps == [] then b else Do(After(b, steps[..|steps| - 1]), steps[|steps| - 1])
  }

  // ----- conservation: every accepted event is delivered once, in order, or still queued -----

  ghost function OfPriority(entries: seq<Entry>, k: nat, es: seq<Event>): seq<Event>
  {
    if es == [] then []
    else OfPriority(entries, k, es[..|es| - 1])
         + (if PriorityOf(entries, es[|es| - 1].task) == k then [es[|es| - 1]] else [])
  }

  lemma OfPriorityAppend(entries: seq<Entry>, k: nat, es: seq<Event>, e: Event)
    ensures OfPriority(entries, k, es + [e]) ==
            OfPriority(entries, k, es) + (if PriorityOf(entries, e.task) == k then [e] else [])
  {
    assert (es + [e])[..|es|] == es;
  }

  /** Each queue holds exactly the accepted events of its priority that are not delivered yet. */
  ghost predicate Balanced(b: Bus, k: nat)
    requires k < |b.queues|
  {
    OfPriority(b.entries, k, b.accepted) == OfPriority(b.entries, k, b.delivered) + b.queues[k]
  }

  ghost predicate Sorted(b: Bus, k: nat)
    requires k < |b.queues|
  {
    forall e | e in b.queues[k] :: Known(b.entries, e) && PriorityOf(b.entries, e.task) == k
  }

  ghost predicate Conserved(b: Bus)
  {
    Shaped(b) && forall k | 0 <= k < PRIORITIES :: Balanced(b, k) && Sorted(b, k)
  }

  lemma PostConserves(b: Bus, e: Event)
    requires Conserved(b) && Known(b.entries, e)
    ensures Conserved(Post(b, e))
  {
    var r := Post(b, e);
    forall k | 0 <= k < PRIORITIES ensures Balanced(r, k) && Sorted(r, k) {
      OfPriorityAppend(b.entries, k, b.accepted, e);
      assert Balanced(b, k) && Sorted(b, k);
    }
  }

  lemma {:induction false} PostAllConserves(b: Bus, es: seq<Event>)
    requires Conserved(b) && forall e | e in es :: Known(b.entries, e)
    ensures Conserved(PostAll(b, es))
    decreases |es|
  {
    if es != [] {
      PostAllConserves(b, es[..|es| - 1]);
      PostConserves(PostAll(b, es[..|es| - 1]), es[|es| - 1]);
    }
  }

  ghost function Dequeue(b: Bus): Bus
    requires Shaped(b) && !Quiet(b.queues)
  {
    var k := First(b.queues);
    Logged(b, b.queues[k][0]).(queues := Pop(b.queues, k))
  }

  lemma PushPop(queues: seq<seq<Event>>, k: nat, p: nat, e: Event)
    requires k < |queues| && p < |queues| && queues[k] != []
    ensures Pop(Push(queues, p, e), k) == Push(Pop(queues, k), p, e)
  {
    assert p == k ==> (queues[k] + [e])[1..] == queues[k][1..] + [e];
  }

  /** Events posted by the handler while its own event is still at the head of the queue end up
      exactly as if the event had been taken off the queue before the handler ran. */
  lemma {:induction false} DispatchIsDequeueFirst(b: Bus, es: seq<Event>)
    requires Shaped(b) && !Quiet(b.queues) && forall e | e in es :: Known(b.entries, e)
    ensures Dispatch(b, es) == PostAll(Dequeue(b), es)
    decreases |es|
  {
    if es != [] {
      var k := First(b.queues);
      var c := Logged(b, b.queues[k][0]);
      var rest, e := es[..|es| - 1], es[|es| - 1];
      DispatchIsDequeueFirst(b, rest);
      PostKeepsHeads(c, rest);
      assert c.queues[k] <= PostAll(c, rest).queues[k] && c.queues[k] != [] && e in es;
      PushPop(PostAll(c, rest).queues, k, PriorityOf(b.entries, e.task), e);
    }
  }

  lemma DequeueBalanced(b: Bus, j: nat)
    requires Shaped(b) && !Quiet(b.queues) && j < PRIORITIES && Balanced(b, j)
    requires Sorted(b, First(b.queues))
    ensures Balanced(Dequeue(b), j)
  {
    hide PriorityOf, OfPriority, Known;
    var k := First(b.queues);
    var e := b.queues[k][0];
    assert e in b.queues[k];
    OfPriorityAppend(b.entries, j, b.delivered, e);
    if j == k { assert b.queues[k] == [e] + b.queues[k][1..]; }
  }

  lemma DequeueConserves(b: Bus)
    requires Conserved(b) && !Quiet(b.queues)
    ensures Conserved(Dequeue(b))
  {
    forall j | 0 <= j < PRIORITIES ensures Balanced(Dequeue(b), j) && Sorted(Dequeue(b), j) {
      assert Balanced(b, j) && Sorted(b, j) && Sorted(b, First(b.queues));
      DequeueBalanced(b, j);
    }
  }

  lemma ConservedIgnores(b: Bus, handled: seq<Event>, next: nat)
    requires Conserved(b) && next < |b.entries|
    ensures Conserved(b.(handled := handled)) && Conserved(b.(next := next))
  {
    forall k | 0 <= k < PRIORITIES
      ensures Balanced(b.(handled := handled), k) && Sorted(b.(handled := handled), k)
      ensures Balanced(b.(next := next), k) && Sorted(b.(next := next), k)
    {
      assert Balanced(b, k) && Sorted(b, k);
    }
  }

  lemma StepConserves(b: Bus, s: Step)
    requires Conserved(b) && Can(b, s)
    ensures Conserved(Do(b, s))
  {
    hide Conserved, Dispatch, Known;
    match s
    case Posts(es) => PostAllConserves(b, es);
    case Queued(es) =>
      DispatchIsDequeueFirst(b, es);
      DequeueConserves(b);
      PostAllConserves(Dequeue(b), es);
    case Polled(i, es) =>
      var n, c := Wrap(i + 1, |b.entries|), LoggedPoll(b, i);
      ConservedIgnores(b, c.handled, n);
      PostAllConserves(c, es);
      ConservedIgnores(PostAll(c, es), c.handled, n);
    case Idle =>
  }

  lemma StartedConserved(entries: seq<Entry>)
    requires WellFormed(entries)
    ensures Conserved(Started(entries))
  {
    InitKnown(entries, |entries|);
    assert entries[..|entries|] == entries;
    PostAllConserves(Empty(entries), InitEvents(entries));
  }

  /** In every run each accepted event is delivered exactly once and in order within its
      priority: what was accepted at a priority is what was delivered there, then the queue. */
  lemma {:induction false} RunConserves(entries: seq<Entry>, steps: seq<Step>)
    requires WellFormed(entries) && Run(Started(entries), steps)
    ensures Conserved(After(Started(entries), steps))
    decreases |steps|
  {
    if steps == [] {
      StartedConserved(entries);
    } else {
      RunConserves(entries, steps[..|steps| - 1]);
      StepConserves(After(Started(entries), steps[..|steps| - 1]), steps[|steps| - 1]);
    }
  }

  // ----- the most urgent event comes first -----

  /** Event `f` waits in one of the queues. */
  ghost predicate Waits(b: Bus, f: Event)
  {
    exists k :: 0 <= k < |b.queues| && f in b.queues[k]
  }

  /** What a queued step hands out in a conserved bus: the oldest event in the queue of its task's entry,
      and no waiting event is of a task whose entry has a smaller priority number. */
  lemma HandsOutMostUrgent(b: Bus, es: seq<Event>) returns (e: Event, i: nat)
    requires Conserved(b) && Can(b, Queued(es))
    ensures Do(b, Queued(es)).delivered == b.delivered + [e]
    ensures i < |b.entries| && b.entries[i].task == e.task && b.entries[i].priority < 3
    ensures b.queues[b.entries[i].priority] != [] && b.queues[b.entries[i].priority][0] == e
    ensures forall j: int, f: Event | 0 <= j < |b.entries| && b.entries[j].task == f.task && Waits(b, f) ::
      b.entries[i].priority <= b.entries[j].priority
  {
    hide PostAll, PriorityOf, WellFormed, Balanced;
    var k := First(b.queues);
    e := b.queues[k][0];
    DispatchIsDequeueFirst(b, es);
    assert Sorted(b, k) && e in b.queues[k];
    NoEntry(b.entries, e.task);
    i :| i < |b.entries| && b.entries[i].task == e.task;
    EntryPriority(b.entries, i);
    forall j: int, f: Event | 0 <= j < |b.entries| && b.entries[j].task == f.task && Waits(b, f)
      ensures b.entries[i].priority <= b.entries[j].priority
    {
      var l :| 0 <= l < |b.queues| && f in b.queues[l];
      assert Sorted(b, l);
      EntryPriority(b.entries, j);
    }
  }

  /** So in every run: whatever waits when a queued event is handed out is no more urgent, by the
      priorities in the table. */
  lemma RunMostUrgentFirst(entries: seq<Entry>, steps: seq<Step>, es: seq<Event>) returns (e: Event, i: nat)
    requires WellFormed(entries) && Run(Started(entries), steps)
    requires Can(After(Started(entries), steps), Queued(es))
    ensures var b := After(Started(entries), steps);
      && Do(b, Queued(es)).delivered == b.delivered + [e]
      && i < |entries| && entries[i].task == e.task
      && entries[i].priority < |b.queues| && b.queues[entries[i].priority] != []
      && b.queues[entries[i].priority][0] == e
      && forall j: int, f: Event | 0 <= j < |entries| && entries[j].task == f.task && Waits(b, f) ::
           entries[i].priority <= entries[j].priority
  {
    hide WellFormed, Conserved, Can, Do, Run, After, Started, Waits;
    RunConserves(entries, steps);
    StartedEntries(entries);
    RunEntries(Started(entries), steps);
    var b := After(Started(entries), steps);
    assert |b.queues| == 3 by { ShapedHas(b); }
    e, i := HandsOutMostUrgent(b, es);
  }

  lemma ShapedHas(b: Bus)
    requires Conserved(b)
    ensures |b.queues| == 3
  {
  }

  lemma StartedEntries(entries: seq<Entry>)
    requires WellFormed(entries)
    ensures Started(entries).entries == entries
  {
    InitKnown(entries, |entries|);
    assert entries[..|entries|] == entries;
  }

  /** The registry does not change in a run. */
  lemma {:induction false} RunEntries(b: Bus, steps: seq<Step>)
    requires Run(b, steps)
    ensures After(b, steps).entries == b.entries
    decreases |steps|
  {
    hide Do, Can;
    if steps != [] {
      var m := |steps| - 1;
      RunEntries(b, steps[..m]);
      StepNext(After(b, steps[..m]), steps[m]);
    }
  }

  lemma StepNext(b: Bus, s: Step)
    requires Can(b, s)
    ensures Do(b, s).entries == b.entries
    ensures Do(b, s).next == if s.Polled? then Wrap(s.i + 1, |b.entries|) else b.next
  {
    if s.Queued? { DispatchIsDequeueFirst(b, s.es); }
  }

  // ----- SYS_INIT comes first -----

  ghost function ForTask(t: byte, es: seq<Event>): seq<Event>
  {
    if es == [] then []
    else ForTask(t, es[..|es| - 1]) + (if es[|es| - 1].task == t then [es[|es| - 1]] else [])
  }

  lemma ForTaskAppend(t: byte, es: seq<Event>, e: Event)
    ensures ForTask(t, es + [e]) == ForTask(t, es) + (if e.task == t then [e] else [])
  {
    assert (es + [e])[..|es|] == es;
  }

  lemma {:induction false} ForTaskConcat(t: byte, a: seq<Event>, b: seq<Event>)
    ensures ForTask(t, a + b) == ForTask(t, a) + ForTask(t, b)
    decreases |b|
  {
    if b == [] {
      assert a + b == a;
    } else {
      assert (a + b)[..|a + b| - 1] == a + b[..|b| - 1];
      ForTaskConcat(t, a, b[..|b| - 1]);
    }
  }

  /** All events of a task have the same priority, so none is lost by looking at one priority. */
  lemma {:induction false} ForTaskOfPriority(entries: seq<Entry>, t: byte, es: seq<Event>)
    ensures ForTask(t, OfPriority(entries, PriorityOf(entries, t), es)) == ForTask(t, es)
    decreases |es|
  {
    if es != [] {
      var k, n := PriorityOf(entries, t), |es| - 1;
      ForTaskOfPriority(entries, t, es[..n]);
      var p := OfPriority(entries, k, es[..n]);
      if PriorityOf(entries, es[n].task) == k { ForTaskAppend(t, p, es[n]); } else { assert p + [] == p; }
    }
  }

  ghost predicate StartsWithInit(t: byte, es: seq<Event>)
  {
    ForTask(t, es) != [] && ForTask(t, es)[0] == Event(t, INIT_ID, [])
  }

  ghost predicate WantsInit(b: Bus, t: byte)
  {
    exists i | 0 <= i < |b.entries| :: b.entries[i].task == t && b.entries[i].init
  }

  /** For every task with an INIT entry: INIT was accepted first, and it is the first event the
      task handles, be it queued or polled. */
  ghost predicate InitFirst(b: Bus)
  {
    forall t | WantsInit(b, t) ::
      && StartsWithInit(t, b.accepted)
      && (ForTask(t, b.handled) == [] || StartsWithInit(t, b.handled))
      && (ForTask(t, b.handled) == [] ==> ForTask(t, b.delivered) == [])
  }

  lemma PostInitFirst(b: Bus, e: Event)
    requires InitFirst(b) && Shaped(b) && Known(b.entries, e)
    ensures InitFirst(Post(b, e))
  {
    forall t | WantsInit(Post(b, e), t) ensures StartsWithInit(t, Post(b, e).accepted) {
      assert WantsInit(b, t);
      ForTaskAppend(t, b.accepted, e);
    }
  }

  lemma {:induction false} PostAllInitFirst(b: Bus, es: seq<Event>)
    requires InitFirst(b) && Shaped(b) && forall e | e in es :: Known(b.entries, e)
    ensures InitFirst(PostAll(b, es))
    decreases |es|
  {
    if es != [] {
      PostAllInitFirst(b, es[..|es| - 1]);
      PostInitFirst(PostAll(b, es[..|es| - 1]), es[|es| - 1]);
    }
  }

  /** Accepted events of a task are its delivered ones followed by its queued ones. */
  lemma TaskConserved(b: Bus, t: byte)
    requires Conserved(b) && PriorityOf(b.entries, t) < PRIORITIES
    ensures ForTask(t, b.accepted) == ForTask(t, b.delivered) + ForTask(t, b.queues[PriorityOf(b.entries, t)])
  {
    var k := PriorityOf(b.entries, t);
    assert Balanced(b, k);
    ForTaskOfPriority(b.entries, t, b.accepted);
    ForTaskOfPriority(b.entries, t, b.delivered);
    ForTaskConcat(t, OfPriority(b.entries, k, b.delivered), b.queues[k]);
  }

  lemma WantsInitPriority(b: Bus, t: byte)
    requires Shaped(b) && WantsInit(b, t)
    ensures PriorityOf(b.entries, t) < PRIORITIES
  {
    var i :| 0 <= i < |b.entries| && b.entries[i].task == t && b.entries[i].init;
    LookupMember(b.entries, i);
  }

  lemma DequeueInitFirst(b: Bus)
    requires Conserved(b) && InitFirst(b) && !Quiet(b.queues)
    ensures InitFirst(Dequeue(b))
  {
    var k, r := First(b.queues), Dequeue(b);
    var e := b.queues[k][0];
    DequeueConserves(b);
    forall t | WantsInit(r, t)
      ensures StartsWithInit(t, r.accepted) && (ForTask(t, r.handled) == [] || StartsWithInit(t, r.handled))
      ensures ForTask(t, r.handled) == [] ==> ForTask(t, r.delivered) == []
    {
      assert WantsInit(b, t);
      WantsInitPriority(b, t);
      ForTaskAppend(t, b.handled, e);
      ForTaskAppend(t, b.delivered, e);
      TaskConserved(r, t);
    }
  }

  lemma PollInitFirst(b: Bus, i: nat)
    requires Conserved(b) && InitFirst(b) && Quiet(b.queues) && i < |b.entries|
    ensures InitFirst(LoggedPoll(b, i))
  {
    var e := Event(b.entries[i].task, POLL_ID, []);
    var r := LoggedPoll(b, i);
    forall t | WantsInit(r, t)
      ensures StartsWithInit(t, r.accepted) && (ForTask(t, r.handled) == [] || StartsWithInit(t, r.handled))
      ensures ForTask(t, r.handled) == [] ==> ForTask(t, r.delivered) == []
    {
      assert WantsInit(b, t);
      WantsInitPriority(b, t);
      ForTaskAppend(t, b.handled, e);
      TaskConserved(b, t);
    }
  }

  lemma NextKeepsInitFirst(b: Bus, n: nat)
    requires InitFirst(b)
    ensures InitFirst(b.(next := n))
  {
    forall t | WantsInit(b.(next := n), t) ensures WantsInit(b, t) { }
  }

  lemma StepInitFirst(b: Bus, s: Step)
    requires Conserved(b) && InitFirst(b) && Can(b, s)
    ensures InitFirst(Do(b, s))
  {
    match s
    case Posts(es) => PostAllInitFirst(b, es);
    case Queued(es) =>
      DispatchIsDequeueFirst(b, es);
      DequeueInitFirst(b);
      PostAllInitFirst(Dequeue(b), es);
    case Polled(i, es) =>
      PollInitFirst(b, i);
      var c := LoggedPoll(b, i);
      PostAllInitFirst(c, es);
      NextKeepsInitFirst(PostAll(c, es), Wrap(i + 1, |b.entries|));
    case Idle =>
  }

  ghost predicate InitAmong(entries: seq<Entry>, n: nat, t: byte)
    requires n <= |entries|
  {
    exists i | 0 <= i < n :: entries[i].task == t && entries[i].init
  }

  lemma InitEventsStep(entries: seq<Entry>, n: nat, t: byte)
    requires 0 < n <= |entries|
    ensures ForTask(t, InitEvents(entries[..n])) == ForTask(t, InitEvents(entries[..n - 1]))
              + if entries[n - 1].task == t && entries[n - 1].init then [Event(t, INIT_ID, [])] else []
  {
    hide ForTask;
    assert entries[..n][..n - 1] == entries[..n - 1];
    ForTaskAppend(t, InitEvents(entries[..n - 1]), Event(entries[n - 1].task, INIT_ID, []));
  }

  lemma {:induction false} InitEventsFor(entries: seq<Entry>, n: nat, t: byte)
    requires DistinctIds(entries) && n <= |entries|
    ensures ForTask(t, InitEvents(entries[..n])) == if InitAmong(entries, n, t) then [Event(t, INIT_ID, [])] else []
  {
    if n == 0 {
      assert entries[..0] == [];
    } else {
      hide ForTask, InitEvents;
      InitEventsFor(entries, n - 1, t);
      InitEventsStep(entries, n, t);
      assert InitAmong(entries, n - 1, t) ==> InitAmong(entries, n, t);
    }
  }

  /** `e` is the SYS_INIT event of entry `i`, which asks for it. */
  predicate InitOf(entries: seq<Entry>, i: nat, e: Event)
  {
    i < |entries| && entries[i].init && e == Event(entries[i].task, 0x1000_0000, [])
  }

  /** Event `k` is that of entry `ps[k]`; the places increase, and no entry that asks is missing. */
  ghost predicate Places(entries: seq<Entry>, es: seq<Event>, ps: seq<nat>)
  {
    && |ps| == |es| && (forall k | 0 <= k < |ps| :: InitOf(entries, ps[k], es[k]))
    && (forall j, k | 0 <= j < k < |ps| :: ps[j] < ps[k])
    && forall i | 0 <= i < |entries| && entries[i].init :: i in ps
  }

  lemma PlacesOn(front: seq<Entry>, e: Entry, es: seq<Event>, ps: seq<nat>)
    requires Places(front, es, ps)
    ensures !e.init ==> Places(front + [e], es, ps)
    ensures e.init ==> Places(front + [e], es + [Event(e.task, 0x1000_0000, [])], ps + [|front|])
  {
    var entries := front + [e];
    forall k | 0 <= k < |ps| ensures ps[k] < |front| && InitOf(entries, ps[k], es[k]) {
      assert InitOf(front, ps[k], es[k]);
    }
    forall i | 0 <= i < |entries| && entries[i].init ensures i in ps + [|front|] && (i < |front| ==> i in ps) {
      if i < |front| { assert front[i].init; } else { assert (ps + [|front|])[|ps|] == i; }
    }
  }

  /** The INIT events by the table: one for each entry with `init` and for no other, in table order. */
  lemma {:induction false} InitPlaces(entries: seq<Entry>) returns (ps: seq<nat>)
    ensures Places(entries, InitEvents(entries), ps)
  {
    ps := [];
    if entries != [] {
      var n := |entries| - 1;
      ps := InitPlaces(entries[..n]);
      PlacesOn(entries[..n], entries[n], InitEvents(entries[..n]), ps);
      if entries[n].init { ps := ps + [n]; }
      assert entries[..n] + [entries[n]] == entries;
    }
  }

  /** What waits after a start. */
  lemma StartedWaits(entries: seq<Entry>)
    requires WellFormed(entries)
    ensures forall e :: e in Started(entries).accepted <==> exists i: nat :: InitOf(entries, i, e)
    ensures Started(entries).accepted == InitEvents(entries) && Started(entries).delivered == []
    ensures Started(entries).next == 0 && Started(entries).entries == entries
  {
    hide InitEvents, PostAll, WellFormed, Known;
    InitKnown(entries, |entries|);
    assert entries[..|entries|] == entries;
    PostAllAccepted(Empty(entries), InitEvents(entries));
    var ps := InitPlaces(entries);
    var es := InitEvents(entries);
    forall e ensures e in es <==> exists i: nat :: InitOf(entries, i, e) {
      if i: nat :| InitOf(entries, i, e) {
        assert i in ps;
        var k :| 0 <= k < |ps| && ps[k] == i;
        assert InitOf(entries, ps[k], es[k]) && es[k] == e;
      }
    }
  }

  lemma {:induction false} PostAllAccepted(b: Bus, es: seq<Event>)
    requires Shaped(b) && forall e | e in es :: Known(b.entries, e)
    ensures PostAll(b, es).accepted == b.accepted + es
    decreases |es|
  {
    if es != [] { PostAllAccepted(b, es[..|es| - 1]); }
  }

  lemma StartedInitFirst(entries: seq<Entry>)
    requires WellFormed(entries)
    ensures InitFirst(Started(entries))
  {
    var b := Started(entries);
    InitKnown(entries, |entries|);
    assert entries[..|entries|] == entries;
    PostAllAccepted(Empty(entries), InitEvents(entries));
    assert b.accepted == InitEvents(entries);
    forall t | WantsInit(b, t) ensures StartsWithInit(t, b.accepted) {
      InitEventsFor(entries, |entries|, t);
    }
  }

  /** In every run after a successful initialization, the first event an `init` entry handles is
      SYS_INIT, whatever was posted, by whom, and whatever is polled. */
  lemma {:induction false} RunInitFirst(entries: seq<Entry>, steps: seq<Step>)
    requires WellFormed(entries) && Run(Started(entries), steps)
    ensures InitFirst(After(Started(entries), steps))
    decreases |steps|
  {
    if steps == [] {
      StartedInitFirst(entries);
    } else {
      RunInitFirst(entries, steps[..|steps| - 1]);
      RunConserves(entries, steps[..|steps| - 1]);
      StepInitFirst(After(Started(entries), steps[..|steps| - 1]), steps[|steps| - 1]);
    }
  }

  /** Runs compose. */
  lemma {:induction false} RunConcat(b: Bus, s: seq<Step>, t: seq<Step>)
    requires Run(b, s) && Run(After(b, s), t)
    ensures Run(b, s + t) && After(b, s + t) == After(After(b, s), t)
    decreases |t|
  {
    hide Do, Can;
    if t == [] {
      assert s + t == s;
    } else {
      RunConcat(b, s, t[..|t| - 1]);
      assert (s + t)[..|s + t| - 1] == s + t[..|t| - 1];
    }
  }

  /** What every run keeps, from any state where it holds. */
  lemma {:induction false} RunKeeps(b: Bus, steps: seq<Step>)
    requires Run(b, steps) && Conserved(b)
    ensures Conserved(After(b, steps)) && (InitFirst(b) ==> InitFirst(After(b, steps)))
    decreases |steps|
  {
    if steps != [] {
      var n := |steps| - 1;
      RunKeeps(b, steps[..n]);
      StepConserves(After(b, steps[..n]), steps[n]);
      if InitFirst(b) { StepInitFirst(After(b, steps[..n]), steps[n]); }
    }
  }

  // ----- how many events wait -----

  ghost function Waiting(b: Bus): nat
    requires |b.queues| == PRIORITIES
  {
    |b.queues[0]| + |b.queues[1]| + |b.queues[2]|
  }

  lemma {:induction false} PostsWait(b: Bus, es: seq<Event>)
    requires Shaped(b) && forall e | e in es :: Known(b.entries, e)
    ensures Waiting(PostAll(b, es)) == Waiting(b) + |es|
    decreases |es|
  {
    hide Known, WellFormed;
    if es != [] {
      PostsWait(b, es[..|es| - 1]);
      OnePostWaits(PostAll(b, es[..|es| - 1]), es[|es| - 1]);
    }
  }

  lemma OnePostWaits(b: Bus, e: Event)
    requires Shaped(b) && Known(b.entries, e)
    ensures Waiting(Post(b, e)) == Waiting(b) + 1
  {
  }

  lemma NobodyWaits(b: Bus)
    requires |b.queues| == PRIORITIES
    ensures Quiet(b.queues) <==> Waiting(b) == 0
  {
  }

  /** A dispatch whose handler posts nothing takes one event. */
  lemma SilentDispatch(b: Bus)
    requires Shaped(b) && !Quiet(b.queues)
    ensures Waiting(Dispatch(b, [])) == Waiting(b) - 1
  {
    hide WellFormed;
    assert PostAll(Logged(b, b.queues[First(b.queues)][0]), []).queues == b.queues;
    OnePopWaits(b, First(b.queues));
  }

  lemma OnePopWaits(b: Bus, k: nat)
    requires |b.queues| == PRIORITIES && k < PRIORITIES && b.queues[k] != []
    ensures Waiting(b.(queues := Pop(b.queues, k))) == Waiting(b) - 1
  {
  }
}
