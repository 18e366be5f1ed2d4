/** rtbus_cli.c: how bytes put into the input queue from interrupts wake the runtime thread.  The steps of
    any number of interrupts, of the work queue and of the runtime thread interleave freely; each atomic
    operation and each queue operation is one step. */
module CliWake {
  import opened Bytes

  const DEPTH: nat := 128       // rtbus_cli_input_msgq

  /** Where the work item stands: not queued, queued, posting, or told that the post failed. */
  datatype Work = Resting | Queued | Posting | PostFailed

  /** Where the runtime thread stands in rtbus_cli_process_input: not in it, draining the queue, having
      found it empty, having cleared `pending`, having found bytes after that, or holding the won token. */
  datatype Thread = Away | Draining | Drained | Cleared | Rechecked | Won

  /** `putters` interrupts have put their byte and not yet tried the compare-and-swap; `winners` have won
      it and not yet submitted the work item.  `accepted` and `handled` are the bytes that went into and
      out of the queue. */
  datatype Cli = Cli(queue: seq<byte>, pending: bool, putters: nat, winners: nat, work: Work, events: nat,
                     thread: Thread, accepted: seq<byte>, handled: seq<byte>)

  datatype Move =
    | Put(b: byte)        // k_msgq_put by an interrupt
    | Swap                // its atomic_cas(&pending, 0, 1)
    | Submit              // its k_work_submit
    | WorkStarts
    | PostDone(ok: bool)  // rtbus_post in the work handler
    | WorkResets          // atomic_set(&pending, 0) after a failed post
    | Dispatched          // the bus hands the event to the runtime thread
    | Take                // k_msgq_get finds a byte
    | FoundEmpty          // k_msgq_get finds none
    | Clear               // atomic_set(&pending, 0)
    | Recheck             // k_msgq_num_used_get
    | ThreadSwaps         // the second atomic_cas
    | ThreadSubmits

  function Boot(): Cli
  {
    Cli([], false, 0, 0, Resting, 0, Away, [], [])
  }

  predicate Enabled(s: Cli, m: Move)
  {
    match m
    case Put(_) => true
    case Swap => s.putters > 0
    case Submit => s.winners > 0
    case WorkStarts => s.work == Queued
    case PostDone(_) => s.work == Posting
    case WorkResets => s.work == PostFailed
    case Dispatched => s.thread == Away && s.events > 0
    case Take => s.thread == Draining && s.queue != []
    case FoundEmpty => s.thread == Draining && s.queue == []
    case Clear => s.thread == Drained
    case Recheck => s.thread == Cleared
    case ThreadSwaps => s.thread == Rechecked
    case ThreadSubmits => s.thread == Won
  }

  /** Submitting an item that is already queued changes nothing; a running one is queued again, but no
      reachable state has one to submit then. */
  function Make(s: Cli, m: Move): Cli
    requires Enabled(s, m)
  {
    match m
    case Put(b) =>
      if |s.queue| >= DEPTH then s
      else s.(queue := s.queue + [b], accepted := s.accepted + [b], putters := s.putters + 1)
    case Swap =>
      if s.pending then s.(putters := s.putters - 1)
      else s.(putters := s.putters - 1, pending := true, winners := s.winners + 1)
    case Submit => s.(winners := s.winners - 1, work := Queued)
    case WorkStarts => s.(work := Posting)
    case PostDone(ok) => if ok then s.(work := Resting, events := s.events + 1) else s.(work := PostFailed)
    case WorkResets => s.(work := Resting, pending := false)
    case Dispatched => s.(events := s.events - 1, thread := Draining)
    case Take => s.(queue := s.queue[1..], handled := s.handled + [s.queue[0]])
    case FoundEmpty => s.(thread := Drained)
    case Clear => s.(thread := Cleared, pending := false)
    case Recheck => s.(thread := if s.queue != [] then Rechecked else Away)
    case ThreadSwaps => if s.pending then s.(thread := Away) else s.(pending := true, thread := Won)
    case ThreadSubmits => s.(thread := Away, work := Queued)
  }

  /** The wake tokens in flight: between a won swap and the submit, in the work item, on the bus, or with
      the thread that drains. */
  function Tokens(s: Cli): nat
  {
    s.winners + (if s.work == Resting then 0 else 1) + s.events
    + (if s.thread in {Draining, Drained, Won} then 1 else 0)
  }

  /** `pending` says whether there is a token, and there is never more than one. */
  predicate OneToken(s: Cli)
  {
    Tokens(s) == if s.pending then 1 else 0
  }

  /** Bytes left in the queue have a token on the way, or somebody about to make one. */
  predicate Attended(s: Cli)
  {
    s.queue != [] ==> s.pending || s.putters > 0 || s.thread in {Cleared, Rechecked}
  }

  /** Bytes are handled in the order in which they were accepted, each once. */
  predicate InOrder(s: Cli)
  {
    s.accepted == s.handled + s.queue && |s.queue| <= DEPTH
  }

  ghost predicate Leads(from: Cli, moves: seq<Move>, after: Cli)
    decreases |moves|
  {
    if moves == [] then after == from
    else Enabled(from, moves[0]) && Leads(Make(from, moves[0]), moves[1..], after)
  }

  predicate PostsSucceed(moves: seq<Move>)
  {
    forall i | 0 <= i < |moves| :: moves[i] != PostDone(false)
  }

  lemma MoveKeepsToken(s: Cli, m: Move)
    requires OneToken(s) && Enabled(s, m)
    ensures OneToken(Make(s, m))
  {
  }

  lemma MoveKeepsOrder(s: Cli, m: Move)
    requires InOrder(s) && Enabled(s, m)
    ensures InOrder(Make(s, m))
  {
    if m.Take? { assert s.handled + [s.queue[0]] + s.queue[1..] == s.handled + s.queue; }
    if m.Put? { assert s.handled + s.queue + [m.b] == s.handled + (s.queue + [m.b]); }
  }

  /** Only giving up after a failed post can leave bytes unattended, and it does so exactly when it leaves
      bytes with no interrupt and no recheck to follow. */
  lemma MoveKeepsAttended(s: Cli, m: Move)
    requires OneToken(s) && Attended(s) && Enabled(s, m)
    ensures !m.WorkResets? ==> Attended(Make(s, m))
    ensures m.WorkResets? ==>
      (Attended(Make(s, m)) <==> s.queue == [] || s.putters > 0 || s.thread in {Cleared, Rechecked})
  {
  }

  /** In every interleaving, with or without failing posts: at most one token, hence at most one queued
      input event, and nothing lost or reordered among the accepted bytes. */
  lemma {:induction false} TokensAlways(from: Cli, moves: seq<Move>, after: Cli)
    requires Leads(from, moves, after) && OneToken(from) && InOrder(from)
    ensures OneToken(after) && InOrder(after) && after.events <= 1
    decreases |moves|
  {
    hide OneToken, InOrder;
    if moves == [] {
      assert after.events <= 1 by { AtMostOneEvent(after); }
    } else {
      MoveKeepsToken(from, moves[0]);
      MoveKeepsOrder(from, moves[0]);
      TokensAlways(Make(from, moves[0]), moves[1..], after);
    }
  }

  lemma AtMostOneEvent(s: Cli)
    requires OneToken(s)
    ensures s.events <= 1
  {
  }

  /** No work handler is about to give up. */
  predicate NoFailure(s: Cli)
  {
    s.work != PostFailed
  }

  /** While posts succeed, no interleaving strands a byte. */
  lemma {:induction false} AttendedAlways(from: Cli, moves: seq<Move>, after: Cli)
    requires Leads(from, moves, after) && PostsSucceed(moves)
    requires OneToken(from) && Attended(from) && NoFailure(from)
    ensures OneToken(after) && Attended(after) && NoFailure(after)
    decreases |moves|
  {
    hide OneToken, Attended;
    if moves != [] {
      MoveKeepsToken(from, moves[0]);
      MoveKeepsAttended(from, moves[0]);
      AttendedAlways(Make(from, moves[0]), moves[1..], after);
    }
  }

  /** Nothing but a new byte can happen. */
  predicate Quiet(s: Cli)
  {
    && s.putters == s.winners == s.events == 0 && s.work == Resting && s.thread == Away
  }

  /** What the moves other than new bytes still have to do at most. */
  function Effort(s: Cli): nat
  {
    |s.queue| + 9 * s.putters + 8 * s.winners + 5 * s.events
    + (match s.work case Resting => 0 case Queued => 7 case Posting => 6 case PostFailed => 1)
    + (match s.thread
       case Away => 0
       case Draining => 4
       case Drained => if s.queue == [] then 3 else 20
       case Cleared => if s.queue == [] then 2 else 19
       case Rechecked => 18
       case Won => 8)
  }

  lemma MoveTakesEffort(s: Cli, m: Move)
    requires Enabled(s, m) && !m.Put? && OneToken(s)
    ensures Effort(Make(s, m)) < Effort(s)
  {
  }

  predicate NoPuts(moves: seq<Move>)
  {
    forall i | 0 <= i < |moves| :: !moves[i].Put?
  }

  /** Once no more bytes come in, every interleaving is bounded. */
  lemma {:induction false} Settles(from: Cli, moves: seq<Move>, after: Cli)
    requires Leads(from, moves, after) && NoPuts(moves) && OneToken(from)
    ensures |moves| + Effort(after) <= Effort(from)
    decreases |moves|
  {
    hide OneToken, Effort;
    if moves != [] {
      MoveKeepsToken(from, moves[0]);
      MoveTakesEffort(from, moves[0]);
      Settles(Make(from, moves[0]), moves[1..], after);
    }
  }

  /** No lost wake-up: in every interleaving from boot in which posts succeed, a state that is not quiet
      can move on, and one that is quiet has an empty queue, so every accepted byte has been handled, in
      order. */
  lemma NoLostWakeup(moves: seq<Move>, after: Cli)
    requires Leads(Boot(), moves, after) && PostsSucceed(moves)
    ensures Quiet(after) ==> after.queue == [] && after.handled == after.accepted && !after.pending
    ensures !Quiet(after) ==> exists m: Move :: Enabled(after, m) && !m.Put?
  {
    hide Leads;
    TokensAlways(Boot(), moves, after);
    AttendedAlways(Boot(), moves, after);
    if !Quiet(after) {
      var m := NextMove(after);
    }
  }

  /** Somebody's next step, when not all are at rest. */
  function NextMove(s: Cli): (m: Move)
    requires !Quiet(s)
    ensures Enabled(s, m) && !m.Put?
  {
    match s.thread
    case Draining => if s.queue != [] then Take else FoundEmpty
    case Drained => Clear
    case Cleared => Recheck
    case Rechecked => ThreadSwaps
    case Won => ThreadSubmits
    case Away =>
      (match s.work
       case Queued => WorkStarts
       case Posting => PostDone(true)
       case PostFailed => WorkResets
       case Resting => if s.putters > 0 then Swap else if s.winners > 0 then Submit else Dispatched)
  }

  /** A run in which the post fails strands a byte: everybody is at rest and the byte is still queued. */
  lemma FailedPostStrandsByte(b: byte)
    ensures var moves := [Put(b), Swap, Submit, WorkStarts, PostDone(false), WorkResets];
      var after := Cli([b], false, 0, 0, Resting, 0, Away, [b], []);
      Leads(Boot(), moves, after) && Quiet(after) && !Attended(after)
  {
    var s := Boot();
    var s1 := Make(s, Put(b));
    var s2 := Make(s1, Swap);
    var s3 := Make(s2, Submit);
    var s4 := Make(s3, WorkStarts);
    var s5 := Make(s4, PostDone(false));
    var s6 := Make(s5, WorkResets);
    FirstMove(s5, WorkResets, [], s6);
    FirstMove(s4, PostDone(false), [WorkResets], s6);
    FirstMove(s3, WorkStarts, [PostDone(false), WorkResets], s6);
    FirstMove(s2, Submit, [WorkStarts, PostDone(false), WorkResets], s6);
    FirstMove(s1, Swap, [Submit, WorkStarts, PostDone(false), WorkResets], s6);
    FirstMove(s, Put(b), [Swap, Submit, WorkStarts, PostDone(false), WorkResets], s6);
    assert [Put(b)] + [Swap, Submit, WorkStarts, PostDone(false), WorkResets]
        == [Put(b), Swap, Submit, WorkStarts, PostDone(false), WorkResets];
  }

  lemma FirstMove(s: Cli, m: Move, rest: seq<Move>, after: Cli)
    requires Enabled(s, m) && Leads(Make(s, m), rest, after)
    ensures Leads(s, [m] + rest, after)
  {
    assert ([m] + rest)[1..] == rest;
  }

  // ---- runs in which posts may fail ----

  predicate NoPosts(moves: seq<Move>)
  {
    forall i | 0 <= i < |moves| :: !moves[i].PostDone?
  }

  /** A run passes through a state before each of its moves. */
  lemma {:induction false} Midway(from: Cli, moves: seq<Move>, after: Cli, k: nat) returns (mid: Cli)
    requires Leads(from, moves, after) && k <= |moves|
    ensures Leads(from, moves[..k], mid) && Leads(mid, moves[k..], after)
    decreases k
  {
    if k == 0 {
      mid := from;
      assert moves[0..] == moves;
    } else {
      mid := Midway(Make(from, moves[0]), moves[1..], after, k - 1);
      assert moves[..k][1..] == moves[1..][..k - 1] && moves[1..][k - 1..] == moves[k..];
    }
  }

  lemma {:induction false} OneAfter(from: Cli, moves: seq<Move>, a: Cli, b: Cli)
    requires Leads(from, moves, a) && Leads(from, moves, b)
    ensures a == b
    decreases |moves|
  {
    if moves != [] { OneAfter(Make(from, moves[0]), moves[1..], a, b); }
  }

  /** A successful post makes up for all failures before it: whatever happened earlier, if no later post
      fails, a run that rests has handled every accepted byte, in order. */
  lemma GoodPostRecovers(moves: seq<Move>, k: nat, after: Cli)
    requires Leads(Boot(), moves, after) && k < |moves| && moves[k] == PostDone(true)
    requires PostsSucceed(moves[k + 1..])
    ensures Quiet(after) ==> after.queue == [] && after.handled == after.accepted && !after.pending
  {
    hide Leads, Make;
    var mid := Midway(Boot(), moves, after, k);
    TokensAlways(Boot(), moves[..k], mid);
    FirstOf(mid, moves[k..], after);
    assert moves[k..][1..] == moves[k + 1..];
    MoveKeepsToken(mid, PostDone(true));
    GoodPost(mid);
    AttendedAlways(Make(mid, PostDone(true)), moves[k + 1..], after);
    TokensAlways(Boot(), moves, after);
  }

  lemma FirstOf(s: Cli, moves: seq<Move>, after: Cli)
    requires Leads(s, moves, after) && moves != []
    ensures Enabled(s, moves[0]) && Leads(Make(s, moves[0]), moves[1..], after)
  {
  }

  lemma GoodPost(s: Cli)
    requires Enabled(s, PostDone(true)) && OneToken(s)
    ensures Attended(Make(s, PostDone(true))) && NoFailure(Make(s, PostDone(true)))
  {
  }

  /** The token is on its way to a post. */
  predicate Upstream(s: Cli)
  {
    s.pending && s.events == 0 && s.thread !in {Draining, Drained} && s.work != PostFailed
  }

  /** A token on its way to a post cannot disappear before that post. */
  lemma {:induction false} UpstreamStays(s: Cli, moves: seq<Move>, after: Cli)
    requires Leads(s, moves, after) && NoPosts(moves) && OneToken(s) && Upstream(s)
    ensures !Quiet(after)
    decreases |moves|
  {
    if moves != [] {
      MoveKeepsToken(s, moves[0]);
      UpstreamStays(Make(s, moves[0]), moves[1..], after);
    }
  }

  /** Without a token and without a further post, a run that rests has neither taken nor accepted a byte. */
  lemma {:induction false} NothingHappens(s: Cli, moves: seq<Move>, after: Cli)
    requires Leads(s, moves, after) && NoPosts(moves) && OneToken(s) && !s.pending && Quiet(after)
    ensures after.queue == s.queue && s.putters == 0
    decreases |moves|
  {
    if moves != [] {
      var t := Make(s, moves[0]);
      MoveKeepsToken(s, moves[0]);
      if t.pending {
        UpstreamStays(t, moves[1..], after);
      } else {
        NothingHappens(t, moves[1..], after);
      }
    }
  }

  /** At move `k` the work handler gives up, for the last time, on a queue that is not empty. */
  ghost predicate GivesUp(moves: seq<Move>, k: nat)
  {
    && k < |moves| && moves[k] == WorkResets && NoPosts(moves[k + 1..])
    && exists mid :: Leads(Boot(), moves[..k], mid) && mid.queue != []
  }

  /** In every run that comes to rest, with any posts failing, bytes are left behind exactly if the last
      post failed and the queue was not empty when the work handler gave up on it. */
  lemma BytesLeftIff(moves: seq<Move>, after: Cli)
    requires Leads(Boot(), moves, after) && Quiet(after)
    ensures after.queue != [] <==> exists k :: GivesUp(moves, k)
  {
    hide Leads, Quiet;
    if k :| GivesUp(moves, k) { LeftByGivingUp(moves, k, after); }
    if after.queue != [] {
      var k := LastGivingUp(moves, after);
    }
  }

  lemma LeftByGivingUp(moves: seq<Move>, k: nat, after: Cli)
    requires Leads(Boot(), moves, after) && Quiet(after)
    requires k < |moves| && moves[k] == WorkResets && NoPosts(moves[k + 1..])
    ensures Leads(Boot(), moves[..k], Before(moves, k, after)) && Before(moves, k, after).queue == after.queue
    ensures GivesUp(moves, k) <==> after.queue != []
  {
    hide Leads, Make, Quiet;
    var mid := Before(moves, k, after);
    TokensAlways(Boot(), moves[..k], mid);
    FirstOf(mid, moves[k..], after);
    assert moves[k..][1..] == moves[k + 1..];
    MoveKeepsToken(mid, WorkResets);
    Resets(mid);
    NothingHappens(Make(mid, WorkResets), moves[k + 1..], after);
    if GivesUp(moves, k) {
      var other :| Leads(Boot(), moves[..k], other) && other.queue != [];
      OneAfter(Boot(), moves[..k], mid, other);
    }
  }

  /** The state before move `k`. */
  ghost function Before(moves: seq<Move>, k: nat, after: Cli): (mid: Cli)
    requires Leads(Boot(), moves, after) && k < |moves|
    ensures Leads(Boot(), moves[..k], mid) && Leads(mid, moves[k..], after)
  {
    assert exists mid :: Leads(Boot(), moves[..k], mid) && Leads(mid, moves[k..], after) by {
      var m := Midway(Boot(), moves, after, k);
    }
    var mid :| Leads(Boot(), moves[..k], mid) && Leads(mid, moves[k..], after);
    mid
  }

  lemma Resets(s: Cli)
    requires Enabled(s, WorkResets)
    ensures !Make(s, WorkResets).pending && Make(s, WorkResets).queue == s.queue
  {
  }

  /** A resting run with bytes in the queue gave up on them after its last post. */
  lemma LastGivingUp(moves: seq<Move>, after: Cli) returns (k: nat)
    requires Leads(Boot(), moves, after) && Quiet(after) && after.queue != []
    ensures GivesUp(moves, k)
  {
    hide Leads, Quiet, Make;
    var p := LastPost(moves, after);
    if moves[p] == PostDone(true) {
      GoodPostRecovers(moves, p, after);
      assert false;
    }
    var mid := Before(moves, p, after);
    FirstOf(mid, moves[p..], after);
    assert moves[p..][1..] == moves[p + 1..];
    TokensAlways(Boot(), moves[..p], mid);
    MoveKeepsToken(mid, PostDone(false));
    FailsThere(mid);
    RestsWithoutFailure(after);
    var d := FindReset(Make(mid, PostDone(false)), moves[p + 1..], after);
    k := p + 1 + d;
    assert moves[k + 1..] == moves[p + 1..][d + 1..];
    LeftByGivingUp(moves, k, after);
  }

  lemma RestsWithoutFailure(s: Cli)
    requires Quiet(s)
    ensures s.work != PostFailed
  {
  }

  lemma FailsThere(s: Cli)
    requires Enabled(s, PostDone(false))
    ensures Make(s, PostDone(false)).work == PostFailed
  {
  }

  /** The last post of a run that left bytes behind. */
  lemma LastPost(moves: seq<Move>, after: Cli) returns (p: nat)
    requires Leads(Boot(), moves, after) && Quiet(after) && after.queue != []
    ensures p < |moves| && moves[p].PostDone? && NoPosts(moves[p + 1..])
  {
    hide Leads, Quiet;
    p := |moves|;
    while p > 0 && !moves[p - 1].PostDone?
      invariant p <= |moves| && NoPosts(moves[p..])
    {
      p := p - 1;
    }
    if p == 0 {
      assert moves[0..] == moves;
      NoLostWakeup(moves, after);
      assert false;
    }
    p := p - 1;
  }

  /** A failed post is followed by giving up. */
  lemma {:induction false} FindReset(s: Cli, moves: seq<Move>, after: Cli) returns (k: nat)
    requires Leads(s, moves, after) && OneToken(s) && s.work == PostFailed && after.work != PostFailed
    ensures k < |moves| && moves[k] == WorkResets
    decreases |moves|
  {
    if moves[0] == WorkResets {
      k := 0;
    } else {
      MoveKeepsToken(s, moves[0]);
      k := FindReset(Make(s, moves[0]), moves[1..], after);
      k := k + 1;
    }
  }

  /** One more accepted byte, with a post that succeeds, gets a resting machine going again, and with
      it the bytes left behind. */
  lemma NewByteRecovers(s: Cli, b: byte) returns (t: Cli)
    requires Quiet(s) && OneToken(s) && |s.queue| < DEPTH
    ensures Leads(s, [Put(b), Swap, Submit, WorkStarts, PostDone(true)], t)
    ensures t.events == 1 && t.queue == s.queue + [b]
  {
    var s1 := Make(s, Put(b));
    var s2 := Make(s1, Swap);
    var s3 := Make(s2, Submit);
    var s4 := Make(s3, WorkStarts);
    t := Make(s4, PostDone(true));
    FirstMove(s4, PostDone(true), [], t);
    FirstMove(s3, WorkStarts, [PostDone(true)], t);
    FirstMove(s2, Submit, [WorkStarts, PostDone(true)], t);
    FirstMove(s1, Swap, [Submit, WorkStarts, PostDone(true)], t);
    FirstMove(s, Put(b), [Swap, Submit, WorkStarts, PostDone(true)], t);
    assert [Put(b)] + [Swap, Submit, WorkStarts, PostDone(true)] == [Put(b), Swap, Submit, WorkStarts, PostDone(true)];
  }

  /** A full queue left behind stays for good: every further byte is dropped before it could wake anybody. */
  lemma {:induction false} FullQueueStays(s: Cli, moves: seq<Move>, after: Cli)
    requires Leads(s, moves, after) && Quiet(s) && |s.queue| >= DEPTH
    ensures after == s
    decreases |moves|
  {
    if moves != [] { FullQueueStays(Make(s, moves[0]), moves[1..], after); }
  }

  lemma {:induction false} LeadsOn(from: Cli, moves: seq<Move>, mid: Cli, more: seq<Move>, after: Cli)
    requires Leads(from, moves, mid) && Leads(mid, more, after)
    ensures Leads(from, moves + more, after)
    decreases |moves|
  {
    if moves == [] {
      assert moves + more == more;
    } else {
      assert (moves + more)[1..] == moves[1..] + more;
      LeadsOn(Make(from, moves[0]), moves[1..], mid, more, after);
    }
  }

  /** `n` interrupts put a byte each. */
  lemma {:induction false} ManyPut(s: Cli, b: byte, n: nat) returns (moves: seq<Move>, t: Cli)
    requires |s.queue| + n <= DEPTH
    ensures Leads(s, moves, t) && |t.queue| == |s.queue| + n && t.putters == s.putters + n
    ensures t.(queue := s.queue, accepted := s.accepted, putters := s.putters) == s
    decreases n
  {
    if n == 0 {
      moves, t := [], s;
    } else {
      moves, t := ManyPut(Make(s, Put(b)), b, n - 1);
      FirstMove(s, Put(b), moves, t);
      moves := [Put(b)] + moves;
    }
  }

  /** All of them find the token taken. */
  lemma {:induction false} ManyLose(s: Cli) returns (moves: seq<Move>, t: Cli)
    requires s.pending
    ensures Leads(s, moves, t) && t == s.(putters := 0)
    decreases s.putters
  {
    if s.putters == 0 {
      moves, t := [], s;
    } else {
      moves, t := ManyLose(Make(s, Swap));
      FirstMove(s, Swap, moves, t);
      moves := [Swap] + moves;
    }
  }

  /** It can come to that from boot: a burst of 128 bytes whose one post fails leaves the queue full, and the
      interpreter deaf. */
  lemma FullQueueLeft(b: byte) returns (moves: seq<Move>, after: Cli)
    ensures Leads(Boot(), moves, after) && Quiet(after) && |after.queue| == 128
    ensures forall more, end | Leads(after, more, end) :: end == after
  {
    var puts, s1 := ManyPut(Boot(), b, DEPTH);
    var s2 := Make(s1, Swap);
    var swaps, s3 := ManyLose(s2);
    var s4 := Make(s3, Submit);
    var s5 := Make(s4, WorkStarts);
    var s6 := Make(s5, PostDone(false));
    after := Make(s6, WorkResets);
    FirstMove(s6, WorkResets, [], after);
    FirstMove(s5, PostDone(false), [WorkResets], after);
    FirstMove(s4, WorkStarts, [PostDone(false)] + [WorkResets], after);
    FirstMove(s3, Submit, [WorkStarts] + ([PostDone(false)] + [WorkResets]), after);
    var end := [Submit] + ([WorkStarts] + ([PostDone(false)] + [WorkResets]));
    LeadsOn(s2, swaps, s3, end, after);
    FirstMove(s1, Swap, swaps + end, after);
    LeadsOn(Boot(), puts, s1, [Swap] + (swaps + end), after);
    moves := puts + ([Swap] + (swaps + end));
    forall more, end | Leads(after, more, end) ensures end == after { FullQueueStays(after, more, end); }
  }
}
