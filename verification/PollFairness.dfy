/** The round-robin poll of emos.c: who is polled when, over whole runs. */
module PollFairness {
  import opened Entries
  import opened BusRuns

  /** How many of the first `n` entries are polled ones. */
  function Rank(entries: seq<Entry>, n: nat): nat
    requires n <= |entries|
  {
    if n == 0 then 0 else Rank(entries, n - 1) + (if Polls(entries[n - 1]) then 1 else 0)
  }

  /** The number of polled entries. */
  function Total(entries: seq<Entry>): nat
  {
    Rank(entries, |entries|)
  }

  lemma {:induction false} RankMonotone(entries: seq<Entry>, i: nat, j: nat)
    requires i <= j <= |entries|
    ensures Rank(entries, i) <= Rank(entries, j)
    decreases j
  {
    if i < j { RankMonotone(entries, i, j - 1); }
  }

  lemma {:induction false} RankFlat(entries: seq<Entry>, i: nat, j: nat)
    requires i <= j <= |entries| && forall c | i <= c < j :: !Polls(entries[c])
    ensures Rank(entries, i) == Rank(entries, j)
    decreases j
  {
    if i < j { RankFlat(entries, i, j - 1); }
  }

  lemma RankInjective(entries: seq<Entry>, i: nat, j: nat)
    requires i < |entries| && j < |entries| && Polls(entries[i]) && Polls(entries[j])
    requires Rank(entries, i) == Rank(entries, j)
    ensures i == j
  {
    RankMonotone(entries, if i < j then i + 1 else i, if i < j then j else i);
    RankMonotone(entries, if j < i then j + 1 else j, if j < i then i else j);
  }

  lemma RankBelowTotal(entries: seq<Entry>, i: nat)
    requires i < |entries| && Polls(entries[i])
    ensures Rank(entries, i) < Total(entries)
  {
    RankMonotone(entries, i + 1, |entries|);
  }

  /** The entry whose turn it is has, among the polled ones, the rank of the position `next`,
      starting over after the last one. */
  lemma TurnRank(entries: seq<Entry>, next: nat, i: nat)
    requires PollTurn(entries, next, i)
    ensures next < |entries| && Rank(entries, i) < Total(entries)
    ensures Rank(entries, i) == if Rank(entries, next) == Total(entries) then 0 else Rank(entries, next)
  {
    var d :| PollDistance(entries, next, i, d);
    RankBelowTotal(entries, i);
    if next + d < |entries| {
      forall c | next <= c < i ensures !Polls(entries[c]) { assert !PollsAt(entries, next, c - next); }
      RankFlat(entries, next, i);
    } else {
      forall c | next <= c < |entries| ensures !Polls(entries[c]) { assert !PollsAt(entries, next, c - next); }
      RankFlat(entries, next, |entries|);
      forall c | 0 <= c < i ensures !Polls(entries[c]) { assert !PollsAt(entries, next, c + |entries| - next); }
      RankFlat(entries, 0, i);
    }
  }

  /** Indices of the entries polled in a run, in order. */
  ghost function PolledIn(steps: seq<Step>): seq<nat>
  {
    if steps == [] then []
    else PolledIn(steps[..|steps| - 1]) + (if steps[|steps| - 1].Polled? then [steps[|steps| - 1].i] else [])
  }

  /** Poll `j` goes to the polled entry after the one polled before it, cyclically. */
  ghost predicate Follows(entries: seq<Entry>, ps: seq<nat>, j: nat)
    requires 1 <= j < |ps|
  {
    && PolledAt(entries, ps, j - 1) && PolledAt(entries, ps, j)
    && Rank(entries, ps[j]) == CycleNext(entries, Rank(entries, ps[j - 1]))
  }

  ghost function CycleNext(entries: seq<Entry>, r: nat): nat
  {
    if r + 1 == Total(entries) then 0 else r + 1
  }

  ghost predicate PolledAt(entries: seq<Entry>, ps: seq<nat>, j: nat)
    requires j < |ps|
  {
    ps[j] < |entries| && Polls(entries[ps[j]])
  }

  /** The polls start with the first polled entry and go round from there. */
  ghost predicate RoundRobin(entries: seq<Entry>, ps: seq<nat>)
  {
    && (ps != [] ==> PolledAt(entries, ps, 0) && Rank(entries, ps[0]) == 0)
    && forall j {:trigger Follows(entries, ps, j)} | 1 <= j < |ps| :: Follows(entries, ps, j)
  }

  lemma RoundRobinAppend(entries: seq<Entry>, ps: seq<nat>, i: nat)
    requires RoundRobin(entries, ps) && i < |entries| && Polls(entries[i])
    requires if ps == [] then Rank(entries, i) == 0
             else PolledAt(entries, ps, |ps| - 1)
                  && Rank(entries, i) == CycleNext(entries, Rank(entries, ps[|ps| - 1]))
    ensures RoundRobin(entries, ps + [i]) && PolledAt(entries, ps + [i], |ps|)
  {
    forall j | 1 <= j < |ps + [i]| ensures Follows(entries, ps + [i], j) {
      if j < |ps| { assert Follows(entries, ps, j); }
    }
  }

  /** Where the next poll starts looking: behind the entry polled last. */
  ghost predicate Position(entries: seq<Entry>, ps: seq<nat>, next: nat)
  {
    if ps == [] then next == 0
    else PolledAt(entries, ps, |ps| - 1) && next == Wrap(ps[|ps| - 1] + 1, |entries|)
  }

  /** Each poll of a run goes to the polled entry after the one polled before, cyclically and
      starting with the first, whatever queued events are handled in between. */
  lemma {:induction false} PollSchedule(entries: seq<Entry>, steps: seq<Step>)
    requires WellFormed(entries) && Run(Started(entries), steps)
    ensures var b := After(Started(entries), steps);
            b.entries == entries && Position(entries, PolledIn(steps), b.next)
    ensures RoundRobin(entries, PolledIn(steps))
    decreases |steps|
  {
    if steps != [] {
      var n := |steps| - 1;
      PollSchedule(entries, steps[..n]);
      var b, s := After(Started(entries), steps[..n]), steps[n];
      hide RoundRobin, PollTurn, Position, Shaped;
      StepNext(b, s);
      if s.Polled? {
        TurnContinues(entries, PolledIn(steps[..n]), b.next, s.i);
      } else {
        assert PolledIn(steps) == PolledIn(steps[..n]);
      }
    }
  }

  lemma TurnContinues(entries: seq<Entry>, ps: seq<nat>, next: nat, i: nat)
    requires RoundRobin(entries, ps) && Position(entries, ps, next) && PollTurn(entries, next, i)
    ensures RoundRobin(entries, ps + [i]) && Position(entries, ps + [i], Wrap(i + 1, |entries|))
  {
    hide RoundRobin;
    TurnRank(entries, next, i);
    if ps != [] { NextRank(entries, ps[|ps| - 1]); }
    RoundRobinAppend(entries, ps, i);
  }

  lemma NextRank(entries: seq<Entry>, i: nat)
    requires i < |entries| && Polls(entries[i])
    ensures Rank(entries, i + 1) == Rank(entries, i) + 1 && Rank(entries, 0) == 0
    ensures i + 1 == |entries| ==> Total(entries) == Rank(entries, i) + 1
  {
  }

  /** The d-th poll of a window is d ranks further, modulo the number of polled entries. */
  lemma {:induction false} WindowRank(entries: seq<Entry>, ps: seq<nat>, from: nat, d: nat)
    requires RoundRobin(entries, ps) && from + d < |ps| && d < Total(entries)
    ensures PolledAt(entries, ps, from) && PolledAt(entries, ps, from + d)
    ensures var r := Rank(entries, ps[from]) + d;
            Rank(entries, ps[from + d]) == if r < Total(entries) then r else r - Total(entries)
  {
    if d == 0 {
      if from > 0 { assert Follows(entries, ps, from); }
    } else {
      WindowRank(entries, ps, from, d - 1);
      assert Follows(entries, ps, from + d);
    }
    RankBelowTotal(entries, ps[from]);
  }

  /** The entries among the first `n` that ask to be polled. */
  function Asking(entries: seq<Entry>, n: nat): set<nat>
    requires n <= |entries|
  {
    set i: nat | i < n && entries[i].always
  }

  lemma {:induction false} RankCounts(entries: seq<Entry>, n: nat)
    requires WellFormed(entries) && n <= |entries|
    ensures Rank(entries, n) == |Asking(entries, n)|
  {
    if n == 0 {
      assert Asking(entries, 0) == {};
    } else {
      RankCounts(entries, n - 1);
      assert Usable(entries[n - 1]);
      var rest := Asking(entries, n - 1);
      assert n - 1 !in rest;
      assert Asking(entries, n) == if entries[n - 1].always then rest + {n - 1} else rest;
    }
  }

  /** Nobody is polled who does not ask for it. */
  lemma OnlyAskingPolled(entries: seq<Entry>, steps: seq<Step>, m: nat)
    requires WellFormed(entries) && Run(Started(entries), steps) && m < |PolledIn(steps)|
    ensures PolledIn(steps)[m] < |entries| && entries[PolledIn(steps)[m]].always
  {
    hide PolledIn, Run, WellFormed;
    PollSchedule(entries, steps);
    if m > 0 { assert Follows(entries, PolledIn(steps), m); }
  }

  /** Any `k` consecutive polls, `k` the number of entries that ask to be polled, poll each of them exactly
      once. */
  lemma WindowPollsEachOnce(entries: seq<Entry>, steps: seq<Step>, from: nat, k: nat, i: nat) returns (j: nat)
    requires WellFormed(entries) && Run(Started(entries), steps)
    requires k == |set m: nat | m < |entries| && entries[m].always| && from + k <= |PolledIn(steps)|
    requires i < |entries| && entries[i].always
    ensures from <= j < from + k && PolledIn(steps)[j] == i
    ensures forall m | from <= m < from + k && PolledIn(steps)[m] == i :: m == j
    ensures forall m | from <= m < from + k :: PolledIn(steps)[m] < |entries| && entries[PolledIn(steps)[m]].always
  {
    hide RoundRobin, Rank, PolledIn, Run;
    RankCounts(entries, |entries|);
    assert Usable(entries[i]);
    j := TurnInWindow(entries, steps, from, i);
    forall m | from <= m < from + k
      ensures PolledIn(steps)[m] < |entries| && entries[PolledIn(steps)[m]].always
    {
      OnlyAskingPolled(entries, steps, m);
    }
  }

  /** The place of a polled entry in a window. */
  lemma TurnInWindow(entries: seq<Entry>, steps: seq<Step>, from: nat, i: nat) returns (j: nat)
    requires WellFormed(entries) && Run(Started(entries), steps)
    requires from + Total(entries) <= |PolledIn(steps)|
    requires i < |entries| && Polls(entries[i])
    ensures from <= j < from + Total(entries) && PolledIn(steps)[j] == i
    ensures forall m | from <= m < from + Total(entries) && PolledIn(steps)[m] == i :: m == j
  {
    hide RoundRobin, Rank, PolledIn, Run, WellFormed;
    PollSchedule(entries, steps);
    RankBelowTotal(entries, i);
    var ps, k, r := PolledIn(steps), Total(entries), Rank(entries, i);
    WindowRank(entries, ps, from, 0);
    var r0 := Rank(entries, ps[from]);
    RankBelowTotal(entries, ps[from]);
    var d := if r >= r0 then r - r0 else r + k - r0;
    j := from + d;
    WindowRank(entries, ps, from, d);
    RankInjective(entries, ps[j], i);
    forall m | from <= m < from + k && ps[m] == i ensures m == j {
      WindowRank(entries, ps, from, m - from);
    }
  }
}
