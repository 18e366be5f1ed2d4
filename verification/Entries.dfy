/** rtbus_entries.c: the registry of task entries. */
module Entries {
  import opened Bytes
  import opened Wrappers
  import opened Errno

  const PRIORITIES: nat := 3

  /** `bound` says that task_entry is not NULL. */
  datatype Entry = Entry(task: byte, priority: byte, bound: bool, init: bool, always: bool)

  predicate Usable(e: Entry)
  {
    e.priority < PRIORITIES && e.bound
  }

  ghost predicate DistinctIds(entries: seq<Entry>)
  {
    forall i, j | 0 <= i < j < |entries| :: entries[i].task != entries[j].task
  }

  ghost predicate WellFormed(entries: seq<Entry>)
  {
    (forall i | 0 <= i < |entries| :: Usable(entries[i])) && DistinctIds(entries)
  }

  /** The id of entry `i` occurs at another place too. */
  ghost predicate Repeated(entries: seq<Entry>, i: nat)
    requires i < |entries|
  {
    exists j | 0 <= j < |entries| :: j != i && entries[j].task == entries[i].task
  }

  /** Entry `i` is the first one the validation loop stops at. */
  ghost predicate FirstFault(entries: seq<Entry>, i: nat)
  {
    && i < |entries| && (!Usable(entries[i]) || Repeated(entries, i))
    && forall j | 0 <= j < i :: Usable(entries[j]) && !Repeated(entries, j)
  }

  ghost predicate Registered(entries: seq<Entry>, task: byte)
  {
    exists i | 0 <= i < |entries| :: entries[i].task == task
  }

  ghost function IndexOf(entries: seq<Entry>, task: byte): (i: nat)
    requires Registered(entries, task)
    ensures i < |entries| && entries[i].task == task
    ensures forall j | 0 <= j < i :: entries[j].task != task
  {
    if entries[0].task == task then 0 else 1 + IndexOf(entries[1..], task)
  }

  /** The entry emos_entry_find returns: the first with this id. */
  ghost function Lookup(entries: seq<Entry>, task: byte): Option<Entry>
  {
    if Registered(entries, task) then Some(entries[IndexOf(entries, task)]) else None
  }

  function CountTask(entries: seq<Entry>, task: byte): nat
  {
    if entries == [] then 0
    else CountTask(entries[..|entries| - 1], task) + (if entries[|entries| - 1].task == task then 1 else 0)
  }

  lemma {:induction false} CountPositive(entries: seq<Entry>, task: byte, i: nat)
    requires i < |entries| && entries[i].task == task
    ensures CountTask(entries, task) >= 1
  {
    if i < |entries| - 1 { CountPositive(entries[..|entries| - 1], task, i); }
  }

  lemma {:induction false} CountZero(entries: seq<Entry>, task: byte)
    requires forall i | 0 <= i < |entries| :: entries[i].task != task
    ensures CountTask(entries, task) == 0
  {
    if entries != [] { CountZero(entries[..|entries| - 1], task); }
  }

  /** More than one match means exactly that the id occurs at another place. */
  lemma {:induction false} CountRepeated(entries: seq<Entry>, i: nat)
    requires i < |entries|
    ensures CountTask(entries, entries[i].task) > 1 <==> Repeated(entries, i)
  {
    var n := |entries| - 1;
    var rest, t := entries[..n], entries[i].task;
    if i == n {
      if Repeated(entries, i) {
        var j :| 0 <= j < |entries| && j != i && entries[j].task == t;
        CountPositive(rest, t, j);
      } else {
        CountZero(rest, t);
      }
    } else {
      CountRepeated(rest, i);
      assert rest[i].task == t;
      if Repeated(rest, i) {
        var j :| 0 <= j < n && j != i && rest[j].task == t;
        assert entries[j].task == t;
      }
      if Repeated(entries, i) {
        var j :| 0 <= j < |entries| && j != i && entries[j].task == t;
        if j < n { assert rest[j].task == t; }
        CountPositive(rest, t, i);
      }
    }
  }

  class Registry {
    var entries: seq<Entry>     // [] stands for the NULL table

    constructor ()
      ensures entries == []
    {
      entries := [];
    }

    method Reset()
      modifies this
      ensures entries == []
    {
      entries := [];
    }

    /** emos_entry_find. */
    method Find(task: byte) returns (r: Option<Entry>)
      ensures r == Lookup(entries, task)
    {
      for i := 0 to |entries|
        invariant forall j | 0 <= j < i :: entries[j].task != task
      {
        if entries[i].task == task {
          return Some(entries[i]);
        }
      }
      return None;
    }

    /** emos_entry_get_by_index. */
    method GetByIndex(index: nat) returns (r: Option<Entry>)
      ensures r == if index < |entries| then Some(entries[index]) else None
    {
      r := if index >= |entries| then None else Some(entries[index]);
    }

    /** emos_entry_id_is_duplicate. */
    method IsDuplicate(i: nat) returns (dup: bool)
      requires i < |entries|
      ensures dup <==> Repeated(entries, i)
    {
      var matches := 0;
      for j := 0 to |entries|
        invariant matches == CountTask(entries[..j], entries[i].task)
      {
        assert entries[..j + 1][..j] == entries[..j];
        if entries[j].task == entries[i].task {
          matches := matches + 1;
        }
      }
      assert entries[..|entries|] == entries;
      CountRepeated(entries, i);
      dup := matches > 1;
    }

    /** emos_entries_init: the table is taken if and only if every entry is usable and ids are
        distinct; otherwise the first offending entry decides the error and nothing is registered. */
    method Init(table: Option<seq<Entry>>) returns (rc: int)
      modifies this
      ensures rc == 0 <==> table.Some? && table.value != [] && WellFormed(table.value)
      ensures rc == 0 <==>
        && table.Some? && table.value != []
        && (forall i | 0 <= i < |table.value| :: table.value[i].priority < 3 && table.value[i].bound)
        && forall i, j | 0 <= i < j < |table.value| :: table.value[i].task != table.value[j].task
      ensures rc == 0 ==> entries == table.value
      ensures rc != 0 && table.Some? && table.value != [] ==>
        && entries == []
        && (exists i: nat :: FirstFault(table.value, i)
              && rc == if Usable(table.value[i]) then -EALREADY else -EINVAL)
      ensures rc != 0 && (table.None? || table.value == []) ==> rc == -EINVAL && entries == old(entries)
    {
      if table.None? || |table.value| == 0 {
        return -EINVAL;
      }
      entries := table.value;
      for i := 0 to |entries|
        invariant entries == table.value
        invariant forall j | 0 <= j < i :: Usable(entries[j]) && !Repeated(entries, j)
      {
        if entries[i].priority >= PRIORITIES || !entries[i].bound {
          assert FirstFault(table.value, i);
          Reset();
          return -EINVAL;
        }
        var dup := IsDuplicate(i);
        if dup {
          assert FirstFault(table.value, i);
          var j :| 0 <= j < |entries| && j != i && entries[j].task == entries[i].task;
          assert !DistinctIds(table.value);
          Reset();
          return -EALREADY;
        }
      }
      assert forall i, j | 0 <= i < j < |entries| :: !Repeated(entries, i) ==> entries[i].task != entries[j].task;
      return 0;
    }
  }

  lemma LookupMember(entries: seq<Entry>, i: nat)
    requires DistinctIds(entries) && i < |entries|
    ensures Lookup(entries, entries[i].task) == Some(entries[i])
  {
    var k := IndexOf(entries, entries[i].task);
  }
}
