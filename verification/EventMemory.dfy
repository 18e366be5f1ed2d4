/** How the three priority queues lie in pool memory: list nodes that carry a context each. */
module EventMemory {
  import opened Bytes
  import opened Blocks
  import opened PoolMemory
  import opened NodeLists
  import opened Entries
  import opened BusRuns

  /** sizeof(emos_proc_list_t) + sizeof(emos_ctx_t): the link, then task id, id and length. */
  const NODE_SIZE: nat := 16

  /** The context at node pointer `p` is event `e`. */
  ghost predicate Holds(mem: seq<byte>, p: nat, e: Event)
  {
    && p + NODE_SIZE + |e.payload| <= |mem|
    && mem[p + 4] == e.task && Word(mem, p + 8) == e.id && Word(mem, p + 12) == |e.payload|
    && mem[p + NODE_SIZE..p + NODE_SIZE + |e.payload|] == e.payload
  }

  ghost predicate NodeHolds(mem: seq<byte>, live: Heap, s: nat, e: Event)
  {
    s in live && Ptr(s) + NODE_SIZE + |e.payload| <= live[s].end && Holds(mem, Ptr(s), e)
  }

  /** The list from `head` through `nodes` holds the events `evs`. */
  ghost predicate QueueAt(mem: seq<byte>, live: Heap, head: nat, nodes: seq<nat>, evs: seq<Event>)
  {
    && ListAt(mem, head, nodes) && |nodes| == |evs| && AllLive(live, nodes)
    && (forall i {:trigger EventAt(mem, live, nodes, evs, i)} | 0 <= i < |nodes| :: EventAt(mem, live, nodes, evs, i))
  }

  ghost predicate EventAt(mem: seq<byte>, live: Heap, nodes: seq<nat>, evs: seq<Event>, i: nat)
    requires i < |nodes| && i < |evs|
  {
    NodeHolds(mem, live, nodes[i], evs[i])
  }

  ghost function Elems(nodes: seq<nat>): set<nat>
  {
    set s | s in nodes
  }

  /** No block belongs to two queues, and every live block belongs to one: nothing leaks. */
  ghost predicate Partition(live: Heap, nodes: seq<seq<nat>>)
  {
    && |nodes| == PRIORITIES
    && live.Keys == Elems(nodes[0]) + Elems(nodes[1]) + Elems(nodes[2])
    && Elems(nodes[0]) !! Elems(nodes[1]) !! Elems(nodes[2])
  }

  ghost predicate BusMemory(mem: seq<byte>, live: Heap, heads: seq<nat>, nodes: seq<seq<nat>>,
                            queues: seq<seq<Event>>)
  {
    && |heads| == PRIORITIES && |queues| == PRIORITIES && Partition(live, nodes)
    && (forall k {:trigger QueueOf(mem, live, heads, nodes, queues, k)} | 0 <= k < PRIORITIES ::
          QueueOf(mem, live, heads, nodes, queues, k))
  }

  ghost predicate QueueOf(mem: seq<byte>, live: Heap, heads: seq<nat>, nodes: seq<seq<nat>>,
                          queues: seq<seq<Event>>, k: nat)
    requires k < |heads| && k < |nodes| && k < |queues|
  {
    QueueAt(mem, live, heads[k], nodes[k], queues[k])
  }

  // ----- frames -----

  lemma HoldsFrame(m0: seq<byte>, m1: seq<byte>, p: nat, e: Event, end: nat)
    requires Holds(m0, p, e) && p + NODE_SIZE + |e.payload| <= end && |m1| == |m0|
    requires forall a | p + 4 <= a < end && a < |m0| :: m0[a] == m1[a]
    ensures Holds(m1, p, e)
  {
  }

  lemma NodeHoldsFrame(live: Heap, live': Heap, m0: seq<byte>, m1: seq<byte>, lo: nat, s: nat, e: Event)
    requires SamePayloadsBut(live, m0, m1, lo, lo + 4) && NodeHolds(m0, live, s, e)
    requires lo == Ptr(s) || lo + 4 <= Ptr(s) || live[s].end <= lo
    requires s in live' && live'[s] == live[s]
    ensures NodeHolds(m1, live', s, e)
  {
    HoldsFrame(m0, m1, Ptr(s), e, live[s].end);
  }

  /** A link written outside a queue's blocks, or none, leaves the queue alone. */
  lemma QueueFrame(live: Heap, live': Heap, m0: seq<byte>, m1: seq<byte>, lo: nat,
                   head: nat, nodes: seq<nat>, evs: seq<Event>)
    requires QueueAt(m0, live, head, nodes, evs) && SamePayloadsBut(live, m0, m1, lo, lo + 4)
    requires forall s | s in nodes :: s in live && Ptr(s) + 4 <= live[s].end && s in live' && live'[s] == live[s]
    requires forall s | s in nodes :: lo + 4 <= Ptr(s) || (s in live && live[s].end <= lo)
    ensures QueueAt(m1, live', head, nodes, evs)
  {
    forall i | 0 <= i < |nodes| ensures Links(m1, nodes, i) && EventAt(m1, live', nodes, evs, i) {
      assert nodes[i] in nodes && Links(m0, nodes, i) && EventAt(m0, live, nodes, evs, i);
      LinksFrame(live, m0, m1, lo, lo + 4, nodes, i);
      NodeHoldsFrame(live, live', m0, m1, lo, nodes[i], evs[i]);
    }
  }

  /** The queue a node was linked to, once the node's context is filled in. */
  lemma QueueGrows(live: Heap, live': Heap, m0: seq<byte>, m1: seq<byte>, head: nat, head': nat,
                   nodes: seq<nat>, evs: seq<Event>, s: nat, e: Event)
    requires QueueAt(m0, live, head, nodes, evs) && Spaced(live, |m0|)
    requires SamePayloadsBut(live, m0, m1, TailLink(nodes), TailLink(nodes) + 4)
    requires ListAt(m1, head', nodes + [s]) && NodeHolds(m1, live', s, e)
    requires forall t | t in live :: t in live' && live'[t] == live[t]
    ensures QueueAt(m1, live', head', nodes + [s], evs + [e])
  {
    var r, n := nodes + [s], |nodes|;
    forall i | 0 <= i < |r| ensures EventAt(m1, live', r, evs + [e], i) {
      if i < n {
        assert EventAt(m0, live, nodes, evs, i);
        if i < n - 1 { assert nodes[i] != nodes[n - 1]; }
        NodeHoldsFrame(live, live', m0, m1, TailLink(nodes), nodes[i], evs[i]);
      }
    }
  }

  lemma QueueShrinks(live: Heap, live': Heap, m0: seq<byte>, m1: seq<byte>, head: nat, head': nat,
                     nodes: seq<nat>, evs: seq<Event>)
    requires QueueAt(m0, live, head, nodes, evs) && nodes != []
    requires SamePayloadsBut(live', m0, m1, 0, 4) && ListAt(m1, head', nodes[1..])
    requires live' == live - {nodes[0]}
    ensures QueueAt(m1, live', head', nodes[1..], evs[1..])
  {
    var r := nodes[1..];
    forall i | 0 <= i < |r| ensures EventAt(m1, live', r, evs[1..], i) {
      assert EventAt(m0, live, nodes, evs, i + 1);
      NodeHoldsFrame(live', live', m0, m1, 0, r[i], evs[i + 1]);
    }
  }

  lemma PartitionGrows(live: Heap, nodes: seq<seq<nat>>, k: nat, s: nat, b: Block)
    requires Partition(live, nodes) && k < PRIORITIES && s !in live
    ensures Partition(live[s := b], nodes[k := nodes[k] + [s]])
  {
    assert Elems(nodes[k] + [s]) == Elems(nodes[k]) + {s};
  }

  lemma PartitionShrinks(live: Heap, nodes: seq<seq<nat>>, k: nat)
    requires Partition(live, nodes) && k < PRIORITIES && nodes[k] != []
    requires forall i, j | 0 <= i < j < |nodes[k]| :: nodes[k][i] != nodes[k][j]
    ensures Partition(live - {nodes[k][0]}, nodes[k := nodes[k][1..]])
  {
    assert Elems(nodes[k]) == Elems(nodes[k][1..]) + {nodes[k][0]};
    assert nodes[k][0] !in Elems(nodes[k][1..]);
  }

  lemma PartitionAt(live: Heap, nodes: seq<seq<nat>>, k: nat, j: nat, s: nat)
    requires Partition(live, nodes) && k < PRIORITIES && j < PRIORITIES && s in nodes[k]
    ensures s in live && (k != j ==> s !in nodes[j])
  {
    assert s in Elems(nodes[k]);
    assert s in nodes[j] ==> s in Elems(nodes[j]);
  }

  // ----- a post and a dequeue on the memory of all three queues -----

  lemma OtherQueues(live: Heap, live': Heap, m0: seq<byte>, m1: seq<byte>, lo: nat, heads: seq<nat>,
                    nodes: seq<seq<nat>>, queues: seq<seq<Event>>, k: nat, j: nat)
    requires BusMemory(m0, live, heads, nodes, queues) && Spaced(live, |m0|)
    requires k < PRIORITIES && j < PRIORITIES && j != k
    requires lo == TailLink(nodes[k]) && SamePayloadsBut(live, m0, m1, lo, lo + 4)
    requires forall s | s in live :: s in live' && live'[s] == live[s]
    ensures QueueAt(m1, live', heads[j], nodes[j], queues[j])
  {
    assert QueueOf(m0, live, heads, nodes, queues, j);
    forall s | s in nodes[j]
      ensures s in live && (lo + 4 <= Ptr(s) || live[s].end <= lo)
    {
      PartitionAt(live, nodes, j, k, s);
      if nodes[k] != [] { PartitionAt(live, nodes, k, j, nodes[k][|nodes[k]| - 1]); }
    }
    QueueFrame(live, live', m0, m1, lo, heads[j], nodes[j], queues[j]);
  }

  /** A post: the new node is linked and filled, and only its queue grows. */
  lemma PostMemory(live: Heap, m0: seq<byte>, m1: seq<byte>, heads: seq<nat>, nodes: seq<seq<nat>>,
                   queues: seq<seq<Event>>, k: nat, head: nat, s: nat, b: Block, e: Event)
    requires BusMemory(m0, live, heads, nodes, queues) && Spaced(live, |m0|) && k < PRIORITIES
    requires s !in live && ListAt(m1, head, nodes[k] + [s]) && NodeHolds(m1, live[s := b], s, e)
    requires SamePayloadsBut(live, m0, m1, TailLink(nodes[k]), TailLink(nodes[k]) + 4)
    ensures BusMemory(m1, live[s := b], heads[k := head], nodes[k := nodes[k] + [s]], Push(queues, k, e))
  {
    var live', hs, ns, qs := live[s := b], heads[k := head], nodes[k := nodes[k] + [s]], Push(queues, k, e);
    PartitionGrows(live, nodes, k, s, b);
    forall j | 0 <= j < PRIORITIES ensures QueueOf(m1, live', hs, ns, qs, j) {
      if j == k {
        assert QueueOf(m0, live, heads, nodes, queues, k);
        QueueGrows(live, live', m0, m1, heads[k], head, nodes[k], queues[k], s, e);
      } else {
        OtherQueues(live, live', m0, m1, TailLink(nodes[k]), heads, nodes, queues, k, j);
      }
    }
  }

  /** The head of queue `k` is freed: the queue loses its first event, the others nothing. */
  lemma PopMemory(live: Heap, m0: seq<byte>, m1: seq<byte>, heads: seq<nat>, nodes: seq<seq<nat>>,
                  queues: seq<seq<Event>>, k: nat, head: nat)
    requires BusMemory(m0, live, heads, nodes, queues) && Spaced(live, |m0|) && k < PRIORITIES
    requires nodes[k] != [] && queues[k] != [] && ListAt(m1, head, nodes[k][1..])
    requires SamePayloadsBut(live - {nodes[k][0]}, m0, m1, 0, 4)
    ensures BusMemory(m1, live - {nodes[k][0]}, heads[k := head], nodes[k := nodes[k][1..]], Pop(queues, k))
  {
    var s := nodes[k][0];
    var live', hs, ns, qs := live - {s}, heads[k := head], nodes[k := nodes[k][1..]], Pop(queues, k);
    assert QueueOf(m0, live, heads, nodes, queues, k);
    PartitionShrinks(live, nodes, k);
    forall j | 0 <= j < PRIORITIES ensures QueueOf(m1, live', hs, ns, qs, j) {
      if j == k {
        QueueShrinks(live, live', m0, m1, heads[k], head, nodes[k], queues[k]);
      } else {
        assert QueueOf(m0, live, heads, nodes, queues, j);
        PartitionAt(live, nodes, k, j, s);
        forall t | t in nodes[j] ensures t in live' && live'[t] == live[t] { PartitionAt(live, nodes, j, k, t); }
        QueueNarrow(live, live', m0, heads[j], nodes[j], queues[j]);
        QueueFrame(live', live', m0, m1, 0, heads[j], nodes[j], queues[j]);
      }
    }
  }

  lemma QueueNarrow(live: Heap, live': Heap, mem: seq<byte>, head: nat, nodes: seq<nat>, evs: seq<Event>)
    requires QueueAt(mem, live, head, nodes, evs)
    requires forall t | t in nodes :: t in live && t in live' && live'[t] == live[t]
    ensures QueueAt(mem, live', head, nodes, evs)
  {
    forall i | 0 <= i < |nodes| ensures EventAt(mem, live', nodes, evs, i) {
      assert EventAt(mem, live, nodes, evs, i);
    }
  }

  /** Empty queues own no block. */
  lemma QuietMeansNoLive(mem: seq<byte>, live: Heap, heads: seq<nat>, nodes: seq<seq<nat>>, queues: seq<seq<Event>>)
    requires BusMemory(mem, live, heads, nodes, queues) && Quiet(queues)
    ensures live == map[]
  {
    assert QueueOf(mem, live, heads, nodes, queues, 0);
    assert QueueOf(mem, live, heads, nodes, queues, 1);
    assert QueueOf(mem, live, heads, nodes, queues, 2);
    assert live.Keys == {};
  }

  lemma {:induction false} ElemsCount(nodes: seq<nat>)
    requires forall i, j | 0 <= i < j < |nodes| :: nodes[i] != nodes[j]
    ensures |Elems(nodes)| == |nodes|
  {
    if nodes == [] {
      assert Elems(nodes) == {};
    } else {
      ElemsCount(nodes[1..]);
      assert Elems(nodes) == {nodes[0]} + Elems(nodes[1..]) && nodes[0] !in Elems(nodes[1..]);
    }
  }

  lemma QueueCount(mem: seq<byte>, live: Heap, heads: seq<nat>, nodes: seq<seq<nat>>, queues: seq<seq<Event>>, k: nat)
    requires BusMemory(mem, live, heads, nodes, queues) && k < PRIORITIES
    ensures |Elems(nodes[k])| == |queues[k]|
  {
    assert QueueOf(mem, live, heads, nodes, queues, k);
    ElemsCount(nodes[k]);
  }

  /** One live block for each queued event. */
  lemma LiveCount(mem: seq<byte>, live: Heap, heads: seq<nat>, nodes: seq<seq<nat>>, queues: seq<seq<Event>>)
    requires BusMemory(mem, live, heads, nodes, queues)
    ensures |live| == |queues[0]| + |queues[1]| + |queues[2]|
  {
    QueueCount(mem, live, heads, nodes, queues, 0);
    QueueCount(mem, live, heads, nodes, queues, 1);
    QueueCount(mem, live, heads, nodes, queues, 2);
    assert |live| == |live.Keys|;
  }

  lemma NothingListed(live: Heap)
    ensures Partition(live, [[], [], []]) <==> live == map[]
  {
    var none: seq<nat> := [];
    assert Elems(none) == {};
    if live.Keys == {} { assert live == map[]; }
  }

  lemma EmptyBusMemory(mem: seq<byte>)
    ensures BusMemory(mem, map[], [0, 0, 0], [[], [], []], [[], [], []])
  {
    forall k | 0 <= k < PRIORITIES
      ensures QueueOf(mem, map[], [0, 0, 0], [[], [], []], [[], [], []], k)
    {
    }
  }

  /** Filling in the context of a fresh node disturbs neither the list nor any other node. */
  lemma FillMemory(m1: seq<byte>, m: Heap, lo: nat, hi: nat, nodes: seq<nat>, head: nat, s: nat,
                   m2: seq<byte>, live: Heap, m0: seq<byte>, link: nat, e: Event)
    requires Sound(m1, m, lo, hi) && s in Busy(m) && live == Busy(m) - {s}
    requires Ptr(s) + NODE_SIZE + |e.payload| <= Busy(m)[s].end
    requires SameOutside(m1, m2, Ptr(s) + 4, Ptr(s) + NODE_SIZE + |e.payload|)
    requires ListAt(m1, head, nodes + [s]) && AllLive(live, nodes)
    requires SamePayloadsBut(live, m0, m1, link, link + 4) && Holds(m2, Ptr(s), e)
    ensures Sound(m2, m, lo, hi) && ListAt(m2, head, nodes + [s]) && NodeHolds(m2, Busy(m), s, e)
    ensures SamePayloadsBut(live, m0, m2, link, link + 4)
  {
    hide Sound, Holds, Links;
    LiveSpaced(m1, m, lo, hi);
    PayloadWrite(m1, m, lo, hi, s, m2, Ptr(s) + 4, Ptr(s) + NODE_SIZE + |e.payload|);
    var r := nodes + [s];
    forall i | 0 <= i < |r| ensures Links(m2, r, i) {
      assert Links(m1, r, i);
      if i < |nodes| { assert nodes[i] in live; }
      LinkStays(m1, Busy(m), r, i, s, m2, Ptr(s) + NODE_SIZE + |e.payload|);
    }
  }

  /** Writing behind the link word of node `s`, inside its block, leaves every link alone. */
  lemma LinkStays(m1: seq<byte>, live: Heap, r: seq<nat>, i: nat, s: nat, m2: seq<byte>, to: nat)
    requires Spaced(live, |m1|) && i < |r| && r[i] in live && s in live && to <= live[s].end
    requires SameOutside(m1, m2, Ptr(s) + 4, to) && Links(m1, r, i)
    ensures Links(m2, r, i)
  {
  }
}
