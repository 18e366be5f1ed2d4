/** linklist.c: singly linked lists whose nodes are payloads of pool blocks. */
module NodeLists {
  import opened Bytes
  import opened Blocks
  import opened HeapSteps
  import opened PoolMemory
  import opened Pools

  /** A node is named by the header of its block; this is the pointer the program holds. */
  function Ptr(s: nat): nat
  {
    s + H
  }

  ghost function PtrAt(nodes: seq<nat>, i: nat): nat
  {
    if i < |nodes| then Ptr(nodes[i]) else 0
  }

  /** The `next` field, the first word of node `i`, leads to node i + 1 or is NULL. */
  ghost predicate Links(mem: seq<byte>, nodes: seq<nat>, i: nat)
    requires i < |nodes|
  {
    Ptr(nodes[i]) + 4 <= |mem| && Word(mem, Ptr(nodes[i])) == PtrAt(nodes, i + 1)
  }

  ghost predicate ListAt(mem: seq<byte>, head: nat, nodes: seq<nat>)
  {
    && head == PtrAt(nodes, 0)
    && (forall i {:trigger Links(mem, nodes, i)} | 0 <= i < |nodes| :: Links(mem, nodes, i))
    && (forall i, j | 0 <= i < j < |nodes| :: nodes[i] != nodes[j])
  }

  ghost predicate AllLive(live: Heap, nodes: seq<nat>)
  {
    forall i | 0 <= i < |nodes| :: nodes[i] in live
  }

  /** Payload bytes of the blocks `live` agree outside [lo, hi). */
  ghost predicate SamePayloadsBut(live: Heap, m0: seq<byte>, m1: seq<byte>, lo: nat, hi: nat)
  {
    && |m0| == |m1|
    && forall s, a | s in live && Ptr(s) <= a < live[s].end && a < |m0| && !(lo <= a < hi) :: m0[a] == m1[a]
  }

  /** Where the link to a new last node is stored: in the old last node, if there is one. */
  ghost function TailLink(nodes: seq<nat>): nat
  {
    if nodes == [] then 0 else Ptr(nodes[|nodes| - 1])
  }

  lemma LinksFrame(live: Heap, m0: seq<byte>, m1: seq<byte>, lo: nat, hi: nat, nodes: seq<nat>, i: nat)
    requires SamePayloadsBut(live, m0, m1, lo, hi) && i < |nodes| && nodes[i] in live
    requires Ptr(nodes[i]) + 4 <= live[nodes[i]].end
    requires hi <= Ptr(nodes[i]) || Ptr(nodes[i]) + 4 <= lo
    requires Links(m0, nodes, i)
    ensures Links(m1, nodes, i)
  {
  }

  /** Every live payload holds at least one word: sizes are multiples of four. */
  lemma PayloadHoldsWord(mem: seq<byte>, m: Heap, lo: nat, hi: nat, s: nat)
    requires Sound(mem, m, lo, hi) && s in m
    ensures Ptr(s) + 4 <= m[s].end <= |mem|
  {
    hide Tiles, Coalesced, Encoded, Aligned;
    AlignedAt(m, s);
    SizedAt(m, lo, hi, s);
  }

  lemma AlignedAt(m: Heap, s: nat)
    requires Aligned(m) && s in m
    ensures s % 4 == 0 && m[s].end % 4 == 0
  {
  }

  lemma SizedAt(m: Heap, lo: nat, hi: nat, s: nat)
    requires Tiles(m, lo, hi) && s in m
    ensures lo <= s && s + H < m[s].end <= hi
  {
  }

  lemma DisjointLive(mem: seq<byte>, m: Heap, lo: nat, hi: nat, s: nat, t: nat)
    requires Sound(mem, m, lo, hi) && s in m && t in m && s != t
    ensures m[s].end <= t || m[t].end <= s
  {
    PayloadsDisjoint(m, lo, hi, s, t);
  }

  /** Writing inside the payload of a live block keeps the heap and every other payload. */
  lemma PayloadWrite(m0: seq<byte>, m: Heap, lo: nat, hi: nat, s: nat, m1: seq<byte>, a: nat, b: nat)
    requires Sound(m0, m, lo, hi) && s in m
    requires Ptr(s) <= a <= b <= m[s].end && SameOutside(m0, m1, a, b)
    ensures Sound(m1, m, lo, hi)
    ensures SamePayloads(Busy(m) - {s}, m0, m1)
    ensures SamePayloadsBut(Busy(m), m0, m1, a, b)
  {
    forall u | u in m ensures Header(m1, u, m[u]) {
      if u != s { PayloadsDisjoint(m, lo, hi, s, u); }
      HeaderFrame(m0, m1, u, m[u]);
    }
    forall u, x | u in m && u != s && Ptr(u) <= x < m[u].end && x < |m0| ensures m0[x] == m1[x] {
      PayloadsDisjoint(m, lo, hi, s, u);
    }
  }

  // ----- the walks -----

  /** The walk to the last node in linklist_new. */
  method LastNode(ram: array<byte>, head: nat, ghost nodes: seq<nat>) returns (last: nat)
    requires ListAt(ram[..], head, nodes)
    ensures last == TailLink(nodes)
  {
    last := head;
    ghost var i := 0;
    if last == 0 { return; }
    assert Links(ram[..], nodes, 0);
    while Word(ram[..], last) != 0
      invariant 0 <= i < |nodes| && last == Ptr(nodes[i]) && last + 4 <= ram.Length
      decreases |nodes| - i
    {
      assert Links(ram[..], nodes, i);
      last := Word(ram[..], last);
      i := i + 1;
      assert Links(ram[..], nodes, i);
    }
    assert Links(ram[..], nodes, i);
  }

  /** The search in linklist_remove: the target's predecessor, if the list holds the target. */
  method FindNode(ram: array<byte>, head: nat, target: nat, ghost nodes: seq<nat>)
      returns (cur: nat, pre: nat, ghost k: nat)
    requires ListAt(ram[..], head, nodes)
    ensures k <= |nodes| && cur == PtrAt(nodes, k) && pre == (if k == 0 then 0 else Ptr(nodes[k - 1]))
    ensures cur != 0 ==> k < |nodes|
    ensures cur == 0 ==> k == |nodes|
    ensures cur == 0 ==> forall i | 0 <= i < |nodes| :: Ptr(nodes[i]) != target
    ensures cur != 0 ==> cur == target && exists i | 0 <= i < |nodes| :: Ptr(nodes[i]) == target
  {
    cur, pre, k := head, 0, 0;
    while cur != 0 && cur != target
      invariant k <= |nodes| && cur == PtrAt(nodes, k)
      invariant pre == if k == 0 then 0 else Ptr(nodes[k - 1])
      invariant forall i | 0 <= i < k :: Ptr(nodes[i]) != target
      decreases |nodes| - k
    {
      assert Links(ram[..], nodes, k);
      pre := cur;
      cur := Word(ram[..], cur);
      k := k + 1;
    }
  }

  /** linklist_count. */
  method Count(ram: array<byte>, head: nat, ghost nodes: seq<nat>) returns (n: nat)
    requires ListAt(ram[..], head, nodes)
    ensures n == |nodes|
  {
    n := 0;
    var cur := head;
    if cur == 0 { return; }
    n := 1;
    assert Links(ram[..], nodes, 0);
    while Word(ram[..], cur) != 0
      invariant 1 <= n <= |nodes| && cur == Ptr(nodes[n - 1]) && cur + 4 <= ram.Length
      decreases |nodes| - n
    {
      assert Links(ram[..], nodes, n - 1);
      cur := Word(ram[..], cur);
      n := n + 1;
      assert Links(ram[..], nodes, n - 1);
    }
    assert Links(ram[..], nodes, n - 1);
  }

  /** linklist_get: the node at `index`, or NULL. */
  method Get(ram: array<byte>, head: nat, index: nat, ghost nodes: seq<nat>) returns (p: nat)
    requires ListAt(ram[..], head, nodes)
    ensures p == PtrAt(nodes, index)
  {
    p := head;
    var n := 0;
    if n == index || p == 0 { return; }
    assert Links(ram[..], nodes, 0);
    while Word(ram[..], p) != 0
      invariant n < index && n < |nodes| && p == Ptr(nodes[n]) && p + 4 <= ram.Length
      decreases |nodes| - n
    {
      assert Links(ram[..], nodes, n);
      p := Word(ram[..], p);
      n := n + 1;
      assert Links(ram[..], nodes, n);
      if n == index { return; }
    }
    assert Links(ram[..], nodes, n);
    p := 0;
  }

  // ----- append and remove -----

  /** Memory after linking the new last node `s`: the lists theory of linklist_new. */
  lemma AppendLinks(live: Heap, m0: seq<byte>, m1: seq<byte>, head: nat, nodes: seq<nat>, s: nat)
    requires ListAt(m0, head, nodes) && AllLive(live, nodes) && s !in live
    requires Spaced(live, |m0|)
    requires SamePayloadsBut(live, m0, m1, TailLink(nodes), TailLink(nodes) + 4)
    requires nodes != [] ==> TailLink(nodes) + 4 <= |m1| && Word(m1, TailLink(nodes)) == Ptr(s)
    requires Ptr(s) + 4 <= |m1| && Word(m1, Ptr(s)) == 0
    ensures ListAt(m1, if nodes == [] then Ptr(s) else head, nodes + [s])
  {
    var r, n := nodes + [s], |nodes|;
    forall i | 0 <= i < |r| ensures Links(m1, r, i) {
      if i < n { assert Links(m0, nodes, i); }
      if i + 1 < n {
        assert nodes[i] != nodes[n - 1];
        LinksFrame(live, m0, m1, TailLink(nodes), TailLink(nodes) + 4, nodes, i);
        assert Links(m1, nodes, i);
      }
    }
  }

  /** The facts about live blocks the list proofs use. */
  ghost predicate Spaced(live: Heap, size: nat)
  {
    && (forall u | u in live :: Ptr(u) + 4 <= live[u].end <= size)
    && (forall u, v | u in live && v in live && u != v :: live[u].end <= v || live[v].end <= u)
  }

  lemma LiveSpaced(mem: seq<byte>, m: Heap, lo: nat, hi: nat)
    requires Sound(mem, m, lo, hi)
    ensures Spaced(Busy(m), |mem|)
  {
    forall u | u in Busy(m) ensures Ptr(u) + 4 <= m[u].end <= |mem| {
      PayloadHoldsWord(mem, m, lo, hi, u);
    }
    forall u, v | u in Busy(m) && v in Busy(m) && u != v ensures m[u].end <= v || m[v].end <= u {
      DisjointLive(mem, m, lo, hi, u, v);
    }
  }

  lemma ListFrame(live: Heap, m0: seq<byte>, m1: seq<byte>, head: nat, nodes: seq<nat>)
    requires ListAt(m0, head, nodes) && AllLive(live, nodes)
    requires Spaced(live, |m0|) && SamePayloads(live, m0, m1)
    ensures ListAt(m1, head, nodes)
  {
    forall i | 0 <= i < |nodes| ensures Links(m1, nodes, i) {
      assert Links(m0, nodes, i);
    }
  }

  lemma SpacedOthers(live: Heap, size: nat, s: nat)
    requires Spaced(live, size)
    ensures Spaced(live - {s}, size)
  {
  }

  lemma TailIsLive(live: Heap, nodes: seq<nat>)
    requires AllLive(live, nodes) && nodes != []
    ensures nodes[|nodes| - 1] in live
  {
  }

  lemma NotRemoved(live: Heap, s: nat, t: nat)
    requires t in live - {s}
    ensures t in live && t != s
  {
  }

  lemma SpacedAt(live: Heap, size: nat, s: nat)
    requires Spaced(live, size) && s in live
    ensures Ptr(s) + 4 <= live[s].end <= size
  {
  }

  lemma BusyAt(m: Heap, s: nat)
    requires s in Busy(m)
    ensures s in m && m[s].busy && Busy(m)[s] == m[s]
  {
  }

  lemma ButAfter(live: Heap, s: nat, m0: seq<byte>, m1: seq<byte>, m2: seq<byte>, lo: nat)
    requires SamePayloads(live - {s}, m0, m1)
    requires SamePayloadsBut(live, m1, m2, lo, lo + 4)
    ensures SamePayloadsBut(live - {s}, m0, m2, lo, lo + 4)
  {
  }

  lemma ButNothing(live: Heap, m0: seq<byte>, m1: seq<byte>, lo: nat)
    requires SamePayloads(live, m0, m1)
    ensures SamePayloadsBut(live, m0, m1, lo, lo + 4)
  {
  }

  /** The two stores that put live node `s` behind `nodes`. */
  lemma LinkedMemory(m1: seq<byte>, m: Heap, lo: nat, hi: nat, source: nat, nodes: seq<nat>, s: nat,
                     m2: seq<byte>, m3: seq<byte>)
    requires Sound(m1, m, lo, hi) && |m1| <= WORD_LIMIT && s in Busy(m)
    requires AllLive(Busy(m) - {s}, nodes) && ListAt(m1, source, nodes)
    requires Ptr(s) + 4 <= |m1| && TailLink(nodes) + 4 <= |m1| && Ptr(s) < WORD_LIMIT
    requires m2 == PutWord(m1, Ptr(s), 0)
    requires m3 == if nodes == [] then m2 else PutWord(m2, TailLink(nodes), Ptr(s))
    ensures Sound(m3, m, lo, hi)
    ensures ListAt(m3, if nodes == [] then Ptr(s) else source, nodes + [s])
    ensures SamePayloadsBut(Busy(m) - {s}, m1, m3, TailLink(nodes), TailLink(nodes) + 4)
  {
    hide Sound, ListAt, AllLive, Busy, Spaced, PutWord;
    LiveSpaced(m1, m, lo, hi);
    SpacedOthers(Busy(m), |m1|, s);
    SpacedAt(Busy(m), |m1|, s);
    BusyAt(m, s);
    PayloadWrite(m1, m, lo, hi, s, m2, Ptr(s), Ptr(s) + 4);
    if nodes != [] {
      TailIsLive(Busy(m) - {s}, nodes);
      var t := nodes[|nodes| - 1];
      NotRemoved(Busy(m), s, t);
      BusyAt(m, t);
      SpacedAt(Busy(m), |m1|, t);
      DisjointLive(m1, m, lo, hi, s, t);
      PayloadWrite(m2, m, lo, hi, t, m3, TailLink(nodes), TailLink(nodes) + 4);
      ButAfter(Busy(m), s, m1, m2, m3, TailLink(nodes));
    } else {
      ButNothing(Busy(m) - {s}, m1, m3, TailLink(nodes));
    }
    AppendLinks(Busy(m) - {s}, m1, m3, source, nodes, s);
  }

  lemma NodeFits(mem: seq<byte>, m: Heap, lo: nat, hi: nat, s: nat, nodes: seq<nat>)
    requires Sound(mem, m, lo, hi) && s in Busy(m) && AllLive(Busy(m) - {s}, nodes)
    ensures Ptr(s) + 4 <= |mem| && TailLink(nodes) + 4 <= |mem| && (TailLink(nodes) == 0 <==> nodes == [])
  {
    LiveSpaced(mem, m, lo, hi);
    if nodes != [] { TailIsLive(Busy(m) - {s}, nodes); }
  }

  /** The linking half of linklist_new: `node` becomes the last node. */
  method Link(pool: Pool, source: nat, last: nat, node: nat, ghost nodes: seq<nat>, ghost s: nat)
      returns (head: nat)
    requires pool.Valid() && pool.active && s in pool.Live() && node == Ptr(s)
    requires ListAt(pool.ram[..], source, nodes) && AllLive(pool.Live() - {s}, nodes)
    requires last == TailLink(nodes)
    modifies pool.ram
    ensures pool.Valid() && head == (if nodes == [] then node else source)
    ensures ListAt(pool.ram[..], head, nodes + [s])
    ensures SamePayloadsBut(pool.Live() - {s}, old(pool.ram[..]), pool.ram[..],
                            TailLink(nodes), TailLink(nodes) + 4)
  {
    hide Sound, ListAt, AllLive, SamePayloadsBut, Busy, PutWord;
    ghost var m1 := pool.ram[..];
    NodeFits(m1, pool.blocks, pool.heap, pool.High(), s, nodes);
    StoreWord(pool.ram, node, 0);
    ghost var m2 := pool.ram[..];
    head := source;
    if last == 0 {
      head := node;
    } else {
      StoreWord(pool.ram, last, node);
    }
    LinkedMemory(m1, pool.blocks, pool.heap, pool.High(), source, nodes, s, m2, pool.ram[..]);
    assert Sound(pool.ram[..], pool.blocks, pool.heap, pool.High());
  }

  /** linklist_new: allocate a node and link it behind the last one.  `source` is the head
      pointer; the new head pointer is returned. */
  method New(pool: Pool, source: nat, len: nat, ghost nodes: seq<nat>) returns (node: nat, head: nat)
    requires pool.Valid() && ListAt(pool.ram[..], source, nodes) && AllLive(pool.Live(), nodes)
    requires len <= 0xFFFF
    modifies pool, pool.ram
    ensures pool.Valid() && pool.heap == old(pool.heap) && pool.top == old(pool.top) && pool.active == old(pool.active)
    ensures node == 0 <==>
      !(len >= 4 && pool.active && Fits(old(pool.blocks), old(pool.High()), pool.top, Round(len)))
    ensures node == 0 ==> head == source && pool.ram[..] == old(pool.ram[..])
                          && pool.blocks == old(pool.blocks) && pool.High() == old(pool.High())
    ensures node != 0 ==> pool.Area() == Placed(old(pool.Area()), pool.top, Round(len))
    ensures node != 0 ==> node >= H && var s: nat := node - H;
      && s !in old(pool.Live()) && s in pool.Live() && node + len <= pool.Live()[s].end
      && pool.Live() == old(pool.Live())[s := pool.Live()[s]]
      && head == (if nodes == [] then node else source)
      && ListAt(pool.ram[..], head, nodes + [s])
    ensures SamePayloadsBut(old(pool.Live()), old(pool.ram[..]), pool.ram[..], TailLink(nodes), TailLink(nodes) + 4)
  {
    hide Sound, ListAt, Fits, Placed, Spaced;
    head := source;
    if len < 4 { return 0, source; }
    var last := LastNode(pool.ram, source, nodes);
    ghost var m0, live, blocks, high := pool.ram[..], pool.Live(), pool.blocks, pool.High();
    node := pool.Alloc(len);
    if node == 0 { return; }
    LiveSpaced(m0, blocks, pool.heap, high);
    ListFrame(live, m0, pool.ram[..], source, nodes);
    ghost var s: nat := node - H;
    assert pool.Live() - {s} == live;
    head := Link(pool, source, last, node, nodes, s);
  }

  ghost function Without(nodes: seq<nat>, k: nat): seq<nat>
    requires k < |nodes|
  {
    nodes[..k] + nodes[k + 1..]
  }

  /** Where the link to node `k` is stored, when another node holds it. */
  ghost function LinkTo(nodes: seq<nat>, k: nat): nat
    requires k < |nodes|
  {
    if k == 0 then 0 else Ptr(nodes[k - 1])
  }

  /** Memory after unlinking node `k`. */
  lemma RemoveLinks(live: Heap, m0: seq<byte>, m1: seq<byte>, head: nat, nodes: seq<nat>, k: nat)
    requires ListAt(m0, head, nodes) && AllLive(live, nodes) && Spaced(live, |m0|) && k < |nodes|
    requires SamePayloadsBut(live - {nodes[k]}, m0, m1, LinkTo(nodes, k), LinkTo(nodes, k) + 4)
    requires k > 0 ==> LinkTo(nodes, k) + 4 <= |m1| && Word(m1, LinkTo(nodes, k)) == PtrAt(nodes, k + 1)
    ensures ListAt(m1, if k == 0 then PtrAt(nodes, 1) else head, Without(nodes, k))
  {
    var r := Without(nodes, k);
    forall i | 0 <= i < |r| ensures Links(m1, r, i) {
      RemoveLink(live, m0, m1, head, nodes, k, i);
    }
  }

  lemma RemoveLink(live: Heap, m0: seq<byte>, m1: seq<byte>, head: nat, nodes: seq<nat>, k: nat, i: nat)
    requires ListAt(m0, head, nodes) && AllLive(live, nodes) && Spaced(live, |m0|) && k < |nodes|
    requires SamePayloadsBut(live - {nodes[k]}, m0, m1, LinkTo(nodes, k), LinkTo(nodes, k) + 4)
    requires k > 0 ==> LinkTo(nodes, k) + 4 <= |m1| && Word(m1, LinkTo(nodes, k)) == PtrAt(nodes, k + 1)
    requires i < |Without(nodes, k)|
    ensures Links(m1, Without(nodes, k), i)
  {
    hide Spaced, SamePayloadsBut, Without, Word;
    WithoutAt(nodes, k, i);
    if i + 1 != k {
      var j := if i < k then i else i + 1;
      assert Links(m0, nodes, j);
      assert k > 0 ==> nodes[j] != nodes[k - 1];
      LinksApart(live, |m0|, nodes[j], if k > 0 then nodes[k - 1] else nodes[j]);
      LinksFrame(live - {nodes[k]}, m0, m1, LinkTo(nodes, k), LinkTo(nodes, k) + 4, nodes, j);
    }
  }

  lemma LinksApart(live: Heap, size: nat, u: nat, v: nat)
    requires Spaced(live, size) && u in live && v in live
    ensures Ptr(u) + 4 <= live[u].end
    ensures u != v ==> Ptr(u) + 4 <= Ptr(v) || Ptr(v) + 4 <= Ptr(u)
  {
  }

  lemma WithoutAt(nodes: seq<nat>, k: nat, i: nat)
    requires k < |nodes| && i < |Without(nodes, k)|
    ensures |Without(nodes, k)| == |nodes| - 1
    ensures Without(nodes, k)[i] == nodes[if i < k then i else i + 1]
    ensures PtrAt(Without(nodes, k), i + 1) == PtrAt(nodes, if i + 1 < k then i + 1 else i + 2)
  {
  }

  /** The two stores that unlink node `k > 0`. */
  lemma UnlinkedMemory(m0: seq<byte>, m: Heap, lo: nat, hi: nat, nodes: seq<nat>, k: nat,
                       m1: seq<byte>, m2: seq<byte>)
    requires Sound(m0, m, lo, hi) && AllLive(Busy(m), nodes) && 0 < k < |nodes| && nodes[k] != nodes[k - 1]
    requires Ptr(nodes[k]) + 4 <= |m0| && LinkTo(nodes, k) + 4 <= |m0|
    requires PtrAt(nodes, k + 1) < WORD_LIMIT
    requires m1 == PutWord(m0, LinkTo(nodes, k), PtrAt(nodes, k + 1))
    requires m2 == PutWord(m1, Ptr(nodes[k]), 0)
    ensures Sound(m2, m, lo, hi)
    ensures SamePayloadsBut(Busy(m) - {nodes[k]}, m0, m2, LinkTo(nodes, k), LinkTo(nodes, k) + 4)
    ensures Word(m2, LinkTo(nodes, k)) == PtrAt(nodes, k + 1)
  {
    hide Sound;
    LiveSpaced(m0, m, lo, hi);
    PayloadWrite(m0, m, lo, hi, nodes[k - 1], m1, LinkTo(nodes, k), LinkTo(nodes, k) + 4);
    PayloadWrite(m1, m, lo, hi, nodes[k], m2, Ptr(nodes[k]), Ptr(nodes[k]) + 4);
  }

  /** The unlinking half of linklist_remove. */
  method Unlink(pool: Pool, source: nat, pre: nat, cur: nat, ghost nodes: seq<nat>, ghost k: nat)
      returns (head: nat)
    requires pool.Valid() && ListAt(pool.ram[..], source, nodes) && AllLive(pool.Live(), nodes)
    requires k < |nodes| && pre == LinkTo(nodes, k) && cur == Ptr(nodes[k])
    modifies pool.ram
    ensures pool.Valid() && head == if k == 0 then PtrAt(nodes, 1) else source
    ensures SamePayloadsBut(pool.Live() - {nodes[k]}, old(pool.ram[..]), pool.ram[..],
                            LinkTo(nodes, k), LinkTo(nodes, k) + 4)
    ensures pre != 0 ==> pre + 4 <= pool.ram.Length && Word(pool.ram[..], pre) == PtrAt(nodes, k + 1)
  {
    hide Sound;
    ghost var m0 := pool.ram[..];
    LiveSpaced(m0, pool.blocks, pool.heap, pool.High());
    assert Links(m0, nodes, k);
    head := source;
    if pre != 0 {
      assert Links(m0, nodes, k - 1);
      StoreWord(pool.ram, pre, Word(pool.ram[..], cur));
      ghost var m1 := pool.ram[..];
      StoreWord(pool.ram, cur, 0);
      UnlinkedMemory(m0, pool.blocks, pool.heap, pool.High(), nodes, k, m1, pool.ram[..]);
      assert pool.active && Sound(pool.ram[..], pool.blocks, pool.heap, pool.High());
    } else {
      head := Word(pool.ram[..], cur);
    }
  }

  /** linklist_remove: unlink the target and free its block; a target outside the list is ignored. */
  method Remove(pool: Pool, source: nat, target: nat, ghost nodes: seq<nat>)
      returns (head: nat, ghost k: nat)
    requires pool.Valid() && ListAt(pool.ram[..], source, nodes) && AllLive(pool.Live(), nodes)
    modifies pool, pool.ram
    ensures pool.Valid() && pool.heap == old(pool.heap) && pool.top == old(pool.top) && pool.active == old(pool.active)
    ensures k <= |nodes|
    ensures k == |nodes| ==>
      && (forall i | 0 <= i < |nodes| :: Ptr(nodes[i]) != target)
      && head == source && pool.ram[..] == old(pool.ram[..]) && pool.blocks == old(pool.blocks)
    ensures k < |nodes| ==>
      && target == Ptr(nodes[k]) && pool.Live() == old(pool.Live()) - {nodes[k]}
      && ListAt(pool.ram[..], head, Without(nodes, k))
      && SamePayloadsBut(pool.Live(), old(pool.ram[..]), pool.ram[..], LinkTo(nodes, k), LinkTo(nodes, k) + 4)
  {
    hide Sound, ListAt;
    ghost var m0, live, blocks, high := pool.ram[..], pool.Live(), pool.blocks, pool.High();
    var cur, pre;
    cur, pre, k := FindNode(pool.ram, source, target, nodes);
    head := source;
    if cur == 0 { return; }
    LiveSpaced(m0, blocks, pool.heap, high);
    head := Unlink(pool, source, pre, cur, nodes, k);
    ghost var m2 := pool.ram[..];
    pool.Free(cur);
    RemovedFrame(live, nodes[k], m0, m2, pool.ram[..], LinkTo(nodes, k));
    if k > 0 { KeptWord(live, m2, pool.ram[..], nodes[k - 1]); }
    RemoveLinks(live, m0, pool.ram[..], source, nodes, k);
  }

  lemma RemovedFrame(live: Heap, s: nat, m0: seq<byte>, m1: seq<byte>, m2: seq<byte>, link: nat)
    requires SamePayloadsBut(live - {s}, m0, m1, link, link + 4) && SamePayloads(live, m1, m2)
    ensures SamePayloadsBut(live - {s}, m0, m2, link, link + 4)
  {
  }

  lemma KeptWord(live: Heap, m1: seq<byte>, m2: seq<byte>, s: nat)
    requires SamePayloads(live, m1, m2) && s in live && Ptr(s) + 4 <= live[s].end <= |m1|
    ensures Word(m2, Ptr(s)) == Word(m1, Ptr(s))
  {
  }
}
