/** The theory of a heap cut into blocks: what the chain of headers of bmalloc.c means. */
module Blocks {
  /** sizeof(_m_header): a flag byte padded to the 4-byte `next` pointer that follows it. */
  const H: nat := 8

  datatype Block = Block(end: nat, busy: bool)

  /** Blocks by the address of their header; the payload of block `s` is [s + H, end). */
  type Heap = map<nat, Block>

  /** The blocks cut [lo, hi) without gap or overlap, each with a header and a payload. */
  ghost predicate Tiles(m: Heap, lo: nat, hi: nat)
  {
    lo <= hi && (lo in m || lo == hi) && Sized(m, lo, hi) && Linked(m, hi) && Ordered(m)
  }

  ghost predicate Sized(m: Heap, lo: nat, hi: nat)
  {
    forall s | s in m :: lo <= s && s + H < m[s].end <= hi
  }

  ghost predicate Linked(m: Heap, hi: nat)
  {
    forall s {:trigger Chained(m, s, hi)} | s in m :: Chained(m, s, hi)
  }

  ghost predicate Ordered(m: Heap)
  {
    forall s, t | s in m && t in m && s < t :: m[s].end <= t
  }

  /** Headers, and hence payloads, are 4-byte aligned. */
  ghost predicate Aligned(m: Heap)
  {
    forall s | s in m :: OnWord(s) && OnWord(m[s].end)
  }

  predicate OnWord(a: nat)
  {
    a % 4 == 0
  }

  /** `next` leads to another block or to the high-water mark. */
  ghost predicate Chained(m: Heap, s: nat, hi: nat)
    requires s in m
  {
    m[s].end in m || m[s].end == hi
  }

  /** After every free block comes a busy one: no two free neighbours, and the last block is busy. */
  ghost predicate Coalesced(m: Heap)
  {
    forall s {:trigger BeforeBusy(m, s)} | s in m && !m[s].busy :: BeforeBusy(m, s)
  }

  ghost predicate BeforeBusy(m: Heap, s: nat)
    requires s in m
  {
    m[s].end in m && m[m[s].end].busy
  }

  ghost function Busy(m: Heap): Heap
  {
    map s | s in m && m[s].busy :: m[s]
  }

  /** Every address below the high-water mark lies in a block. */
  lemma Covering(m: Heap, lo: nat, hi: nat, a: nat) returns (s: nat)
    requires Tiles(m, lo, hi) && lo <= a < hi
    ensures s in m && s <= a < m[s].end
  {
    s := lo;
    while m[s].end <= a
      invariant s in m && s <= a
      decreases a - s
    {
      assert Chained(m, s, hi);
      s := m[s].end;
    }
  }

  lemma LastBlockBusy(m: Heap, lo: nat, hi: nat) returns (s: nat)
    requires Tiles(m, lo, hi) && Coalesced(m) && lo < hi
    ensures s in m && m[s].busy && m[s].end == hi
  {
    s := Covering(m, lo, hi, hi - 1);
    assert m[s].busy || BeforeBusy(m, s);
  }

  /** The busy blocks alone fix the high-water mark. */
  lemma HighWaterFromBusy(m: Heap, n: Heap, lo: nat, hm: nat, hn: nat)
    requires Tiles(m, lo, hm) && Coalesced(m) && Tiles(n, lo, hn) && Coalesced(n)
    requires Busy(m) == Busy(n)
    ensures hm == hn
  {
    if lo < hm {
      var s := LastBlockBusy(m, lo, hm);
      assert s in Busy(m);
    }
    if lo < hn {
      var s := LastBlockBusy(n, lo, hn);
      assert s in Busy(n);
    }
  }

  /** A free block follows the base or a busy block. */
  lemma BusyBefore(m: Heap, lo: nat, hi: nat, s: nat) returns (v: nat)
    requires Tiles(m, lo, hi) && Coalesced(m)
    requires s in m && !m[s].busy && lo < s
    ensures v in m && m[v].busy && m[v].end == s
  {
    v := Covering(m, lo, hi, s - 1);
    assert m[v].busy || BeforeBusy(m, v);
  }

  lemma FreeBlockFromBusy(m: Heap, n: Heap, lo: nat, hi: nat, s: nat)
    requires Tiles(m, lo, hi) && Coalesced(m) && Tiles(n, lo, hi) && Coalesced(n)
    requires Busy(m) == Busy(n)
    requires s in m && !m[s].busy
    ensures s in n && n[s] == m[s]
  {
    forall x | x in m && m[x].busy ensures x in n && n[x] == m[x] { assert x in Busy(m); }
    forall x | x in n && n[x].busy ensures x in m && n[x] == m[x] { assert x in Busy(n); }
    var t := Covering(n, lo, hi, s);
    assert !n[t].busy;
    if t < s {
      var v := BusyBefore(m, lo, hi, s);
      assert false;
    }
    assert BeforeBusy(m, s) && BeforeBusy(n, s);
  }

  /** The whole heap is determined by its busy blocks: however blocks were allocated and freed,
      the free blocks and the high-water mark depend on what is live now and on nothing else. */
  lemma HeapFromBusy(m: Heap, n: Heap, lo: nat, hm: nat, hn: nat)
    requires Tiles(m, lo, hm) && Coalesced(m) && Tiles(n, lo, hn) && Coalesced(n)
    requires Busy(m) == Busy(n)
    ensures m == n && hm == hn
  {
    HighWaterFromBusy(m, n, lo, hm, hn);
    forall s | s in m ensures s in n && n[s] == m[s] {
      if m[s].busy { assert s in Busy(m); } else { FreeBlockFromBusy(m, n, lo, hm, s); }
    }
    forall s | s in n ensures s in m && n[s] == m[s] {
      if n[s].busy { assert s in Busy(n); } else { FreeBlockFromBusy(n, m, lo, hm, s); }
    }
  }

  /** With nothing live the heap is empty and the high-water mark is back at the base. */
  lemma EmptyWhenNothingBusy(m: Heap, lo: nat, hi: nat)
    requires Tiles(m, lo, hi) && Coalesced(m) && Busy(m) == map[]
    ensures m == map[] && hi == lo
  {
    HeapFromBusy(m, map[], lo, hi, lo);
  }
}
