/** What one allocation or one release does to the blocks of a heap, and what every step keeps. */
module HeapSteps {
  import opened Blocks

  /** Sizes are rounded up to the 4-byte alignment. */
  function Round(n: nat): (r: nat)
    ensures n <= r < n + 4 && r % 4 == 0
  {
    (n + 3) / 4 * 4
  }

  ghost predicate FitsBlock(m: Heap, s: nat, n: nat)
  {
    s in m && !m[s].busy && m[s].end >= s + H + n
  }

  ghost predicate FitsTop(hi: nat, top: nat, n: nat)
  {
    n + H <= top - hi
  }

  ghost predicate FirstFit(m: Heap, s: nat, n: nat)
  {
    FitsBlock(m, s, n) && forall t | FitsBlock(m, t, n) :: s <= t
  }

  /** A request for `n` rounded bytes can be met. */
  ghost predicate Fits(m: Heap, hi: nat, top: nat, n: nat)
  {
    FitsTop(hi, top, n) || exists s :: FitsBlock(m, s, n)
  }

  /** The room test by numbers. */
  lemma FitsMeans(m: Heap, hi: nat, top: nat, n: nat)
    ensures FitsTop(hi, top, n) <==> top - hi >= n + 8
    ensures FitsTop(hi, top, n) ==> Fits(m, hi, top, n)
    ensures !Fits(m, hi, top, n) ==>
      top - hi < n + 8 && forall s | s in m && !m[s].busy :: m[s].end - s < n + 8
    ensures (forall s :: !FitsBlock(m, s, n)) ==> (Fits(m, hi, top, n) <==> FitsTop(hi, top, n))
    ensures forall s | FirstFit(m, s, n) ::
      && Fits(m, hi, top, n) && s in m && !m[s].busy && m[s].end - s >= n + 8 && FitsBlock(m, s, n)
      && forall t | t in m && !m[t].busy && t < s :: m[t].end - t < n + 8
  {
    forall s | s in m && !m[s].busy && m[s].end - s >= n + 8 ensures FitsBlock(m, s, n) {
    }
  }

  // ----- the four elementary changes -----

  ghost function Append(m: Heap, hi: nat, n: nat): Heap
  {
    m[hi := Block(hi + H + n, true)]
  }

  /** Sets the busy flag of block `s`. */
  ghost function Mark(m: Heap, s: nat, busy: bool): Heap
    requires s in m
  {
    m[s := Block(m[s].end, busy)]
  }

  /** Cuts free block `s` in two free blocks at `cut`. */
  ghost function Split(m: Heap, s: nat, cut: nat): Heap
    requires s in m
  {
    m[s := Block(cut, false)][cut := Block(m[s].end, false)]
  }

  /** Joins free block `s` with its free successor. */
  ghost function Merge(m: Heap, s: nat): Heap
    requires s in m && m[s].end in m
  {
    (m - {m[s].end})[s := Block(m[m[s].end].end, false)]
  }

  /** Gives the last block, which is free, back to the space above the high-water mark. */
  ghost function Drop(m: Heap, s: nat): Heap
  {
    m - {s}
  }

  ghost predicate Free(m: Heap, s: nat)
  {
    s in m && !m[s].busy
  }

  // ----- what each change does to the busy blocks -----

  lemma AppendBusy(m: Heap, hi: nat, n: nat)
    ensures Busy(Append(m, hi, n)) == Busy(m)[hi := Block(hi + H + n, true)]
  {
  }

  lemma MarkBusy(m: Heap, s: nat, busy: bool)
    requires s in m
    ensures Busy(Mark(m, s, busy)) == if busy then Busy(m)[s := Block(m[s].end, true)] else Busy(m) - {s}
  {
    var b := Busy(Mark(m, s, busy));
    var c := if busy then Busy(m)[s := Block(m[s].end, true)] else Busy(m) - {s};
    assert b.Keys == c.Keys;
    assert forall t | t in b :: b[t] == c[t];
  }

  lemma SplitBusy(m: Heap, s: nat, cut: nat)
    requires Free(m, s) && cut !in m
    ensures Busy(Split(m, s, cut)) == Busy(m)
  {
  }

  lemma MergeBusy(m: Heap, s: nat)
    requires Free(m, s) && Free(m, m[s].end)
    ensures Busy(Merge(m, s)) == Busy(m)
  {
  }

  lemma DropBusy(m: Heap, s: nat)
    requires Free(m, s)
    ensures Busy(Drop(m, s)) == Busy(m)
  {
  }

  // ----- each change keeps the tiling -----

  lemma AppendTiles(m: Heap, lo: nat, hi: nat, n: nat)
    requires Tiles(m, lo, hi) && n > 0
    ensures hi !in m && Tiles(Append(m, hi, n), lo, hi + H + n)
  {
    var r, hi' := Append(m, hi, n), hi + H + n;
    assert Ordered(r);
    forall s | s in r ensures Chained(r, s, hi') { assert s == hi || Chained(m, s, hi); }
  }

  lemma MarkTiles(m: Heap, lo: nat, hi: nat, s: nat, busy: bool)
    requires Tiles(m, lo, hi) && s in m
    ensures Tiles(Mark(m, s, busy), lo, hi)
  {
    var r := Mark(m, s, busy);
    forall t | t in r ensures Chained(r, t, hi) { assert Chained(m, t, hi); }
  }

  lemma SplitOrdered(m: Heap, lo: nat, hi: nat, s: nat, cut: nat)
    requires Tiles(m, lo, hi) && Free(m, s) && s + H < cut && cut + H < m[s].end
    ensures cut !in m && Ordered(Split(m, s, cut))
  {
  }

  lemma SplitSized(m: Heap, lo: nat, hi: nat, s: nat, cut: nat)
    requires Sized(m, lo, hi) && s in m && s + H < cut && cut + H < m[s].end
    ensures Sized(Split(m, s, cut), lo, hi)
  {
  }

  lemma SplitLinked(m: Heap, hi: nat, s: nat, cut: nat)
    requires Linked(m, hi) && s in m && cut !in m
    ensures Linked(Split(m, s, cut), hi)
  {
    var r := Split(m, s, cut);
    forall t | t in r ensures Chained(r, t, hi) { assert Chained(m, if t == cut then s else t, hi); }
  }

  lemma SplitTiles(m: Heap, lo: nat, hi: nat, s: nat, cut: nat)
    requires Tiles(m, lo, hi) && Free(m, s) && s + H < cut && cut + H < m[s].end
    ensures cut !in m && Tiles(Split(m, s, cut), lo, hi)
  {
    hide Ordered, Linked, Sized;
    SplitOrdered(m, lo, hi, s, cut);
    SplitLinked(m, hi, s, cut);
    SplitSized(m, lo, hi, s, cut);
  }

  lemma MergeOrdered(m: Heap, s: nat)
    requires Ordered(m) && s in m && m[s].end in m && s < m[s].end
    ensures Ordered(Merge(m, s))
  {
  }

  lemma MergeTiles(m: Heap, lo: nat, hi: nat, s: nat)
    requires Tiles(m, lo, hi) && s in m && m[s].end in m
    ensures Tiles(Merge(m, s), lo, hi)
  {
    var r, t := Merge(m, s), m[s].end;
    MergeOrdered(m, s);
    forall u | u in r ensures Chained(r, u, hi) { assert Chained(m, if u == s then t else u, hi); }
  }

  lemma DropTiles(m: Heap, lo: nat, hi: nat, s: nat)
    requires Tiles(m, lo, hi) && s in m && m[s].end == hi
    ensures lo <= s && Tiles(Drop(m, s), lo, s)
  {
    var r := Drop(m, s);
    assert Ordered(r);
    forall u | u in r ensures Chained(r, u, s) { assert Chained(m, u, hi); }
  }

  // ----- allocation and release as compositions -----

  /** The first part of free block `s` becomes busy; a tail larger than a header stays free. */
  ghost function Carve(m: Heap, s: nat, n: nat): Heap
    requires s in m
  {
    if m[s].end > s + H + n + H then Mark(Split(m, s, s + H + n), s, true) else Mark(m, s, true)
  }

  /** The end of busy block `s` when free block `s` is cut for `n` bytes. */
  ghost function CarvedEnd(m: Heap, s: nat, n: nat): nat
    requires s in m
  {
    if m[s].end > s + H + n + H then s + H + n else m[s].end
  }

  // ----- the allocator as a function of its blocks -----

  /** The blocks of a pool and its high-water mark. */
  datatype Area = Area(blocks: Heap, high: nat)

  lemma {:induction false} LowestExists(m: Heap, n: nat, s: nat) returns (t: nat)
    requires FitsBlock(m, s, n)
    ensures FirstFit(m, t, n)
    decreases s
  {
    if u: nat :| u < s && FitsBlock(m, u, n) {
      t := LowestExists(m, n, u);
    } else {
      t := s;
    }
  }

  /** The block the first-fit scan takes. */
  ghost function Lowest(m: Heap, n: nat): (s: nat)
    requires exists s :: FitsBlock(m, s, n)
    ensures FirstFit(m, s, n)
  {
    assert exists s :: FirstFit(m, s, n) by {
      var t :| FitsBlock(m, t, n);
      var u := LowestExists(m, n, t);
    }
    var s :| FirstFit(m, s, n);
    s
  }

  /** A request for `n` rounded bytes granted. */
  ghost function Placed(a: Area, top: nat, n: nat): Area
    requires Fits(a.blocks, a.high, top, n)
  {
    if FitsTop(a.high, top, n) then Area(Append(a.blocks, a.high, n), a.high + H + n)
    else Area(Carve(a.blocks, Lowest(a.blocks, n), n), a.high)
  }

  /** All of these requests can be met, one after the other. */
  ghost predicate Room(a: Area, top: nat, sizes: seq<nat>)
    decreases |sizes|
  {
    sizes == [] || (Fits(a.blocks, a.high, top, sizes[0]) && Room(Placed(a, top, sizes[0]), top, sizes[1..]))
  }

  /** The bytes that requests take above the mark. */
  ghost function Footprint(sizes: seq<nat>): nat
  {
    if sizes == [] then 0 else sizes[0] + H + Footprint(sizes[1..])
  }

  /** Requests that together fit above the mark can all be met, whatever the holes below. */
  lemma {:induction false} RoomAboveMark(a: Area, top: nat, sizes: seq<nat>)
    requires Footprint(sizes) <= top - a.high
    ensures Room(a, top, sizes)
    decreases |sizes|
  {
    if sizes != [] { RoomAboveMark(Placed(a, top, sizes[0]), top, sizes[1..]); }
  }

  ghost predicate AllBusy(m: Heap)
  {
    forall s | s in m :: m[s].busy
  }

  /** Without holes, requests can be met exactly if they fit above the mark. */
  lemma {:induction false} RoomWithoutHoles(a: Area, top: nat, sizes: seq<nat>)
    requires AllBusy(a.blocks) && a.high <= top
    ensures Room(a, top, sizes) <==> Footprint(sizes) <= top - a.high
    decreases |sizes|
  {
    if sizes != [] && FitsTop(a.high, top, sizes[0]) {
      RoomWithoutHoles(Placed(a, top, sizes[0]), top, sizes[1..]);
    }
  }

  lemma CarveTiles(m: Heap, lo: nat, hi: nat, s: nat, n: nat)
    requires Tiles(m, lo, hi) && n > 0 && FitsBlock(m, s, n)
    ensures Tiles(Carve(m, s, n), lo, hi)
    ensures m[s].end > s + H + n + H ==> s + H + n !in m
  {
    if m[s].end > s + H + n + H {
      SplitTiles(m, lo, hi, s, s + H + n);
      MarkTiles(Split(m, s, s + H + n), lo, hi, s, true);
    } else {
      MarkTiles(m, lo, hi, s, true);
    }
  }

  lemma CarveCoalesced(m: Heap, lo: nat, hi: nat, s: nat, n: nat)
    requires Tiles(m, lo, hi) && Coalesced(m) && n > 0 && FitsBlock(m, s, n)
    ensures Coalesced(Carve(m, s, n))
  {
    CarveTiles(m, lo, hi, s, n);
    assert BeforeBusy(m, s);
    var r := Carve(m, s, n);
    forall t | t in r && !r[t].busy ensures BeforeBusy(r, t) { if t in m { assert BeforeBusy(m, t); } }
  }

  lemma CarveBusy(m: Heap, lo: nat, hi: nat, s: nat, n: nat)
    requires Tiles(m, lo, hi) && n > 0 && FitsBlock(m, s, n)
    ensures Busy(Carve(m, s, n)) == Busy(m)[s := Block(CarvedEnd(m, s, n), true)]
  {
    if m[s].end > s + H + n + H {
      CarveTiles(m, lo, hi, s, n);
      SplitBusy(m, s, s + H + n);
      MarkBusy(Split(m, s, s + H + n), s, true);
    } else {
      MarkBusy(m, s, true);
    }
  }

  lemma AppendKeeps(m: Heap, lo: nat, hi: nat, n: nat)
    requires Tiles(m, lo, hi) && Coalesced(m) && n > 0
    ensures hi !in m && Tiles(Append(m, hi, n), lo, hi + H + n) && Coalesced(Append(m, hi, n))
  {
    AppendTiles(m, lo, hi, n);
    var r := Append(m, hi, n);
    forall t | t in r && !r[t].busy ensures BeforeBusy(r, t) { assert BeforeBusy(m, t); }
  }

  /** `prev` is the block before `curr`, or `curr` itself at the base. */
  ghost predicate Precedes(m: Heap, lo: nat, prev: nat, curr: nat)
  {
    prev in m && curr in m && if curr == lo then prev == curr else m[prev].end == curr
  }

  /** Coalesced except perhaps at `a` and `b`. */
  ghost predicate CoalescedBut(m: Heap, a: nat, b: nat)
  {
    forall s {:trigger BeforeBusy(m, s)} | s in m && !m[s].busy && s != a && s != b :: BeforeBusy(m, s)
  }

  ghost function WithNext(m: Heap, s: nat): Heap
    requires s in m
  {
    if Free(m, m[s].end) then Merge(m, s) else m
  }

  /** The block that holds `curr` after a merge with a free predecessor. */
  ghost function Into(m: Heap, prev: nat, curr: nat): nat
  {
    if Free(m, prev) then prev else curr
  }

  ghost function WithPrev(m: Heap, prev: nat, curr: nat): Heap
    requires prev in m && curr in m && (prev == curr || m[prev].end == curr)
  {
    if Free(m, prev) && prev != curr then Merge(m, prev) else m
  }

  ghost function DropLast(m: Heap, hi: nat, f: nat): (Heap, nat)
    requires f in m
  {
    if m[f].end == hi then (Drop(m, f), f) else (m, hi)
  }

  lemma MarkCoalesced(m: Heap, lo: nat, hi: nat, prev: nat, curr: nat)
    requires Tiles(m, lo, hi) && Coalesced(m) && Precedes(m, lo, prev, curr)
    ensures CoalescedBut(Mark(m, curr, false), prev, curr)
  {
    var r := Mark(m, curr, false);
    forall t | t in r && !r[t].busy && t != prev && t != curr ensures BeforeBusy(r, t) {
      assert BeforeBusy(m, t);
    }
  }

  lemma WithNextCoalesced(m: Heap, lo: nat, hi: nat, prev: nat, curr: nat)
    requires Tiles(m, lo, hi) && CoalescedBut(m, prev, curr) && Precedes(m, lo, prev, curr)
    requires Free(m, curr)
    ensures var r := WithNext(m, curr);
            && Precedes(r, lo, prev, curr) && Free(r, curr) && CoalescedBut(r, prev, curr)
            && (r[curr].end == hi || BeforeBusy(r, curr))
            && Free(r, prev) == Free(m, prev)
  {
    var r := WithNext(m, curr);
    assert Chained(m, curr, hi);
    if Free(m, m[curr].end) { assert BeforeBusy(m, m[curr].end); }
    forall t | t in r && !r[t].busy && t != prev && t != curr ensures BeforeBusy(r, t) {
      assert BeforeBusy(m, t);
    }
  }

  lemma WithPrevCoalesced(m: Heap, lo: nat, hi: nat, prev: nat, curr: nat)
    requires Tiles(m, lo, hi) && CoalescedBut(m, prev, curr) && Precedes(m, lo, prev, curr)
    requires Free(m, curr) && (m[curr].end == hi || BeforeBusy(m, curr))
    ensures var r, f := WithPrev(m, prev, curr), Into(m, prev, curr);
            Free(r, f) && CoalescedBut(r, f, f) && (r[f].end == hi || BeforeBusy(r, f))
  {
    var r, f := WithPrev(m, prev, curr), Into(m, prev, curr);
    forall t | t in r && !r[t].busy && t != f ensures BeforeBusy(r, t) {
      assert BeforeBusy(m, t);
    }
  }

  lemma DropLastCoalesced(m: Heap, lo: nat, hi: nat, f: nat)
    requires Tiles(m, lo, hi) && Free(m, f) && CoalescedBut(m, f, f)
    requires m[f].end == hi || BeforeBusy(m, f)
    ensures Coalesced(DropLast(m, hi, f).0)
  {
    var r := DropLast(m, hi, f).0;
    forall t | t in r && !r[t].busy ensures BeforeBusy(r, t) {
      assert BeforeBusy(m, t);
    }
  }

  /** Releasing block `curr`: clear its flag, join free neighbours, lower the high-water mark. */
  ghost function Release(m: Heap, lo: nat, hi: nat, prev: nat, curr: nat): (Heap, nat)
    requires Tiles(m, lo, hi) && Precedes(m, lo, prev, curr)
  {
    MarkTiles(m, lo, hi, curr, false);
    var m1 := Mark(m, curr, false);
    var m2 := WithNext(m1, curr);
    var m3 := WithPrev(m2, prev, curr);
    DropLast(m3, hi, Into(m2, prev, curr))
  }

  /** Freeing keeps every invariant whichever neighbours are free, and removes that block alone
      from the busy ones. */
  lemma ReleaseKeeps(m: Heap, lo: nat, hi: nat, prev: nat, curr: nat)
    requires Tiles(m, lo, hi) && Coalesced(m) && Precedes(m, lo, prev, curr) && m[curr].busy
    ensures var (r, hi') := Release(m, lo, hi, prev, curr);
            lo <= hi' <= hi && Tiles(r, lo, hi') && Coalesced(r) && Busy(r) == Busy(m) - {curr}
  {
    var m1 := Mark(m, curr, false);
    MarkTiles(m, lo, hi, curr, false);
    MarkBusy(m, curr, false);
    MarkCoalesced(m, lo, hi, prev, curr);
    var m2 := WithNext(m1, curr);
    if Free(m1, m1[curr].end) { MergeTiles(m1, lo, hi, curr); MergeBusy(m1, curr); }
    WithNextCoalesced(m1, lo, hi, prev, curr);
    var m3, f := WithPrev(m2, prev, curr), Into(m2, prev, curr);
    if Free(m2, prev) && prev != curr { MergeTiles(m2, lo, hi, prev); MergeBusy(m2, prev); }
    WithPrevCoalesced(m2, lo, hi, prev, curr);
    if m3[f].end == hi { DropTiles(m3, lo, hi, f); DropBusy(m3, f); }
    DropLastCoalesced(m3, lo, hi, f);
  }

  /** The end of block `curr` once joined with a free successor. */
  ghost function JoinedEnd(m: Heap, curr: nat): nat
    requires curr in m
  {
    if Free(m, m[curr].end) then m[m[curr].end].end else m[curr].end
  }

  /** `r` keeps blocks of `m`, apart from block `f` which is now free and ends at `e`. */
  ghost predicate Joined(m: Heap, r: Heap, f: nat, e: nat)
  {
    && (f in r ==> r[f] == Block(e, false))
    && (forall u | u in r && u != f :: u in m && r[u] == m[u])
  }

  lemma WithNextShape(m: Heap, hi: nat, curr: nat)
    requires Linked(m, hi) && curr in m && m[curr].busy
    requires m[curr].end != curr && (m[curr].end in m ==> m[m[curr].end].end != curr)
    ensures var m1 := Mark(m, curr, false); var m2 := WithNext(m1, curr);
            curr in m2 && Joined(m, m2, curr, JoinedEnd(m, curr))
            && (forall u | u in m2 :: u in m)
            && (forall u | u in m && u != curr && u != m[curr].end :: u in m2)
  {
  }

  lemma WithPrevShape(m: Heap, prev: nat, curr: nat)
    requires prev in m && curr in m && (prev == curr || m[prev].end == curr) && Free(m, curr)
    requires prev != curr ==> m[curr].end != prev
    ensures var r, f := WithPrev(m, prev, curr), Into(m, prev, curr);
            f in r && Joined(m, r, f, m[curr].end) && (forall u | u in r :: u in m)
  {
  }

  /** The blocks left by a release: one free block at the merged place unless it was last, and
      the others as they were. */
  lemma ReleaseShape(m: Heap, lo: nat, hi: nat, prev: nat, curr: nat)
    requires Tiles(m, lo, hi) && Precedes(m, lo, prev, curr) && m[curr].busy
    ensures var (r, hi') := Release(m, lo, hi, prev, curr);
            var f, e := Into(m, prev, curr), JoinedEnd(m, curr);
            && hi' == (if e == hi then f else hi)
            && Joined(m, r, f, e) && (forall u | u in r :: u in m)
  {
    WithNextShape(m, hi, curr);
    var m2 := WithNext(Mark(m, curr, false), curr);
    assert prev in m2 && Into(m2, prev, curr) == Into(m, prev, curr);
    WithPrevShape(m2, prev, curr);
  }
}
