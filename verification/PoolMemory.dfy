/** How a pool's bytes encode its blocks, and what header writes leave alone. */
module PoolMemory {
  import opened Bytes
  import opened Blocks
  import opened HeapSteps

  /** The header bytes at `s` say what block `b` is: low nibble of the flag byte, then `next`. */
  ghost predicate Header(mem: seq<byte>, s: nat, b: Block)
  {
    && s + H <= |mem|
    && mem[s] % 16 == (if b.busy then 1 else 0)
    && Word(mem, s + 4) == b.end
  }

  ghost predicate Encoded(mem: seq<byte>, m: Heap)
  {
    forall s | s in m :: Header(mem, s, m[s])
  }

  /** The memory holds a well-formed heap on [lo, hi). */
  ghost predicate Sound(mem: seq<byte>, m: Heap, lo: nat, hi: nat)
  {
    && hi <= |mem| && lo % 4 == 0 && hi % 4 == 0
    && Tiles(m, lo, hi) && Coalesced(m) && Aligned(m) && Encoded(mem, m)
  }

  /** No payload byte of the blocks `live` differs between the two memories. */
  ghost predicate SamePayloads(live: Heap, m0: seq<byte>, m1: seq<byte>)
  {
    && |m0| == |m1|
    && forall s, a | s in live && s + H <= a < live[s].end && a < |m0| :: m0[a] == m1[a]
  }

  /** The two memories agree outside [lo, hi). */
  ghost predicate SameOutside(m0: seq<byte>, m1: seq<byte>, lo: nat, hi: nat)
  {
    && |m0| == |m1|
    && forall a | 0 <= a < |m0| && !(lo <= a < hi) :: m0[a] == m1[a]
  }

  /** Distinct blocks have disjoint extents inside the pool, so live payloads never overlap. */
  lemma PayloadsDisjoint(m: Heap, lo: nat, hi: nat, s: nat, t: nat)
    requires Tiles(m, lo, hi) && s in m && t in m && s != t
    ensures lo + H <= s + H < m[s].end <= hi
    ensures m[s].end <= t || m[t].end <= s
  {
    assert s < t || t < s;
  }

  lemma HeaderFrame(m0: seq<byte>, m1: seq<byte>, s: nat, b: Block)
    requires Header(m0, s, b) && Same(m0, m1, s, s + H)
    ensures Header(m1, s, b)
  {
  }

  /** Writing the header of block `s` disturbs no other header. */
  lemma HeadersKept(m: Heap, lo: nat, hi: nat, s: nat, m0: seq<byte>, m1: seq<byte>, u: nat)
    requires Tiles(m, lo, hi) && s in m && u in m && u != s
    requires Header(m0, u, m[u]) && SameOutside(m0, m1, s, s + H)
    ensures Header(m1, u, m[u])
  {
    PayloadsDisjoint(m, lo, hi, s, u);
    HeaderFrame(m0, m1, u, m[u]);
  }

  /** ... and no payload. */
  lemma PayloadsKept(m: Heap, lo: nat, hi: nat, s: nat, m0: seq<byte>, m1: seq<byte>)
    requires Tiles(m, lo, hi) && s in m && SameOutside(m0, m1, s, s + H)
    ensures SamePayloads(m, m0, m1) && SameOutside(m0, m1, lo, hi)
  {
    forall u, a | u in m && u + H <= a < m[u].end && a < |m0| ensures m0[a] == m1[a] {
      if u != s { PayloadsDisjoint(m, lo, hi, s, u); }
    }
  }

  lemma AppendAligned(m: Heap, hi: nat, n: nat)
    requires Aligned(m) && hi % 4 == 0 && n % 4 == 0
    ensures (hi + H + n) % 4 == 0 && Aligned(Append(m, hi, n))
  {
    assert OnWord(hi) && OnWord(hi + H + n);
    hide OnWord;
    var r := Append(m, hi, n);
    forall s | s in r ensures OnWord(s) && OnWord(r[s].end) {
      if s == hi { assert r[s] == Block(hi + H + n, true); } else { assert s in m && r[s] == m[s]; }
    }
  }

  lemma CarveAligned(m: Heap, s: nat, n: nat)
    requires Aligned(m) && s in m && n % 4 == 0
    ensures Aligned(Carve(m, s, n))
  {
    assert OnWord(s) && OnWord(s + H + n);
    hide OnWord;
  }

  lemma JoinedAligned(m: Heap, r: Heap, curr: nat, f: nat)
    requires Aligned(m) && curr in m && f in m
    requires Joined(m, r, f, JoinedEnd(m, curr))
    ensures Aligned(r) && f % 4 == 0
  {
  }

  /** The high-water block is outside every earlier block. */
  lemma GrowSound(m: Heap, lo: nat, hi: nat, n: nat, m0: seq<byte>, m1: seq<byte>)
    requires Sound(m0, m, lo, hi) && n > 0 && n % 4 == 0 && hi + H + n <= |m0|
    requires SameOutside(m0, m1, hi, hi + H + n)
    requires Header(m1, hi, Block(hi + H + n, true))
    ensures hi !in m && Sound(m1, Append(m, hi, n), lo, hi + H + n)
    ensures SamePayloads(m, m0, m1)
  {
    AppendKeeps(m, lo, hi, n);
    AppendAligned(m, hi, n);
    var r := Append(m, hi, n);
    forall s | s in r ensures Header(m1, s, r[s]) {
      if s != hi { HeaderFrame(m0, m1, s, m[s]); }
    }
  }

  /** Marking a free block busy without cutting it. */
  lemma TakeSound(m0: seq<byte>, m: Heap, lo: nat, hi: nat, s: nat, n: nat, m1: seq<byte>) returns (r: Heap)
    requires Sound(m0, m, lo, hi) && n > 0 && n % 4 == 0 && FitsBlock(m, s, n)
    requires m[s].end <= s + H + n + H
    requires SameOutside(m0, m1, s, s + H) && Header(m1, s, Block(m[s].end, true))
    ensures Sound(m1, r, lo, hi)
    ensures r == Carve(m, s, n) && s !in Busy(m) && s in r && r[s].end == m[s].end
    ensures Busy(r) == Busy(m)[s := Block(m[s].end, true)]
    ensures SamePayloads(m, m0, m1) && SameOutside(m0, m1, lo, hi)
  {
    r := Carve(m, s, n);
    CarveTiles(m, lo, hi, s, n);
    CarveCoalesced(m, lo, hi, s, n);
    CarveAligned(m, s, n);
    CarveBusy(m, lo, hi, s, n);
    PayloadsKept(m, lo, hi, s, m0, m1);
    forall u | u in r ensures Header(m1, u, r[u]) {
      if u != s { HeadersKept(m, lo, hi, s, m0, m1, u); }
    }
  }

  lemma CarveShape(m: Heap, s: nat, n: nat)
    requires s in m && !m[s].busy && (m[s].end > s + H + n + H ==> s + H + n !in m)
    ensures forall u | u in Busy(m) :: u in Carve(m, s, n) && Carve(m, s, n)[u] == Busy(m)[u]
    ensures forall u | u in Carve(m, s, n) && u != s && u != s + H + n :: u in m && Carve(m, s, n)[u] == m[u]
    ensures s in Carve(m, s, n) && Carve(m, s, n)[s] == Block(CarvedEnd(m, s, n), true) && s !in Busy(m)
    ensures m[s].end > s + H + n + H ==>
            s + H + n in Carve(m, s, n) && Carve(m, s, n)[s + H + n] == Block(m[s].end, false)
  {
  }

  /** The two header writes of a cut, on the memory of the heap `r` that results. */
  lemma TwoHeaders(r: Heap, lo: nat, hi: nat, s: nat, t: nat, m0: seq<byte>, m1: seq<byte>, m2: seq<byte>)
    requires Tiles(r, lo, hi) && s in r && t in r && s != t
    requires SameOutside(m0, m1, s, s + H) && Header(m1, s, r[s])
    requires SameOutside(m1, m2, t, t + H) && Header(m2, t, r[t])
    requires forall u | u in r && u != s && u != t :: Header(m0, u, r[u])
    ensures Encoded(m2, r)
  {
    forall u | u in r ensures Header(m2, u, r[u]) {
      if u != t {
        if u != s { HeadersKept(r, lo, hi, s, m0, m1, u); }
        HeadersKept(r, lo, hi, t, m1, m2, u);
      }
    }
  }

  lemma TwoPayloads(r: Heap, lo: nat, hi: nat, s: nat, t: nat, m0: seq<byte>, m1: seq<byte>, m2: seq<byte>)
    requires Tiles(r, lo, hi) && s in r && t in r
    requires SameOutside(m0, m1, s, s + H) && SameOutside(m1, m2, t, t + H)
    ensures SamePayloads(r, m0, m2) && SameOutside(m0, m2, lo, hi)
  {
    PayloadsKept(r, lo, hi, s, m0, m1);
    PayloadsKept(r, lo, hi, t, m1, m2);
  }

  /** Cutting a free block in a busy part and a free tail: two headers are written. */
  lemma CutSound(m0: seq<byte>, m: Heap, lo: nat, hi: nat, s: nat, n: nat, m1: seq<byte>, m2: seq<byte>)
      returns (r: Heap)
    requires Sound(m0, m, lo, hi) && n > 0 && n % 4 == 0 && FitsBlock(m, s, n)
    requires m[s].end > s + H + n + H
    requires SameOutside(m0, m1, s, s + H) && Header(m1, s, Block(s + H + n, true))
    requires SameOutside(m1, m2, s + H + n, s + H + n + H) && Header(m2, s + H + n, Block(m[s].end, false))
    ensures Sound(m2, r, lo, hi)
    ensures r == Carve(m, s, n) && s !in Busy(m) && s in r && r[s].end == s + H + n
    ensures Busy(r) == Busy(m)[s := Block(s + H + n, true)]
    ensures SamePayloads(Busy(m), m0, m2) && SameOutside(m0, m2, lo, hi)
  {
    hide Tiles, Coalesced, Aligned, Header, Carve, Busy, SameOutside;
    r := Carve(m, s, n);
    CarveTiles(m, lo, hi, s, n);
    CarveCoalesced(m, lo, hi, s, n);
    CarveAligned(m, s, n);
    CarveBusy(m, lo, hi, s, n);
    CarveShape(m, s, n);
    TwoHeaders(r, lo, hi, s, s + H + n, m0, m1, m2);
    TwoPayloads(r, lo, hi, s, s + H + n, m0, m1, m2);
  }

  /** What bfree reads before it writes: the neighbour headers tell where the freed space goes
      (`Into`) and where it ends (`JoinedEnd`), also when the block is first or last. */
  lemma NeighboursRead(mem: seq<byte>, m: Heap, lo: nat, hi: nat, prev: nat, curr: nat)
    requires Sound(mem, m, lo, hi) && Precedes(m, lo, prev, curr) && m[curr].busy
    ensures prev + H <= |mem| && curr + H <= |mem|
    ensures Into(m, prev, curr) == if mem[prev] % 16 == 0 then prev else curr
    ensures lo <= Into(m, prev, curr) && JoinedEnd(m, curr) <= hi <= |mem|
    ensures var end := Word(mem, curr + 4); var next := if end < hi then end else curr;
            && next + H <= |mem| && mem[curr] % 16 != 0
            && JoinedEnd(m, curr) == (if mem[next] % 16 == 0 then Word(mem, next + 4) else end)
  {
    ScanStep(mem, m, lo, hi, curr);
    assert Header(mem, prev, m[prev]);
  }

  /** A release writes one header: the one of the block that holds the freed space. */
  lemma ReleaseSound(m0: seq<byte>, m: Heap, lo: nat, hi: nat, prev: nat, curr: nat, m1: seq<byte>)
      returns (r: Heap, hi': nat)
    requires Sound(m0, m, lo, hi) && Precedes(m, lo, prev, curr) && m[curr].busy
    requires var f := Into(m, prev, curr);
             SameOutside(m0, m1, f, f + H) && Header(m1, f, Block(JoinedEnd(m, curr), false))
    ensures lo <= hi' <= hi && Sound(m1, r, lo, hi') && Busy(r) == Busy(m) - {curr}
    ensures hi' == if JoinedEnd(m, curr) == hi then Into(m, prev, curr) else hi
    ensures SamePayloads(m, m0, m1) && SameOutside(m0, m1, lo, hi)
  {
    ReleaseKeeps(m, lo, hi, prev, curr);
    ReleaseShape(m, lo, hi, prev, curr);
    r, hi' := Release(m, lo, hi, prev, curr).0, Release(m, lo, hi, prev, curr).1;
    var f := Into(m, prev, curr);
    PayloadsKept(m, lo, hi, f, m0, m1);
    JoinedAligned(m, r, curr, f);
    forall u | u in r ensures Header(m1, u, r[u]) {
      if u != f { HeadersKept(m, lo, hi, f, m0, m1, u); }
    }
  }

  /** No other live block reaches into that of `s`. */
  lemma LiveApart(mem: seq<byte>, m: Heap, lo: nat, hi: nat, s: nat)
    requires Sound(mem, m, lo, hi) && s in Busy(m)
    ensures lo <= s < Busy(m)[s].end <= hi
    ensures forall t | t in Busy(m) && t != s :: Busy(m)[t].end <= s || Busy(m)[s].end <= t
  {
  }

  /** A stretch that no live block touches is above the mark or inside one free block. */
  lemma RoomLeft(mem: seq<byte>, m: Heap, lo: nat, hi: nat, a: nat, b: nat)
    requires Sound(mem, m, lo, hi) && lo <= a < b
    requires forall t | t in Busy(m) :: Busy(m)[t].end <= a || b <= t
    ensures hi <= a || exists t :: t in m && !m[t].busy && t <= a && b <= m[t].end
  {
    if a < hi {
      var s := Covering(m, lo, hi, a);
      assert s !in Busy(m);
      assert BeforeBusy(m, s);
      assert m[s].end in Busy(m);
    }
  }

  lemma EmptySound(mem: seq<byte>, lo: nat)
    requires lo <= |mem| && lo % 4 == 0
    ensures Sound(mem, map[], lo, lo)
  {
  }

  // ----- what a walk along the chain of headers sees -----

  /** The first header, if there is any block. */
  lemma ScanStart(mem: seq<byte>, m: Heap, lo: nat, hi: nat)
    requires Sound(mem, m, lo, hi)
    ensures lo <= hi <= |mem| && lo % 4 == 0 && hi % 4 == 0 && (lo < hi ==> lo in m)
    ensures forall s | s in m :: lo <= s < hi
    ensures lo == hi ==> m == map[]
  {
  }

  /** One step: the header at `s` is the block there, and `next` is the following block or the
      high-water mark, with nothing in between. */
  lemma ScanStep(mem: seq<byte>, m: Heap, lo: nat, hi: nat, s: nat)
    requires Sound(mem, m, lo, hi) && s in m
    ensures Header(mem, s, m[s]) && s % 4 == 0 && lo <= s && s + H < m[s].end <= hi <= |mem|
    ensures m[s].end == hi || m[s].end in m
    ensures m[s].end in m ==> m[s].end + H < m[m[s].end].end && Header(mem, m[s].end, m[m[s].end])
    ensures forall t | t in m && t < m[s].end :: t <= s
  {
    assert Chained(m, s, hi);
  }
}
