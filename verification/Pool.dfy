/** bmalloc.c: one memory pool whose block headers live inside the pool itself. */
module Pools {
  import opened Bytes
  import opened Blocks
  import opened HeapSteps
  import opened PoolMemory

  /** The largest request whose size with its header is still a 32-bit number. */
  const SIZE_MAX: nat := 0xFFFF_FFF4

  /** What the 32-bit sums of bmalloc make of a request: rounded up, with its header. */
  function Needed32(n: u32): u32
  {
    ((n + 3) % WORD_LIMIT / 4 * 4 + H) % WORD_LIMIT
  }

  /** The sums are exact up to SIZE_MAX and for no larger request; beyond it they come to at most a header,
      so that the room above the mark is taken to be enough for what can never fit. */
  lemma Needed32Exact(n: u32)
    ensures Needed32(n) == Round(n) + H <==> n <= SIZE_MAX
    ensures n > SIZE_MAX ==> Needed32(n) <= H
  {
  }

  class Pool {
    const ram: array<byte>
    var heap: nat     // _heap_of_memory: 0 is NULL
    var last: nat     // _last_heap_object: 0 until the first allocation
    var top: nat      // _top_of_heap: the last byte of the pool
    var active: bool
    ghost var blocks: Heap

    constructor (ram: array<byte>)
      requires ram.Length <= WORD_LIMIT
      ensures Valid() && !active && this.ram == ram
    {
      this.ram := ram;
      heap, last, top, active := 0, 0, 0, false;
      blocks := map[];
    }

    ghost function High(): nat
      reads this
    {
      if last == 0 then heap else last
    }

    ghost function Live(): Heap
      reads this
    {
      Busy(blocks)
    }

    ghost function Area(): Area
      reads this
    {
      HeapSteps.Area(blocks, High())
    }

    ghost predicate Valid()
      reads this, ram
    {
      && ram.Length <= WORD_LIMIT
      && (!active ==> blocks == map[] && last == 0)
      && (active ==> 0 < heap && heap + H <= top < ram.Length && High() <= top)
      && (active ==> Sound(ram[..], blocks, heap, High()))
    }

    /** init_mem_pool: `at` is the caller's address (0 is NULL) of `len` bytes of memory. */
    method Init(at: nat, len: nat)
      requires Valid() && at + len <= ram.Length
      modifies this, ram
      ensures Valid() && blocks == map[] && High() == heap
      ensures active <==> at != 0 && len > Round(at) - at + H
      ensures active ==> heap == Round(at) && top == at + len - 1
      ensures SameOutside(old(ram[..]), ram[..], at, at + len)
    {
      hide Sound;
      last, heap, top, active := 0, 0, 0, false;
      blocks := map[];
      if at == 0 || len <= H { return; }
      var start := Round(at);
      if len <= start - at + H { return; }
      FillRange(ram, start, len - (start - at), 0);
      heap, top, active := start, at + len - 1, true;
      EmptySound(ram[..], heap);
    }

    /** bmalloc: append at the high-water mark, else reuse the first free block that is large enough. */
    method Alloc(n: nat) returns (r: nat)
      requires Valid() && n <= SIZE_MAX
      modifies this, ram
      ensures Valid() && heap == old(heap) && top == old(top) && active == old(active)
      ensures r == 0 <==> !(active && n > 0 && Fits(old(blocks), old(High()), top, Round(n)))
      ensures r == 0 && active && n > 0 ==>
        && top - old(High()) < Round(n) + 8
        && forall s | s in old(blocks) && !old(blocks)[s].busy :: old(blocks)[s].end - s < Round(n) + 8
      ensures r != 0 && top - old(High()) < Round(n) + 8 ==>
        && r - 8 in old(blocks) && !old(blocks)[r - 8].busy && old(blocks)[r - 8].end - r >= Round(n)
        && forall s | s in old(blocks) && !old(blocks)[s].busy && s < r - 8 :: old(blocks)[s].end - s < Round(n) + 8
      ensures r == 0 ==> ram[..] == old(ram[..]) && blocks == old(blocks) && High() == old(High())
      ensures r != 0 ==> var s := r - H;
              && s >= heap && r % 4 == 0 && s !in old(Live()) && s in blocks
              && r + Round(n) <= blocks[s].end <= r + Round(n) + H
              && Live() == old(Live())[s := Block(blocks[s].end, true)]
      ensures r != 0 ==> Area() == Placed(old(Area()), top, Round(n))
      ensures r != 0 && FitsTop(old(High()), top, Round(n)) ==>
              && r == old(High()) + H && blocks[r - H].end == High() == r + Round(n)
              && forall a | r <= a < High() :: ram[a] == 0
      ensures r != 0 && !FitsTop(old(High()), top, Round(n)) ==>
              FirstFit(old(blocks), r - H, Round(n)) && High() == old(High())
      ensures SamePayloads(old(Live()), old(ram[..]), ram[..])
      ensures SameOutside(old(ram[..]), ram[..], heap, top + 1)
    {
      FitsMeans(blocks, High(), top, Round(n));
      hide Sound, Fits, FitsBlock, FirstFit, Carve;
      if !active || n == 0 { return 0; }
      var size := Round(n);
      ghost var m0 := ram[..];
      ScanStart(m0, blocks, heap, High());
      if last == 0 { last := heap; }
      assert ram[..] == m0;
      if size + H <= top - last {
        r := Grow(size);
      } else {
        r := AllocHole(size);
      }
    }

    /** bmalloc when there is no room above the mark. */
    method AllocHole(size: nat) returns (r: nat)
      requires Valid() && active && last != 0 && size > 0 && size % 4 == 0
      modifies ram, `blocks
      ensures Valid()
      ensures r == 0 ==> ram[..] == old(ram[..]) && blocks == old(blocks) && forall s :: !FitsBlock(blocks, s, size)
      ensures r != 0 ==>
        && r >= heap + H && r % 4 == 0 && FirstFit(old(blocks), r - H, size) && r - H in blocks
        && r - H !in old(Live()) && blocks == Carve(old(blocks), r - H, size)
        && r + size <= blocks[r - H].end <= r + size + H
        && Live() == old(Live())[r - H := Block(blocks[r - H].end, true)]
      ensures SamePayloads(old(Live()), old(ram[..]), ram[..])
      ensures SameOutside(old(ram[..]), ram[..], heap, top + 1)
    {
      hide Sound, Carve;
      var ptr := FindFit(size);
      r := 0;
      if ptr < last {
        Reuse(ptr, size);
        r := ptr + H;
      }
    }

    /** The first-fit scan: the lowest free block with room for `size`, or the high-water mark. */
    method FindFit(size: nat) returns (ptr: nat)
      requires Valid() && active && last != 0
      ensures ptr < last ==> FirstFit(blocks, ptr, size) && heap <= ptr && ptr % 4 == 0
      ensures ptr < last ==> ptr in blocks && !blocks[ptr].busy && blocks[ptr].end - ptr >= size + 8
      ensures forall s | s in blocks && !blocks[s].busy && s < ptr :: blocks[s].end - s < size + 8
      ensures ptr >= last ==> forall s :: !FitsBlock(blocks, s, size)
    {
      hide Sound;
      ptr := heap;
      ScanStart(ram[..], blocks, heap, last);
      while ptr < last
        invariant ptr <= last && (ptr < last ==> ptr in blocks)
        invariant forall s | s in blocks && s < ptr :: !FitsBlock(blocks, s, size)
        decreases last - ptr
      {
        ScanStep(ram[..], blocks, heap, last, ptr);
        var next := Word(ram[..], ptr + 4);
        if ram[ptr] % 16 == 0 && next - ptr - H >= size {
          return;
        }
        ptr := next;
      }
    }

    /** The fast path: a zeroed block at the high-water mark. */
    method Grow(size: nat) returns (r: nat)
      requires Valid() && active && last != 0 && size > 0 && size % 4 == 0
      requires FitsTop(last, top, size)
      modifies ram, `last, `blocks
      ensures Valid() && r == old(last) + H && last == r + size
      ensures blocks == Append(old(blocks), old(last), size) && old(last) !in old(blocks)
      ensures Live() == old(Live())[r - H := Block(last, true)]
      ensures forall a | r <= a < last :: ram[a] == 0
      ensures SamePayloads(old(blocks), old(ram[..]), ram[..])
      ensures SameOutside(old(ram[..]), ram[..], heap, top + 1)
    {
      hide Sound;
      var s := last;
      ghost var m0 := ram[..];
      ScanStart(m0, blocks, heap, last);
      WriteHeader(ram, s, 1, s + size + H);
      last := s + size + H;
      r := last - size;
      FillRange(ram, r, size, 0);
      assert SameOutside(m0, ram[..], s, s + H + size);
      GrowSound(blocks, heap, s, size, m0, ram[..]);
      AppendBusy(blocks, s, size);
      blocks := Append(blocks, s, size);
    }

    /** Takes free block `ptr`, leaving any usable tail as a new hole. */
    method Reuse(ptr: nat, size: nat)
      requires Valid() && active && size > 0 && size % 4 == 0 && FitsBlock(blocks, ptr, size)
      modifies ram, `blocks
      ensures Valid() && ptr !in old(Live()) && ptr in blocks && blocks == Carve(old(blocks), ptr, size)
      ensures Live() == old(Live())[ptr := Block(blocks[ptr].end, true)]
      ensures ptr + H + size <= blocks[ptr].end <= ptr + H + size + H
      ensures SamePayloads(old(Live()), old(ram[..]), ram[..])
      ensures SameOutside(old(ram[..]), ram[..], heap, top + 1)
    {
      hide Sound;
      ghost var m0 := ram[..];
      ScanStep(m0, blocks, heap, High(), ptr);
      var cut, next := ptr + H + size, Word(ram[..], ptr + 4);
      if next - cut > H {
        WriteHeader(ram, ptr, 1, cut);
        ghost var m1 := ram[..];
        WriteHeader(ram, cut, Unbusy(ram[cut]), next);
        blocks := CutSound(m0, blocks, heap, High(), ptr, size, m1, ram[..]);
      } else {
        WriteHeader(ram, ptr, 1, next);
        blocks := TakeSound(m0, blocks, heap, High(), ptr, size, ram[..]);
      }
    }

    /** bfree: a pointer that is not a live payload of this pool is ignored. */
    method Free(ptr: nat)
      requires Valid()
      modifies this, ram
      ensures Valid() && heap == old(heap) && top == old(top) && active == old(active)
      ensures Live() == old(Live()) - {ptr - H}
      ensures ptr - H !in old(Live()) ==>
              ram[..] == old(ram[..]) && blocks == old(blocks) && High() == old(High())
      ensures SamePayloads(old(Live()), old(ram[..]), ram[..])
      ensures SameOutside(old(ram[..]), ram[..], heap, top + 1)
    {
      hide Sound;
      var prev: nat, curr: nat := heap, heap;
      if !active || ptr == 0 {
        return;
      }
      ghost var m0 := ram[..];
      ScanStart(m0, blocks, heap, High());
      while curr < last && ptr != curr + H
        invariant ram[..] == m0 && (last != 0 ==> Sound(m0, blocks, heap, last))
        invariant heap <= curr && (last != 0 ==> curr <= last)
        invariant curr < last ==> Precedes(blocks, heap, prev, curr)
        invariant forall s | s in blocks && s < curr :: ptr != s + H
        modifies {}
        decreases last - curr
      {
        ScanStep(m0, blocks, heap, last, curr);
        prev := curr;
        curr := Word(ram[..], curr + 4);
      }
      if curr < last {
        ScanStep(m0, blocks, heap, last, curr);
        if ram[curr] % 16 != 0 {
          ReleaseBlock(prev, curr);
        }
      }
    }

    /** A block that is given back is room for any request that is no larger than it. */
    method FreeThenAlloc(ptr: nat, n: nat) returns (r: nat)
      requires Valid() && ptr >= H && ptr - H in Live() && 0 < n <= SIZE_MAX && ptr + Round(n) <= Live()[ptr - H].end
      modifies this, ram
      ensures Valid() && r >= H && r - H in Live()
      ensures Live() - {r - H} == old(Live()) - {ptr - H}
    {
      hide Sound, Tiles, Coalesced;
      ghost var s: nat, live := ptr - H, Live();
      ghost var end := live[s].end;
      LiveApart(ram[..], blocks, heap, High(), s);
      Free(ptr);
      RoomLeft(ram[..], blocks, heap, High(), s, end);
      r := Alloc(n);
    }

    /** Where the space of block `curr` goes when freed, and where it then ends: the neighbours'
        headers decide, with `curr` standing in for a missing successor. */
    method MergePlan(prev: nat, curr: nat) returns (into: nat, joined: nat)
      requires Valid() && active && last != 0
      requires Precedes(blocks, heap, prev, curr) && blocks[curr].busy
      ensures into == Into(blocks, prev, curr) && joined == JoinedEnd(blocks, curr)
      ensures heap <= into && into + H <= ram.Length && joined <= last
    {
      hide Sound;
      NeighboursRead(ram[..], blocks, heap, last, prev, curr);
      var end := Word(ram[..], curr + 4);
      var next := if end < last then end else curr;
      into := if ram[prev] % 16 == 0 then prev else curr;
      joined := if ram[next] % 16 == 0 then Word(ram[..], next + 4) else end;
    }

    /** The body of bfree's scan once the block is found: merge, and lower the high-water mark. */
    method ReleaseBlock(prev: nat, curr: nat)
      requires Valid() && active && last != 0
      requires Precedes(blocks, heap, prev, curr) && blocks[curr].busy
      modifies ram, `last, `blocks
      ensures Valid()
      ensures Live() == old(Live()) - {curr}
      ensures SamePayloads(old(blocks), old(ram[..]), ram[..])
      ensures SameOutside(old(ram[..]), ram[..], heap, top + 1)
    {
      hide Sound;
      ghost var m0, hi := ram[..], 0;
      var into, joined := MergePlan(prev, curr);
      WriteHeader(ram, into, Unbusy(ram[into]), joined);
      blocks, hi := ReleaseSound(m0, blocks, heap, last, prev, curr, ram[..]);
      if Word(ram[..], into + 4) == last {
        last := into;
      }
    }
  }

  /** isBusy = 0: the low nibble is cleared and the pool index in the high nibble stays. */
  function Unbusy(flag: byte): (r: byte)
    ensures r % 16 == 0 && r / 16 == flag / 16
  {
    flag - flag % 16
  }

  /** Stores a header: the flag byte and the `next` pointer. */
  method WriteHeader(ram: array<byte>, s: nat, flag: byte, next: u32)
    requires s + H <= ram.Length
    modifies ram
    ensures SameOutside(old(ram[..]), ram[..], s, s + H)
    ensures ram[s] == flag && Word(ram[..], s + 4) == next
  {
    ram[s] := flag;
    StoreWord(ram, s + 4, next);
  }

  /** memset. */
  method FillRange(ram: array<byte>, at: nat, n: nat, v: byte)
    requires at + n <= ram.Length
    modifies ram
    ensures SameOutside(old(ram[..]), ram[..], at, at + n)
    ensures forall a | at <= a < at + n :: ram[a] == v
  {
    for i := 0 to n
      invariant SameOutside(old(ram[..]), ram[..], at, at + n)
      invariant forall a | at <= a < at + i :: ram[a] == v
    {
      ram[at + i] := v;
    }
  }
}
