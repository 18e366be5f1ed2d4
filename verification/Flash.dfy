/** A flash area as the image store sees it: erase, aligned program, read; every call may fail. */
module Flash {
  import opened Bytes
  import opened Errno
  import opened Alignment

  const ERASED: byte := 0xff

  /** The bytes of an area after programming `data` at `off`. */
  function Programmed(cells: seq<byte>, off: nat, data: seq<byte>): (r: seq<byte>)
    requires off + |data| <= |cells|
    ensures |r| == |cells|
  {
    cells[..off] + data + cells[off + |data|..]
  }

  function Marked(used: seq<bool>, off: nat, n: nat): (r: seq<bool>)
    requires off + n <= |used|
    ensures |r| == |used|
    ensures forall i | 0 <= i < |used| :: r[i] == (used[i] || off <= i < off + n)
  {
    seq(|used|, i requires 0 <= i < |used| => used[i] || off <= i < off + n)
  }

  /** Programming leaves the other cells alone, and what is then unused erased. */
  lemma ProgrammedCells(cells: seq<byte>, used: seq<bool>, off: nat, data: seq<byte>)
    requires |used| == |cells| && off + |data| <= |cells|
    requires forall i | 0 <= i < |cells| && !used[i] :: cells[i] == ERASED
    ensures var c, u := Programmed(cells, off, data), Marked(used, off, |data|);
      && (forall i | 0 <= i < |c| && !(off <= i < off + |data|) :: c[i] == cells[i])
      && (forall i | 0 <= i < |c| && !u[i] :: c[i] == ERASED)
  {
  }

  class FlashArea {
    const size: nat
    const align: nat
    var cells: seq<byte>
    var used: seq<bool>            // cells programmed since the last erase
    ghost var rewrites: nat        // how often a program touched a cell already in use
    ghost var faults: nat          // how many device operations failed

    ghost predicate Valid()
      reads this
    {
      && |cells| == size && |used| == size && align > 0 && Multiple(size, align)
      && forall i | 0 <= i < size && !used[i] :: cells[i] == ERASED
    }

    constructor (size: nat, align: nat)
      requires align > 0 && Multiple(size, align)
      ensures Valid() && this.size == size && this.align == align
    {
      this.size, this.align := size, align;
      cells := Fill(size, ERASED);
      used, rewrites, faults := seq(size, _ => false), 0, 0;
    }

    /** flash_area_open and device_is_ready: may fail. */
    method Open() returns (rc: int)
      modifies `faults
      ensures rc == 0 ==> faults == old(faults)
      ensures rc != 0 ==> rc < 0 && faults == old(faults) + 1
    {
      rc := 0;
      if * {
        rc :| rc < 0;
        faults := faults + 1;
      }
    }

    /** flash_area_flatten of the whole area. */
    method Flatten() returns (rc: int)
      requires Valid()
      modifies this
      ensures Valid() && rewrites == old(rewrites)
      ensures rc == 0 ==> faults == old(faults) && forall i | 0 <= i < size :: !used[i] && cells[i] == ERASED
      ensures rc != 0 ==> rc < 0 && faults == old(faults) + 1
    {
      if * {
        rc :| rc < 0;
        faults := faults + 1;
        var left: seq<byte> :| |left| == size;
        cells, used := left, seq(size, _ => true);
      } else {
        rc := 0;
        cells, used := Fill(size, ERASED), seq(size, _ => false);
      }
    }

    /** flash_area_write: refuses ranges outside the area or off the write alignment; a fault leaves
        the range in any state. */
    method Write(off: nat, data: seq<byte>) returns (rc: int)
      requires Valid()
      modifies this
      ensures Valid()
      ensures rc == 0 ==> faults == old(faults) && off + |data| <= size
      ensures rc == 0 ==> Multiple(off, align) && Multiple(|data|, align)
      ensures rc == 0 ==> off % align == 0 && |data| % align == 0
      ensures rc == 0 ==> used == Marked(old(used), off, |data|)
      ensures rc == 0 && (forall i | off <= i < off + |data| :: !old(used)[i]) ==>
        cells == Programmed(old(cells), off, data) && rewrites == old(rewrites)
      ensures rc != 0 ==> rc < 0
      ensures forall i | 0 <= i < size && !(off <= i < off + |data|) :: cells[i] == old(cells)[i]
      ensures faults == old(faults) ==>
        rc == if off + |data| <= size && Multiple(off, align) && Multiple(|data|, align) then 0 else -EINVAL
      ensures faults == old(faults) || faults == old(faults) + 1
      ensures rc == -EINVAL && faults == old(faults) ==>
        cells == old(cells) && used == old(used) && rewrites == old(rewrites)
    {
      AlignedMeans(off, align);
      AlignedMeans(|data|, align);
      hide Multiple, Programmed, Marked;
      if off + |data| > size || !Multiple(off, align) || !Multiple(|data|, align) {
        return -EINVAL;
      }
      var stored := data;
      if exists i | off <= i < off + |data| :: used[i] {
        stored :| |stored| == |data|;
        rewrites := rewrites + 1;
      }
      rc := 0;
      if * {
        rc :| rc < 0;
        stored :| |stored| == |data|;
        faults := faults + 1;
      }
      ProgrammedCells(cells, used, off, stored);
      cells := Programmed(cells, off, stored);
      used := Marked(used, off, |data|);
    }

    /** flash_area_read. */
    method Read(off: nat, len: nat) returns (rc: int, data: seq<byte>)
      requires Valid()
      modifies `faults
      ensures rc == 0 ==> faults == old(faults) && off + len <= size && data == cells[off..off + len]
      ensures rc != 0 ==> rc < 0
      ensures faults == old(faults) || faults == old(faults) + 1
      ensures faults == old(faults) ==> rc == if off + len <= size then 0 else -EINVAL
    {
      data := [];
      if off + len > size { return -EINVAL, data; }
      if * {
        rc :| rc < 0;
        faults := faults + 1;
      } else {
        rc, data := 0, cells[off..off + len];
      }
    }
  }
}
