/** rtbus_image.c: the buffered image store, its commit to the slot, and the readers of the slot. */
module ImageStores {
  import opened Bytes
  import opened Errno
  import opened Crc
  import opened Alignment
  import opened Flash
  import opened ImageHeader

  const CHUNK: nat := 128     // the device's copy and checksum buffer

  /** flash[0..offset) and the pending bytes together are all accepted bytes, and everything from
      the write offset on is still erased. */
  ghost predicate Buffered(cells: seq<byte>, used: seq<bool>, offset: nat, pending: seq<byte>, accepted: seq<byte>)
  {
    && |used| == |cells| && offset <= |cells| && offset + |pending| == |accepted|
    && cells[..offset] + pending == accepted
    && forall i | offset <= i < |cells| :: !used[i]
  }

  /** Bytes join the buffer. */
  lemma BufferMore(cells: seq<byte>, used: seq<bool>, offset: nat, pending: seq<byte>, accepted: seq<byte>,
                   more: seq<byte>)
    requires Buffered(cells, used, offset, pending, accepted)
    ensures Buffered(cells, used, offset, pending + more, accepted + more)
  {
    assert cells[..offset] + (pending + more) == (cells[..offset] + pending) + more;
  }

  lemma HeldIs(cells: seq<byte>, used: seq<bool>, offset: nat, pending: seq<byte>, accepted: seq<byte>)
    requires Buffered(cells, used, offset, pending, accepted)
    ensures offset <= |cells| && cells[..offset] + pending == accepted
  {
  }

  /** The buffer, padded, goes to flash: each cell is programmed for the first time. */
  lemma BufferFlushed(cells: seq<byte>, used: seq<bool>, offset: nat, pending: seq<byte>, pad: seq<byte>,
                      accepted: seq<byte>)
    requires Buffered(cells, used, offset, pending, accepted) && offset + |pending| + |pad| <= |cells|
    ensures var c, n := Programmed(cells, offset, pending + pad), offset + |pending| + |pad|;
      && c[..|accepted|] == accepted && c[|accepted|..n] == pad
      && (pad == [] ==> Buffered(c, Marked(used, offset, |pending|), n, [], accepted))
      && forall i | n <= i < |c| :: c[i] == cells[i]
  {
    var c, n := Programmed(cells, offset, pending + pad), offset + |pending| + |pad|;
    assert c[..|accepted|] == cells[..offset] + pending;
    assert c[|accepted|..n] == pad;
    if pad == [] { assert c[..n] + [] == accepted; }
  }

  class ImageStore {
    const slot: FlashArea
    const direct: FlashArea       // the staging area; the slot itself when the board has no other
    const ramMax: nat             // CONFIG_RTBUS_IMAGE_RAM_MAX
    const pending: array<byte>    // flash_pending, CONFIG_RTBUS_IMAGE_FLASH_PENDING_MAX bytes
    var active: bool
    var offset: nat               // flash_write_offset
    var align: nat                // flash_align
    var len: nat                  // flash_pending_len
    var expected: nat
    var written: nat
    ghost var accepted: seq<byte> // the bytes of all successful writes of the session
    ghost var clean: bool         // no write of the session failed

    constructor (slot: FlashArea, direct: FlashArea, pending: array<byte>, ramMax: nat)
      requires slot.Valid() && direct.Valid() && pending.Length > 0
      requires slot.align > CHUNK || Multiple(CHUNK, slot.align)
      ensures Valid() && !active && this.slot == slot && this.direct == direct
      ensures this.pending == pending && this.ramMax == ramMax
    {
      this.slot, this.direct, this.pending, this.ramMax := slot, direct, pending, ramMax;
      active, offset, align, len, expected, written := false, 0, 0, 0, 0, 0;
      accepted, clean := [], true;
    }

    /** The bookkeeping is consistent, also while a write is under way or after a failed one. */
    ghost predicate Config()
      reads this, slot, direct
    {
      && slot.Valid() && direct.Valid() && pending.Length > 0 && len <= pending.Length
      && (slot.align > CHUNK || Multiple(CHUNK, slot.align))
      && (active ==>
            && HEADER_SIZE <= expected <= slot.size && expected <= direct.size
            && align == direct.align && align <= pending.Length && written <= expected)
    }

    /** The writer invariant while no flash operation of the session failed: `taken` are the bytes
        put in so far. */
    ghost predicate Writer(taken: seq<byte>)
      reads this, slot, direct, pending
    {
      && Config() && active && written == |accepted| && |taken| <= expected
      && Buffered(direct.cells, direct.used, offset, pending[..len], taken)
      && Multiple(offset, align)
    }

    ghost predicate Valid()
      reads this, slot, direct, pending
    {
      Config() && (active && clean ==> Writer(accepted) && len < pending.Length)
    }

    /** How many bytes the store holds beyond those it counts as written. */
    ghost function Ahead(): int
      reads this
    {
      offset + len - written
    }

    /** What the store holds: the programmed bytes, then the pending ones. */
    ghost function Held(): seq<byte>
      reads this, direct, pending
      requires offset <= |direct.cells| && len <= pending.Length
    {
      direct.cells[..offset] + pending[..len]
    }

    /** A write is refused before it touches anything. */
    ghost predicate Refused(at: nat, data: seq<byte>)
      reads this
    {
      !active || at != written || |data| > expected - at
    }

    /** rtbus_image_store_reset. */
    method Reset()
      requires Config()
      modifies this
      ensures Valid() && !active && clean && accepted == []
      ensures offset == align == len == expected == written == 0
    {
      active, offset, align, len, expected, written := false, 0, 0, 0, 0, 0;
      accepted, clean := [], true;
    }

    /** rtbus_image_store_begin. */
    method Begin(size: nat) returns (rc: int)
      requires Valid()
      modifies this, direct
      ensures Valid()
      ensures rc == 0 ==> active && clean && accepted == [] && expected == size
      ensures rc == 0 ==> forall i | 0 <= i < |direct.cells| :: direct.cells[i] == 0xff
      ensures rc != 0 ==> rc < 0
      ensures rc == 0 ==> direct.faults == old(direct.faults) && direct.rewrites == old(direct.rewrites)
      ensures direct.faults == old(direct.faults) ==>
        rc == if size < 128 then -EINVAL
              else if old(active) then -EBUSY
              else if size > slot.size || size > direct.size then -EFBIG
              else if direct.align > pending.Length then -EINVAL
              else 0
      ensures rc != 0 ==> active == old(active)
      ensures old(active) && size >= HEADER_SIZE ==> rc == -EBUSY
      ensures direct.faults >= old(direct.faults)
    {
      if size < HEADER_SIZE { return -EINVAL; }
      if active { return -EBUSY; }
      Reset();
      if size > slot.size { return -EFBIG; }
      rc := direct.Open();
      if rc != 0 { Reset(); return; }
      if size > direct.size { Reset(); return -EFBIG; }
      align := direct.align;
      if align == 0 || align > pending.Length { Reset(); return -EINVAL; }
      rc := direct.Flatten();
      if rc != 0 { Reset(); return; }
      expected, active := size, true;
      ZeroAligned(align);
      assert direct.cells[..0] + pending[..0] == [];
    }

    /** rtbus_image_store_flush_flash(false): program the buffer when it is full. */
    method FlushFull(ghost taken: seq<byte>) returns (rc: int)
      requires Config() && active && (clean ==> Writer(taken))
      modifies `offset, `len, direct
      ensures Config()
      ensures rc != 0 ==> rc < 0 && len == old(len) && offset == old(offset)
      ensures offset + len == old(offset + len)
      ensures rc != 0 && old(offset) <= direct.size ==> direct.cells[..offset] == old(direct.cells[..offset])
      ensures rc == 0 ==> direct.faults == old(direct.faults)
      ensures rc == 0 ==> len == (if old(len) == pending.Length then 0 else old(len))
      ensures rc == 0 && clean ==> Writer(taken) && direct.rewrites == old(direct.rewrites)
      ensures clean && direct.faults == old(direct.faults) ==>
        rc == if !Multiple(pending.Length, align) then -EINVAL else 0
      ensures rc == 0 ==> Multiple(pending.Length, align)
      ensures !Multiple(pending.Length, align) ==> rc == -EINVAL
      ensures direct.faults >= old(direct.faults)
    {
      if align == 0 || align > pending.Length || !Multiple(pending.Length, align) { return -EINVAL; }
      if len < pending.Length { return 0; }
      assert pending[..len] + [] == pending[..] == pending[..len];
      if clean {
        BufferFlushed(direct.cells, direct.used, offset, pending[..len], [], taken);
        SumAligned(offset, len, align);
      }
      rc := direct.Write(offset, pending[..]);
      if rc != 0 { return; }
      offset := offset + len;
      len := 0;
    }

    /** memcpy into the pending buffer. */
    method CopyIn(data: seq<byte>, n: nat)
      requires n <= |data| && len + n <= pending.Length
      modifies pending, `len
      ensures len == old(len) + n && pending[..len] == old(pending[..len]) + data[..n]
    {
      for i := 0 to n
        invariant len == old(len)
        invariant pending[..len + i] == old(pending[..len]) + data[..i]
      {
        pending[len + i] := data[i];
        assert data[..i + 1] == data[..i] + [data[i]];
      }
      len := len + n;
    }

    /** One turn of that loop: fill the buffer as far as it goes, and program it if it is full. */
    method AppendPart(data: seq<byte>, ghost taken: seq<byte>) returns (rc: int, n: nat)
      requires Config() && active && data != []
      requires clean ==> Writer(taken) && len < pending.Length && |taken| + |data| <= expected
      modifies `offset, `len, pending, direct
      ensures Config() && n == Min(|data|, pending.Length - old(len)) && (rc != 0 ==> rc < 0)
      ensures offset + len == old(offset + len) + n
      ensures rc == 0 ==> direct.faults == old(direct.faults) && Multiple(pending.Length, align)
      ensures rc == 0 && clean ==>
        Writer(taken + data[..n]) && len < pending.Length && direct.rewrites == old(direct.rewrites)
      ensures rc != 0 && clean ==> offset <= direct.size && Held() == taken + data[..n]
      ensures clean && direct.faults == old(direct.faults) ==>
        rc == if !Multiple(pending.Length, align) then -EINVAL else 0
      ensures !Multiple(pending.Length, align) ==>
        rc == -EINVAL && offset == old(offset) && pending[..len] == old(pending[..len]) + data[..n]
      ensures rc == 0 && old(len) == pending.Length ==> len < pending.Length
      ensures direct.faults >= old(direct.faults)
    {
      hide Buffered, Multiple;
      n := Min(|data|, pending.Length - len);
      if clean {
        BufferMore(direct.cells, direct.used, offset, pending[..len], taken, data[..n]);
        HeldIs(direct.cells, direct.used, offset, pending[..len] + data[..n], taken + data[..n]);
      }
      CopyIn(data, n);
      rc := FlushFull(taken + data[..n]);
    }

    /** rtbus_image_store_write_flash: fill the buffer, programming it each time it is full. */
    method Append(data: seq<byte>) returns (rc: int)
      requires Valid() && active && |data| <= expected - written
      modifies `offset, `len, pending, direct
      ensures Config() && (rc != 0 ==> rc < 0 && data != [])
      ensures rc == 0 ==> offset + len == old(offset + len) + |data|
      ensures rc != 0 && clean ==> var k := offset + len - |accepted|;
        0 < k <= |data| && offset <= direct.size && Held() == accepted + data[..k]
      ensures !Multiple(pending.Length, align) && data != [] ==>
        rc == -EINVAL && offset == old(offset)
        && pending[..len] == old(pending[..len]) + data[..Min(|data|, pending.Length - old(len))]
      ensures rc == 0 ==> direct.faults == old(direct.faults)
      ensures rc == 0 && clean ==>
        Writer(accepted + data) && len < pending.Length && direct.rewrites == old(direct.rewrites)
      ensures clean && direct.faults == old(direct.faults) ==>
        rc == if data != [] && !Multiple(pending.Length, align) then -EINVAL else 0
      ensures direct.faults >= old(direct.faults)
    {
      hide Buffered, Multiple;
      var k := 0;
      rc := 0;
      assert accepted + data[..0] == accepted;
      while k < |data|
        invariant 0 <= k <= |data| && Config() && active
        invariant direct.faults == old(direct.faults) && offset + len == old(offset + len) + k
        invariant clean ==> Writer(accepted + data[..k]) && len < pending.Length
        invariant clean ==> direct.rewrites == old(direct.rewrites)
        invariant !Multiple(pending.Length, align) ==>
          k == 0 && offset == old(offset) && len == old(len) && pending[..len] == old(pending[..len])
        decreases |data| - k, if len == pending.Length then 1 else 0
      {
        var n;
        rc, n := AppendPart(data[k..], accepted + data[..k]);
        assert data[k..][..n] == data[k..k + n] && data[..k] + data[k..k + n] == data[..k + n];
        assert accepted + data[..k] + data[k..k + n] == accepted + data[..k + n];
        k := k + n;
        if rc != 0 { return; }
      }
      assert data[..k] == data;
    }

    /** rtbus_image_store_write.  After a write that was neither accepted nor refused the store holds
        part of the data without counting it: the counters agree again, and with them the writer
        invariant holds, exactly if the write was accepted or refused. */
    method Write(at: nat, data: seq<byte>) returns (rc: int)
      requires Valid()
      modifies this, pending, direct
      ensures Valid() && active == old(active) && expected == old(expected) && align == old(align)
      ensures rc == 0 ==> active && accepted == old(accepted) + data && clean == old(clean)
      ensures rc == 0 ==> written == old(written) + |data|
      ensures rc == 0 ==> direct.faults == old(direct.faults)
      ensures rc == 0 && clean ==> direct.rewrites == old(direct.rewrites)
      ensures rc != 0 ==> rc < 0 && accepted == old(accepted) && written == old(written)
      ensures !active || at != old(written) ==> rc == -EINVAL
      ensures active && at == old(written) && |data| > expected - at ==> rc == -EFBIG
      ensures (!old(Refused(at, data)) && old(clean)
               && Multiple(pending.Length, align) && direct.faults == old(direct.faults)) ==> rc == 0
      ensures old(Refused(at, data)) ==> clean == old(clean) && offset == old(offset) && len == old(len)
      ensures rc == 0 || old(Refused(at, data)) ==> Ahead() == old(Ahead())
      ensures old(active && clean) ==> (Ahead() == 0 <==> rc == 0 || old(Refused(at, data)))
      ensures old(active && clean) ==> (Writer(accepted) <==> rc == 0 || old(Refused(at, data)))
      ensures old(active && clean) && rc != 0 && !old(Refused(at, data)) ==>
        0 < Ahead() <= |data| && offset <= direct.size && Held() == accepted + data[..Ahead()]
      ensures !old(Refused(at, data)) && !Multiple(pending.Length, align) && data != [] ==>
        rc == -EINVAL && offset == old(offset)
        && pending[..len] == old(pending[..len]) + data[..Min(|data|, pending.Length - old(len))]
      ensures direct.faults >= old(direct.faults)
    {
      hide Multiple;
      if active && clean { WriterCounts(accepted); }
      if !active { return -EINVAL; }
      if at != written { return -EINVAL; }
      if |data| > expected - written { return -EFBIG; }
      rc := Append(data);
      if rc != 0 {
        clean := false;
        return;
      }
      written := written + |data|;
      accepted := accepted + data;
    }

    lemma WriterCounts(taken: seq<byte>)
      requires Writer(taken) && |taken| == written
      ensures Ahead() == 0
    {
      hide Multiple;
    }

    /** A failing run, and why it must not be retried: where the buffer is not a multiple of the write
        alignment every write fails behind its copy, and the same write again puts the same bytes behind
        the first ones, while the count of written bytes stands still. */
    method RetriedWrite(data: seq<byte>) returns (first: int, second: int)
      requires Valid() && active && clean && !Multiple(pending.Length, align)
      requires data != [] && |data| <= expected - written && len + 2 * |data| <= pending.Length
      modifies this, pending, direct
      ensures Valid() && first == second == -EINVAL && written == old(written)
      ensures pending[..len] == old(pending[..len]) + data + data && Ahead() == 2 * |data|
    {
      hide Multiple;
      WriterCounts(accepted);
      ghost var before := pending[..len];
      first := Write(written, data);
      assert data[..|data|] == data;
      second := Write(written, data);
      assert pending[..len] == before + data + data;
    }

    /** The staging area holds exactly the image, followed by nothing but erased bytes. */
    ghost predicate Flushed(img: seq<byte>)
      reads this, direct
    {
      && |img| == expected == written <= |direct.cells|
      && direct.cells[..expected] == img
      && forall i | expected <= i < |direct.cells| :: direct.cells[i] == ERASED
    }

    /** memset of the buffer's unused part up to `n`. */
    method Pad(n: nat)
      requires len <= n <= pending.Length
      modifies pending
      ensures pending[..n] == old(pending[..len]) + Fill(n - len, ERASED)
    {
      for i := len to n
        invariant pending[..len] == old(pending[..len]) && forall j | len <= j < i :: pending[j] == ERASED
      {
        pending[i] := ERASED;
      }
    }

    /** rtbus_image_store_flush_flash(true): program what is left, padded to the write alignment. */
    method FlushFinal() returns (rc: int)
      requires Valid() && active && written == expected
      modifies `offset, `len, pending, direct
      ensures Config()
      ensures rc != 0 ==> rc < 0
      ensures rc == 0 ==> direct.faults == old(direct.faults)
      ensures rc == 0 && clean ==> Flushed(accepted) && direct.rewrites == old(direct.rewrites)
      ensures rc == 0 && clean ==> forall i | expected <= i < |direct.cells| :: direct.cells[i] == 0xff
      ensures clean && direct.faults == old(direct.faults) ==>
        rc == if !Multiple(pending.Length, align) then -EINVAL else 0
      ensures direct.faults >= old(direct.faults)
    {
      if align == 0 || align > pending.Length || !Multiple(pending.Length, align) { return -EINVAL; }
      hide Multiple, RoundUp, Buffered;
      if len == 0 {
        if clean { FinalFlush(direct.cells, direct.used, offset, pending[..0], 0, accepted); }
        return 0;
      }
      var n := RoundUp(len, align);
      RoundUpFacts(len, align);
      RoundUpLeast(len, align, pending.Length);
      ghost var data := pending[..len];
      Pad(n);
      if clean {
        ChunkFits(offset, len, align, direct.size, 0);
        FinalFlush(direct.cells, direct.used, offset, data, n - len, accepted);
      }
      rc := direct.Write(offset, pending[..n]);
      if rc != 0 { return; }
      offset := offset + n;
      len := 0;
    }

    /** rtbus_image_store_read. */
    method ReadStore(at: nat, n: nat) returns (rc: int, data: seq<byte>)
      requires Config() && active
      modifies direct`faults
      ensures Config()
      ensures rc == 0 ==> direct.faults == old(direct.faults) && at + n <= written && data == direct.cells[at..at + n]
      ensures rc != 0 ==> rc < 0
      ensures direct.faults == old(direct.faults) && at + n <= written ==> rc == 0
      ensures direct.faults >= old(direct.faults)
    {
      if at > written || n > written - at { return -EINVAL, []; }
      rc, data := direct.Read(at, n);
    }

    /** rtbus_image_read_header_from_store. */
    method StoreHeader() returns (rc: int, h: Header)
      requires Config() && active && written == expected
      modifies direct`faults
      ensures Config()
      ensures rc == 0 ==> direct.faults == old(direct.faults)
      ensures rc == 0 ==> h == Parse(direct.cells) && HeaderOk(h, expected - HEADER_SIZE)
      ensures rc != 0 ==> rc == -ENODATA
      ensures direct.faults == old(direct.faults) ==>
        (rc == 0 <==> HeaderOk(Parse(direct.cells), expected - HEADER_SIZE))
      ensures direct.faults >= old(direct.faults)
    {
      var data;
      rc, data := ReadStore(0, HEADER_SIZE);
      if rc != 0 { return -ENODATA, Header(0, 0, 0, 0, 0, [], [], 0, 0, []); }
      h := Parse(data);
      ParsePrefix(data, direct.cells);
      if !HeaderOk(h, expected - HEADER_SIZE) { rc := -ENODATA; }
    }

    /** rtbus_image_calculate_store_payload_crc: in chunks of 128 bytes. */
    method StoreCrc(n: nat) returns (rc: int, crc: bv32)
      requires Config() && active && HEADER_SIZE + n <= written
      modifies direct`faults
      ensures Config() && (rc != 0 ==> rc < 0)
      ensures rc == 0 ==> direct.faults == old(direct.faults)
      ensures rc == 0 ==> crc == Crc32(0, direct.cells[HEADER_SIZE..HEADER_SIZE + n])
      ensures direct.faults == old(direct.faults) ==> rc == 0
      ensures direct.faults >= old(direct.faults)
    {
      hide Crc32;
      ghost var cells := direct.cells;
      var at := 0;
      crc, rc := 0, 0;
      Crc32Empty();
      assert cells[HEADER_SIZE..HEADER_SIZE] == [];
      while at < n
        invariant at <= n && Config() && direct.faults == old(direct.faults)
        invariant crc == Crc32(0, cells[HEADER_SIZE..HEADER_SIZE + at])
      {
        var len := Min(CHUNK, n - at);
        var data;
        rc, data := ReadStore(HEADER_SIZE + at, len);
        if rc != 0 { return; }
        Crc32Chunks(0, cells[HEADER_SIZE..HEADER_SIZE + at], data);
        assert cells[HEADER_SIZE..HEADER_SIZE + at] + data == cells[HEADER_SIZE..HEADER_SIZE + at + len];
        crc := Crc32(crc, data);
        at := at + len;
      }
    }

    /** rtbus_image_commit_store_to_slot: nothing to do when the store is the slot, else erase the
        slot and copy the image over in chunks. */
    method Commit() returns (rc: int)
      requires Config() && active && written == expected
      modifies slot, direct`faults
      ensures Config()
      ensures rc == 0 ==> slot.faults == old(slot.faults) && direct.faults == old(direct.faults)
      ensures rc == 0 ==> slot.cells[..expected] == old(direct.cells)[..expected]
      ensures rc != 0 ==> rc < 0
      ensures slot == direct ==> rc == 0 && slot.cells == old(slot.cells)
      ensures slot.faults == old(slot.faults) && direct.faults == old(direct.faults) ==>
        rc == if slot != direct && slot.align > CHUNK then -EINVAL else 0
      ensures direct.faults >= old(direct.faults) && slot.faults >= old(slot.faults)
    {
      if written != expected { return -EINVAL; }
      if slot == direct { return 0; }
      rc := slot.Open();
      if rc != 0 { return; }
      if expected > slot.size { return -EFBIG; }
      if slot.align == 0 || slot.align > CHUNK { return -EINVAL; }
      var at := 0;
      rc := slot.Flatten();
      while rc == 0 && at < expected
        invariant at <= expected && Config() && rc <= 0
        invariant direct.cells == old(direct.cells) && slot != direct
        invariant rc == 0 ==> slot.faults == old(slot.faults) && direct.faults == old(direct.faults)
        invariant direct.faults >= old(direct.faults) && slot.faults >= old(slot.faults)
        invariant rc == 0 ==> slot.cells[..at] == direct.cells[..at]
        invariant rc == 0 && at < expected ==>
          Multiple(at, slot.align) && forall i | at <= i < slot.size :: !slot.used[i]
        invariant rc != 0 ==> slot.faults != old(slot.faults) || direct.faults != old(direct.faults)
        decreases expected - at, if rc == 0 then 1 else 0
      {
        rc, at := CopyChunk(at);
      }
    }

    /** One chunk of the commit. */
    method CopyChunk(at: nat) returns (rc: int, next: nat)
      requires Config() && active && slot != direct && at < expected && slot.align <= CHUNK
      requires Multiple(at, slot.align) && forall i | at <= i < slot.size :: !slot.used[i]
      modifies slot, direct`faults
      ensures Config() && rc <= 0 && at <= next <= expected
      ensures rc == 0 ==> slot.faults == old(slot.faults) && direct.faults == old(direct.faults)
      ensures rc == 0 ==> at < next && slot.cells[..next] == old(slot.cells)[..at] + direct.cells[at..next]
      ensures rc == 0 && next < expected ==>
        Multiple(next, slot.align) && forall i | next <= i < slot.size :: !slot.used[i]
      ensures rc != 0 ==> slot.faults > old(slot.faults) || direct.faults > old(direct.faults)
      ensures direct.faults >= old(direct.faults) && slot.faults >= old(slot.faults)
    {
      hide Multiple, RoundUp;
      var n := Min(CHUNK, expected - at);
      var w := RoundUp(n, slot.align);
      ChunkFits(at, n, slot.align, slot.size, CHUNK);
      var data;
      rc, data := direct.Read(at, n);
      if rc != 0 { return rc, at; }
      next := at + n;
      assert next < expected ==> n == CHUNK && w == n;
      rc := slot.Write(at, data + Fill(w - n, ERASED));
    }

    /** rtbus_image_store_finish.  `committing` says whether the checks were passed and the commit to
        the slot began. */
    method Finish(status: int) returns (rc: int, ghost committing: bool)
      requires Valid()
      modifies this, pending, direct, slot
      ensures Valid() && !active
      ensures !old(active) ==> rc == -EINVAL && !committing
      ensures old(active) && status != 0 ==> rc == status
      ensures status != 0 ==> !committing
      ensures rc == 0 ==> old(active) && status == 0 && committing && old(written) == old(expected)
      ensures rc == 0 && old(clean) ==> old(expected) == |old(accepted)| && Installed(slot.cells, old(accepted), ramMax)
      ensures rc == 0 ==> GoodImage(slot.cells[..old(expected)], ramMax)
      ensures rc == 0 ==> slot.cells[..8] == [0x4d, 0x43, 0x46, 0x57, 2, 0, 128, 0]
      ensures rc == 0 ==> 1 <= Word(slot.cells, 8) <= old(expected) - 128
      ensures committing ==> GoodImage(direct.cells[..old(expected)], ramMax)
      ensures committing && old(clean) ==> GoodImage(old(accepted), ramMax)
      ensures !committing && slot != direct ==> slot.cells == old(slot.cells)
      ensures old(active) && old(clean) && direct.faults == old(direct.faults) && slot.faults == old(slot.faults) ==>
        (rc == 0 <==>
           && status == 0 && old(written) == old(expected)
           && Multiple(pending.Length, direct.align) && GoodImage(old(accepted), ramMax)
           && (slot == direct || slot.align <= CHUNK))
      ensures old(active) && old(clean) && direct.faults == old(direct.faults) && slot.faults == old(slot.faults)
              && status == 0 && old(written) == old(expected) && Multiple(pending.Length, direct.align) ==>
        && |old(accepted)| >= 128
        && (Verdict(old(accepted), ramMax) != 0 ==> rc == Verdict(old(accepted), ramMax) && !committing)
        && (old(accepted)[..8] != [0x4d, 0x43, 0x46, 0x57, 2, 0, 128, 0] ==> rc == -ENODATA)
      ensures direct.faults >= old(direct.faults) && slot.faults >= old(slot.faults)
    {
      hide GoodImage, Crc32, Buffered, Multiple;
      committing := false;
      if !active { return -EINVAL, false; }
      rc := status;
      if rc == 0 && written != expected { rc := -EIO; }
      if rc == 0 { rc := FlushFinal(); }
      if rc == 0 { rc := Verify(); }
      if rc == 0 {
        committing := true;
        rc := Commit();
      }
      Reset();
    }

    /** The checks of rtbus_image_store_finish on what is stored, whatever the writes put there. */
    method Verify() returns (rc: int)
      requires Config() && active && written == expected
      modifies direct`faults
      ensures Config()
      ensures rc == 0 ==> direct.faults == old(direct.faults)
      ensures rc != 0 ==> rc < 0
      ensures rc == 0 ==> GoodImage(direct.cells[..expected], ramMax)
      ensures direct.faults == old(direct.faults) ==> (rc == 0 <==> GoodImage(direct.cells[..expected], ramMax))
      ensures direct.faults == old(direct.faults) ==> rc == Verdict(direct.cells[..expected], ramMax)
      ensures direct.faults >= old(direct.faults)
    {
      hide Crc32, Parse, GoodImage, Verdict, Number32;
      var h, crc;
      ghost var img := direct.cells[..expected];
      StoredParse(direct.cells, img);
      VerdictCases(img, ramMax);
      rc, h := StoreHeader();
      if rc != 0 { return; }
      if h.payloadSize > expected - HEADER_SIZE { return -EBADMSG; }
      StoredSlice(direct.cells, img, HEADER_SIZE, HEADER_SIZE + h.payloadSize);
      if h.ram > ramMax { return -ENOMEM; }
      rc, crc := StoreCrc(h.payloadSize);
      if rc != 0 { return; }
      if Number32(crc) != h.payloadCrc { return -EBADMSG; }
    }

    /** rtbus_image_read_header_from_area on the slot. */
    method SlotHeader() returns (rc: int, h: Header)
      requires Valid()
      modifies slot`faults
      ensures Valid()
      ensures rc == 0 ==> slot.faults == old(slot.faults) && slot.size >= HEADER_SIZE && h == Parse(slot.cells)
      ensures rc == 0 ==> HeaderOk(h, slot.size - HEADER_SIZE) && Recognised(slot.cells, slot.size - HEADER_SIZE)
      ensures slot.faults == old(slot.faults) && slot.size >= HEADER_SIZE ==>
        rc == if Recognised(slot.cells, slot.size - HEADER_SIZE) then 0 else -ENODATA
      ensures slot.faults == old(slot.faults) && slot.size >= HEADER_SIZE ==>
        rc == if HeaderOk(Parse(slot.cells), slot.size - HEADER_SIZE) then 0 else -ENODATA
      ensures rc != 0 ==> rc < 0
    {
      var data;
      rc, data := slot.Read(0, HEADER_SIZE);
      if rc != 0 { return rc, Header(0, 0, 0, 0, 0, [], [], 0, 0, []); }
      h := Parse(data);
      ParsePrefix(data, slot.cells);
      HeaderMeans(slot.cells, slot.size - HEADER_SIZE);
      if !HeaderOk(h, slot.size - HEADER_SIZE) { rc := -ENODATA; }
    }

    /** rtbus_image_calculate_payload_crc on the slot. */
    method SlotCrc(n: nat) returns (rc: int, crc: bv32)
      requires Valid() && HEADER_SIZE + n <= slot.size
      modifies slot`faults
      ensures Valid() && (rc != 0 ==> rc < 0)
      ensures rc == 0 ==> slot.faults == old(slot.faults) && crc == Crc32(0, slot.cells[HEADER_SIZE..HEADER_SIZE + n])
      ensures slot.faults == old(slot.faults) ==> rc == 0
    {
      hide Crc32;
      ghost var cells := slot.cells;
      var at := 0;
      crc, rc := 0, 0;
      Crc32Empty();
      assert cells[HEADER_SIZE..HEADER_SIZE] == [];
      while at < n
        invariant at <= n && Valid() && slot.faults == old(slot.faults)
        invariant crc == Crc32(0, cells[HEADER_SIZE..HEADER_SIZE + at])
      {
        var len := Min(CHUNK, n - at);
        var data;
        rc, data := slot.Read(HEADER_SIZE + at, len);
        if rc != 0 { return; }
        Crc32Chunks(0, cells[HEADER_SIZE..HEADER_SIZE + at], data);
        assert cells[HEADER_SIZE..HEADER_SIZE + at] + data == cells[HEADER_SIZE..HEADER_SIZE + at + len];
        crc := Crc32(crc, data);
        at := at + len;
      }
    }

    /** rtbus_image_get_status: succeeds, unless a read fails, exactly when the slot holds a sound
        header and a payload with the right checksum, and then reports the header's fields. */
    method GetStatus() returns (rc: int, status: Status)
      requires Valid()
      modifies slot`faults
      ensures Valid()
      ensures slot.faults == old(slot.faults) && slot.size >= HEADER_SIZE ==> (rc == 0 <==> Runnable(slot.cells))
      ensures rc == 0 ==> slot.size >= HEADER_SIZE && status == StatusOf(Parse(slot.cells)) && Runnable(slot.cells)
      ensures rc == 0 ==> slot.cells[..8] == [0x4d, 0x43, 0x46, 0x57, 2, 0, 128, 0]
      ensures rc == 0 ==> 1 <= Word(slot.cells, 8) <= slot.size - 128 && ChecksumRight(slot.cells)
      ensures slot.faults == old(slot.faults) && slot.size >= HEADER_SIZE ==>
        rc == if !Recognised(slot.cells, slot.size - 128) then -ENODATA
              else if !ChecksumRight(slot.cells) then -EBADMSG else 0
      ensures slot.faults == old(slot.faults) && slot.size >= HEADER_SIZE ==>
        (slot.cells[..8] != [0x4d, 0x43, 0x46, 0x57, 2, 0, 128, 0] ==> rc == -ENODATA)
      ensures status.valid <==> rc == 0
      ensures slot.faults == old(slot.faults) && slot.size >= HEADER_SIZE && rc == -EBADMSG ==>
        status == StatusOf(Parse(slot.cells)).(valid := false)
      ensures slot.faults == old(slot.faults) && slot.size >= HEADER_SIZE && rc == -ENODATA ==>
        status == Status(false, [], [], 0, 0, 0, 0)
    {
      hide Crc32, Number32, Runnable, ChecksumRight, Parse, Recognised, HeaderOk, CString, Word;
      status := Status(false, [], [], 0, 0, 0, 0);
      rc := slot.Open();
      if rc != 0 { return; }
      var h, crc;
      if slot.size >= HEADER_SIZE { RunnableCases(slot.cells); }
      rc, h := SlotHeader();
      if rc != 0 { return; }
      rc, crc := SlotCrc(h.payloadSize);
      if rc != 0 { return; }
      status := StatusOf(h).(valid := Number32(crc) == h.payloadCrc);
      rc := if status.valid then 0 else -EBADMSG;
    }

    /** rtbus_image_get_native_metadata: the layout words of a native image. */
    method GetNativeMetadata() returns (rc: int, meta: Layout)
      requires Valid()
      modifies slot`faults
      ensures Valid()
      ensures slot.faults == old(slot.faults) && slot.size >= HEADER_SIZE ==>
        rc == if !Recognised(slot.cells, slot.size - 128) then -ENODATA
              else if Word(slot.cells, 100) % 2 == 0 then -ENOTSUP else 0
      ensures rc == 0 ==> slot.size >= HEADER_SIZE && Recognised(slot.cells, slot.size - 128)
      ensures rc == 0 ==>
        && Word(slot.cells, 100) % 2 == 1
        && meta == Layout(Word(slot.cells, 104), Word(slot.cells, 108), Word(slot.cells, 112),
                          Word(slot.cells, 116), Word(slot.cells, 120), Word(slot.cells, 124))
      ensures rc != 0 ==> meta == Layout(0, 0, 0, 0, 0, 0)
    {
      hide Recognised, HeaderOk;
      meta := Layout(0, 0, 0, 0, 0, 0);
      rc := slot.Open();
      if rc != 0 { return; }
      var h;
      rc, h := SlotHeader();
      if rc != 0 { return; }
      ParsedRest(slot.cells);
      if h.flags % 2 == 0 { return -ENOTSUP, meta; }
      var m := h.reserved;
      meta := Layout(Word(m, 0), Word(m, 4), Word(m, 8), Word(m, 12), Word(m, 16), Word(m, 20));
    }

    /** rtbus_image_read_payload. */
    method ReadPayload(at: nat, size: nat) returns (rc: int, data: seq<byte>)
      requires Valid()
      modifies slot`faults
      ensures Valid()
      ensures rc == 0 ==> slot.size >= HEADER_SIZE && HeaderOk(Parse(slot.cells), slot.size - HEADER_SIZE)
      ensures rc == 0 ==> data == Window(slot.cells, at, size)
      ensures rc == 0 ==> var n := Word(slot.cells, 8);
        && 128 + n <= slot.size && |data| == (if at >= n then 0 else if size <= n - at then size else n - at)
        && forall i | 0 <= i < |data| :: data[i] == slot.cells[128 + at + i]
      ensures slot.faults == old(slot.faults) && slot.size >= HEADER_SIZE ==>
        rc == if Recognised(slot.cells, slot.size - 128) then 0 else -ENODATA
      ensures slot.faults == old(slot.faults) && slot.size >= HEADER_SIZE ==>
        (HeaderOk(Parse(slot.cells), slot.size - HEADER_SIZE) ==> rc == 0)
    {
      hide Parse, HeaderOk, Recognised, Runnable, ChecksumRight, Word, Window, Payload, Crc32Of;
      data := [];
      rc := slot.Open();
      if rc != 0 { return; }
      var h;
      if slot.size >= HEADER_SIZE { RunnableCases(slot.cells); }
      rc, h := SlotHeader();
      if rc != 0 { return; }
      WindowBytes(slot.cells, at, size);
      if at >= h.payloadSize { return; }
      rc, data := slot.Read(HEADER_SIZE + at, Min(size, h.payloadSize - at));
    }
  }

  /** The slot starts with the image, and the image passed all checks. */
  ghost predicate Installed(cells: seq<byte>, img: seq<byte>, ramMax: nat)
  {
    |img| <= |cells| && cells[..|img|] == img && GoodImage(img, ramMax)
  }

  /** The slot holds an application the device accepts. */
  predicate Runnable(cells: seq<byte>)
  {
    && |cells| >= HEADER_SIZE && HeaderOk(Parse(cells), |cells| - HEADER_SIZE)
    && Crc32Of(Payload(cells)) == Parse(cells).payloadCrc
  }

  function StatusOf(h: Header): Status
  {
    Status(true, CString(h.name, NAME_MAX - 1), CString(h.version, VERSION_MAX - 1),
           h.payloadSize, h.payloadCrc, h.ram, h.flags)
  }

  /** The payload bytes a read of `size` bytes at `at` is due. */
  function Window(cells: seq<byte>, at: nat, size: nat): seq<byte>
    requires |cells| >= HEADER_SIZE && HEADER_SIZE + Parse(cells).payloadSize <= |cells|
  {
    if at >= Parse(cells).payloadSize then []
    else Payload(cells)[at..at + Min(size, Parse(cells).payloadSize - at)]
  }

  lemma StoredParse(cells: seq<byte>, img: seq<byte>)
    requires HEADER_SIZE <= |img| <= |cells| && cells[..|img|] == img
    ensures Parse(cells) == Parse(img)
  {
    assert cells[..HEADER_SIZE] == cells[..|img|][..HEADER_SIZE];
    ParsePrefix(cells, img);
  }

  /** The slot's status by what the device has parsed. */
  lemma RunnableCases(cells: seq<byte>)
    requires |cells| >= HEADER_SIZE
    ensures HeaderOk(Parse(cells), |cells| - HEADER_SIZE) <==> Recognised(cells, |cells| - HEADER_SIZE)
    ensures Runnable(cells) ==> Recognised(cells, |cells| - HEADER_SIZE)
    ensures Recognised(cells, |cells| - HEADER_SIZE) ==> var h := Parse(cells);
      && h.payloadSize == Word(cells, 8) && 1 <= h.payloadSize <= |cells| - HEADER_SIZE
      && cells[..8] == [0x4d, 0x43, 0x46, 0x57, 2, 0, 128, 0]
      && (Runnable(cells) <==> ChecksumRight(cells))
      && (ChecksumRight(cells) <==>
            Crc32Of(cells[HEADER_SIZE..HEADER_SIZE + h.payloadSize]) == h.payloadCrc)
  {
    hide Crc32Of, Parse, Recognised, Word, HeaderOk, ChecksumRight;
    HeaderMeans(cells, |cells| - HEADER_SIZE);
    if Recognised(cells, |cells| - HEADER_SIZE) {
      RecognisedFront(cells, |cells| - HEADER_SIZE);
      ChecksumCase(cells);
    }
  }

  lemma ChecksumCase(cells: seq<byte>)
    requires |cells| >= HEADER_SIZE && HeaderOk(Parse(cells), |cells| - HEADER_SIZE)
    ensures var h := Parse(cells);
      && h.payloadSize == Word(cells, 8) && 1 <= h.payloadSize <= |cells| - HEADER_SIZE
      && Payload(cells) == cells[HEADER_SIZE..HEADER_SIZE + h.payloadSize]
      && (ChecksumRight(cells) <==> Crc32Of(Payload(cells)) == h.payloadCrc)
  {
    ParsedWords(cells);
    hide Crc32Of, Parse, Word;
  }

  lemma ParsedWords(img: seq<byte>)
    requires |img| >= HEADER_SIZE
    ensures Parse(img).payloadSize == Word(img, 8) && Parse(img).payloadCrc == Word(img, 12)
  {
  }

  lemma ParsedRest(img: seq<byte>)
    requires |img| >= HEADER_SIZE
    ensures Parse(img).flags == Word(img, 100) && |Parse(img).reserved| == 24
    ensures var m := Parse(img).reserved;
      && Word(m, 0) == Word(img, 104) && Word(m, 4) == Word(img, 108) && Word(m, 8) == Word(img, 112)
      && Word(m, 12) == Word(img, 116) && Word(m, 16) == Word(img, 120) && Word(m, 20) == Word(img, 124)
  {
    var m := Parse(img).reserved;
    hide Word;
    assert img[104..104 + |m|] == m;
    WordWithin(img, 104, m, 0);
    WordWithin(img, 104, m, 4);
    WordWithin(img, 104, m, 8);
    WordWithin(img, 104, m, 12);
    WordWithin(img, 104, m, 16);
    WordWithin(img, 104, m, 20);
  }

  lemma RecognisedFront(img: seq<byte>, capacity: int)
    requires |img| >= 128 && Recognised(img, capacity)
    ensures img[..8] == [0x4d, 0x43, 0x46, 0x57, 2, 0, 128, 0]
  {
  }

  lemma StoredSlice(cells: seq<byte>, img: seq<byte>, a: nat, b: nat)
    requires a <= b <= |img| <= |cells| && cells[..|img|] == img
    ensures cells[a..b] == img[a..b]
  {
    forall i | a <= i < b ensures cells[i] == img[i] { assert cells[..|img|][i] == img[i]; }
  }

  lemma PayloadSlice(img: seq<byte>, at: nat, n: nat)
    requires |img| >= HEADER_SIZE && HEADER_SIZE + Parse(img).payloadSize <= |img|
    requires at + n <= Parse(img).payloadSize
    ensures img[HEADER_SIZE + at..HEADER_SIZE + at + n] == Payload(img)[at..at + n]
  {
    InnerSlice(img, HEADER_SIZE, Parse(img).payloadSize, at, n);
    hide Parse;
  }

  /** A window of the payload by the cells of the slot. */
  lemma WindowBytes(cells: seq<byte>, at: nat, size: nat)
    requires |cells| >= HEADER_SIZE && HEADER_SIZE + Parse(cells).payloadSize <= |cells|
    ensures var n, w := Parse(cells).payloadSize, Window(cells, at, size);
      && |w| == (if at >= n then 0 else Min(size, n - at))
      && (at < n ==> w == cells[HEADER_SIZE + at..HEADER_SIZE + at + Min(size, n - at)])
      && forall i | 0 <= i < |w| :: w[i] == cells[128 + at + i]
  {
    hide Parse;
    var n := Parse(cells).payloadSize;
    if at < n { PayloadSlice(cells, at, Min(size, n - at)); }
  }

  lemma InnerSlice(s: seq<byte>, from: nat, len: nat, at: nat, n: nat)
    requires from + len <= |s| && at + n <= len
    ensures s[from + at..from + at + n] == s[from..from + len][at..at + n]
  {
    var inner, p, q := s[from..from + len], s[from + at..from + at + n], s[from..from + len][at..at + n];
    forall i | 0 <= i < n ensures p[i] == q[i] { assert q[i] == inner[at + i] == s[from + at + i]; }
  }

  /** An installed image is runnable from the slot, with its own header, payload and every window of
      the payload: what finish accepted, status and payload reads will report. */
  lemma InstalledIsRunnable(cells: seq<byte>, img: seq<byte>, ramMax: nat, at: nat, size: nat)
    ensures Installed(cells, img, ramMax) ==>
      && Runnable(cells) && Parse(cells) == Parse(img) && Payload(cells) == Payload(img)
      && Window(cells, at, size) == Window(img, at, size)
  {
    if Installed(cells, img, ramMax) { SamePayload(cells, img); }
    hide Parse, Crc32Of, Payload;
  }

  lemma SamePayload(cells: seq<byte>, img: seq<byte>)
    requires HEADER_SIZE <= |img| <= |cells| && cells[..|img|] == img && HeaderOk(Parse(img), |img| - HEADER_SIZE)
    ensures |cells| >= HEADER_SIZE && Parse(cells) == Parse(img) && HeaderOk(Parse(cells), |cells| - HEADER_SIZE)
    ensures Payload(cells) == Payload(img)
  {
    hide Parse, Crc32Of;
    StoredParse(cells, img);
    StoredSlice(cells, img, HEADER_SIZE, HEADER_SIZE + Parse(img).payloadSize);
  }

  lemma Crc32Empty()
    ensures Crc32(0, []) == 0
  {
  }

  /** The padded last program leaves the image followed by erased bytes only. */
  lemma FinalFlush(cells: seq<byte>, used: seq<bool>, offset: nat, data: seq<byte>, n: nat, accepted: seq<byte>)
    requires Buffered(cells, used, offset, data, accepted) && offset + |data| + n <= |cells|
    requires forall i | 0 <= i < |cells| && !used[i] :: cells[i] == ERASED
    ensures |used| == |cells| && offset + |data| == |accepted|
    ensures forall i | offset <= i < |cells| :: !used[i]
    ensures var c := Programmed(cells, offset, data + Fill(n, ERASED));
      c[..|accepted|] == accepted && forall i | |accepted| <= i < |c| :: c[i] == ERASED
    ensures data == [] && n == 0 ==> Programmed(cells, offset, data + Fill(n, ERASED)) == cells
  {
    BufferFlushed(cells, used, offset, data, Fill(n, ERASED), accepted);
    if data == [] && n == 0 { assert data + Fill(n, ERASED) == []; }
  }
}
