/** rtbus_serial.c: the receive ring behind each port.  It overwrites the oldest unread byte when full. */
module RxRings {
  import opened Bytes

  /** The newest `n` bytes of `s`. */
  function Newest(s: seq<byte>, n: nat): (r: seq<byte>)
    ensures |r| == if |s| < n then |s| else n
  {
    if |s| <= n then s else s[|s| - n..]
  }

  /** The cells from `tail` up to `head`, around the end of the buffer. */
  function Between(cells: seq<byte>, tail: nat, head: nat): seq<byte>
    requires tail < |cells| && head < |cells|
  {
    if tail <= head then cells[tail..head] else cells[tail..] + cells[..head]
  }

  function After(i: nat, n: nat): (j: nat)
    requires i < n
    ensures j < n && j == if i + 1 == n then 0 else i + 1
  {
    (i + 1) % n
  }

  lemma BetweenPut(cells: seq<byte>, tail: nat, head: nat, b: byte)
    requires tail < |cells| && head < |cells| && After(head, |cells|) != tail
    ensures Between(cells[head := b], tail, After(head, |cells|)) == Between(cells, tail, head) + [b]
  {
    var n, c := |cells|, cells[head := b];
    if tail <= head && head + 1 == n { assert c[tail..] == cells[tail..head] + [b]; }
    else if tail <= head { assert c[tail..head + 1] == cells[tail..head] + [b]; }
    else { assert c[tail..] + c[..head + 1] == cells[tail..] + cells[..head] + [b]; }
  }

  lemma BetweenGet(cells: seq<byte>, tail: nat, head: nat)
    requires tail < |cells| && head < |cells| && tail != head
    ensures Between(cells, tail, head) == [cells[tail]] + Between(cells, After(tail, |cells|), head)
  {
  }

  /** The bytes unread at some time, limited to the newest: putting one more in keeps the limit. */
  lemma NewestPut(unread: seq<byte>, b: byte, n: nat)
    ensures Newest(unread + [b], n) == (if n == 0 then [] else Newest(unread, n - 1) + [b])
    ensures n > 0 && |unread| >= n ==> Newest(unread, n - 1) == Newest(unread, n)[1..]
    ensures |unread| < n ==> Newest(unread, n - 1) == Newest(unread, n)
  {
  }

  /** Taking the oldest of the newest bytes out moves the mark behind it. */
  lemma NewestGet(all: seq<byte>, mark: nat, n: nat)
    requires mark <= |all|
    ensures var c := Newest(all[mark..], n);
      c != [] ==> c[0] == all[|all| - |c|] && c[1..] == Newest(all[|all| - |c| + 1..], n)
                  && mark <= |all| - |c|
  {
  }

  lemma NewestMeans(all: seq<byte>, mark: nat, n: nat)
    requires mark <= |all|
    ensures var c := Newest(all[mark..], n);
      |c| == (if |all| - mark <= n then |all| - mark else n) && c == all[|all| - |c|..]
  {
  }

  class RxRing {
    const buffer: array<byte>
    var head: nat
    var tail: nat
    ghost var all: seq<byte>      // every byte ever put in
    ghost var mark: nat           // how many of them came before the next byte to read, had none been lost

    constructor (size: nat)
      requires size > 0
      ensures Valid() && all == [] && mark == 0 && buffer.Length == size && fresh(buffer)
    {
      buffer := new byte[size];
      head, tail, all, mark := 0, 0, [], 0;
    }

    function Contents(): seq<byte>
      requires buffer.Length > 0 && head < buffer.Length && tail < buffer.Length
      reads this, buffer
    {
      Between(buffer[..], tail, head)
    }

    /** The ring holds the newest bytes among those put in since the last one read or the last clear, in
        order, one fewer than its size at most. */
    ghost predicate Valid()
      reads this, buffer
    {
      && head < buffer.Length && tail < buffer.Length && mark <= |all|
      && Contents() == Newest(all[mark..], buffer.Length - 1)
    }

    /** rtbus_runtime_serial_rx_put. */
    method Put(b: byte)
      requires Valid()
      modifies this, buffer
      ensures Valid() && all == old(all) + [b] && mark == old(mark)
      ensures |Contents()| == (if |all| - mark < buffer.Length then |all| - mark else buffer.Length - 1)
      ensures Contents() == all[|all| - |Contents()|..]
    {
      hide Newest, Between;
      ghost var was := Contents();
      NewestPut(all[mark..], b, buffer.Length - 1);
      assert (all + [b])[mark..] == all[mark..] + [b];
      var next := After(head, buffer.Length);
      if next == tail {
        Drop(was);
        tail := After(tail, buffer.Length);
      } else {
        Room(was);
      }
      BetweenNext(b);
      ghost var cells := buffer[..];
      buffer[head] := b;
      assert buffer[..] == cells[head := b];
      if buffer.Length == 1 { assert buffer[..] == [b]; }
      head := next;
      all := all + [b];
      NewestMeans(all, mark, buffer.Length - 1);
    }

    /** A full ring holds one byte fewer than its size, and loses the oldest. */
    lemma Drop(was: seq<byte>)
      requires Valid() && was == Contents() && After(head, buffer.Length) == tail
      ensures |was| == buffer.Length - 1 && |all[mark..]| >= |was|
      ensures was != [] ==> Between(buffer[..], After(tail, buffer.Length), head) == was[1..]
    {
      if was != [] { BetweenGet(buffer[..], tail, head); }
    }

    lemma Room(was: seq<byte>)
      requires Valid() && was == Contents() && After(head, buffer.Length) != tail
      ensures |was| < buffer.Length - 1 && was == all[mark..]
    {
    }

    lemma BetweenNext(b: byte)
      requires head < buffer.Length && tail < buffer.Length
      ensures buffer.Length > 1 && After(head, buffer.Length) != tail ==>
        Between(buffer[..][head := b], tail, After(head, buffer.Length)) == Between(buffer[..], tail, head) + [b]
      ensures Between([b], 0, 0) == []
    {
      if After(head, buffer.Length) != tail { BetweenPut(buffer[..], tail, head, b); }
    }

    lemma NothingBetween()
      requires head < buffer.Length && tail < buffer.Length
      ensures head == tail ==> Between(buffer[..], tail, head) == []
    {
    }

    /** rtbus_runtime_serial_rx_get. */
    method Get() returns (hasData: bool, b: byte)
      requires Valid()
      modifies this`tail, this`mark
      ensures Valid() && hasData == (old(Contents()) != []) && all == old(all)
      ensures hasData ==> old(mark) < mark <= |all| && b == old(Contents())[0] == all[mark - 1]
      ensures hasData ==> Contents() == old(Contents())[1..]
      ensures !hasData ==> mark == old(mark)
    {
      hide Between, Newest;
      NothingBetween();
      b := 0;
      hasData := false;
      if tail != head {
        hasData := true;
        BetweenGet(buffer[..], tail, head);
        b := buffer[tail];
        NewestGet(all, mark, buffer.Length - 1);
        tail := After(tail, buffer.Length);
        mark := |all| - |Contents()|;
      }
    }

    /** rtbus_runtime_serial_rx_clear. */
    method Clear()
      requires Valid()
      modifies this`head, this`tail, this`mark
      ensures Valid() && Contents() == [] && all == old(all) && mark == |all|
    {
      head, tail, mark := 0, 0, |all|;
    }
  }
}
