/** The wrapping millisecond clock of rtbus.c against unbounded true time. */
module Clock {
  import opened Bytes

  const HALF: nat := 0x8000_0000

  function Low32(t: nat): u32
  {
    t % WORD_LIMIT
  }

  /** Unsigned 32-bit subtraction. */
  function Sub32(a: u32, b: u32): u32
  {
    if a >= b then a - b else a - b + WORD_LIMIT
  }

  /** The cast to int32_t. */
  function Signed(u: u32): int
  {
    if u < HALF then u else u - WORD_LIMIT
  }

  /** rtbus_due_reached. */
  predicate DueReached(now: u32, due: u32)
  {
    Signed(Sub32(now, due)) >= 0
  }

  /** rtbus_timeout_until. */
  function TimeoutUntil(now: u32, due: u32): int
  {
    var t := Signed(Sub32(due, now));
    if t < 0 then 0 else t
  }

  /** The difference of two wrapped times is the true difference, wrapped. */
  lemma SubLow(a: nat, b: nat)
    requires b <= a < b + WORD_LIMIT
    ensures Sub32(Low32(a), Low32(b)) == a - b
  {
  }

  lemma SubLowBehind(a: nat, b: nat)
    requires a < b <= a + WORD_LIMIT
    ensures Sub32(Low32(a), Low32(b)) == if b == a + WORD_LIMIT then 0 else a - b + WORD_LIMIT
  {
  }

  /** Within one turn of the clock, the wrap test says whether true time has reached the true due
      time exactly for events overdue by less than 2^31 ms or due in at most 2^31 ms. */
  lemma DueReachedExact(now: nat, due: nat)
    requires now < due + 0x1_0000_0000 && due < now + 0x1_0000_0000
    ensures (DueReached(Low32(now), Low32(due)) <==> now >= due)
       <==> (now < due + 0x8000_0000 && due <= now + 0x8000_0000)
  {
    if now >= due { SubLow(now, due); } else { SubLowBehind(now, due); }
  }

  /** The remaining time is exact, clipped at 0, within 2^31 ms of the due time. */
  lemma TimeoutExact(now: nat, due: nat)
    requires now <= due + HALF && due < now + HALF
    ensures TimeoutUntil(Low32(now), Low32(due)) == if due <= now then 0 else due - now
  {
    if due >= now { SubLow(due, now); } else { SubLowBehind(due, now); }
  }
}
