/** Multiples of a write alignment, and ROUND_UP. */
module Alignment {
  lemma MulAtLeast(k: nat, a: int, b: int)
    requires a >= b
    ensures k * a >= k * b
  {
  }

  lemma MultipleMod(q: nat, k: nat)
    requires k > 0
    ensures k * q % k == 0
  {
    var x := k * q;
    var d := q - x / k;
    assert x == k * (x / k) + x % k;
    assert k * d == k * q - k * (x / k);
    if d >= 1 { MulAtLeast(k, d, 1); }
    if d <= -1 { MulAtLeast(k, -1, d); }
  }

  /** `x` is a multiple of the alignment `k`. */
  predicate Multiple(x: nat, k: nat)
  {
    k > 0 && x % k == 0
  }

  lemma AlignedMeans(x: nat, k: nat)
    ensures Multiple(x, k) <==> k > 0 && x % k == 0
  {
  }

  lemma SumAligned(a: nat, b: nat, k: nat)
    requires Multiple(a, k) && Multiple(b, k)
    ensures Multiple(a + b, k)
  {
    assert a == k * (a / k) && b == k * (b / k);
    assert a + b == k * (a / k + b / k);
    MultipleMod(a / k + b / k, k);
  }

  lemma DifferenceAligned(a: nat, b: nat, k: nat)
    requires Multiple(a, k) && Multiple(b, k) && b <= a
    ensures Multiple(a - b, k)
  {
    assert a == k * (a / k) && b == k * (b / k);
    assert a - b == k * (a / k - b / k);
    if a / k < b / k { MulAtLeast(k, b / k, a / k + 1); }
    MultipleMod(a / k - b / k, k);
  }

  function RoundUp(x: nat, k: nat): nat
    requires k > 0
  {
    (x + k - 1) / k * k
  }

  lemma RoundUpFacts(x: nat, k: nat)
    requires k > 0
    ensures Multiple(RoundUp(x, k), k) && x <= RoundUp(x, k) < x + k
  {
    var q := (x + k - 1) / k;
    assert x + k - 1 == k * q + (x + k - 1) % k;
    assert RoundUp(x, k) == k * q;
    MultipleMod(q, k);
  }

  /** The least multiple not below `x`. */
  lemma RoundUpLeast(x: nat, k: nat, y: nat)
    requires Multiple(y, k) && x <= y
    ensures RoundUp(x, k) <= y
  {
    RoundUpFacts(x, k);
    var q, p := (x + k - 1) / k, y / k;
    assert RoundUp(x, k) == k * q;
    assert y == k * p;
    assert k * (p + 1) == k * p + k;
    if q > p { MulAtLeast(k, q, p + 1); }
  }

  lemma RoundUpWhole(x: nat, k: nat)
    requires Multiple(x, k)
    ensures RoundUp(x, k) == x
  {
    RoundUpFacts(x, k);
    RoundUpLeast(x, k, x);
  }

  lemma ZeroAligned(k: nat)
    requires k > 0
    ensures Multiple(0, k)
  {
  }

  /** A chunk of `n` bytes at an aligned place, rounded up, stays inside an aligned area; a full chunk
      of aligned length needs no rounding and ends aligned. */
  lemma ChunkFits(at: nat, n: nat, k: nat, size: nat, full: nat)
    requires Multiple(at, k) && Multiple(size, k) && at + n <= size
    ensures Multiple(RoundUp(n, k), k) && n <= RoundUp(n, k) && at + RoundUp(n, k) <= size
    ensures n == full && Multiple(full, k) ==> RoundUp(n, k) == n && Multiple(at + n, k)
  {
    RoundUpFacts(n, k);
    DifferenceAligned(size, at, k);
    RoundUpLeast(n, k, size - at);
    if n == full && Multiple(full, k) {
      RoundUpWhole(n, k);
      SumAligned(at, n, k);
    }
  }
}
