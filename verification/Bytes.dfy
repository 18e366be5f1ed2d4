/** Bytes, 32-bit words and the little-endian layout shared by every other module. */
module Bytes {
  type byte = x: int | 0 <= x < 256

  const WORD_LIMIT: nat := 0x1_0000_0000

  type u32 = x: int | 0 <= x < 0x1_0000_0000

  function Le32(v: u32): (s: seq<byte>)
    ensures |s| == 4
  {
    [v % 256, v / 256 % 256, v / 65536 % 256, v / 16777216]
  }

  function FromLe32(b0: byte, b1: byte, b2: byte, b3: byte): u32
  {
    b0 + 256 * b1 + 65536 * b2 + 16777216 * b3
  }

  lemma FromLe32OfLe32(v: u32)
    ensures FromLe32(Le32(v)[0], Le32(v)[1], Le32(v)[2], Le32(v)[3]) == v
  {
    var a := v / 256;
    var b := a / 256;
    assert v / 65536 == b && v / 16777216 == b / 256;
    assert v == v % 256 + 256 * (a % 256 + 256 * (b % 256 + 256 * (b / 256)));
  }

  /** The 32-bit word stored at address `a`. */
  function Word(mem: seq<byte>, a: nat): u32
    requires a + 4 <= |mem|
  {
    FromLe32(mem[a], mem[a + 1], mem[a + 2], mem[a + 3])
  }

  /** Memory after storing the word `v` at address `a`. */
  function PutWord(mem: seq<byte>, a: nat, v: u32): (r: seq<byte>)
    requires a + 4 <= |mem|
    ensures |r| == |mem|
    ensures forall i | 0 <= i < |mem| && !(a <= i < a + 4) :: r[i] == mem[i]
    ensures Word(r, a) == v
  {
    FromLe32OfLe32(v);
    var s := Le32(v);
    mem[a := s[0]][a + 1 := s[1]][a + 2 := s[2]][a + 3 := s[3]]
  }

  /** Two memories hold the same bytes at addresses [lo, hi). */
  ghost predicate Same(m0: seq<byte>, m1: seq<byte>, lo: nat, hi: nat)
  {
    |m0| == |m1| && forall i | lo <= i < hi && i < |m0| :: m0[i] == m1[i]
  }

  /** Stores a word through the four byte stores of the target. */
  method StoreWord(ram: array<byte>, a: nat, v: u32)
    requires a + 4 <= ram.Length
    modifies ram
    ensures ram[..] == PutWord(old(ram[..]), a, v)
  {
    var s := Le32(v);
    ram[a] := s[0];
    ram[a + 1] := s[1];
    ram[a + 2] := s[2];
    ram[a + 3] := s[3];
  }

  function Min(a: nat, b: nat): nat
  {
    if a < b then a else b
  }

  /** memset. */
  function Fill(n: nat, b: byte): (r: seq<byte>)
    ensures |r| == n && forall i | 0 <= i < n :: r[i] == b
  {
    seq(n, _ => b)
  }
}
