/** Bytes and little-endian 32-bit words in a linear memory. */
module Words {

  type byte = x: int | 0 <= x < 256

  const TWO32: int := 0x1_0000_0000
  const TWO31: int := 0x8000_0000

  function FromBytes(a: int, b: int, c: int, d: int): int {
    a + 0x100 * b + 0x1_0000 * c + 0x100_0000 * d
  }

  /** The word stored at address `p`. */
  function Word(m: seq<byte>, p: nat): (w: nat)
    requires p + 4 <= |m|
    ensures w < TWO32
  {
    FromBytes(m[p], m[p + 1], m[p + 2], m[p + 3])
  }

  /** Memory `m` after the word `v` is stored at address `p`. */
  function StoreWord(m: seq<byte>, p: nat, v: nat): (r: seq<byte>)
    requires p + 4 <= |m| && v < TWO32
    ensures |r| == |m|
    ensures forall k :: 0 <= k < |m| && !(p <= k < p + 4) ==> r[k] == m[k]
  {
    m[p := v % 0x100][p + 1 := v / 0x100 % 0x100][p + 2 := v / 0x1_0000 % 0x100][p + 3 := v / 0x100_0000]
  }

  lemma WordStored(m: seq<byte>, p: nat, v: nat)
    requires p + 4 <= |m| && v < TWO32
    ensures Word(StoreWord(m, p, v), p) == v
  {
    assert v / 0x100 / 0x100 == v / 0x1_0000;
    assert v / 0x1_0000 / 0x100 == v / 0x100_0000;
  }

  method Load(ram: array<byte>, p: nat) returns (w: nat)
    requires p + 4 <= ram.Length
    ensures w == Word(ram[..], p)
  {
    w := FromBytes(ram[p], ram[p + 1], ram[p + 2], ram[p + 3]);
  }

  method Store(ram: array<byte>, p: nat, v: nat)
    requires p + 4 <= ram.Length && v < TWO32
    modifies ram
    ensures ram[..] == StoreWord(old(ram[..]), p, v)
  {
    ram[p] := v % 0x100;
    ram[p + 1] := v / 0x100 % 0x100;
    ram[p + 2] := v / 0x1_0000 % 0x100;
    ram[p + 3] := v / 0x100_0000;
  }
}
