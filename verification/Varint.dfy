/** Variable-length integers: seven bits to a byte, the low bits first, the top bit set on all but the last. */
module Varint {
  import opened Words
  import opened Options

  /** The bytes written for an unsigned value. */
  function Encode(n: nat): (r: seq<byte>)
    ensures |r| > 0
  {
    if n < 128 then [n] else [128 + n % 128] + Encode(n / 128)
  }

  /** How far group `k` is shifted. */
  function Weight(k: nat): (r: nat)
    ensures r > 0
  {
    if k == 0 then 1 else 128 * Weight(k - 1)
  }

  /** Reads groups up to the first one without its top bit: the number they spell, and what is left of
      the stream. None when the stream ends too early; also after five groups, where the shift would be
      wider than the type. */
  function Groups(s: seq<byte>, k: nat): (r: Option<(nat, seq<byte>)>)
    ensures r.Some? ==> |r.value.1| < |s|
    decreases |s|
  {
    if s == [] || k >= 5 then None
    else if s[0] < 128 then Some((s[0], s[1..]))
    else
      match Groups(s[1..], k + 1)
      case None => None
      case Some((high, rest)) => Some((s[0] - 128 + 128 * high, rest))
  }

  /** The number read, cut to 32 bits. */
  function Decode(s: seq<byte>): (r: Option<(nat, seq<byte>)>)
    ensures r.Some? ==> |r.value.1| < |s| && r.value.0 < TWO32
  {
    match Groups(s, 0)
    case None => None
    case Some((n, rest)) => Some((n % TWO32, rest))
  }

  lemma {:induction false} GroupsBack(n: nat, k: nat, rest: seq<byte>)
    requires k < 5 && n < Weight(5 - k)
    ensures Groups(Encode(n) + rest, k) == Some((n, rest))
    decreases n
  {
    var s := Encode(n) + rest;
    if n < 128 {
      assert s[1..] == rest;
    } else {
      assert s[1..] == Encode(n / 128) + rest && s[0] == 128 + n % 128;
      assert Weight(5 - k) == 128 * Weight(4 - k);
      GroupsBack(n / 128, k + 1, rest);
    }
  }

  /** Every 32-bit value is read back, whatever follows it. */
  lemma RoundTrip(n: nat, rest: seq<byte>)
    requires n < TWO32
    ensures Decode(Encode(n) + rest) == Some((n, rest))
  {
    assert Weight(3) == 2097152;
    assert Weight(5) == 128 * (128 * Weight(3));
    GroupsBack(n, 0, rest);
  }

  const TWO30: int := 0x4000_0000

  /** Signed values, interleaved: 0, -1, 1, -2, ... */
  function Interleave(n: int): (r: nat)
    requires -TWO31 <= n < TWO31
    ensures r < TWO32
  {
    if n >= 0 then 2 * n else -2 * n - 1
  }

  /** Flips the lowest bit. */
  function FlipLow(x: nat): nat {
    if x % 2 == 0 then x + 1 else x - 1
  }

  function ToInt32(x: int): int {
    (x + TWO31) % TWO32 - TWO31
  }

  /** What the reader makes of an interleaved value. It mixes in the top bit, shifted down without sign. */
  function Separate(v: nat): int
    requires v < TWO32
  {
    var half := if v >= TWO31 then FlipLow(v / 2) else v / 2;
    var x := ToInt32(half + v % 2);
    if v % 2 == 1 then ToInt32(-x) else x
  }

  /** The signed reader inverts the signed writer exactly on 31-bit values. */
  lemma SignedExact(n: int)
    requires -TWO31 <= n < TWO31
    ensures Separate(Interleave(n)) == n <==> -TWO30 <= n < TWO30
  {
  }
}
