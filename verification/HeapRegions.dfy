/** Several heaps side by side: which blocks are live over all of them. */
module HeapRegions {
  import opened Words
  import opened HeapBlocks
  import opened HeapMemory

  /** A heap: its chain of blocks, the address of the first header, and its size. */
  datatype Region = Region(chain: Chain, at: nat, size: nat) {
    function End(): nat { at + size }

    ghost predicate Shape(top: nat) {
      && 0 < at && 0 < size && size % MEM_BLOCK == 0 && End() <= top
      && WellSized(chain) && Span(chain) <= size
    }

    predicate Carved() { Span(chain) == size }
  }

  /** Heaps in address order below `top`, none reaching into the next. */
  ghost predicate Laid(rs: seq<Region>, top: nat) {
    && (forall i :: 0 <= i < |rs| ==> rs[i].Shape(top))
    && (forall i, j :: 0 <= i < j < |rs| ==> rs[i].End() <= rs[j].at)
  }

  /** In every heap the headers found are those of its chain. */
  ghost predicate AllTiles(m: seq<byte>, rs: seq<Region>) {
    forall i :: 0 <= i < |rs| ==> Tiles(m, rs[i].at, rs[i].chain)
  }

  /** The size of the block handed out at address `p` and not freed since, 0 if there is none. */
  function Size(rs: seq<Region>, p: nat): nat {
    if rs == [] then 0
    else if LiveAt(rs[0].chain, rs[0].at, p) != 0 then LiveAt(rs[0].chain, rs[0].at, p)
    else Size(rs[1..], p)
  }

  /** A live block belongs to exactly one region. */
  lemma {:induction false} SizeOwner(rs: seq<Region>, p: nat) returns (i: nat)
    requires Size(rs, p) != 0
    ensures i < |rs| && Size(rs, p) == LiveAt(rs[i].chain, rs[i].at, p)
  {
    if LiveAt(rs[0].chain, rs[0].at, p) != 0 {
      i := 0;
    } else {
      i := SizeOwner(rs[1..], p);
      i := i + 1;
    }
  }

  lemma {:induction false} SizeOwned(rs: seq<Region>, top: nat, i: nat, p: nat)
    requires Laid(rs, top) && i < |rs| && LiveAt(rs[i].chain, rs[i].at, p) != 0
    ensures Size(rs, p) == LiveAt(rs[i].chain, rs[i].at, p)
  {
    if i > 0 {
      LiveInside(rs[i].chain, rs[i].at, p);
      if LiveAt(rs[0].chain, rs[0].at, p) != 0 {
        LiveInside(rs[0].chain, rs[0].at, p);
      }
      SizeOwned(rs[1..], top, i - 1, p);
    }
  }

  lemma OneOwner(rs: seq<Region>, top: nat, i: nat, k: nat, q: nat)
    requires Laid(rs, top) && i < |rs| && k < |rs|
    requires LiveAt(rs[i].chain, rs[i].at, q) != 0 && LiveAt(rs[k].chain, rs[k].at, q) != 0
    ensures i == k
  {
    LiveInside(rs[i].chain, rs[i].at, q);
    LiveInside(rs[k].chain, rs[k].at, q);
  }

  /** The heaps after the chain of one of them has changed. */
  function Rechained(rs: seq<Region>, i: nat, c: Chain): seq<Region>
    requires i < |rs|
  {
    rs[i := rs[i].(chain := c)]
  }

  /** A change to one heap that touches no live block but the one at `q` has that effect overall. */
  lemma SizeChanged(rs: seq<Region>, top: nat, i: nat, c: Chain, q: nat)
    requires i < |rs| && Laid(rs, top) && WellSized(c) && Span(c) <= rs[i].size
    requires SameLiveBut(rs[i].chain, c, rs[i].at, q)
    ensures var rs' := Rechained(rs, i, c);
      && Laid(rs', top) && SameSizesBut(rs, rs', q)
      && (LiveAt(c, rs[i].at, q) != 0 ==> Size(rs', q) == LiveAt(c, rs[i].at, q))
      && (LiveAt(c, rs[i].at, q) == 0 && LiveAt(rs[i].chain, rs[i].at, q) != 0 ==> Size(rs', q) == 0)
  {
    hide LiveAt;
    var rs' := Rechained(rs, i, c);
    forall p: nat ensures p != q ==> Size(rs', p) == Size(rs, p) {
      if p != q {
        if Size(rs, p) != 0 {
          var k := SizeOwner(rs, p);
          SizeOwned(rs', top, k, p);
        } else if Size(rs', p) != 0 {
          var k := SizeOwner(rs', p);
          SizeOwned(rs, top, k, p);
        }
      }
    }
    if LiveAt(c, rs[i].at, q) != 0 {
      SizeOwned(rs', top, i, q);
    } else if LiveAt(rs[i].chain, rs[i].at, q) != 0 && Size(rs', q) != 0 {
      var k := SizeOwner(rs', q);
      OneOwner(rs, top, i, k, q);
    }
  }

  /** A chain replaced by one with the same live blocks. */
  lemma SizesUnchanged(rs: seq<Region>, top: nat, i: nat, c: Chain)
    requires i < |rs| && Laid(rs, top) && WellSized(c) && Span(c) <= rs[i].size
    requires SameLive(rs[i].chain, rs[i].at, c, rs[i].at)
    ensures Laid(Rechained(rs, i, c), top) && SameSizes(rs, Rechained(rs, i, c))
  {
    SizeChanged(rs, top, i, c, 0);
    SizeChanged(rs, top, i, c, 1);
  }

  /** Two different live blocks never overlap, in the same heap or in different ones. */
  lemma SizesDisjoint(rs: seq<Region>, top: nat, p: nat, q: nat)
    requires Laid(rs, top) && Size(rs, p) != 0 && Size(rs, q) != 0 && p < q
    ensures p + Size(rs, p) + MARKER <= q
  {
    var i := SizeOwner(rs, p);
    var j := SizeOwner(rs, q);
    LiveInside(rs[i].chain, rs[i].at, p);
    LiveInside(rs[j].chain, rs[j].at, q);
    if i == j { LiveDisjoint(rs[i].chain, rs[i].at, p, q); }
  }

  /** The bytes of every live block are the same, but for those from `x` up to `y`. */
  ghost predicate KeepsBytes(m: seq<byte>, m': seq<byte>, rs: seq<Region>, x: nat, y: nat) {
    && |m'| == |m|
    && forall p: nat, k: nat :: p <= k < p + Size(rs, p) && k < |m| && !(x <= k < y) ==> m'[k] == m[k]
  }

  /** The byte belongs to a live block. */
  ghost predicate Live(rs: seq<Region>, k: nat) {
    exists p: nat :: p <= k < p + Size(rs, p)
  }

  lemma LiveOwner(rs: seq<Region>, top: nat, j: nat, k: nat)
    requires Laid(rs, top) && Live(rs, k) && j < |rs| && rs[j].at <= k < rs[j].at + Span(rs[j].chain)
    ensures InPayload(rs[j].chain, rs[j].at, k)
  {
    hide Size, LiveAt, InPayload, Span;
    var p: nat :| p <= k < p + Size(rs, p);
    var i := SizeOwner(rs, p);
    LivePayload(rs[i].chain, rs[i].at, p, k);
    PayloadInside(rs[i].chain, rs[i].at, k);
  }

  /** Whatever is written to the bytes of live blocks, the headers stay. */
  lemma PayloadWrites(m: seq<byte>, m': seq<byte>, rs: seq<Region>, top: nat)
    requires Laid(rs, top) && AllTiles(m, rs) && |m'| == |m|
    requires forall k: nat :: k < |m| && m'[k] != m[k] ==> Live(rs, k)
    ensures AllTiles(m', rs)
  {
    hide Tiles, Span, InPayload, Laid, Live;
    forall j | 0 <= j < |rs| ensures Tiles(m', rs[j].at, rs[j].chain) {
      forall k | rs[j].at <= k < rs[j].at + Span(rs[j].chain) && k < |m| && !InPayload(rs[j].chain, rs[j].at, k)
        ensures m'[k] == m[k] {
        if m'[k] != m[k] { LiveOwner(rs, top, j, k); }
      }
      TilesKept(m, m', rs[j].at, rs[j].chain);
    }
  }

  /** A heap written to: the headers of the others stay, and so do the bytes of all live blocks. */
  lemma HeapWritten(m: seq<byte>, m': seq<byte>, rs: seq<Region>, top: nat, i: nat, c: Chain, x: nat, y: nat)
    requires Laid(rs, top) && i < |rs| && AllTiles(m, rs)
    requires UntouchedBut(m, m', rs[i].chain, rs[i].at, rs[i].End(), x, y)
    requires x < y ==> rs[i].at <= x && y <= rs[i].End()
    requires Tiles(m', rs[i].at, c)
    ensures AllTiles(m', Rechained(rs, i, c)) && KeepsBytes(m, m', rs, x, y)
  {
    hide Tiles, LiveAt, InPayload;
    forall j | 0 <= j < |rs| && j != i ensures Tiles(m', rs[j].at, rs[j].chain) {
      TilesElsewhere(m, m', rs[i].chain, rs[i].at, rs[i].End(), x, y, rs[j].at, rs[j].chain);
    }
    forall p: nat, k: nat | p <= k < p + Size(rs, p) && k < |m| && !(x <= k < y) ensures m'[k] == m[k] {
      var j := SizeOwner(rs, p);
      LiveInside(rs[j].chain, rs[j].at, p);
      if i == j {
        LivePayload(rs[i].chain, rs[i].at, p, k);
      }
    }
  }

  ghost predicate SameSizes(rs: seq<Region>, rs': seq<Region>) {
    forall p: nat :: Size(rs', p) == Size(rs, p)
  }

  ghost predicate SameSizesBut(rs: seq<Region>, rs': seq<Region>, q: nat) {
    forall p: nat :: p != q ==> Size(rs', p) == Size(rs, p)
  }

  lemma KeepsBytesTrans(m: seq<byte>, m1: seq<byte>, m2: seq<byte>, rs: seq<Region>, rs1: seq<Region>, x: nat, y: nat)
    requires KeepsBytes(m, m1, rs, 0, 0) && SameSizes(rs, rs1) && KeepsBytes(m1, m2, rs1, x, y)
    ensures KeepsBytes(m, m2, rs, x, y)
  {
    forall p: nat, k: nat | p <= k < p + Size(rs, p) && k < |m| && !(x <= k < y) ensures m2[k] == m[k] {
      assert Size(rs1, p) == Size(rs, p);
    }
  }

  /** A write that spares every byte outside one region's bounds spares the headers of the others. */
  lemma TilesElsewhere(m: seq<byte>, m': seq<byte>, c: Chain, lo: nat, hi: nat, x: nat, y: nat, at: nat, d: Chain)
    requires UntouchedBut(m, m', c, lo, hi, x, y) && (x < y ==> lo <= x && y <= hi)
    requires at + Span(d) <= lo || hi <= at
    requires Tiles(m, at, d)
    ensures Tiles(m', at, d)
  {
    TilesKept(m, m', at, d);
  }

  lemma UntouchedIsBut(m: seq<byte>, m': seq<byte>, c: Chain, lo: nat, hi: nat)
    requires Untouched(m, m', c, lo, hi)
    ensures UntouchedBut(m, m', c, lo, hi, 0, 0)
  {
  }

  /** Extending a chain with a free block, or not at all, makes and loses no live block. */
  lemma ExtendedLive(c: Chain, size: nat, alloc: bool, at: nat)
    requires WellSized(c)
    ensures SameLiveBut(c, Append(c, Link(size, alloc, End)), at, at + Span(c) + MARKER)
    ensures LiveAt(c, at, at + Span(c) + MARKER) == 0
    ensures LiveAt(Append(c, Link(size, alloc, End)), at, at + Span(c) + MARKER) == if alloc then size else 0
  {
    var q := at + Span(c) + MARKER;
    forall p: nat ensures p != q ==> LiveAt(Append(c, Link(size, alloc, End)), at, p) == LiveAt(c, at, p) {
      AppendLive(c, Link(size, alloc, End), at, p);
      if LiveAt(c, at, p) != 0 { LiveInside(c, at, p); }
    }
    AppendLive(c, Link(size, alloc, End), at, q);
    if LiveAt(c, at, q) != 0 { LiveInside(c, at, q); }
  }
}
