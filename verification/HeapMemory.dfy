/** One heap of the contract allocator in linear memory: in-band headers written in place. */
module HeapMemory {
  import opened Options
  import opened Words
  import opened HeapBlocks

  /** A header word: the block size, with the top bit set when the block is allocated. */
  function Header(size: nat, alloc: bool): nat {
    if alloc then size + TWO31 else size
  }

  predicate Flag(w: nat) { w >= TWO31 }

  function Low(w: nat): nat { w % TWO31 }

  /** The headers found from address `at` upwards are those of the chain. */
  ghost predicate Tiles(m: seq<byte>, at: nat, c: Chain)
    decreases c
  {
    c.Link? ==>
      && at + MARKER <= |m| && Word(m, at) == Header(c.size, c.alloc)
      && Tiles(m, at + MARKER + c.size, c.next)
  }

  lemma SameWord(m: seq<byte>, m': seq<byte>, p: nat)
    requires |m| == |m'| && p + MARKER <= |m| && m[p..p + MARKER] == m'[p..p + MARKER]
    ensures Word(m, p) == Word(m', p)
  {
    forall k | p <= k < p + MARKER ensures m[k] == m'[k] {
      assert m[p..p + MARKER][k - p] == m'[p..p + MARKER][k - p];
    }
  }

  /** Only bytes inside payloads of allocated blocks may differ for the headers to stay. */
  lemma {:induction false} TilesKept(m: seq<byte>, m': seq<byte>, at: nat, c: Chain)
    requires |m| == |m'| && Tiles(m, at, c)
    requires forall k :: at <= k < at + Span(c) && k < |m| && !InPayload(c, at, k) ==> m'[k] == m[k]
    ensures Tiles(m', at, c)
    decreases c
  {
    hide Word;
    if c.Link? {
      var next := at + MARKER + c.size;
      forall k | at <= k < at + MARKER ensures m'[k] == m[k] {
        if InPayload(c, at, k) { PayloadInside(c, at, k); }
      }
      SameWord(m, m', at);
      forall k | next <= k < next + Span(c.next) && k < |m| && !InPayload(c.next, next, k) ensures m'[k] == m[k] {
        assert !InPayload(c, at, k);
      }
      TilesKept(m, m', next, c.next);
    }
  }

  lemma {:induction false} TilesAppend(m: seq<byte>, at: nat, a: Chain, b: Chain)
    ensures Tiles(m, at, Append(a, b)) <==> Tiles(m, at, a) && Tiles(m, at + Span(a), b)
    decreases a
  {
    if a.Link? { TilesAppend(m, at + MARKER + a.size, a.next, b); }
  }

  /** Storing one header re-describes the block it heads and nothing else. */
  lemma TilesStored(m: seq<byte>, at: nat, a: Chain, size: nat, alloc: bool, b: Chain)
    requires at + Span(a) + MARKER <= |m| && size < TWO31
    requires Tiles(m, at, a) && Tiles(m, at + Span(a) + MARKER + size, b)
    ensures Tiles(StoreWord(m, at + Span(a), Header(size, alloc)), at, Append(a, Link(size, alloc, b)))
  {
    hide Word, StoreWord, Span;
    var h := at + Span(a);
    var m' := StoreWord(m, h, Header(size, alloc));
    WordStored(m, h, Header(size, alloc));
    TilesKept(m, m', at, a);
    TilesKept(m, m', h + MARKER + size, b);
    TilesAppend(m', at, a, Link(size, alloc, b));
  }

  /** A header stored right after the chain extends it by one block. */
  lemma TilesExtended(m: seq<byte>, at: nat, c: Chain, size: nat, alloc: bool)
    requires at + Span(c) + MARKER <= |m| && Tiles(m, at, c) && WellSized(c) && GoodSize(size)
    ensures var c' := Append(c, Link(size, alloc, End));
      && WellSized(c') && Span(c') == Span(c) + MARKER + size
      && Tiles(StoreWord(m, at + Span(c), Header(size, alloc)), at, c')
    ensures forall k :: k >= at + Span(c) ==> !InPayload(c, at, k)
  {
    TilesStored(m, at, c, size, alloc, End);
    AppendSpan(c, Link(size, alloc, End));
    ClearOf(c, at, at + Span(c));
  }

  /** What is left behind whole blocks has the size of a block. */
  lemma RestFits(size: nat, offset: nat)
    requires offset < size < TWO31 && size % MEM_BLOCK == 0 && offset % MEM_BLOCK == 0
    ensures offset + MEM_BLOCK <= size && GoodSize(size - offset - MARKER)
  {
  }

  lemma SpanOne(size: nat, alloc: bool)
    ensures Span(Link(size, alloc, End)) == MARKER + size
  {
  }

  lemma {:induction false} AbsorbTiles(m: seq<byte>, p: nat, size: nat, rest: Chain, needed: nat)
    requires Tiles(m, p + size, rest)
    ensures var (s, left) := Absorb(size, rest, needed); Tiles(m, p + s, left)
    decreases rest
  {
    if !(size >= needed || rest.End? || rest.alloc) {
      AbsorbTiles(m, p, size + MARKER + rest.size, rest.next, needed);
    }
  }

  /** Memory after a block headed at `h` is cut to `needed` of `possible` bytes. */
  function Cut(m: seq<byte>, h: nat, possible: nat, needed: nat, alloc: bool): (m': seq<byte>)
    requires 0 < needed && (possible == needed || possible >= needed + MEM_BLOCK)
    requires h + MARKER + possible <= |m| && possible < TWO31
    ensures |m'| == |m|
    ensures forall k :: 0 <= k < |m| && !(h <= k < h + MARKER || h + MARKER + needed <= k < h + MARKER + possible)
              ==> m'[k] == m[k]
  {
    var m1 := StoreWord(m, h, Header(needed, alloc));
    if possible == needed then m1
    else StoreWord(m1, h + MARKER + needed, Header(possible - needed - MARKER, false))
  }

  lemma TilesCut(m: seq<byte>, at: nat, before: Chain, possible: nat, needed: nat, alloc: bool, left: Chain)
    requires var h := at + Span(before);
      && h + MARKER + possible <= |m| && possible < TWO31
      && Tiles(m, at, before) && Tiles(m, h + MARKER + possible, left)
    requires 0 < needed && (possible == needed || possible >= needed + MEM_BLOCK)
    ensures Tiles(Cut(m, at + Span(before), possible, needed, alloc), at,
                  Append(before, Carve(possible, needed, alloc, left)))
  {
    hide Word, StoreWord, Span;
    var h := at + Span(before);
    if possible == needed {
      TilesStored(m, at, before, needed, alloc, left);
    } else {
      var m1 := StoreWord(m, h, Header(needed, alloc));
      var head := Append(before, Link(needed, alloc, End));
      TilesStored(m, at, before, needed, alloc, End);
      AppendSpan(before, Link(needed, alloc, End));
      SpanOne(needed, alloc);
      TilesKept(m, m1, h + MARKER + possible, left);
      TilesStored(m1, at, head, possible - needed - MARKER, false, left);
      AppendAssoc(before, Link(needed, alloc, End), Link(possible - needed - MARKER, false, left));
    }
  }

  ghost predicate KeepsPayloads(c: Chain, c': Chain, at: nat) {
    forall k: nat :: InPayload(c, at, k) ==> InPayload(c', at, k)
  }

  /** What merging does to the chain: the same bytes are covered, with good sizes. */
  lemma MergedChain(before: Chain, size: nat, alloc: bool, rest: Chain, needed: nat, alloc': bool)
    requires WellSized(Append(before, Link(size, alloc, rest))) && Span(Append(before, Link(size, alloc, rest))) < TWO31
    requires Fits(needed)
    ensures var (s, left) := Absorb(size, rest, needed);
      && WellSized(before) && WellSized(left) && GoodSize(s)
      && (s >= needed ==> GoodSize(needed) && (s == needed || s >= needed + MEM_BLOCK))
      && Span(before) + MARKER + s + Span(left) == Span(Append(before, Link(size, alloc, rest)))
      && WellSized(Append(before, Merged(s, needed, alloc', left)))
      && Span(Append(before, Merged(s, needed, alloc', left))) == Span(Append(before, Link(size, alloc, rest)))
  {
    hide Absorb, Fits;
    var (s, left) := Absorb(size, rest, needed);
    assert WellSized(before) && WellSized(left) && GoodSize(s)
        && Span(before) + MARKER + s + Span(left) == Span(Append(before, Link(size, alloc, rest))) by {
      AppendSpan(before, Link(size, alloc, rest));
      AbsorbMeaning(size, rest, needed);
    }
    hide Span, WellSized, GoodSize;
    MergedSizes(s, needed, alloc', left);
    AppendSpan(before, Merged(s, needed, alloc', left));
  }

  lemma MergedSizes(s: nat, needed: nat, alloc: bool, left: Chain)
    requires GoodSize(s) && Fits(needed) && WellSized(left)
    ensures s >= needed ==> GoodSize(needed) && (s == needed || s >= needed + MEM_BLOCK)
    ensures WellSized(Merged(s, needed, alloc, left))
    ensures Span(Merged(s, needed, alloc, left)) == MARKER + s + Span(left)
  {
    hide Fits;
    FitsPositive(needed);
    if s > needed {
      FitsSplit(s, needed);
      FitsPositive(s - needed - MARKER);
    }
  }

  /** Merging gives up no allocated payload. */
  lemma MergedKeeps(before: Chain, size: nat, alloc: bool, rest: Chain, needed: nat, at: nat, alloc': bool)
    requires alloc ==> alloc' && size <= needed
    requires var s := Absorb(size, rest, needed).0; s > needed ==> s >= needed + MARKER
    ensures var (s, left) := Absorb(size, rest, needed);
      KeepsPayloads(Append(before, Link(size, alloc, rest)), Append(before, Merged(s, needed, alloc', left)), at)
  {
    hide Absorb, InPayload, Append;
    var c := Append(before, Link(size, alloc, rest));
    var (s, left) := Absorb(size, rest, needed);
    var tail := Merged(s, needed, alloc', left);
    forall k: nat | InPayload(c, at, k) ensures InPayload(Append(before, tail), at, k) {
      AppendPayload(before, Link(size, alloc, rest), at, k);
      AppendPayload(before, tail, at, k);
      MergedPayload(size, alloc, rest, needed, at + Span(before), alloc', k);
    }
  }

  lemma MergedPayload(size: nat, alloc: bool, rest: Chain, needed: nat, h: nat, alloc': bool, k: nat)
    requires alloc ==> alloc' && size <= needed
    requires var s := Absorb(size, rest, needed).0; s > needed ==> s >= needed + MARKER
    ensures var (s, left) := Absorb(size, rest, needed);
      InPayload(Link(size, alloc, rest), h, k) ==> InPayload(Merged(s, needed, alloc', left), h, k)
  {
    AbsorbPayload(size, rest, needed, h + MARKER, k);
    AbsorbGrows(size, rest, needed);
  }

  lemma {:induction false} AbsorbGrows(size: nat, rest: Chain, needed: nat)
    ensures Absorb(size, rest, needed).0 >= size
    decreases rest
  {
    if !(size >= needed || rest.End? || rest.alloc) {
      AbsorbGrows(size + MARKER + rest.size, rest.next, needed);
    }
  }

  lemma {:induction false} AbsorbSpan(size: nat, rest: Chain, needed: nat)
    ensures Absorb(size, rest, needed).0 <= size + Span(rest)
    decreases rest
  {
    if !(size >= needed || rest.End? || rest.alloc) {
      AbsorbSpan(size + MARKER + rest.size, rest.next, needed);
    }
  }

  /** The bytes merging may write, one header and the free blocks absorbed, are in no payload. */
  lemma MergeWritesFree(before: Chain, size: nat, alloc: bool, rest: Chain, needed: nat, at: nat)
    ensures var h := at + Span(before);
      var s := Absorb(size, rest, needed).0;
      forall k :: h <= k < h + MARKER || h + MARKER + size <= k < h + MARKER + s ==>
        !InPayload(Append(before, Link(size, alloc, rest)), at, k)
  {
    var h := at + Span(before);
    var (s, left) := Absorb(size, rest, needed);
    AbsorbGrows(size, rest, needed);
    forall k: nat | h <= k < h + MARKER || h + MARKER + size <= k < h + MARKER + s
      ensures !InPayload(Append(before, Link(size, alloc, rest)), at, k) {
      AppendPayload(before, Link(size, alloc, rest), at, k);
      AbsorbPayload(size, rest, needed, h + MARKER, k);
      if InPayload(before, at, k) { PayloadInside(before, at, k); }
      if InPayload(left, h + MARKER + s, k) { PayloadInside(left, h + MARKER + s, k); }
    }
  }

  /** Linear memory of a contract never exceeds 33 MiB. */
  const MAX_MEMORY: nat := 33 * 1024 * 1024

  /** Payloads of the blocks allocated before, and everything outside the heap, keep their bytes. */
  ghost predicate Untouched(m: seq<byte>, m': seq<byte>, c: Chain, lo: nat, hi: nat) {
    && |m'| == |m|
    && forall k :: 0 <= k < |m| && (InPayload(c, lo, k) || !(lo <= k < hi)) ==> m'[k] == m[k]
  }

  /** What the headers say at the block to be merged. */
  lemma MergeSetup(m: seq<byte>, at: nat, before: Chain, size: nat, alloc: bool, rest: Chain)
    requires Tiles(m, at, Append(before, Link(size, alloc, rest))) && WellSized(Append(before, Link(size, alloc, rest)))
    ensures var p := at + Span(before) + MARKER;
      && p <= |m| && Word(m, p - MARKER) == Header(size, alloc) && GoodSize(size)
      && Tiles(m, at, before) && WellSized(before) && Tiles(m, p + size, rest) && WellSized(rest)
      && p + size + Span(rest) == at + Span(Append(before, Link(size, alloc, rest)))
  {
    TilesAppend(m, at, before, Link(size, alloc, rest));
    AppendSpan(before, Link(size, alloc, rest));
  }

  lemma RetagDone(m: seq<byte>, at: nat, before: Chain, size: nat, alloc: bool, rest: Chain, alloc': bool)
    requires Tiles(m, at, Append(before, Link(size, alloc, rest))) && WellSized(Append(before, Link(size, alloc, rest)))
    ensures var h := at + Span(before);
      var c, c' := Append(before, Link(size, alloc, rest)), Append(before, Link(size, alloc', rest));
      && h + MARKER <= |m| && h + MARKER <= at + Span(c) && Word(m, h) == Header(size, alloc) && size < TWO31
      && Tiles(StoreWord(m, h, Header(size, alloc')), at, c') && WellSized(c') && Span(c') == Span(c)
      && ((alloc ==> alloc') ==> KeepsPayloads(c, c', at))
      && forall k :: h <= k < h + MARKER ==> !InPayload(c, at, k)
  {
    hide Word, StoreWord, Append;
    MergeSetup(m, at, before, size, alloc, rest);
    TilesStored(m, at, before, size, alloc', rest);
    AppendSpan(before, Link(size, alloc, rest));
    AppendSpan(before, Link(size, alloc', rest));
    MergeWritesFree(before, size, alloc, rest, 0, at);
    forall k: nat | (alloc ==> alloc') && InPayload(Append(before, Link(size, alloc, rest)), at, k)
      ensures InPayload(Append(before, Link(size, alloc', rest)), at, k) {
      AppendPayload(before, Link(size, alloc, rest), at, k);
      AppendPayload(before, Link(size, alloc', rest), at, k);
    }
  }

  lemma UntouchedTrans(m: seq<byte>, m1: seq<byte>, m2: seq<byte>, c: Chain, c1: Chain, c2: Chain, lo: nat, hi: nat)
    requires Untouched(m, m1, c, lo, hi) && KeepsPayloads(c, c1, lo)
    requires Untouched(m1, m2, c1, lo, hi) && KeepsPayloads(c1, c2, lo)
    ensures Untouched(m, m2, c, lo, hi) && KeepsPayloads(c, c2, lo)
  {
  }

  /** As `Untouched`, but the bytes from `x` up to `y` may change too. */
  ghost predicate UntouchedBut(m: seq<byte>, m': seq<byte>, c: Chain, lo: nat, hi: nat, x: nat, y: nat) {
    && |m'| == |m|
    && forall k :: 0 <= k < |m| && (InPayload(c, lo, k) || !(lo <= k < hi)) && !(x <= k < y) ==> m'[k] == m[k]
  }

  /** A header scribbled inside a live payload leaves the chain as it was. */
  lemma ShrinkDone(m: seq<byte>, at: nat, c: Chain, p: nat, x: nat, v: nat)
    requires Tiles(m, at, c) && at + Span(c) <= |m| && v < TWO32
    requires LiveAt(c, at, p) != 0 && p <= x && x + MARKER <= p + LiveAt(c, at, p)
    ensures x + MARKER <= |m| && Tiles(StoreWord(m, x, v), at, c)
  {
    hide Word, StoreWord;
    LiveInside(c, at, p);
    forall k | x <= k < x + MARKER ensures InPayload(c, at, k) { LivePayload(c, at, p, k); }
    TilesKept(m, StoreWord(m, x, v), at, c);
  }

  /** The last block of the chain grown in place. */
  lemma GrowLastDone(m: seq<byte>, at: nat, before: Chain, orig: nat, size: nat)
    requires WellSized(Append(before, Link(orig, true, End))) && Tiles(m, at, Append(before, Link(orig, true, End)))
    requires GoodSize(size) && orig <= size
    ensures var c, c' := Append(before, Link(orig, true, End)), Append(before, Link(size, true, End));
      var h := at + Span(before);
      && h + MARKER <= |m| && h + MARKER <= at + Span(c) && Word(m, h) == Header(orig, true)
      && Tiles(StoreWord(m, h, Header(size, true)), at, c') && WellSized(c') && Span(c') == Span(c) + size - orig
      && (forall k :: h <= k < h + MARKER ==> !InPayload(c, at, k))
      && SameLiveBut(c, c', at, h + MARKER) && LiveAt(c', at, h + MARKER) == size
  {
    hide Word, StoreWord, InPayload;
    RetagDone(m, at, before, orig, true, End, true);
    MergeSetup(m, at, before, orig, true, End);
    TilesStored(m, at, before, size, true, End);
    AppendSpan(before, Link(orig, true, End));
    AppendSpan(before, Link(size, true, End));
    ReplacedLive(before, orig, true, End, size, true, End, at);
  }

  /** A live block grown over free neighbours. */
  lemma GrowMergedLive(before: Chain, orig: nat, rest: Chain, needed: nat, at: nat)
    requires WellSized(before) && Fits(needed) && Fits(orig) && WellSized(rest)
    requires Absorb(orig, rest, needed).0 >= needed
    ensures var (s, left) := Absorb(orig, rest, needed);
      var c, c' := Append(before, Link(orig, true, rest)), Append(before, Carve(s, needed, true, left));
      SameLiveBut(c, c', at, at + Span(before) + MARKER) && LiveAt(c', at, at + Span(before) + MARKER) == needed
  {
    hide Absorb, Fits;
    var (s, left) := Absorb(orig, rest, needed);
    var q := at + Span(before) + MARKER;
    AbsorbMeaning(orig, rest, needed);
    if s > needed { FitsSplit(s, needed); }
    var rest' := Carve(s, needed, true, left).next;
    var x, y := q + needed, q + orig;
    forall p: nat ensures LiveAt(rest', x, p) == LiveAt(rest, y, p) {
      AbsorbLive(orig, rest, needed, q, p);
      LiveBelow(left, q + s, p);
    }
    ReplacedLive(before, orig, true, rest, needed, true, rest', at);
  }

  lemma UntouchedSelf(m: seq<byte>, c: Chain, lo: nat, hi: nat)
    ensures Untouched(m, m, c, lo, hi) && KeepsPayloads(c, c, lo)
  {
  }

  /** Memory after the block headed at `h` has been merged. */
  function AfterMerge(m: seq<byte>, h: nat, s: nat, needed: nat, alloc: bool): (m': seq<byte>)
    requires 0 < needed && s < TWO31 && h + MARKER + s <= |m| && (s > needed ==> s >= needed + MEM_BLOCK)
  {
    if s >= needed then Cut(m, h, s, needed, alloc) else StoreWord(m, h, Header(s, alloc))
  }

  /** Merging in memory is merging of the chain: the headers describe the merged chain, and only
      a header and free bytes are written. */
  lemma MergeDone(m: seq<byte>, at: nat, before: Chain, size: nat, alloc: bool, rest: Chain, needed: nat, hi: nat)
    requires var c := Append(before, Link(size, alloc, rest));
      Tiles(m, at, c) && WellSized(c) && Span(c) < TWO31 && at + Span(c) <= hi <= |m|
    requires Fits(needed) && (alloc ==> size <= needed)
    ensures var c := Append(before, Link(size, alloc, rest));
      var (s, left) := Absorb(size, rest, needed);
      var c' := Append(before, Merged(s, needed, alloc, left));
      var h := at + Span(before);
      && 0 < needed && s < TWO31 && h + MARKER + s <= at + Span(c) && (s > needed ==> s >= needed + MEM_BLOCK)
      && Tiles(AfterMerge(m, h, s, needed, alloc), at, c') && WellSized(c') && Span(c') == Span(c)
      && KeepsPayloads(c, c', at) && Untouched(m, AfterMerge(m, h, s, needed, alloc), c, at, hi)
  {
    hide Absorb, Tiles, WellSized, InPayload, KeepsPayloads, Untouched, AfterMerge, Fits, Span, Append, Merged;
    var (s, left) := Absorb(size, rest, needed);
    FitsPositive(needed);
    MergedChain(before, size, alloc, rest, needed, alloc);
    MergedKeeps(before, size, alloc, rest, needed, at, alloc);
    MergeTiles(m, at, before, size, alloc, rest, needed);
    MergeUntouched(m, at, before, size, alloc, rest, needed, hi);
  }

  lemma MergeTiles(m: seq<byte>, at: nat, before: Chain, size: nat, alloc: bool, rest: Chain, needed: nat)
    requires var c := Append(before, Link(size, alloc, rest)); Tiles(m, at, c) && WellSized(c)
    requires var s := Absorb(size, rest, needed).0;
      0 < needed && s < TWO31 && at + Span(before) + MARKER + s <= |m| && (s > needed ==> s >= needed + MEM_BLOCK)
    ensures var (s, left) := Absorb(size, rest, needed);
      Tiles(AfterMerge(m, at + Span(before), s, needed, alloc), at, Append(before, Merged(s, needed, alloc, left)))
  {
    hide Absorb, Word, StoreWord, Fits, Cut, Span, Append;
    var (s, left) := Absorb(size, rest, needed);
    var h := at + Span(before);
    MergeSetup(m, at, before, size, alloc, rest);
    AbsorbTiles(m, h + MARKER, size, rest, needed);
    if s >= needed {
      TilesCut(m, at, before, s, needed, alloc, left);
    } else {
      TilesStored(m, at, before, s, alloc, left);
    }
  }

  lemma MergeUntouched(m: seq<byte>, at: nat, before: Chain, size: nat, alloc: bool, rest: Chain, needed: nat, hi: nat)
    requires var s := Absorb(size, rest, needed).0;
      && 0 < needed && s < TWO31 && at + Span(before) + MARKER + s <= hi <= |m|
        && (s > needed ==> s >= needed + MEM_BLOCK)
    requires alloc ==> size <= needed
    ensures var s := Absorb(size, rest, needed).0;
      Untouched(m, AfterMerge(m, at + Span(before), s, needed, alloc), Append(before, Link(size, alloc, rest)), at, hi)
  {
    hide Absorb, StoreWord, InPayload, Cut, Span, Append;
    MergeWritesFree(before, size, alloc, rest, needed, at);
    if !alloc { MergeWritesOwn(before, size, rest, at); }
  }

  /** A free block's own bytes are in no payload either. */
  lemma MergeWritesOwn(before: Chain, size: nat, rest: Chain, at: nat)
    ensures forall k :: at + Span(before) <= k < at + Span(before) + MARKER + size ==>
      !InPayload(Append(before, Link(size, false, rest)), at, k)
  {
    forall k: nat | at + Span(before) <= k < at + Span(before) + MARKER + size
      ensures !InPayload(Append(before, Link(size, false, rest)), at, k) {
      AppendPayload(before, Link(size, false, rest), at, k);
      if InPayload(before, at, k) { PayloadInside(before, at, k); }
      var q := at + Span(before) + MARKER + size;
      if InPayload(rest, q, k) { PayloadInside(rest, q, k); }
    }
  }

  lemma StoreTwice(m: seq<byte>, p: nat, v: nat, w: nat)
    requires p + 4 <= |m| && v < TWO32 && w < TWO32
    ensures StoreWord(StoreWord(m, p, v), p, w) == StoreWord(m, p, w)
  {
  }

  /** The block at `p` has at least `size` bytes and every other live block is as it was; of the live
      bytes only those of the block beyond `size` may have changed. */
  ghost predicate Resized(m: seq<byte>, m': seq<byte>, c: Chain, c': Chain, lo: nat, hi: nat, p: nat, size: nat) {
    && SameLiveBut(c, c', lo, p)
    && LiveAt(c', lo, p) == (if size < LiveAt(c, lo, p) then LiveAt(c, lo, p) else size)
    && UntouchedBut(m, m', c, lo, hi, p + size, p + LiveAt(c, lo, p))
  }

  lemma ResizedSelf(m: seq<byte>, c: Chain, lo: nat, hi: nat, p: nat, size: nat)
    requires LiveAt(c, lo, p) == size
    ensures Resized(m, m, c, c, lo, hi, p, size)
  {
  }

  /** The block at `p` can have `size` bytes where it stands: the heap reaches that far, and the block is
      long enough, or the last one, or followed by enough free blocks. */
  predicate RoomInPlace(c: Chain, at: nat, heapSize: nat, p: nat, size: nat) {
    var orig, after := LiveAt(c, at, p), After(c, at, p);
    p + size <= at + heapSize && (size <= orig || after.End? || size <= LeadingRun(Link(orig, false, after)))
  }

  /** Resizing the block at `p` in place neither wraps around nor looks past the carved part of the
      heap: the last block is not asked to grow beyond the address where the heap ends, and the walk
      over free neighbours of any other block ends inside the carved part. */
  predicate ResizeSafe(c: Chain, at: nat, heapSize: nat, p: nat, size: nat) {
    var orig, after := LiveAt(c, at, p), After(c, at, p);
    if size <= orig then true
    else if after.End? then size <= at + heapSize
    else
      Span(c) == heapSize || p + size > at + heapSize
      || Absorb(orig, after, size).0 >= size || Absorb(orig, after, size).1.Link?
  }

  /** The header walk of growth in place, on bare memory: it stops at the heap's end, not at the end
      of its carved part. */
  ghost function Walk(m: seq<byte>, p: nat, possible: nat, needed: nat, end: nat): nat
    decreases needed - possible
  {
    if possible >= needed || p + possible >= end || p + possible + MARKER > |m|
      || Flag(Word(m, p + possible)) then possible
    else Walk(m, p, possible + Low(Word(m, p + possible)) + MARKER, needed, end)
  }

  /** The word at an address would stop the walk. */
  predicate Stops(m: seq<byte>, a: nat) {
    a + MARKER <= |m| && Flag(Word(m, a))
  }

  /** Growing the block at `p` in place finds what the chain says: it is safe by itself, or what happens to
      lie after the carved part of the heap looks like an allocated block. */
  predicate GrowthSafe(m: seq<byte>, c: Chain, at: nat, heapSize: nat, p: nat, size: nat) {
    ResizeSafe(c, at, heapSize, p, size) || (After(c, at, p).Link? && Stops(m, at + Span(c)))
  }

  /** Shrinking is safe, and so is asking for more than the heap has where that is refused at once; the last
      block may grow up to the address where the heap ends. */
  lemma SafeCases(m: seq<byte>, c: Chain, at: nat, heapSize: nat, p: nat, size: nat)
    ensures size <= LiveAt(c, at, p) ==> GrowthSafe(m, c, at, heapSize, p, size)
    ensures After(c, at, p).Link? && p + size > at + heapSize ==> GrowthSafe(m, c, at, heapSize, p, size)
    ensures After(c, at, p).Link? && Span(c) == heapSize ==> GrowthSafe(m, c, at, heapSize, p, size)
    ensures After(c, at, p).End? && size > LiveAt(c, at, p) ==>
      (GrowthSafe(m, c, at, heapSize, p, size) <==> size <= at + heapSize)
  {
  }

  lemma {:induction false} WalkGrows(m: seq<byte>, p: nat, possible: nat, needed: nat, end: nat)
    ensures Walk(m, p, possible, needed, end) >= possible
    decreases needed - possible
  {
    if possible < needed && p + possible < end && p + possible + MARKER <= |m| && !Flag(Word(m, p + possible)) {
      WalkGrows(m, p, possible + Low(Word(m, p + possible)) + MARKER, needed, end);
    }
  }

  lemma WalkOver(m: seq<byte>, p: nat, size: nat, rest: Chain, needed: nat, end: nat)
    requires Tiles(m, p + size, rest) && rest.Link? && !rest.alloc && rest.size < TWO31 && size < needed
    requires p + size < end
    ensures Walk(m, p, size, needed, end) == Walk(m, p, size + MARKER + rest.size, needed, end)
    ensures Tiles(m, p + size + MARKER + rest.size, rest.next)
  {
    hide Word;
    assert Low(Word(m, p + size)) == rest.size;
  }

  lemma LinkSize(c: Chain)
    requires WellSized(c) && c.Link?
    ensures c.size < TWO31 && WellSized(c.next) && Span(c) == MARKER + c.size + Span(c.next)
  {
  }

  /** Inside the carved part the walk meets the blocks of the chain. */
  lemma {:induction false} WalkFollows(m: seq<byte>, p: nat, size: nat, rest: Chain, needed: nat, end: nat)
    requires Tiles(m, p + size, rest) && WellSized(rest) && p + size + Span(rest) <= end
    ensures Walk(m, p, size, needed, end) == Walk(m, p, Absorb(size, rest, needed).0, needed, end)
    ensures Tiles(m, p + Absorb(size, rest, needed).0, Absorb(size, rest, needed).1)
    decreases rest
  {
    hide Walk, Tiles, WellSized, Span;
    if size < needed && rest.Link? && !rest.alloc {
      LinkSize(rest);
      WalkOver(m, p, size, rest, needed, end);
      WalkFollows(m, p, size + MARKER + rest.size, rest.next, needed, end);
    }
  }

  /** Wherever the walk is made, it comes to what the chain says exactly when growth is safe. */
  lemma WalkExact(m: seq<byte>, c: Chain, at: nat, heapSize: nat, p: nat, size: nat)
    requires Tiles(m, at, c) && WellSized(c) && LiveAt(c, at, p) != 0 && After(c, at, p).Link? && Span(c) <= heapSize
    requires at + heapSize <= |m| && heapSize % MEM_BLOCK == 0 && p + size <= at + heapSize
    ensures var orig, after := LiveAt(c, at, p), After(c, at, p);
      Walk(m, p, orig, size, at + heapSize) == Absorb(orig, after, size).0 <==> GrowthSafe(m, c, at, heapSize, p, size)
  {
    hide Word, Tiles, Absorb, LiveAt, After, Walk, Span, Append, WellSized;
    var before, orig, after, end := Before(c, at, p), LiveAt(c, at, p), After(c, at, p), at + heapSize;
    SplitAt(c, at, p);
    MergeSetup(m, at, before, orig, true, after);
    AppendSpan(before, Link(orig, true, after));
    var (s, left) := Absorb(orig, after, size);
    WalkFollows(m, p, orig, after, size, end);
    LinkSize(Link(orig, true, after));
    AbsorbMeaning(orig, after, size);
    WalkStep(m, p, s, size, end);
    SpanAligned(c);
    if left.Link? { LinkThere(m, p + s, left); } else { NoSpan(left); }
  }

  /** One look of the walk: it stays where it is exactly when something stops it. */
  lemma WalkStep(m: seq<byte>, p: nat, s: nat, size: nat, end: nat)
    ensures Walk(m, p, s, size, end) == s <==> s >= size || p + s >= end || p + s + MARKER > |m| || Flag(Word(m, p + s))
  {
    if !(s >= size || p + s >= end || p + s + MARKER > |m| || Flag(Word(m, p + s))) {
      WalkGrows(m, p, s + Low(Word(m, p + s)) + MARKER, size, end);
    }
  }

  lemma NoSpan(c: Chain)
    requires c.End?
    ensures Span(c) == 0
  {
  }

  lemma LinkThere(m: seq<byte>, a: nat, c: Chain)
    requires Tiles(m, a, c) && c.Link?
    ensures a + MARKER <= |m| && (c.alloc ==> Flag(Word(m, a))) && Span(c) > 0
  {
    hide Word;
  }

  /** A block that grows by an unsafe walk covers the start of what the next bump allocation hands out. */
  lemma UncarvedGrowthOverlaps(m: seq<byte>, c: Chain, at: nat, heapSize: nat, p: nat, size: nat)
    requires Tiles(m, at, c) && WellSized(c) && LiveAt(c, at, p) != 0 && After(c, at, p).Link? && Span(c) <= heapSize
    requires at + heapSize <= |m| && heapSize % MEM_BLOCK == 0 && p + size <= at + heapSize && GoodSize(size)
    requires !GrowthSafe(m, c, at, heapSize, p, size) && Walk(m, p, LiveAt(c, at, p), size, at + heapSize) >= size
    ensures Absorb(LiveAt(c, at, p), After(c, at, p), size).0 < size && p + size > at + Span(c) + MARKER
  {
    hide Word, Tiles, Absorb, LiveAt, After, Before, Append, Walk, Fits, Span, WellSized;
    var before, orig, after := Before(c, at, p), LiveAt(c, at, p), After(c, at, p);
    SplitAt(c, at, p);
    MergeSetup(m, at, before, orig, true, after);
    AppendSpan(before, Link(orig, true, after));
    AbsorbMeaning(orig, after, size);
    var (s, left) := Absorb(orig, after, size);
    if left.End? { NoSpan(left); }
    assert p + orig + Span(after) == at + Span(c) && p + s == at + Span(c);
    FitsSplit(size, s);
  }

  /** The 32-bit test for room at the end of the heap is right exactly when the size does not exceed
      the address where the heap ends. */
  lemma RoomTestExact(p: nat, size: nat, end: nat)
    requires 0 < p < end < TWO31 && size < TWO32
    ensures (p > (end + TWO32 - size) % TWO32 <==> p + size > end) <==> size <= end
  {
  }

  class Memory {
    const ram: array<byte>
    var heap: nat
    var heapSize: nat
    var offset: nat
    ghost var chain: Chain

    ghost predicate Shape()
      reads this
    {
      && 0 < heap && 0 < heapSize && heapSize % MEM_BLOCK == 0
      && heap + heapSize <= ram.Length <= MAX_MEMORY
      && WellSized(chain) && Span(chain) == offset <= heapSize
    }

    /** The headers tile exactly the carved part of the heap. */
    ghost predicate Valid()
      reads this, ram
    {
      Shape() && Tiles(ram[..], heap, chain)
    }

    constructor (ram: array<byte>)
      ensures this.ram == ram && heap == 0 && heapSize == 0 && offset == 0 && chain == End
    {
      this.ram := ram;
      heap, heapSize, offset, chain := 0, 0, 0, End;
    }

    method Init(start: nat, size: nat)
      requires offset == 0 && chain == End
      requires 0 < start && 0 < size && size % MEM_BLOCK == 0 && start + size <= ram.Length <= MAX_MEMORY
      modifies this
      ensures Valid() && heap == start && heapSize == size && offset == 0 && chain == End
    {
      heap, heapSize := start, size;
    }

    /** Writes a size and keeps the allocation flag found there. */
    method SetSize(p: nat, size: nat)
      requires MARKER <= p <= ram.Length && size < TWO31
      modifies ram
      ensures ram[..] == StoreWord(old(ram[..]), p - MARKER, Header(size, Flag(Word(old(ram[..]), p - MARKER))))
    {
      var w := Load(ram, p - MARKER);
      Store(ram, p - MARKER, Header(size, Flag(w)));
    }

    method Mark(p: nat, alloc: bool)
      requires MARKER <= p <= ram.Length
      modifies ram
      ensures ram[..] == StoreWord(old(ram[..]), p - MARKER, Header(Low(Word(old(ram[..]), p - MARKER)), alloc))
    {
      var w := Load(ram, p - MARKER);
      Store(ram, p - MARKER, Header(Low(w), alloc));
    }

    /** Makes a header out of whatever was there before. */
    method Describe(p: nat, size: nat, alloc: bool)
      requires MARKER <= p <= ram.Length && size < TWO31
      modifies ram
      ensures ram[..] == StoreWord(old(ram[..]), p - MARKER, Header(size, alloc))
    {
      hide Word, StoreWord;
      ghost var m := ram[..];
      ghost var h := Header(size, Flag(Word(m, p - MARKER)));
      SetSize(p, size);
      WordStored(m, p - MARKER, h);
      Mark(p, alloc);
      StoreTwice(m, p - MARKER, h, Header(size, alloc));
    }

    /** Bump allocation at the end of the carved part. */
    method Malloc(size: nat) returns (p: nat)
      requires Valid() && Fits(size) && offset + size + MARKER < TWO32
      modifies this, ram
      ensures Valid() && heap == old(heap) && heapSize == old(heapSize)
      ensures p == 0 <==> old(offset) + size + MARKER > heapSize
      ensures p == 0 ==> chain == old(chain) && ram[..] == old(ram[..])
      ensures p != 0 ==> p == heap + old(offset) + MARKER && chain == Append(old(chain), Link(size, true, End))
      ensures p != 0 ==> ram[..] == StoreWord(old(ram[..]), heap + old(offset), Header(size, true))
      ensures Untouched(old(ram[..]), ram[..], old(chain), heap, heap + heapSize)
    {
      hide Word, StoreWord, Tiles, InPayload, Span;
      var used := (offset + size + MARKER) % TWO32;
      if used > heapSize {
        return 0;
      }
      p := heap + offset + MARKER;
      TilesExtended(ram[..], heap, chain, size, true);
      Describe(p, size, true);
      offset := (offset + size + MARKER) % TWO32;
      chain := Append(chain, Link(size, true, End));
    }

    /** Turns the uncarved rest of the heap into one free block. */
    method CleanupRemaining()
      requires Valid()
      modifies this, ram
      ensures Valid() && heap == old(heap) && heapSize == old(heapSize) && offset == heapSize
      ensures old(offset) == heapSize ==> chain == old(chain)
      ensures old(offset) < heapSize ==>
        old(offset) + MEM_BLOCK <= heapSize
          && chain == Append(old(chain), Link(heapSize - old(offset) - MARKER, false, End))
      ensures Untouched(old(ram[..]), ram[..], old(chain), heap, heap + heapSize)
    {
      hide Word, StoreWord, Tiles, InPayload, Span, Append, Fits, GoodSize;
      if offset == heapSize {
        return;
      }
      SpanAligned(chain);
      RestFits(heapSize, offset);
      var size := heapSize - offset - MARKER;
      TilesExtended(ram[..], heap, chain, size, false);
      Describe(heap + offset + MARKER, size, false);
      offset := heapSize;
      chain := Append(chain, Link(size, false, End));
    }

    /** Writes the headers of a merged block and of its remainder. */
    method Combine(p: nat, possible: nat, needed: nat)
      requires MARKER <= p && p + possible <= ram.Length && possible < TWO31
      requires 0 < needed && (possible > needed ==> possible >= needed + MEM_BLOCK)
      modifies ram
      ensures ram[..] == AfterMerge(old(ram[..]), p - MARKER, possible, needed, Flag(Word(old(ram[..]), p - MARKER)))
    {
      hide Word, StoreWord;
      SetSize(p, if possible < needed then possible else needed);
      if possible > needed {
        Describe(p + needed + MARKER, possible - needed - MARKER, false);
      }
    }

    /** How far the block at `p` can grow over the free blocks after it, walking their headers. */
    method Reach(p: nat, size: nat, needed: nat, ghost rest: Chain) returns (possible: nat)
      requires Valid() && Tiles(ram[..], p + size, rest) && WellSized(rest) && p + size + Span(rest) == heap + offset
      requires offset == heapSize || Absorb(size, rest, needed).0 >= needed || Absorb(size, rest, needed).1.Link?
        || Stops(ram[..], heap + offset)
      ensures possible == Absorb(size, rest, needed).0
    {
      hide Word, GoodSize;
      possible := size;
      ghost var left := rest;
      while possible < needed && p + possible < heap + heapSize
        invariant Absorb(possible, left, needed) == Absorb(size, rest, needed)
        invariant Tiles(ram[..], p + possible, left) && WellSized(left)
        invariant p + possible + Span(left) == heap + offset
        decreases left
      {
        var w := Load(ram, p + possible);
        if Flag(w) {
          break;
        }
        possible := possible + Low(w) + MARKER;
        left := left.next;
      }
    }

    /** Grows the block at `p` over the free blocks after it, as far as `needed`, and cuts off what
        it does not need. With `allOrNothing` a block that cannot reach `needed` is left as it was. */
    method MergeContiguous(p: nat, size: nat, needed: nat, allOrNothing: bool,
                           ghost before: Chain, ghost alloc: bool, ghost rest: Chain)
      returns (ok: bool, newSize: nat)
      requires Valid() && chain == Append(before, Link(size, alloc, rest)) && p == heap + Span(before) + MARKER
      requires Fits(needed) && (alloc ==> size <= needed)
      requires offset == heapSize || Absorb(size, rest, needed).0 >= needed || Absorb(size, rest, needed).1.Link?
        || (allOrNothing && p + needed > heap + heapSize) || Stops(ram[..], heap + offset)
      modifies this`chain, ram
      ensures Valid()
      ensures ok <==> Absorb(size, rest, needed).0 >= needed
      ensures var (s, left) := Absorb(size, rest, needed);
        if allOrNothing && !ok then chain == old(chain) && ram[..] == old(ram[..])
        else chain == Append(before, Merged(s, needed, alloc, left)) && newSize == if ok then needed else s
      ensures KeepsPayloads(old(chain), chain, heap)
      ensures Untouched(old(ram[..]), ram[..], old(chain), heap, heap + heapSize)
    {
      hide Word, StoreWord, InPayload, Fits, Append, Absorb, Span, Tiles, WellSized, AfterMerge, Merged;
      MergeSetup(ram[..], heap, before, size, alloc, rest);
      AbsorbSpan(size, rest, needed);
      if allOrNothing && heap + heapSize - p < needed {
        return false, size;
      }
      var possible := Reach(p, size, needed, rest);
      ok := possible >= needed;
      newSize := if ok then needed else possible;
      if allOrNothing && !ok {
        return;
      }
      MergeDone(ram[..], heap, before, size, alloc, rest, needed, heap + heapSize);
      Combine(p, possible, needed);
      chain := Append(before, Merged(possible, needed, alloc, Absorb(size, rest, needed).1));
    }

    /** Sets or clears the allocation flag of one block of the chain. */
    method Retag(p: nat, alloc': bool, ghost before: Chain, ghost size: nat, ghost alloc: bool, ghost rest: Chain)
      requires Valid() && chain == Append(before, Link(size, alloc, rest)) && p == heap + Span(before) + MARKER
      modifies this`chain, ram
      ensures Valid() && chain == Append(before, Link(size, alloc', rest))
      ensures p <= ram.Length && size < TWO31
      ensures ram[..] == StoreWord(old(ram[..]), p - MARKER, Header(size, alloc'))
      ensures (alloc ==> alloc') ==> KeepsPayloads(old(chain), chain, heap)
      ensures Untouched(old(ram[..]), ram[..], old(chain), heap, heap + heapSize)
    {
      hide Word, StoreWord, InPayload, Fits, Append, Tiles;
      ghost var m := ram[..];
      RetagDone(m, heap, before, size, alloc, rest, alloc');
      Mark(p, alloc');
      assert ram[..] == StoreWord(m, p - MARKER, Header(size, alloc'));
      chain := Append(before, Link(size, alloc', rest));
    }

    /** One step of the search: hands out the block at `current` if it is free and can grow to
        `size`, and otherwise passes over it, merged or allocated. */
    method SearchBlock(current: nat, size: nat, ghost done: Chain, ghost left: Chain)
      returns (taken: bool, currentSize: nat, ghost done': Chain, ghost left': Chain)
      requires Valid() && offset == heapSize && Fits(size)
      requires chain == Append(done, left) && left.Link? && WellSized(left) && current == heap + Span(done) + MARKER
      modifies this`chain, ram
      ensures Valid() && WellSized(left')
      ensures taken ==> Prepend(done, FromFreed(left, size)) == (chain, Some(current - heap - MARKER))
      ensures !taken ==>
        && chain == Append(done', left') && Span(left') < Span(left) && current + currentSize == heap + Span(done')
        && Prepend(done, FromFreed(left, size)) == Prepend(done', FromFreed(left', size))
      ensures KeepsPayloads(old(chain), chain, heap)
      ensures Untouched(old(ram[..]), ram[..], old(chain), heap, heap + heapSize)
    {
      hide Word, StoreWord, InPayload, Fits, Append, Absorb, Tiles, KeepsPayloads, Untouched, FromFreed, Span,
           WellSized;
      ghost var m, c := ram[..], chain;
      SearchCases(left, size);
      done', left' := done, left.next;
      MergeSetup(m, heap, done, left.size, left.alloc, left.next);
      var w := Load(ram, current - MARKER);
      currentSize := Low(w);
      if Flag(w) {
        taken := false;
        StepSearch(done, left.size, true, left.next, size);
        done' := Append(done, Link(left.size, true, End));
        UntouchedSelf(m, c, heap, heap + heapSize);
      } else {
        ghost var (s, rest) := Absorb(left.size, left.next, size);
        taken, currentSize := MergeContiguous(current, currentSize, size, false, done, false, left.next);
        if taken {
          ghost var m1, c1 := ram[..], chain;
          Retag(current, true, done, size, false, Carve(s, size, false, rest).next);
          UntouchedTrans(m, m1, ram[..], c, c1, chain, heap, heap + heapSize);
        } else {
          StepSearch(done, s, false, rest, size);
          done', left' := Append(done, Link(s, false, End)), rest;
        }
      }
    }

    /** First fit over a fully carved heap, merging free neighbours on the way. */
    method MallocFromFreed(size: nat) returns (p: nat)
      requires Valid() && offset == heapSize && Fits(size)
      modifies this`chain, ram
      ensures Valid()
      ensures FromFreed(old(chain), size) == (chain, if p == 0 then None else Some(p - heap - MARKER))
      ensures p == 0 || p >= heap + MARKER
      ensures Untouched(old(ram[..]), ram[..], old(chain), heap, heap + heapSize)
    {
      hide Word, StoreWord, InPayload, Fits, Append, Tiles, KeepsPayloads, Untouched;
      var current := heap + MARKER;
      ghost var done, left := End, chain;
      ghost var m, c := ram[..], chain;
      StartSearch(c, size);
      UntouchedSelf(m, c, heap, heap + heapSize);
      while current != 0
        invariant Valid() && chain == Append(done, left) && WellSized(left)
        invariant current != 0 ==> left.Link? && current == heap + Span(done) + MARKER
        invariant current == 0 ==> left.End?
        invariant FromFreed(c, size) == Prepend(done, FromFreed(left, size))
        invariant KeepsPayloads(c, chain, heap) && Untouched(m, ram[..], c, heap, heap + heapSize)
        decreases Span(left)
      {
        ghost var m1, c1 := ram[..], chain;
        var taken, currentSize;
        taken, currentSize, done, left := SearchBlock(current, size, done, left);
        UntouchedTrans(m, m1, ram[..], c, c1, chain, heap, heap + heapSize);
        if taken {
          return current;
        }
        AppendSpan(done, left);
        var next := current + currentSize + MARKER;
        current := if next >= heap + heapSize then 0 else next;
      }
      p := 0;
      AppendEnd(done);
    }

    /** Gives the block at `p` back: it alone stops being live. */
    method Free(p: nat)
      requires Valid() && LiveAt(chain, heap, p) != 0
      modifies this`chain, ram
      ensures Valid() && SameLiveBut(old(chain), chain, heap, p) && LiveAt(chain, heap, p) == 0
      ensures var before, size, after :=
        Before(old(chain), heap, p), LiveAt(old(chain), heap, p), After(old(chain), heap, p);
        && chain == Append(before, Link(size, false, after)) && MARKER <= p <= ram.Length && size < TWO31
        && ram[..] == StoreWord(old(ram[..]), p - MARKER, Header(size, false))
      ensures Untouched(old(ram[..]), ram[..], old(chain), heap, heap + heapSize)
    {
      hide Word, StoreWord, InPayload, Fits, Append, Tiles, Untouched;
      ghost var before, size, after := Before(chain, heap, p), LiveAt(chain, heap, p), After(chain, heap, p);
      SplitAt(chain, heap, p);
      AppendSpan(before, Link(size, true, after));
      Retag(p, false, before, size, true, after);
      ReplacedLive(before, size, true, after, size, false, after, heap);
    }

    /** A block asked to shrink keeps its size; the header written for the excess stays inside it. */
    method Shrink(p: nat, size: nat)
      requires Valid() && Fits(size) && 0 < size < LiveAt(chain, heap, p)
      modifies ram
      ensures Valid() && Resized(old(ram[..]), ram[..], chain, chain, heap, heap + heapSize, p, size)
    {
      hide Word, StoreWord, InPayload, Fits, Tiles;
      var w := LoadHeader(p);
      var orig := Low(w);
      FitsSplit(orig, size);
      ShrinkDone(ram[..], heap, chain, p, p + size, Header(orig - size, false));
      Describe(p + size + MARKER, orig - size, false);
    }

    /** The last block grows over uncarved space. */
    method GrowLast(p: nat, size: nat, orig: nat)
      requires Valid() && Fits(size) && orig == LiveAt(chain, heap, p) && 0 < orig <= size
      requires p + orig == heap + offset && p + size <= heap + heapSize
      modifies this`chain, this`offset, ram
      ensures Valid() && Resized(old(ram[..]), ram[..], old(chain), chain, heap, heap + heapSize, p, size)
      ensures offset == old(offset) + size - orig
    {
      hide Word, StoreWord, InPayload, Fits, Append, Tiles, LiveAt;
      ghost var m, c := ram[..], chain;
      ghost var before, after := Before(c, heap, p), After(c, heap, p);
      SplitAt(c, heap, p);
      MergeSetup(m, heap, before, orig, true, after);
      GrowLastDone(m, heap, before, orig, size);
      SetSize(p, size);
      offset := offset + size - orig;
      chain := Append(before, Link(size, true, End));
    }

    /** Any other block grows over the free blocks after it, or not at all. */
    method GrowMerged(p: nat, size: nat, orig: nat) returns (ok: bool)
      requires Valid() && Fits(size) && orig == LiveAt(chain, heap, p) && 0 < orig < size
      requires GrowthSafe(ram[..], chain, heap, heapSize, p, size) && After(chain, heap, p).Link?
      modifies this`chain, ram
      ensures Valid()
      ensures ok <==> LeadingRun(Link(orig, false, After(old(chain), heap, p))) >= size
      ensures ok ==> p + size <= heap + heapSize
      ensures ok ==> Resized(old(ram[..]), ram[..], old(chain), chain, heap, heap + heapSize, p, size)
      ensures !ok ==> chain == old(chain) && ram[..] == old(ram[..])
    {
      hide Word, StoreWord, InPayload, Fits, Append, Tiles, LiveAt, Absorb, LeadingRun;
      ghost var m, c := ram[..], chain;
      ghost var before, after := Before(c, heap, p), After(c, heap, p);
      SplitAt(c, heap, p);
      MergeSetup(m, heap, before, orig, true, after);
      AbsorbRun(orig, after, size);
      AbsorbSpan(orig, after, size);
      var newSize;
      ok, newSize := MergeContiguous(p, orig, size, true, before, true, after);
      if ok {
        ghost var (s, left) := Absorb(orig, after, size);
        GrowMergedLive(before, orig, after, size, heap);
        ghost var m1, c1 := ram[..], chain;
        Retag(p, true, before, size, true, Carve(s, size, true, left).next);
        UntouchedTrans(m, m1, ram[..], c, c1, chain, heap, heap + heapSize);
      }
    }

    method LoadHeader(p: nat) returns (w: nat)
      requires Valid() && LiveAt(chain, heap, p) != 0
      ensures w == Header(LiveAt(chain, heap, p), true) && GoodSize(LiveAt(chain, heap, p))
      ensures heap + MARKER <= p && p + LiveAt(chain, heap, p) <= heap + offset
      ensures p + LiveAt(chain, heap, p) == heap + offset <==> After(chain, heap, p).End?
    {
      SplitAt(chain, heap, p);
      LiveInside(chain, heap, p);
      MergeSetup(ram[..], heap, Before(chain, heap, p), LiveAt(chain, heap, p), true, After(chain, heap, p));
      w := Load(ram, p - MARKER);
    }

    /** Resizes the block at `p` where it stands if it can: a smaller size keeps the block, the last
        block grows over uncarved space, and any other block grows over free neighbours.
        Returns 0, with nothing changed, when the block would have to move. */
    method ReallocInPlace(p: nat, size: nat) returns (r: nat, orig: nat)
      requires Valid() && LiveAt(chain, heap, p) != 0 && Fits(size) && size < TWO32
      requires GrowthSafe(ram[..], chain, heap, heapSize, p, size)
      modifies this`chain, this`offset, ram
      ensures Valid() && orig == LiveAt(old(chain), heap, p) && (r == 0 || r == p)
      ensures r == p <==> RoomInPlace(old(chain), heap, heapSize, p, size)
      ensures r == 0 ==> chain == old(chain) && offset == old(offset) && ram[..] == old(ram[..])
      ensures r == p ==> Resized(old(ram[..]), ram[..], old(chain), chain, heap, heap + heapSize, p, size)
      ensures old(offset) == heapSize ==> offset == heapSize
    {
      hide Word, StoreWord, InPayload, Fits, Append, Tiles, LiveAt, After, Absorb, LeadingRun, Resized;
      ghost var m, c := ram[..], chain;
      FitsPositive(size);
      var end := heap + heapSize;
      var w := LoadHeader(p);
      orig := Low(w);
      RoomTestExact(p, size, end);
      if p > (end + TWO32 - size) % TWO32 {
        return 0, orig;
      }
      if orig > size {
        Shrink(p, size);
        return p, orig;
      } else if p + orig == heap + offset {
        GrowLast(p, size, orig);
        return p, orig;
      }
      if size == orig {
        ResizedSelf(m, c, heap, end, p, size);
        return p, orig;
      }
      var ok := GrowMerged(p, size, orig);
      r := if ok then p else 0;
    }

    method ExpandMemory(start: nat, size: nat) returns (ok: bool)
      requires Valid() && start + size <= ram.Length && size % MEM_BLOCK == 0
      modifies this`heapSize
      ensures Valid()
      ensures ok <==> start == heap + old(heapSize)
      ensures heapSize == if ok then old(heapSize) + size else old(heapSize)
    {
      if heap + heapSize != start {
        return false;
      }
      heapSize := heapSize + size;
      return true;
    }
  }

  /** Addresses at or after the end of a chain are in none of its payloads. */
  lemma ClearOf(c: Chain, at: nat, from: nat)
    requires at + Span(c) <= from
    ensures forall k :: k >= from ==> !InPayload(c, at, k)
  {
    forall k: nat | k >= from ensures !InPayload(c, at, k) {
      if InPayload(c, at, k) { PayloadInside(c, at, k); }
    }
  }
}
