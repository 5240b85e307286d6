/** A heap of the contract allocator as the chain of blocks its in-band headers describe,
    and what first-fit reuse with coalescing and splitting does to that chain. */
module HeapBlocks {
  import opened Options

  /** Blocks from one address upwards: a block of `size` payload bytes behind a header of
      `MARKER` bytes, allocated or free, and the chain after it. */
  datatype Chain = End | Link(size: nat, alloc: bool, next: Chain)

  const MARKER: nat := 4
  const MEM_BLOCK: nat := 8

  /** Block sizes are 4 mod 8, so that a block with its header fills whole 8-byte cells. */
  predicate Fits(size: int) {
    size % MEM_BLOCK == MARKER
  }

  predicate GoodSize(size: int) {
    0 < size < 0x8000_0000 && Fits(size)
  }

  lemma FitsPositive(a: nat)
    requires Fits(a)
    ensures a >= MARKER
  {
  }

  lemma FitsJoin(a: int, b: int)
    requires Fits(a) && Fits(b)
    ensures Fits(a + MARKER + b)
  {
  }

  lemma FitsSplit(a: int, b: int)
    requires Fits(a) && Fits(b) && b < a
    ensures a >= b + MEM_BLOCK && Fits(a - b - MARKER)
  {
  }

  predicate WellSized(c: Chain) {
    c.Link? ==> GoodSize(c.size) && WellSized(c.next)
  }

  /** Bytes covered by the chain, headers included. */
  function Span(c: Chain): nat {
    if c.End? then 0 else MARKER + c.size + Span(c.next)
  }

  /** The size of the block handed out at address `p` and not freed since, 0 if there is none;
      the first header of the chain is at address `at`. */
  function LiveAt(c: Chain, at: nat, p: nat): nat {
    match c
    case End => 0
    case Link(size, alloc, next) =>
      if p == at + MARKER then (if alloc then size else 0) else LiveAt(next, at + MARKER + size, p)
  }

  function Append(a: Chain, b: Chain): Chain {
    match a case End => b case Link(size, alloc, next) => Link(size, alloc, Append(next, b))
  }

  lemma {:induction false} AppendSpan(a: Chain, b: Chain)
    ensures Span(Append(a, b)) == Span(a) + Span(b)
    ensures WellSized(Append(a, b)) <==> WellSized(a) && WellSized(b)
  {
    if a.Link? { AppendSpan(a.next, b); }
  }

  lemma {:induction false} AppendEnd(a: Chain)
    ensures Append(a, End) == a
  {
    if a.Link? { AppendEnd(a.next); }
  }

  lemma {:induction false} AppendAssoc(a: Chain, b: Chain, c: Chain)
    ensures Append(Append(a, b), c) == Append(a, Append(b, c))
  {
    if a.Link? { AppendAssoc(a.next, b, c); }
  }

  lemma {:induction false} LiveInside(c: Chain, at: nat, p: nat)
    requires LiveAt(c, at, p) != 0
    ensures at + MARKER <= p && p + LiveAt(c, at, p) <= at + Span(c)
  {
    if p != at + MARKER { LiveInside(c.next, at + MARKER + c.size, p); }
  }

  lemma {:induction false} AppendLive(a: Chain, b: Chain, at: nat, p: nat)
    requires WellSized(a)
    ensures LiveAt(Append(a, b), at, p) ==
      if p < at + Span(a) then LiveAt(a, at, p) else LiveAt(b, at + Span(a), p)
  {
    if a.Link? {
      AppendLive(a.next, b, at + MARKER + a.size, p);
    } else if p < at && LiveAt(b, at, p) != 0 {
      LiveInside(b, at, p);
    }
  }

  /** Two different live blocks never overlap, headers included. */
  lemma {:induction false} LiveDisjoint(c: Chain, at: nat, p: nat, q: nat)
    requires LiveAt(c, at, p) != 0 && LiveAt(c, at, q) != 0 && p < q
    ensures p + LiveAt(c, at, p) + MARKER <= q
  {
    var after := at + MARKER + c.size;
    if p == at + MARKER {
      LiveInside(c.next, after, q);
    } else if q == at + MARKER {
      LiveInside(c.next, after, p);
    } else {
      LiveDisjoint(c.next, after, p, q);
    }
  }

  lemma {:induction false} SpanAligned(c: Chain)
    requires WellSized(c)
    ensures Span(c) % MEM_BLOCK == 0
  {
    if c.Link? {
      SpanAligned(c.next);
      BlocksAligned(MARKER + c.size, Span(c.next));
    }
  }

  lemma BlocksAligned(a: nat, b: nat)
    requires a % MEM_BLOCK == 0 && b % MEM_BLOCK == 0
    ensures (a + b) % MEM_BLOCK == 0
  {
  }

  /** How far a block of `size` bytes grows over the chain after it when `needed` bytes are
      wanted: the size reached, and the chain left after the blocks absorbed. */
  function Absorb(size: nat, rest: Chain, needed: nat): (nat, Chain)
    decreases rest
  {
    if size >= needed || rest.End? || rest.alloc then (size, rest)
    else Absorb(size + MARKER + rest.size, rest.next, needed)
  }

  /** Absorption covers the same bytes and stops short of `needed` only at an allocated block or
      at the end. */
  lemma {:induction false} AbsorbMeaning(size: nat, rest: Chain, needed: nat)
    requires WellSized(rest) && Fits(size)
    ensures var (s, left) := Absorb(size, rest, needed);
      && WellSized(left) && s >= size && Fits(s)
      && size + Span(rest) == s + Span(left)
      && (s < needed ==> left.End? || left.alloc)
    decreases rest
  {
    hide Fits;
    if !(size >= needed || rest.End? || rest.alloc) {
      FitsJoin(size, rest.size);
      AbsorbMeaning(size + MARKER + rest.size, rest.next, needed);
    }
  }

  /** Absorption loses no live block. */
  lemma {:induction false} AbsorbLive(size: nat, rest: Chain, needed: nat, at: nat, p: nat)
    ensures var (s, left) := Absorb(size, rest, needed);
      LiveAt(rest, at + size, p) == LiveAt(left, at + s, p)
    decreases rest
  {
    if !(size >= needed || rest.End? || rest.alloc) {
      AbsorbLive(size + MARKER + rest.size, rest.next, needed, at, p);
      LiveBelow(rest.next, at + size + MARKER + rest.size, p);
    }
  }

  /** A block of `possible` bytes cut down to `needed`; the remainder becomes a free block. */
  function Carve(possible: nat, needed: nat, alloc: bool, rest: Chain): Chain {
    Link(needed, alloc,
         if possible >= needed + MARKER then Link(possible - needed - MARKER, false, rest) else rest)
  }

  /** What merging leaves of a block that can grow to `possible` bytes when `needed` are wanted. */
  function Merged(possible: nat, needed: nat, alloc: bool, rest: Chain): Chain {
    if possible >= needed then Carve(possible, needed, alloc, rest) else Link(possible, alloc, rest)
  }

  /** First fit with coalescing: the chain after the search, and how far into the heap the header
      of the block handed out is. A run too small for the request stays merged into one block. */
  function FromFreed(c: Chain, needed: nat): (Chain, Option<nat>)
    requires WellSized(c)
    decreases Span(c)
  {
    match c
    case End => (End, None)
    case Link(size, alloc, next) =>
      if alloc then
        var (c', found) := FromFreed(next, needed);
        (Link(size, true, c'), Shift(found, MARKER + size))
      else
        var (possible, rest) := Absorb(size, next, needed);
        AbsorbMeaning(size, next, needed);
        if possible >= needed then (Carve(possible, needed, true, rest), Some(0))
        else
          var (c', found) := FromFreed(rest, needed);
          (Link(possible, false, c'), Shift(found, MARKER + possible))
  }

  function Shift(found: Option<nat>, n: nat): Option<nat> {
    match found case None => None case Some(i) => Some(i + n)
  }

  /** The outcome of a search over the rest of a heap, seen from the whole heap. */
  function Prepend(done: Chain, r: (Chain, Option<nat>)): (Chain, Option<nat>) {
    (Append(done, r.0), Shift(r.1, Span(done)))
  }

  lemma PrependStep(done: Chain, size: nat, alloc: bool, r: (Chain, Option<nat>))
    ensures Prepend(Append(done, Link(size, alloc, End)), r) ==
      Prepend(done, (Link(size, alloc, r.0), Shift(r.1, MARKER + size)))
    ensures Append(Append(done, Link(size, alloc, End)), r.0) == Append(done, Link(size, alloc, r.0))
    ensures Span(Append(done, Link(size, alloc, End))) == Span(done) + MARKER + size
  {
    AppendAssoc(done, Link(size, alloc, End), r.0);
    AppendSpan(done, Link(size, alloc, End));
  }

  lemma SearchCases(c: Chain, needed: nat)
    requires WellSized(c) && c.Link?
    ensures WellSized(c.next) && Span(c.next) < Span(c)
    ensures c.alloc ==>
      var r := FromFreed(c.next, needed);
      FromFreed(c, needed) == (Link(c.size, true, r.0), Shift(r.1, MARKER + c.size))
    ensures !c.alloc ==>
      var (s, rest) := Absorb(c.size, c.next, needed);
      && WellSized(rest) && Span(rest) < Span(c)
      && (s >= needed ==> FromFreed(c, needed) == (Carve(s, needed, true, rest), Some(0)))
      && (s < needed ==>
            var r := FromFreed(rest, needed);
            FromFreed(c, needed) == (Link(s, false, r.0), Shift(r.1, MARKER + s)))
  {
    if !c.alloc { AbsorbMeaning(c.size, c.next, needed); }
  }

  lemma StartSearch(c: Chain, needed: nat)
    requires WellSized(c)
    ensures Append(End, c) == c && FromFreed(c, needed) == Prepend(End, FromFreed(c, needed)) && Span(End) == 0
  {
  }

  /** The search passes over a block, allocated or merged but too small. */
  lemma StepSearch(done: Chain, size: nat, alloc: bool, rest: Chain, needed: nat)
    requires WellSized(rest)
    ensures var r := FromFreed(rest, needed);
      Prepend(Append(done, Link(size, alloc, End)), r) ==
        Prepend(done, (Link(size, alloc, r.0), Shift(r.1, MARKER + size)))
    ensures Append(Append(done, Link(size, alloc, End)), rest) == Append(done, Link(size, alloc, rest))
    ensures Span(Append(done, Link(size, alloc, End))) == Span(done) + MARKER + size
  {
    PrependStep(done, size, alloc, FromFreed(rest, needed));
    PrependStep(done, size, alloc, (rest, None));
  }

  /** First fit keeps the heap tiled: sizes stay good and the same bytes are covered. */
  lemma {:induction false} FromFreedTiles(c: Chain, needed: nat)
    requires WellSized(c) && Fits(needed) && Span(c) < 0x8000_0000
    ensures WellSized(FromFreed(c, needed).0) && Span(FromFreed(c, needed).0) == Span(c)
    decreases Span(c)
  {
    hide Fits;
    if c.Link? {
      if c.alloc {
        FromFreedTiles(c.next, needed);
      } else {
        var (possible, rest) := Absorb(c.size, c.next, needed);
        AbsorbMeaning(c.size, c.next, needed);
        if possible > needed { FitsSplit(possible, needed); FitsPositive(possible - needed - MARKER); }
        FitsPositive(needed);
        if possible < needed { FromFreedTiles(rest, needed); }
      }
    }
  }

  /** No live block moves or changes size; the block handed out was not live before and has
      exactly the size asked for. */
  lemma {:induction false} FromFreedLive(c: Chain, needed: nat, at: nat, p: nat)
    requires WellSized(c) && Fits(needed)
    ensures var (c', found) := FromFreed(c, needed);
      if found.Some? && p == at + found.value + MARKER
      then LiveAt(c, at, p) == 0 && LiveAt(c', at, p) == needed
      else LiveAt(c', at, p) == LiveAt(c, at, p)
    decreases Span(c)
  {
    hide Fits, Absorb;
    if c.Link? {
      if c.alloc {
        FromFreedLive(c.next, needed, at + MARKER + c.size, p);
      } else {
        var (possible, rest) := Absorb(c.size, c.next, needed);
        AbsorbMeaning(c.size, c.next, needed);
        AbsorbLive(c.size, c.next, needed, at + MARKER, p);
        if possible > needed { FitsSplit(possible, needed); }
        LiveBelow(rest, at + MARKER + possible, p);
        if possible >= needed {
          CarveLive(possible, needed, true, rest, at, p);
        } else {
          FromFreedLive(rest, needed, at + MARKER + possible, p);
        }
      }
    }
  }

  lemma LiveBelow(c: Chain, at: nat, p: nat)
    ensures p < at + MARKER ==> LiveAt(c, at, p) == 0
  {
    if LiveAt(c, at, p) != 0 { LiveInside(c, at, p); }
  }

  lemma CarveLive(possible: nat, needed: nat, alloc: bool, rest: Chain, at: nat, p: nat)
    requires possible == needed || possible >= needed + MARKER
    ensures LiveAt(Carve(possible, needed, alloc, rest), at, p) ==
      if p == at + MARKER then (if alloc then needed else 0) else LiveAt(rest, at + MARKER + possible, p)
  {
    LiveBelow(rest, at + MARKER + possible, p);
  }

  /** Capacity of the run of adjacent free blocks at the front of the chain: their sizes and
      every header but the first. */
  function LeadingRun(c: Chain): nat {
    if c.End? || c.alloc then 0
    else c.size + if c.next.Link? && !c.next.alloc then MARKER + LeadingRun(c.next) else 0
  }

  /** The largest capacity among the runs of adjacent free blocks. */
  function LargestRun(c: Chain): nat {
    if c.End? then 0
    else var l, r := LeadingRun(c), LargestRun(c.next); if l > r then l else r
  }

  /** The search fails exactly when no run of adjacent free blocks is large enough. */
  lemma {:induction false} FromFreedFailsIffNoRun(c: Chain, needed: nat)
    requires WellSized(c) && Fits(needed)
    ensures FromFreed(c, needed).1.None? <==> LargestRun(c) < needed
    decreases Span(c)
  {
    if c.Link? {
      if c.alloc {
        FromFreedFailsIffNoRun(c.next, needed);
      } else {
        var (possible, rest) := Absorb(c.size, c.next, needed);
        AbsorbMeaning(c.size, c.next, needed);
        AbsorbRun(c.size, c.next, needed);
        if possible < needed { FromFreedFailsIffNoRun(rest, needed); }
      }
    }
  }

  /** A run that is too small to be absorbed, and what comes before the next block that is large enough. */
  lemma {:induction false} RunPassed(size: nat, rest: Chain, needed: nat, before: Chain) returns (tail: Chain)
    requires Absorb(size, rest, needed).0 < needed
    requires (before.End? || before.alloc) && LargestRun(before) < needed
    ensures var (s, left) := Absorb(size, rest, needed);
      && rest == Append(tail, left) && size + Span(tail) == s
      && LeadingRun(Link(size, false, Append(tail, before))) == s
      && LargestRun(Link(size, false, Append(tail, before))) < needed
    decreases rest
  {
    if rest.End? || rest.alloc {
      tail := End;
    } else {
      var more := RunPassed(size + MARKER + rest.size, rest.next, needed, before);
      tail := Link(rest.size, false, more);
    }
  }

  /** First fit: the block handed out starts a run of free blocks that is large enough, and no run before it
      is. */
  lemma {:induction false} FirstFit(c: Chain, needed: nat) returns (before: Chain, rest: Chain)
    requires WellSized(c) && Fits(needed) && FromFreed(c, needed).1.Some?
    ensures c == Append(before, rest) && Span(before) == FromFreed(c, needed).1.value
    ensures LargestRun(before) < needed <= LeadingRun(rest) && (c.Link? && c.alloc ==> before.Link? && before.alloc)
    decreases Span(c)
  {
    FitsPositive(needed);
    if c.alloc {
      var b, r := FirstFit(c.next, needed);
      before, rest := Link(c.size, true, b), r;
    } else {
      AbsorbMeaning(c.size, c.next, needed);
      AbsorbRun(c.size, c.next, needed);
      var (s, left) := Absorb(c.size, c.next, needed);
      if s >= needed {
        before, rest := End, c;
      } else {
        var b, r := FirstFit(left, needed);
        var tail := RunPassed(c.size, c.next, needed, b);
        before, rest := Link(c.size, false, Append(tail, b)), r;
        AppendAssoc(tail, b, r);
        AppendSpan(tail, b);
      }
    }
  }

  /** After a search that failed every run is still too small: trying again is no use. */
  lemma {:induction false} FailedSearchStays(c: Chain, needed: nat)
    requires WellSized(c) && Fits(needed) && FromFreed(c, needed).1.None?
    ensures var c' := FromFreed(c, needed).0;
      LargestRun(c') < needed && (c.End? ==> c'.End?) && (c.Link? && c.alloc ==> c'.Link? && c'.alloc)
    decreases Span(c)
  {
    hide Fits, Absorb;
    FitsPositive(needed);
    if c.Link? {
      if c.alloc {
        FailedSearchStays(c.next, needed);
      } else {
        AbsorbMeaning(c.size, c.next, needed);
        FailedSearchStays(Absorb(c.size, c.next, needed).1, needed);
      }
    }
  }

  /** Absorption reaches `needed` exactly when the run does; if it does not, what is left holds
      all runs that could be large enough. */
  lemma {:induction false} AbsorbRun(size: nat, rest: Chain, needed: nat)
    ensures var (s, left) := Absorb(size, rest, needed);
      && (s >= needed <==> LeadingRun(Link(size, false, rest)) >= needed)
      && (s < needed ==> (LargestRun(Link(size, false, rest)) >= needed <==> LargestRun(left) >= needed))
    decreases rest
  {
    if !(size >= needed || rest.End? || rest.alloc) {
      AbsorbRun(size + MARKER + rest.size, rest.next, needed);
    }
  }

  /** Address `k` lies in the payload of an allocated block. */
  predicate InPayload(c: Chain, at: nat, k: nat) {
    c.Link? && ((c.alloc && at + MARKER <= k < at + MARKER + c.size) || InPayload(c.next, at + MARKER + c.size, k))
  }

  lemma {:induction false} PayloadInside(c: Chain, at: nat, k: nat)
    requires InPayload(c, at, k)
    ensures at + MARKER <= k < at + Span(c)
  {
    if !(c.alloc && at + MARKER <= k < at + MARKER + c.size) {
      PayloadInside(c.next, at + MARKER + c.size, k);
    }
  }

  lemma {:induction false} LivePayload(c: Chain, at: nat, p: nat, k: nat)
    requires LiveAt(c, at, p) != 0 && p <= k < p + LiveAt(c, at, p)
    ensures InPayload(c, at, k)
  {
    if p != at + MARKER { LivePayload(c.next, at + MARKER + c.size, p, k); }
  }

  lemma {:induction false} AppendPayload(a: Chain, b: Chain, at: nat, k: nat)
    ensures InPayload(Append(a, b), at, k) <==> InPayload(a, at, k) || InPayload(b, at + Span(a), k)
  {
    if a.Link? { AppendPayload(a.next, b, at + MARKER + a.size, k); }
  }

  lemma {:induction false} AbsorbPayload(size: nat, rest: Chain, needed: nat, at: nat, k: nat)
    ensures var (s, left) := Absorb(size, rest, needed);
      InPayload(rest, at + size, k) <==> InPayload(left, at + s, k)
    decreases rest
  {
    if !(size >= needed || rest.End? || rest.alloc) {
      AbsorbPayload(size + MARKER + rest.size, rest.next, needed, at, k);
    }
  }

  /** The blocks before the one at address `p`, and those after it. */
  function Before(c: Chain, at: nat, p: nat): Chain {
    if c.End? || p == at + MARKER then End else Link(c.size, c.alloc, Before(c.next, at + MARKER + c.size, p))
  }

  function After(c: Chain, at: nat, p: nat): Chain {
    if c.End? then End else if p == at + MARKER then c.next else After(c.next, at + MARKER + c.size, p)
  }

  lemma {:induction false} SplitAt(c: Chain, at: nat, p: nat)
    requires LiveAt(c, at, p) != 0
    ensures c == Append(Before(c, at, p), Link(LiveAt(c, at, p), true, After(c, at, p)))
    ensures p == at + Span(Before(c, at, p)) + MARKER
  {
    if p != at + MARKER { SplitAt(c.next, at + MARKER + c.size, p); }
  }

  /** The live blocks are the same, except for what is handed out at address `q`. */
  ghost predicate SameLiveBut(c: Chain, c': Chain, at: nat, q: nat) {
    forall p: nat :: p != q ==> LiveAt(c', at, p) == LiveAt(c, at, p)
  }

  ghost predicate SameLive(c: Chain, at: nat, c': Chain, at': nat) {
    forall p: nat :: LiveAt(c', at', p) == LiveAt(c, at, p)
  }

  /** Replacing one block and what follows it by a block and a rest with the same live blocks. */
  lemma ReplacedLive(before: Chain, size: nat, alloc: bool, rest: Chain, size': nat, alloc': bool, rest': Chain,
                     at: nat)
    requires WellSized(before)
    requires SameLive(rest, at + Span(before) + MARKER + size, rest', at + Span(before) + MARKER + size')
    ensures var c, c', q :=
      Append(before, Link(size, alloc, rest)), Append(before, Link(size', alloc', rest')), at + Span(before) + MARKER;
      && SameLiveBut(c, c', at, q) && LiveAt(c', at, q) == if alloc' then size' else 0
  {
    var h := at + Span(before);
    forall p: nat
      ensures p != h + MARKER ==>
        LiveAt(Append(before, Link(size', alloc', rest')), at, p) ==
          LiveAt(Append(before, Link(size, alloc, rest)), at, p)
    {
      AppendLive(before, Link(size, alloc, rest), at, p);
      AppendLive(before, Link(size', alloc', rest'), at, p);
    }
    AppendLive(before, Link(size', alloc', rest'), at, h + MARKER);
  }
}
