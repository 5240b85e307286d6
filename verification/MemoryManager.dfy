/** The contract allocator: heaps carved out of linear memory, grown page by page, reused first fit. */
module MemoryManager {
  import opened Options
  import opened Words
  import opened HeapBlocks
  import opened HeapMemory
  import opened HeapRegions

  const PAGE: nat := 0x1_0000
  const HEAPS: nat := 16
  const INITIAL_HEAP_SIZE: nat := 8192

  /** A request rounded up to a block size, in 32-bit arithmetic. */
  function Adjust(size: nat): nat {
    var remainder := (size + MARKER) % TWO32 % MEM_BLOCK;
    if remainder > 0 then (size + MEM_BLOCK - remainder) % TWO32 else size
  }

  lemma AdjustPlain(size: nat)
    requires size + MARKER < TWO32
    ensures size <= Adjust(size) < size + MEM_BLOCK && Fits(Adjust(size)) && Adjust(size) < TWO32
  {
    var k, r := (size + MARKER) / MEM_BLOCK, (size + MARKER) % MEM_BLOCK;
    assert size + MARKER == MEM_BLOCK * k + r;
    if r > 0 {
      assert size + MEM_BLOCK - r == MEM_BLOCK * k + MARKER;
      assert (MEM_BLOCK * k + MARKER) % MEM_BLOCK == MARKER;
    }
  }

  /** Rounding gives a block size, and one no smaller than the request exactly when it does not wrap. */
  lemma AdjustMeaning(size: nat)
    requires size < TWO32
    ensures Fits(Adjust(size)) && Adjust(size) < TWO32
    ensures Adjust(size) >= size <==> size <= TWO32 - MARKER
    ensures size <= TWO32 - MARKER ==> Adjust(size) < size + MEM_BLOCK
  {
    if size + MARKER >= TWO32 {
      var x := size - (TWO32 - MARKER);
      assert 0 <= x < MARKER && (size + MARKER) % TWO32 == x;
    } else {
      AdjustPlain(size);
    }
  }

  /** The 32-bit bounds test of bump allocation agrees with the true one exactly when the sum does
      not wrap; when it wraps, the test lets a request through that does not fit. */
  lemma BumpTestExact(offset: nat, size: nat, heapSize: nat)
    requires offset <= heapSize < TWO31 && size < TWO32 && Fits(size)
    ensures ((offset + size + MARKER) % TWO32 <= heapSize <==> offset + size + MARKER <= heapSize)
            <==> offset + size + MARKER < TWO32
  {
  }

  /** There is room for `needed` bytes above the carved part of the last heap. */
  predicate RoomAbove(rs: seq<Region>, needed: nat) {
    rs != [] && Span(rs[|rs| - 1].chain) + MARKER + needed <= rs[|rs| - 1].size
  }

  /** A block has been carved right above the others of the last heap: one header is all that is written. */
  ghost predicate Bumped(m: seq<byte>, m': seq<byte>, rs: seq<Region>, rs': seq<Region>, p: nat, needed: nat) {
    rs != [] &&
    var r := rs[|rs| - 1];
    var a := r.at + Span(r.chain);
    && p == a + MARKER && rs' == Rechained(rs, |rs| - 1, Append(r.chain, Link(needed, true, End)))
    && p <= |m| && needed < TWO31 && m' == StoreWord(m, a, Header(needed, true))
  }

  /** The block at `p` of heap `i` has been given back: its header is all that is written. */
  ghost predicate GivenBack(m: seq<byte>, m': seq<byte>, rs: seq<Region>, rs': seq<Region>, i: nat, p: nat) {
    i < |rs| &&
    var c, at := rs[i].chain, rs[i].at;
    var size := LiveAt(c, at, p);
    && 0 < size < TWO31 && MARKER <= p <= |m| && m' == StoreWord(m, p - MARKER, Header(size, false))
    && rs' == Rechained(rs, i, Append(Before(c, at, p), Link(size, false, After(c, at, p))))
  }

  class MemoryManager {
    const ram: array<byte>
    const heaps: seq<Memory>
    const initialHeap: nat
    const maxPages: nat
    var pages: nat
    var sbrkInit: bool
    var sbrkBytes: nat
    var heapsActualSize: nat
    var activeHeap: nat
    var activeFreeHeap: nat
    /** The heaps initialised so far. */
    ghost var regions: seq<Region>

    ghost predicate Slots()
      reads this
    {
      && |heaps| == HEAPS
      && (forall i :: 0 <= i < HEAPS ==> heaps[i].ram == ram)
      && (forall i, j :: 0 <= i < j < HEAPS ==> heaps[i] != heaps[j])
      && maxPages * PAGE == ram.Length <= MAX_MEMORY && pages <= maxPages
      && 0 < initialHeap && initialHeap + INITIAL_HEAP_SIZE <= pages * PAGE
      && (sbrkInit ==> sbrkBytes == pages * PAGE)
    }

    /** A slot holds the heap it should. */
    ghost predicate Holds(h: Memory, r: Region)
      reads h
    {
      h.heap == r.at && h.heapSize == r.size && h.chain == r.chain && h.offset == Span(r.chain)
    }

    ghost predicate Blank(h: Memory)
      reads h
    {
      h.heap == 0 && h.heapSize == 0 && h.offset == 0 && h.chain == End
    }

    /** The heaps in use lie side by side in the memory there is, and their headers tile them. */
    ghost predicate Layout()
      reads this, heaps, ram
    {
      && Slots() && |regions| <= 2
      && (forall i :: 0 <= i < |regions| ==> Holds(heaps[i], regions[i]))
      && (forall i :: |regions| <= i < HEAPS ==> Blank(heaps[i]))
      && Laid(regions, pages * PAGE) && AllTiles(ram[..], regions)
    }

    /** Nothing has been allocated yet. */
    ghost predicate Fresh()
      reads this
    {
      |regions| == 0 && activeHeap == 0 && activeFreeHeap == 0 && (heapsActualSize == 0 || heapsActualSize == HEAPS)
    }

    /** The active heap is being carved and memory may still grow. */
    ghost predicate Growing()
      reads this
    {
      && 0 < |regions| <= 2 && activeHeap == |regions| - 1 && heapsActualSize == HEAPS && activeFreeHeap == 0
      && AllCarved(regions[..activeHeap]) && (|regions| == 2 ==> regions[1].End() == pages * PAGE)
    }

    /** Memory cannot grow any more: every heap is carved to its end. */
    ghost predicate Exhausted()
      reads this
    {
      && 0 < |regions| == activeHeap == heapsActualSize && activeFreeHeap < |regions| && AllCarved(regions)
      && pages == maxPages
    }

    ghost predicate Valid()
      reads this, heaps, ram
    {
      Layout() && (Fresh() || Growing() || Exhausted())
    }

    constructor (ram: array<byte>, initialHeap: nat, pages: nat, maxPages: nat)
      requires maxPages * PAGE == ram.Length <= MAX_MEMORY && pages <= maxPages
      requires 0 < initialHeap && initialHeap + INITIAL_HEAP_SIZE <= pages * PAGE
      ensures Valid() && Fresh() && this.ram == ram && this.initialHeap == initialHeap && fresh(heaps)
    {
      var hs: seq<Memory> := [];
      while |hs| < HEAPS
        invariant |hs| <= HEAPS
        invariant forall i :: 0 <= i < |hs| ==> fresh(hs[i]) && hs[i].ram == ram
        invariant forall i :: 0 <= i < |hs| ==> hs[i].heap == hs[i].heapSize == hs[i].offset == 0 && hs[i].chain == End
        invariant forall i, j :: 0 <= i < j < |hs| ==> hs[i] != hs[j]
      {
        var h := new Memory(ram);
        hs := hs + [h];
      }
      this.ram, this.initialHeap, this.pages, this.maxPages, heaps := ram, initialHeap, pages, maxPages, hs;
      sbrkInit, sbrkBytes := false, 0;
      heapsActualSize, activeHeap, activeFreeHeap := 0, 0, 0;
      regions := [];
    }

    /** Linear memory grows by whole pages, or not at all. */
    method GrowMemory(n: nat)
      modifies this`pages
      ensures pages == if old(pages) + n <= maxPages then old(pages) + n else old(pages)
    {
      if pages + n <= maxPages {
        pages := pages + n;
      }
    }

    /** Reserves memory at the end of linear memory; `None` when it cannot grow. */
    method Sbrk(numBytes: nat) returns (r: Option<nat>)
      requires Slots() && numBytes % PAGE == 0 && numBytes <= MAX_MEMORY
      modifies this`pages, this`sbrkInit, this`sbrkBytes
      ensures Slots() && sbrkInit
      ensures r.Some? <==> old(pages) * PAGE + numBytes <= maxPages * PAGE
      ensures r.Some? ==> r.value == old(pages) * PAGE && pages * PAGE == old(pages) * PAGE + numBytes
      ensures r.None? ==> pages == old(pages)
    {
      if !sbrkInit {
        sbrkBytes := pages * PAGE;
        sbrkInit := true;
      }
      if numBytes > TWO31 - 1 {
        return None;
      }
      var prev, current := sbrkBytes, pages;
      PagesNeeded(pages, numBytes);
      var num := (numBytes + 7) % TWO32 / 8 * 8;
      var desired := (sbrkBytes + num + PAGE - 1) % TWO32 / PAGE;
      if desired > current {
        GrowMemory(desired - current);
        if desired != pages {
          return None;
        }
      }
      sbrkBytes := sbrkBytes + num;
      return Some(prev);
    }

    /** Carves the active heap to its end and moves past it. */
    method RetireActiveHeap()
      requires Layout() && activeHeap < |regions|
      modifies this`activeHeap, this`regions, heaps[activeHeap], ram
      ensures Layout() && activeHeap == old(activeHeap) + 1 && |regions| == |old(regions)|
      ensures exists c :: regions == Rechained(old(regions), old(activeHeap), c)
                && Span(c) == regions[old(activeHeap)].size
      ensures SameSizes(old(regions), regions) && KeepsBytes(old(ram[..]), ram[..], old(regions), 0, 0)
    {
      hide Tiles, InPayload, LiveAt, Span, Size, KeepsBytes, Untouched, UntouchedBut, WellSized, SameSizes, AllTiles;
      ghost var m, i := ram[..], activeHeap;
      var current := heaps[activeHeap];
      TilesOf(m, regions, i);
      current.CleanupRemaining();
      ghost var c := current.chain;
      CleanedSizes(regions, pages * PAGE, i, c);
      UntouchedIsBut(m, ram[..], regions[i].chain, regions[i].at, regions[i].End());
      HeapWritten(m, ram[..], regions, pages * PAGE, i, c, 0, 0);
      regions := Rechained(regions, i, c);
      activeHeap := activeHeap + 1;
    }

    /** Gives new memory to the active heap if it continues it. */
    method ExpandActiveHeap(start: nat, n: nat) returns (ok: bool)
      requires Layout() && activeHeap == |regions| - 1 && start + n == pages * PAGE && n % MEM_BLOCK == 0
      requires Laid(regions, start)
      modifies this`regions, heaps[activeHeap]
      ensures Layout() && |regions| == |old(regions)| && regions[..activeHeap] == old(regions[..activeHeap])
      ensures ok <==> old(regions)[activeHeap].End() == start
      ensures ok ==> regions[activeHeap].End() == pages * PAGE
      ensures !ok ==> regions == old(regions)
      ensures SameSizes(old(regions), regions)
    {
      hide Tiles, LiveAt, Span, Size, WellSized, SameSizes, AllTiles, Laid;
      ghost var i := activeHeap;
      LaidAt(ram[..], regions, start, i);
      ok := heaps[activeHeap].ExpandMemory(start, n);
      SameAsBefore(ram[..], regions);
      if ok {
        Enlarged(ram[..], regions, start, i, n);
        regions := regions[i := regions[i].(size := regions[i].size + n)];
      }
    }

    /** Opens the next slot on new memory. */
    method OpenHeap(start: nat, n: nat)
      requires Layout() && activeHeap == |regions| < 2 && start + n == pages * PAGE && 0 < n && n % MEM_BLOCK == 0
      requires Laid(regions, start) && 0 < start
      modifies this`regions, heaps[activeHeap]
      ensures Layout() && regions == old(regions) + [Region(End, start, n)]
      ensures SameSizes(old(regions), regions)
    {
      hide Tiles, LiveAt, Span, Size, WellSized, SameSizes, AllTiles, Laid;
      heaps[activeHeap].Init(start, n);
      Opened(ram[..], regions, start, n);
      NothingCarved();
      regions := regions + [Region(End, start, n)];
    }

    /** Reserves the next page of memory, if there is one. */
    method ReservePage() returns (start: Option<nat>, heapAdj: nat)
      requires Layout()
      modifies this`pages, this`sbrkInit, this`sbrkBytes
      ensures Layout() && heapAdj == PAGE
      ensures start == if old(pages) < maxPages then Some(old(pages) * PAGE) else None
      ensures pages == if old(pages) < maxPages then old(pages) + 1 else old(pages)
    {
      hide Tiles, AllTiles, Laid;
      ghost var top := pages * PAGE;
      var memoryEnd := Sbrk(0);
      var memorySize := memoryEnd.value;
      if memorySize >= TWO31 {
        assert false;
      }
      WholePage(pages);
      heapAdj := HeapAdj(memorySize);
      start := Sbrk(heapAdj);
      TopRaised(regions, top, pages * PAGE);
    }

    /** Leaves the active heap, carved to its end, for a new one. */
    method MoveToNewHeap(start: nat, n: nat)
      requires Layout() && |regions| == 1 && activeHeap == 0 && start + n == pages * PAGE && 0 < n && n % MEM_BLOCK == 0
      requires Laid(regions, start) && 0 < start
      modifies this`activeHeap, this`regions, heaps, ram
      ensures Layout() && |regions| == 2 && activeHeap == 1 && regions[0].Carved() && regions[1].End() == pages * PAGE
      ensures SameSizes(old(regions), regions) && KeepsBytes(old(ram[..]), ram[..], old(regions), 0, 0)
    {
      hide Tiles, InPayload, LiveAt, Span, Size, KeepsBytes, WellSized, SameSizes, AllTiles, Laid;
      ghost var rs := regions;
      RetireActiveHeap();
      RetiredLaid(rs, regions, 0, start, pages * PAGE);
      ghost var rs1 := regions;
      OpenHeap(start, n);
      SameSizesTrans(rs, rs1, regions);
    }

    /** No page is left: from now on only freed memory is handed out. */
    method StopGrowing()
      requires Valid() && Growing() && pages == maxPages
      modifies this, heaps, ram
      ensures Valid() && Exhausted() && pages == old(pages)
      ensures SameSizes(old(regions), regions) && KeepsBytes(old(ram[..]), ram[..], old(regions), 0, 0)
    {
      hide Tiles, InPayload, LiveAt, Span, Size, KeepsBytes, WellSized, SameSizes, AllTiles, Laid;
      ghost var rs := regions;
      RetireActiveHeap();
      heapsActualSize := activeHeap;
      RetiredCarved(rs, regions, activeHeap - 1);
    }

    /** Grows the active heap by a page, or opens the next one on it; when memory cannot grow, the
        active heap is carved to its end and no heap is active any more. */
    method NextActiveHeap() returns (more: bool)
      requires Valid() && Growing()
      modifies this, heaps, ram
      ensures Valid() && (if more then Growing() && pages == old(pages) + 1 else Exhausted() && pages == old(pages))
      ensures SameSizes(old(regions), regions) && KeepsBytes(old(ram[..]), ram[..], old(regions), 0, 0)
    {
      hide Tiles, InPayload, LiveAt, Span, Size, KeepsBytes, WellSized, SameSizes, AllTiles, Laid;
      ghost var m, rs := ram[..], regions;
      var start, heapAdj := ReservePage();
      if start.None? {
        StopGrowing();
        return false;
      }
      SameAsBefore(m, rs);
      var expanded := ExpandActiveHeap(start.value, heapAdj);
      if !expanded {
        MoveToNewHeap(start.value, heapAdj);
      }
      return true;
    }

    /** Bump allocation in the active heap. */
    method BumpActiveHeap(needed: nat) returns (p: nat)
      requires Layout() && activeHeap < |regions| && Fits(needed) && needed + MEM_BLOCK + MAX_MEMORY < TWO32
      modifies this`regions, heaps[activeHeap], ram
      ensures Layout() && |regions| == |old(regions)|
      ensures regions == Rechained(old(regions), activeHeap, heaps[activeHeap].chain)
      ensures HandedOut(old(regions), regions, p, needed)
      ensures activeHeap == |regions| - 1 && RoomAbove(old(regions), needed) ==>
        Bumped(old(ram[..]), ram[..], old(regions), regions, p, needed)
      ensures KeepsBytes(old(ram[..]), ram[..], old(regions), 0, 0)
    {
      hide Tiles, InPayload, LiveAt, Span, Size, KeepsBytes, Untouched, UntouchedBut, WellSized, SameSizes, AllTiles,
           HandedOut, Fits, StoreWord, Append, Laid;
      ghost var m, i := ram[..], activeHeap;
      FitsPositive(needed);
      LaidAt(m, regions, pages * PAGE, i);
      p := heaps[activeHeap].Malloc(needed);
      ghost var c := heaps[activeHeap].chain;
      BumpedSizes(regions, pages * PAGE, i, c, p, needed);
      UntouchedIsBut(m, ram[..], regions[i].chain, regions[i].at, regions[i].End());
      HeapWritten(m, ram[..], regions, pages * PAGE, i, c, 0, 0);
      regions := Rechained(regions, i, c);
    }

    /** Carves the request from the active heap, growing memory until it fits or cannot grow. */
    method MallocActive(needed: nat) returns (p: nat)
      requires Valid() && Growing() && Fits(needed) && needed + MEM_BLOCK + MAX_MEMORY < TWO32
      modifies this, heaps, ram
      ensures Valid() && (if p == 0 then Exhausted() else Growing())
      ensures HandedOut(old(regions), regions, p, needed)
      ensures RoomAbove(old(regions), needed) ==> Bumped(old(ram[..]), ram[..], old(regions), regions, p, needed)
      ensures KeepsBytes(old(ram[..]), ram[..], old(regions), 0, 0)
    {
      hide Tiles, InPayload, LiveAt, Span, Size, KeepsBytes, WellSized, SameSizes, AllTiles, HandedOut, Fits, Laid;
      ghost var m, rs := ram[..], regions;
      SameAsBefore(m, rs);
      while true
        invariant Valid() && Growing()
        invariant SameSizes(rs, regions) && KeepsBytes(m, ram[..], rs, 0, 0)
        invariant RoomAbove(rs, needed) ==> regions == rs && ram[..] == m
        decreases maxPages - pages
      {
        ghost var m1, rs1 := ram[..], regions;
        p := BumpActiveHeap(needed);
        HandedOutTrans(m, m1, ram[..], rs, rs1, regions, p, needed);
        if p != 0 {
          return;
        }
        ghost var m2, rs2 := ram[..], regions;
        var more := NextActiveHeap();
        HandedOutNone(m, m2, ram[..], rs, rs2, regions, needed);
        if !more {
          return;
        }
      }
    }

    /** First fit over one carved heap. */
    method ReuseHeap(i: nat, needed: nat) returns (p: nat)
      requires Layout() && i < |regions| && regions[i].Carved() && Fits(needed)
      modifies this`regions, heaps[i], ram
      ensures Layout() && regions == Rechained(old(regions), i, heaps[i].chain) && regions[i].Carved()
      ensures p == 0 <==> LargestRun(old(regions)[i].chain) < needed
      ensures p == 0 ==> LargestRun(regions[i].chain) < needed
      ensures HandedOut(old(regions), regions, p, needed)
      ensures KeepsBytes(old(ram[..]), ram[..], old(regions), 0, 0)
    {
      hide Tiles, InPayload, LiveAt, Span, Size, KeepsBytes, Untouched, UntouchedBut, WellSized, SameSizes, AllTiles,
           HandedOut, Fits, FromFreed, LargestRun;
      ghost var m := ram[..];
      LaidAt(m, regions, pages * PAGE, i);
      p := heaps[i].MallocFromFreed(needed);
      ghost var c := heaps[i].chain;
      ReusedSizes(regions, pages * PAGE, i, needed);
      UntouchedIsBut(m, ram[..], regions[i].chain, regions[i].at, regions[i].End());
      HeapWritten(m, ram[..], regions, pages * PAGE, i, c, 0, 0);
      regions := Rechained(regions, i, c);
    }

    /** Goes on to the next carved heap, after the last one to the first. */
    method StepFreeHeap()
      requires Valid() && Exhausted()
      modifies this`activeFreeHeap
      ensures Valid() && Exhausted()
      ensures activeFreeHeap == if old(activeFreeHeap) + 1 == |regions| then 0 else old(activeFreeHeap) + 1
    {
      hide Laid, AllTiles, Tiles, Span;
      activeFreeHeap := activeFreeHeap + 1;
      if activeFreeHeap == heapsActualSize {
        activeFreeHeap := 0;
      }
    }

    /** First fit over all heaps, starting with the one that served last. */
    method MallocReused(needed: nat) returns (p: nat)
      requires Valid() && Exhausted() && Fits(needed)
      modifies this, heaps, ram
      ensures Valid() && Exhausted()
      ensures HandedOut(old(regions), regions, p, needed)
      ensures KeepsBytes(old(ram[..]), ram[..], old(regions), 0, 0)
      ensures p == 0 ==> NoRun(regions, 0, |regions|, needed)
    {
      hide Tiles, InPayload, LiveAt, Span, Size, KeepsBytes, WellSized, SameSizes, AllTiles, HandedOut, Fits, Laid,
           LargestRun;
      ghost var m, rs := ram[..], regions;
      SameAsBefore(m, rs);
      var endFree := activeFreeHeap;
      ghost var wrapped := false;
      while true
        invariant Valid() && Exhausted() && |regions| == |rs| && endFree < |rs|
        invariant SameSizes(rs, regions) && KeepsBytes(m, ram[..], rs, 0, 0)
        invariant if wrapped
          then activeFreeHeap < endFree && NoRun(regions, endFree, |rs|, needed)
            && NoRun(regions, 0, activeFreeHeap, needed)
          else endFree <= activeFreeHeap && NoRun(regions, endFree, activeFreeHeap, needed)
        decreases !wrapped, |rs| - activeFreeHeap
      {
        ghost var m1, rs1 := ram[..], regions;
        p := ReuseHeap(activeFreeHeap, needed);
        HandedOutTrans(m, m1, ram[..], rs, rs1, regions, p, needed);
        if p != 0 {
          return;
        }
        StepFreeHeap();
        wrapped := wrapped || activeFreeHeap == 0;
        if activeFreeHeap == endFree {
          return;
        }
      }
    }

    /** The first heap lies in memory that is there from the start. */
    method InitFirstHeap()
      requires Layout() && |regions| == 0 && activeHeap == 0
      modifies this`regions, heaps[0]
      ensures Layout() && regions == [Region(End, initialHeap, INITIAL_HEAP_SIZE)]
      ensures SameSizes(old(regions), regions)
    {
      heaps[0].Init(initialHeap, INITIAL_HEAP_SIZE);
      regions := [Region(End, initialHeap, INITIAL_HEAP_SIZE)];
      assert regions[1..] == [];
    }

    /** The heaps once the first of them has been set up. */
    function WithFirst(rs: seq<Region>): seq<Region> {
      if rs == [] then [Region(End, initialHeap, INITIAL_HEAP_SIZE)] else rs
    }

    /** A new block of at least `size` bytes that overlaps no live block, or 0 when `size` is 0 or no
        memory is left: then memory cannot grow and no run of free blocks is large enough. */
    method Malloc(size: nat) returns (p: nat)
      requires Valid() && size + 2 * MEM_BLOCK + MAX_MEMORY < TWO32
      modifies this, heaps, ram
      ensures Valid()
      ensures HandedOut(old(regions), regions, p, Adjust(size))
      ensures size > 0 && !old(Exhausted()) && RoomAbove(WithFirst(old(regions)), Adjust(size)) ==>
        Growing() && Bumped(old(ram[..]), ram[..], WithFirst(old(regions)), regions, p, Adjust(size))
      ensures KeepsBytes(old(ram[..]), ram[..], old(regions), 0, 0)
      ensures size == 0 ==> p == 0
      ensures p == 0 && size > 0 ==> Exhausted() && NoRun(regions, 0, |regions|, Adjust(size))
      ensures old(Exhausted()) ==> Exhausted()
    {
      hide Tiles, InPayload, LiveAt, Span, Size, KeepsBytes, WellSized, SameSizes, AllTiles, HandedOut, Fits, Laid,
           LargestRun;
      ghost var m, rs := ram[..], regions;
      SameAsBefore(m, rs);
      HandedOutNone(m, m, m, rs, rs, rs, Adjust(size));
      if size == 0 {
        return 0;
      }
      if heapsActualSize == 0 {
        heapsActualSize := HEAPS;
      }
      AdjustMeaning(size);
      var needed := Adjust(size);
      p := 0;
      if activeHeap < heapsActualSize {
        if activeHeap == 0 && heaps[0].heap == 0 {
          FirstSlotBlank();
          InitFirstHeap();
          assert regions[..activeHeap] == [];
        }
        ghost var rs1 := regions;
        p := MallocActive(needed);
        HandedOutTrans(m, m, ram[..], rs, rs1, regions, p, needed);
      }
      if p == 0 {
        ghost var m1, rs1 := ram[..], regions;
        p := MallocReused(needed);
        HandedOutTrans(m, m1, ram[..], rs, rs1, regions, p, needed);
      }
    }

    lemma FirstSlotBlank()
      requires Layout() && heaps[0].heap == 0
      ensures |regions| == 0
    {
    }

    predicate InHeap(h: Memory, p: nat)
      reads h
    {
      h.heap + MARKER <= p < h.heap + h.heapSize
    }

    /** Finds the heap a live block belongs to. */
    method FindHeap(p: nat) returns (i: nat)
      requires Valid() && Size(regions, p) != 0
      ensures i < |regions| && Size(regions, p) == LiveAt(regions[i].chain, regions[i].at, p)
    {
      ghost var k := SizeOwner(regions, p);
      LiveInside(regions[k].chain, regions[k].at, p);
      OwnerBounds(regions, pages * PAGE, k, p);
      i := 0;
      while i < heapsActualSize && heaps[i].heap != 0
        invariant i <= k
        decreases heapsActualSize - i
      {
        if InHeap(heaps[i], p) {
          return;
        }
        i := i + 1;
      }
    }

    /** The contract writes to a block it holds: nothing the allocator relies on changes. */
    method Write(p: nat, k: nat, v: byte)
      requires Valid() && k < Size(regions, p)
      modifies ram
      ensures Valid() && (old(Exhausted()) ==> Exhausted()) && p + k < ram.Length && ram[..] == old(ram[..])[p + k := v]
    {
      hide Tiles, LiveAt, Span, Size, AllTiles, Laid;
      ghost var m := ram[..];
      LiveBounds(regions, pages * PAGE, p);
      ram[p + k] := v;
      assert Live(regions, p + k);
      PayloadWrites(m, ram[..], regions, pages * PAGE);
    }

    /** Gives a block back: it alone stops being live, and no live byte changes. */
    method Free(p: nat)
      requires Valid() && (p == 0 || Size(regions, p) != 0)
      modifies this`regions, heaps, ram
      ensures Valid() && (old(Exhausted()) ==> Exhausted()) && (old(Growing()) ==> Growing())
      ensures p == 0 ==> SameSizes(old(regions), regions)
      ensures p != 0 ==> SameSizesBut(old(regions), regions, p) && Size(regions, p) == 0
      ensures p != 0 ==> exists i :: GivenBack(old(ram[..]), ram[..], old(regions), regions, i, p)
      ensures KeepsBytes(old(ram[..]), ram[..], old(regions), 0, 0)
    {
      hide GivenBack, LiveAt, Span, Size, KeepsBytes, SameSizes, SameSizesBut, AllTiles, Laid;
      ghost var m := ram[..];
      SameAsBefore(m, regions);
      if p == 0 {
        return;
      }
      var i := FindHeap(p);
      FreeIn(i, p);
    }

    method ReallocIn(i: nat, p: nat, needed: nat) returns (r: nat, orig: nat)
      requires Layout() && i < |regions| && LiveAt(regions[i].chain, regions[i].at, p) != 0
      requires Fits(needed) && needed < TWO32
      requires GrowthSafe(ram[..], regions[i].chain, regions[i].at, regions[i].size, p, needed)
      modifies this`regions, heaps[i], ram
      ensures Layout() && regions == Rechained(old(regions), i, heaps[i].chain)
      ensures Span(old(regions)[i].chain) == regions[i].size ==> Span(regions[i].chain) == regions[i].size
      ensures orig == Size(old(regions), p) && (r == 0 || r == p)
      ensures r == p <==> HasRoomInPlace(old(regions), p, needed)
      ensures r == 0 ==> regions == old(regions) && ram[..] == old(ram[..])
      ensures r == p ==> Moved(old(ram[..]), ram[..], old(regions), regions, p, p, needed)
      ensures r == p ==> KeepsBytes(old(ram[..]), ram[..], old(regions), p + needed, p + orig)
    {
      hide Tiles, InPayload, LiveAt, Span, Size, KeepsBytes, UntouchedBut, WellSized, AllTiles, Resized, Moved,
           GrowthSafe, Fits, Laid, RoomInPlace, HasRoomInPlace;
      ghost var m := ram[..];
      OneRoom(regions, pages * PAGE, i, p, needed);
      LaidAt(m, regions, pages * PAGE, i);
      SizeOwned(regions, pages * PAGE, i, p);
      FitsPositive(needed);
      LiveInside(regions[i].chain, regions[i].at, p);
      r, orig := heaps[i].ReallocInPlace(p, needed);
      ghost var c := heaps[i].chain;
      if r == 0 {
        assert Rechained(regions, i, c) == regions;
        return;
      }
      ResizedSizes(m, ram[..], regions, pages * PAGE, i, c, p, needed);
      HeapWritten(m, ram[..], regions, pages * PAGE, i, c, p + needed, p + orig);
      regions := Rechained(regions, i, c);
    }

    method Copy(dst: nat, src: nat, n: nat)
      requires dst + n <= ram.Length && src + n <= ram.Length && (dst + n <= src || src + n <= dst)
      modifies ram
      ensures Copied(old(ram[..]), ram[..], dst, src, n)
    {
      ghost var m := ram[..];
      for k := 0 to n
        invariant Copied(m, ram[..], dst, src, k)
      {
        ram[dst + k] := ram[src + k];
        CopiedMore(m, ram[..], dst, src, k);
      }
    }

    /** Moves the first `n` bytes of block `p` to the new block `r` and frees `p`. */
    method MoveBlock(p: nat, r: nat, n: nat)
      requires Valid() && 0 < p && p != r && n <= Size(regions, r) && 0 < n <= Size(regions, p)
      modifies this`regions, heaps, ram
      ensures Valid() && (old(Exhausted()) ==> Exhausted())
      ensures SameSizesBut(old(regions), regions, p) && Size(regions, p) == 0
      ensures r + n <= |ram[..]| && p + n <= |ram[..]| && ram[..][r..r + n] == old(ram[..])[p..p + n]
      ensures KeepsBytes(old(ram[..]), ram[..], old(regions), r, r + n)
    {
      hide Tiles, LiveAt, Span, Size, KeepsBytes, SameSizesBut, AllTiles, Laid, Copied;
      ghost var m, rs := ram[..], regions;
      LiveBounds(rs, pages * PAGE, p);
      LiveBounds(rs, pages * PAGE, r);
      if p < r { SizesDisjoint(rs, pages * PAGE, p, r); } else { SizesDisjoint(rs, pages * PAGE, r, p); }
      Copy(r, p, n);
      ghost var m1 := ram[..];
      CopiedTiles(m, m1, rs, pages * PAGE, r, p, n);
      Free(p);
      MovedBytes(m, m1, ram[..], rs, r, p, n);
    }

    /** A block of at least `size` bytes that starts with the bytes of block `p`: `p` itself if it can
        be resized where it is, otherwise a new block, with `p` freed. Returns 0 with the block intact
        when no memory is left, and frees the block when `size` is 0. */
    method Realloc(p: nat, size: nat) returns (r: nat)
      requires Valid() && (p == 0 || Size(regions, p) != 0) && size + 4 * MEM_BLOCK + MAX_MEMORY < TWO32
      requires p != 0 ==> SafeToResize(ram[..], regions, p, Adjust(size))
      modifies this, heaps, ram
      ensures Valid() && (old(Exhausted()) ==> Exhausted())
      ensures size == 0 && p != 0 ==> r == 0 && SameSizesBut(old(regions), regions, p) && Size(regions, p) == 0
      ensures size > 0 && r == 0 ==>
        SameSizes(old(regions), regions) && Exhausted() && NoRun(regions, 0, |regions|, Adjust(size))
      ensures size > 0 && p != 0 ==> (r == p <==> HasRoomInPlace(old(regions), p, Adjust(size)))
      ensures size > 0 && p == 0 ==> HandedOut(old(regions), regions, r, Adjust(size))
      ensures size > 0 && p != 0 && r != 0 ==> Moved(old(ram[..]), ram[..], old(regions), regions, p, r, Adjust(size))
      ensures KeepsBytes(old(ram[..]), ram[..], old(regions), p + Adjust(size), p + Size(old(regions), p))
    {
      hide Tiles, LiveAt, Span, Size, KeepsBytes, SameSizes, SameSizesBut, AllTiles, Laid, Moved, GrowthSafe, Fits,
           HandedOut, NoRun, Adjust, HasRoomInPlace;
      ghost var m, rs, x, y := ram[..], regions, p + Adjust(size), p + Size(regions, p);
      if size == 0 {
        Free(p);
        KeepsBytesWeaken(m, ram[..], rs, x, y);
        return 0;
      }
      AdjustMeaning(size);
      var needed := Adjust(size);
      AdjustTwice(needed);
      var orig := 0;
      if p != 0 {
        var i := FindHeap(p);
        r, orig := ReallocIn(i, p, needed);
        if r != 0 {
          return;
        }
      }
      r := ReallocByMove(p, orig, needed);
      KeepsBytesWeaken(m, ram[..], rs, x, y);
    }

    /** Allocates a new block, copies what fits of the old one, and frees that. */
    method ReallocByMove(p: nat, orig: nat, needed: nat) returns (r: nat)
      requires Valid() && (if p == 0 then orig == 0 else 0 < orig == Size(regions, p))
      requires Adjust(needed) == needed && 0 < needed && needed + 2 * MEM_BLOCK + MAX_MEMORY < TWO32
      modifies this, heaps, ram
      ensures Valid() && (old(Exhausted()) ==> Exhausted())
      ensures r == 0 ==> SameSizes(old(regions), regions) && Exhausted() && NoRun(regions, 0, |regions|, needed)
      ensures p != 0 ==> r != p
      ensures p == 0 ==> HandedOut(old(regions), regions, r, needed)
      ensures p != 0 && r != 0 ==> Moved(old(ram[..]), ram[..], old(regions), regions, p, r, needed)
      ensures KeepsBytes(old(ram[..]), ram[..], old(regions), 0, 0)
    {
      hide Tiles, LiveAt, Span, Size, KeepsBytes, SameSizes, SameSizesBut, AllTiles, Laid, Moved, Fits, HandedOut,
           NoRun, Adjust;
      ghost var m, rs := ram[..], regions;
      r := Malloc(needed);
      HandedOutCases(rs, regions, p, r, needed);
      if r == 0 {
        return;
      }
      ghost var m1, rs1, top := ram[..], regions, pages * PAGE;
      var copySize := if needed < orig then needed else orig;
      if copySize > 0 {
        MoveBlock(p, r, copySize);
        MoveDone(m, m1, ram[..], rs, rs1, regions, top, p, r, needed);
      }
    }

    method FreeIn(i: nat, p: nat)
      requires Layout() && i < |regions| && LiveAt(regions[i].chain, regions[i].at, p) != 0
      modifies this`regions, heaps[i], ram
      ensures Layout() && regions == Rechained(old(regions), i, heaps[i].chain)
      ensures Span(regions[i].chain) == Span(old(regions)[i].chain)
      ensures SameSizesBut(old(regions), regions, p) && Size(regions, p) == 0
      ensures GivenBack(old(ram[..]), ram[..], old(regions), regions, i, p)
      ensures KeepsBytes(old(ram[..]), ram[..], old(regions), 0, 0)
    {
      hide Tiles, InPayload, LiveAt, Span, Size, KeepsBytes, Untouched, UntouchedBut, WellSized, SameSizesBut, AllTiles;
      ghost var m := ram[..];
      LaidAt(m, regions, pages * PAGE, i);
      heaps[i].Free(p);
      ghost var c := heaps[i].chain;
      SizeChanged(regions, pages * PAGE, i, c, p);
      UntouchedIsBut(m, ram[..], regions[i].chain, regions[i].at, regions[i].End());
      HeapWritten(m, ram[..], regions, pages * PAGE, i, c, 0, 0);
      regions := Rechained(regions, i, c);
    }
  }

  /** Resizing the block at `p` in place is safe in whichever heap holds it. */
  ghost predicate SafeToResize(m: seq<byte>, rs: seq<Region>, p: nat, size: nat) {
    forall i :: 0 <= i < |rs| && LiveAt(rs[i].chain, rs[i].at, p) != 0 ==>
      GrowthSafe(m, rs[i].chain, rs[i].at, rs[i].size, p, size)
  }

  /** The heap that holds the block at `p` has room to resize it there. */
  ghost predicate HasRoomInPlace(rs: seq<Region>, p: nat, size: nat) {
    exists i :: 0 <= i < |rs| && LiveAt(rs[i].chain, rs[i].at, p) != 0
      && RoomInPlace(rs[i].chain, rs[i].at, rs[i].size, p, size)
  }

  lemma OneRoom(rs: seq<Region>, top: nat, i: nat, p: nat, size: nat)
    requires Laid(rs, top) && i < |rs| && LiveAt(rs[i].chain, rs[i].at, p) != 0
    ensures HasRoomInPlace(rs, p, size) <==> RoomInPlace(rs[i].chain, rs[i].at, rs[i].size, p, size)
  {
    hide RoomInPlace, LiveAt, Laid;
    forall k | 0 <= k < |rs| && LiveAt(rs[k].chain, rs[k].at, p) != 0 ensures i == k {
      OneOwner(rs, top, i, k, p);
    }
  }

  /** Block `p` became block `r` of at least `size` bytes with the same leading bytes; no other block
      was made, lost or resized. */
  ghost predicate Moved(m: seq<byte>, m': seq<byte>, rs: seq<Region>, rs': seq<Region>, p: nat, r: nat, size: nat) {
    && (forall q: nat :: q != p && q != r ==> Size(rs', q) == Size(rs, q))
    && (r == p || (Size(rs', p) == 0 && Size(rs, r) == 0))
    && Size(rs', r) == (if r == p && size < Size(rs, p) then Size(rs, p) else size)
    && var n := if size < Size(rs, p) then size else Size(rs, p);
       p + n <= |m| && r + n <= |m'| && m'[r..r + n] == m[p..p + n]
  }

  lemma ResizedSizes(m: seq<byte>, m': seq<byte>, rs: seq<Region>, top: nat, i: nat, c: Chain, p: nat, size: nat)
    requires i < |rs| && Laid(rs, top) && WellSized(c) && Span(c) <= rs[i].size
    requires LiveAt(rs[i].chain, rs[i].at, p) != 0 && 0 < size && top <= |m|
    requires Resized(m, m', rs[i].chain, c, rs[i].at, rs[i].End(), p, size)
    ensures Laid(Rechained(rs, i, c), top) && Moved(m, m', rs, Rechained(rs, i, c), p, p, size)
    ensures UntouchedBut(m, m', rs[i].chain, rs[i].at, rs[i].End(), p + size, p + Size(rs, p))
    ensures p + size < p + Size(rs, p) ==> rs[i].at <= p + size && p + Size(rs, p) <= rs[i].End()
  {
    SizeOwned(rs, top, i, p);
    SizeChanged(rs, top, i, c, p);
    LiveInside(rs[i].chain, rs[i].at, p);
    var n := if size < Size(rs, p) then size else Size(rs, p);
    forall k | p <= k < p + n ensures m'[k] == m[k] {
      LivePayload(rs[i].chain, rs[i].at, p, k);
    }
  }

  /** The first `n` bytes from `src` on have been copied to `dst` on, and nothing else has changed. */
  ghost predicate Copied(m: seq<byte>, m': seq<byte>, dst: nat, src: nat, n: nat) {
    && |m'| == |m| && dst + n <= |m| && src + n <= |m|
    && m'[dst..dst + n] == m[src..src + n] && m'[..dst] == m[..dst] && m'[dst + n..] == m[dst + n..]
  }

  lemma CopiedMore(m: seq<byte>, m': seq<byte>, dst: nat, src: nat, k: nat)
    requires |m'| == |m| && dst + k < |m| && src + k < |m|
    requires Copied(m, m'[dst + k := m[dst + k]], dst, src, k) && m'[dst + k] == m[src + k]
    ensures Copied(m, m', dst, src, k + 1)
  {
    var m0 := m'[dst + k := m[dst + k]];
    assert m'[dst..dst + k] == m0[dst..dst + k];
    assert m'[dst..dst + k + 1] == m'[dst..dst + k] + [m'[dst + k]];
    assert m[src..src + k + 1] == m[src..src + k] + [m[src + k]];
    assert m'[..dst] == m0[..dst];
    assert m'[dst + k + 1..] == m0[dst + k..][1..];
    assert m[dst + k + 1..] == m[dst + k..][1..];
  }

  lemma LiveBounds(rs: seq<Region>, top: nat, p: nat)
    requires Laid(rs, top) && Size(rs, p) != 0
    ensures p + Size(rs, p) <= top
  {
    var i := SizeOwner(rs, p);
    LiveInside(rs[i].chain, rs[i].at, p);
  }

  /** Copying into a live block leaves all headers and all other live blocks alone. */
  lemma CopiedTiles(m: seq<byte>, m': seq<byte>, rs: seq<Region>, top: nat, r: nat, p: nat, n: nat)
    requires Laid(rs, top) && AllTiles(m, rs) && Copied(m, m', r, p, n) && 0 < n <= Size(rs, r)
    ensures AllTiles(m', rs) && KeepsBytes(m, m', rs, r, r + n)
  {
    hide AllTiles, Laid, Size;
    forall k | 0 <= k < |m| && !(r <= k < r + n) ensures m'[k] == m[k] {
      if k < r { assert m'[..r][k] == m[..r][k]; } else { assert m'[r + n..][k - r - n] == m[r + n..][k - r - n]; }
    }
    forall k: nat | k < |m| && m'[k] != m[k] ensures Live(rs, k) {
      assert r <= k < r + Size(rs, r);
    }
    PayloadWrites(m, m', rs, top);
  }

  lemma MovedBytes(m: seq<byte>, m1: seq<byte>, m2: seq<byte>, rs: seq<Region>, r: nat, p: nat, n: nat)
    requires Copied(m, m1, r, p, n) && KeepsBytes(m1, m2, rs, 0, 0) && n <= Size(rs, r)
    requires KeepsBytes(m, m1, rs, r, r + n)
    ensures r + n <= |m2| && m2[r..r + n] == m[p..p + n] && KeepsBytes(m, m2, rs, r, r + n)
  {
    assert m2[r..r + n] == m1[r..r + n];
  }

  lemma KeepsBytesWeaken(m: seq<byte>, m': seq<byte>, rs: seq<Region>, x: nat, y: nat)
    ensures KeepsBytes(m, m', rs, 0, 0) ==> KeepsBytes(m, m', rs, x, y)
  {
  }

  lemma AdjustTwice(needed: nat)
    requires Fits(needed) && needed < TWO32
    ensures Adjust(needed) == needed
  {
  }

  lemma HandedOutCases(rs: seq<Region>, rs': seq<Region>, p: nat, r: nat, needed: nat)
    requires HandedOut(rs, rs', r, needed)
    ensures r == 0 ==> SameSizes(rs, rs')
    ensures r != 0 ==>
      Size(rs', r) == needed && Size(rs, r) == 0 && (Size(rs, p) != 0 ==> p != r && Size(rs', p) == Size(rs, p))
  {
  }

  /** Allocating, copying and freeing add up to moving the block. */
  lemma MoveDone(m: seq<byte>, m1: seq<byte>, m2: seq<byte>, rs: seq<Region>, rs1: seq<Region>, rs2: seq<Region>,
                 top: nat, p: nat, r: nat, needed: nat)
    requires Laid(rs1, top) && 0 < needed
    requires r != 0 && HandedOut(rs, rs1, r, needed) && KeepsBytes(m, m1, rs, 0, 0) && Size(rs, p) != 0
    requires SameSizesBut(rs1, rs2, p) && Size(rs2, p) == 0
    requires var n := if needed < Size(rs, p) then needed else Size(rs, p);
      && p + n <= |m1| && r + n <= |m2| && m2[r..r + n] == m1[p..p + n] && KeepsBytes(m1, m2, rs1, r, r + n)
    ensures Moved(m, m2, rs, rs2, p, r, needed) && KeepsBytes(m, m2, rs, 0, 0)
  {
    var n := if needed < Size(rs, p) then needed else Size(rs, p);
    assert m1[p..p + n] == m[p..p + n];
    forall q: nat, k: nat | q <= k < q + Size(rs, q) && k < |m| ensures m2[k] == m[k] {
      if q < r { SizesDisjoint(rs1, top, q, r); } else { SizesDisjoint(rs1, top, r, q); }
    }
  }

  lemma OwnerBounds(rs: seq<Region>, top: nat, k: nat, p: nat)
    requires Laid(rs, top) && k < |rs| && LiveAt(rs[k].chain, rs[k].at, p) != 0
    ensures rs[k].at + MARKER <= p < rs[k].End()
    ensures forall i :: 0 <= i < |rs| && i != k ==> !(rs[i].at + MARKER <= p < rs[i].End())
  {
    LiveInside(rs[k].chain, rs[k].at, p);
  }

  /** Heaps `i` up to `j` have no run of free blocks of `needed` bytes. */
  ghost predicate NoRun(rs: seq<Region>, i: nat, j: nat, needed: nat) {
    forall k :: i <= k < j && k < |rs| ==> LargestRun(rs[k].chain) < needed
  }

  /** What first fit over one heap does to the live blocks of all. */
  lemma ReusedSizes(rs: seq<Region>, top: nat, i: nat, needed: nat)
    requires i < |rs| && Laid(rs, top) && top < TWO31 && Fits(needed)
    ensures var (c, found) := FromFreed(rs[i].chain, needed);
      var p := if found.None? then 0 else rs[i].at + found.value + MARKER;
      && Laid(Rechained(rs, i, c), top) && Span(c) == Span(rs[i].chain)
      && HandedOut(rs, Rechained(rs, i, c), p, needed)
      && (found.None? <==> LargestRun(rs[i].chain) < needed) && (found.None? ==> LargestRun(c) < needed)
  {
    hide LiveAt, Span, Size, Fits, FromFreed, LargestRun;
    var r := rs[i];
    var (c, found) := FromFreed(r.chain, needed);
    FitsPositive(needed);
    FromFreedTiles(r.chain, needed);
    FromFreedFailsIffNoRun(r.chain, needed);
    forall q: nat
      ensures if found.Some? && q == r.at + found.value + MARKER
              then LiveAt(r.chain, r.at, q) == 0 && LiveAt(c, r.at, q) == needed
              else LiveAt(c, r.at, q) == LiveAt(r.chain, r.at, q)
    {
      FromFreedLive(r.chain, needed, r.at, q);
    }
    if found.None? {
      FailedSearchStays(r.chain, needed);
      SizesUnchanged(rs, top, i, c);
    } else {
      var p := r.at + found.value + MARKER;
      SizeChanged(rs, top, i, c, p);
      NotLiveBefore(rs, top, i, c, p);
    }
  }

  /** The only change to the live blocks is a new one of `needed` bytes at `p`, or none when `p` is 0. */
  ghost predicate HandedOut(rs: seq<Region>, rs': seq<Region>, p: nat, needed: nat) {
    if p == 0 then SameSizes(rs, rs')
    else SameSizesBut(rs, rs', p) && Size(rs, p) == 0 && Size(rs', p) == needed
  }

  lemma BumpedSizes(rs: seq<Region>, top: nat, i: nat, c: Chain, p: nat, needed: nat)
    requires i < |rs| && Laid(rs, top) && WellSized(c) && Span(c) <= rs[i].size && 0 < needed
    requires if p == 0 then c == rs[i].chain
             else p == rs[i].at + Span(rs[i].chain) + MARKER && c == Append(rs[i].chain, Link(needed, true, End))
    ensures Laid(Rechained(rs, i, c), top) && HandedOut(rs, Rechained(rs, i, c), p, needed)
  {
    if p == 0 {
      assert Rechained(rs, i, c) == rs;
    } else {
      ExtendedLive(rs[i].chain, needed, true, rs[i].at);
      SizeChanged(rs, top, i, c, p);
      NotLiveBefore(rs, top, i, c, p);
    }
  }

  /** An address that a change to one heap makes live was not live anywhere before. */
  lemma NotLiveBefore(rs: seq<Region>, top: nat, i: nat, c: Chain, p: nat)
    requires i < |rs| && Laid(rs, top) && WellSized(c) && Span(c) <= rs[i].size
    requires LiveAt(rs[i].chain, rs[i].at, p) == 0 && LiveAt(c, rs[i].at, p) != 0
    ensures Size(rs, p) == 0
  {
    if Size(rs, p) != 0 {
      var k := SizeOwner(rs, p);
      LiveInside(rs[k].chain, rs[k].at, p);
      LiveInside(c, rs[i].at, p);
    }
  }

  lemma HandedOutTrans(m: seq<byte>, m1: seq<byte>, m2: seq<byte>, rs: seq<Region>, rs1: seq<Region>, rs2: seq<Region>,
                       p: nat, needed: nat)
    requires SameSizes(rs, rs1) && HandedOut(rs1, rs2, p, needed)
    requires KeepsBytes(m, m1, rs, 0, 0) && KeepsBytes(m1, m2, rs1, 0, 0)
    ensures HandedOut(rs, rs2, p, needed) && KeepsBytes(m, m2, rs, 0, 0) && (p == 0 ==> SameSizes(rs, rs2))
  {
    KeepsBytesTrans(m, m1, m2, rs, rs1, 0, 0);
  }

  lemma HandedOutNone(m: seq<byte>, m1: seq<byte>, m2: seq<byte>, rs: seq<Region>, rs1: seq<Region>, rs2: seq<Region>,
                      needed: nat)
    requires SameSizes(rs, rs1) && SameSizes(rs1, rs2)
    requires KeepsBytes(m, m1, rs, 0, 0) && KeepsBytes(m1, m2, rs1, 0, 0)
    ensures SameSizes(rs, rs2) && HandedOut(rs, rs2, 0, needed) && KeepsBytes(m, m2, rs, 0, 0)
  {
    KeepsBytesTrans(m, m1, m2, rs, rs1, 0, 0);
  }

  lemma NothingCarved()
    ensures Span(End) == 0
  {
  }

  lemma SameSizesTrans(rs: seq<Region>, rs1: seq<Region>, rs2: seq<Region>)
    requires SameSizes(rs, rs1) && SameSizes(rs1, rs2)
    ensures SameSizes(rs, rs2)
  {
  }

  lemma LaidAt(m: seq<byte>, rs: seq<Region>, top: nat, i: nat)
    requires Laid(rs, top) && AllTiles(m, rs) && i < |rs|
    ensures rs[i].Shape(top) && Tiles(m, rs[i].at, rs[i].chain)
  {
  }

  /** When the last heap is carved after all before it, every heap is. */
  lemma RetiredCarved(rs: seq<Region>, rs': seq<Region>, i: nat)
    requires i == |rs| - 1 && AllCarved(rs[..i])
    requires exists c :: rs' == Rechained(rs, i, c) && Span(c) == rs'[i].size
    ensures AllCarved(rs')
  {
    forall j | 0 <= j < |rs'| ensures rs'[j].Carved() {
      assert j < i ==> rs'[j] == rs[..i][j];
    }
  }

  lemma RetiredLaid(rs: seq<Region>, rs': seq<Region>, i: nat, top: nat, top': nat)
    requires i < |rs| && Laid(rs, top) && Laid(rs', top') && exists c :: rs' == Rechained(rs, i, c)
    ensures Laid(rs', top)
  {
    assert forall j :: 0 <= j < |rs| ==> rs'[j].at == rs[j].at && rs'[j].size == rs[j].size;
  }

  /** How much to grow: to the end of the current page, or of the one after it when less than a
      kilobyte is left. */
  function HeapAdj(memorySize: nat): nat {
    if memorySize % PAGE <= PAGE - 1024
    then (memorySize + PAGE) - memorySize % PAGE - memorySize
    else (memorySize + PAGE * 2) - memorySize % (PAGE * 2) - memorySize
  }

  /** Memory ends with a page after growing. It grows by at least a kilobyte, unless less than that is left
      of a page with an odd number. */
  lemma HeapAdjMeaning(memorySize: nat)
    ensures var n := HeapAdj(memorySize);
      && (memorySize + n) % PAGE == 0 && 0 < n <= 2 * PAGE
      && (n < 1024 <==> memorySize % PAGE > PAGE - 1024 && memorySize / PAGE % 2 == 1)
  {
    var pages, rest := memorySize / PAGE, memorySize % PAGE;
    var half, odd := pages / 2, pages % 2;
    assert memorySize == 2 * PAGE * half + PAGE * odd + rest;
    assert memorySize % (2 * PAGE) == PAGE * odd + rest;
  }

  lemma WholePage(pages: nat)
    ensures HeapAdj(pages * PAGE) == PAGE
  {
    assert pages * PAGE % PAGE == 0;
  }

  lemma TopRaised(rs: seq<Region>, top: nat, top': nat)
    requires Laid(rs, top) && top <= top'
    ensures Laid(rs, top')
  {
  }

  lemma SameAsBefore(m: seq<byte>, rs: seq<Region>)
    ensures SameSizes(rs, rs) && KeepsBytes(m, m, rs, 0, 0)
  {
  }

  /** The last heap with more room after it. */
  lemma Enlarged(m: seq<byte>, rs: seq<Region>, top: nat, i: nat, n: nat)
    requires Laid(rs, top) && AllTiles(m, rs) && i == |rs| - 1 && rs[i].End() == top && n % MEM_BLOCK == 0
    ensures var rs' := rs[i := rs[i].(size := rs[i].size + n)];
      Laid(rs', top + n) && AllTiles(m, rs') && SameSizes(rs, rs')
  {
    var rs' := rs[i := rs[i].(size := rs[i].size + n)];
    forall p: nat ensures Size(rs', p) == Size(rs, p) { SameChains(rs, rs', p); }
  }

  lemma {:induction false} SameChains(rs: seq<Region>, rs': seq<Region>, p: nat)
    requires |rs| == |rs'| && forall i :: 0 <= i < |rs| ==> rs[i].chain == rs'[i].chain && rs[i].at == rs'[i].at
    ensures Size(rs', p) == Size(rs, p)
  {
    if rs != [] { SameChains(rs[1..], rs'[1..], p); }
  }

  /** A heap opened on new memory holds nothing yet. */
  lemma Opened(m: seq<byte>, rs: seq<Region>, top: nat, n: nat)
    requires Laid(rs, top) && AllTiles(m, rs) && 0 < top && 0 < n && n % MEM_BLOCK == 0
    ensures var rs' := rs + [Region(End, top, n)];
      Laid(rs', top + n) && AllTiles(m, rs') && SameSizes(rs, rs')
  {
    forall p: nat ensures Size(rs + [Region(End, top, n)], p) == Size(rs, p) { SizeAppend(rs, Region(End, top, n), p); }
  }

  lemma {:induction false} SizeAppend(rs: seq<Region>, r: Region, p: nat)
    requires r.chain == End
    ensures Size(rs + [r], p) == Size(rs, p)
  {
    if rs != [] {
      SizeAppend(rs[1..], r, p);
      assert (rs + [r])[1..] == rs[1..] + [r];
    } else {
      assert (rs + [r])[1..] == [];
    }
  }

  ghost predicate AllCarved(rs: seq<Region>) {
    forall i :: 0 <= i < |rs| ==> rs[i].Carved()
  }

  lemma TilesOf(m: seq<byte>, rs: seq<Region>, i: nat)
    requires AllTiles(m, rs) && i < |rs|
    ensures Tiles(m, rs[i].at, rs[i].chain)
  {
  }

  /** Carving the rest of a heap into a free block changes no live block. */
  lemma CleanedSizes(rs: seq<Region>, top: nat, i: nat, c: Chain)
    requires i < |rs| && Laid(rs, top) && WellSized(c) && Span(c) <= rs[i].size
    requires c == rs[i].chain || exists size: nat :: c == Append(rs[i].chain, Link(size, false, End))
    ensures Laid(Rechained(rs, i, c), top) && SameSizes(rs, Rechained(rs, i, c))
  {
    if c != rs[i].chain {
      var size: nat :| c == Append(rs[i].chain, Link(size, false, End));
      ExtendedLive(rs[i].chain, size, false, rs[i].at);
      assert SameLive(rs[i].chain, rs[i].at, c, rs[i].at);
    }
    SizesUnchanged(rs, top, i, c);
  }

  lemma PagesNeeded(pages: nat, numBytes: nat)
    requires pages * PAGE <= MAX_MEMORY && numBytes % PAGE == 0 && numBytes <= MAX_MEMORY
    ensures (numBytes + 7) % TWO32 / 8 * 8 == numBytes
    ensures (pages * PAGE + numBytes + PAGE - 1) % TWO32 / PAGE == pages + numBytes / PAGE
    ensures numBytes / PAGE * PAGE == numBytes
  {
    var n := numBytes / PAGE;
    assert pages * PAGE + numBytes + PAGE - 1 == (pages + n) * PAGE + (PAGE - 1);
  }
}
