/** How a heap gets to where growth in place goes wrong. */
module HeapExamples {
  import opened Words
  import opened HeapBlocks
  import opened HeapMemory
  import opened HeapRegions
  import opened MemoryManager

  const HOLE := Link(4, true, Link(4, false, End))

  lemma ZeroWord(m: seq<byte>, a: nat)
    requires a + 4 <= |m| && m[a] == m[a + 1] == m[a + 2] == m[a + 3] == 0
    ensures Word(m, a) == 0
  {
  }

  /** The walk from the first block over the freed one and two zero words. */
  lemma WalkOut(m: seq<byte>, p: nat, end: nat)
    requires p + 24 <= end <= |m| && Word(m, p + 4) == 4 && Word(m, p + 12) == 0 && Word(m, p + 16) == 0
    ensures Walk(m, p, 4, 20, end) == 20
  {
    hide Word;
    assert Walk(m, p, 16, 20, end) == 20;
    assert Walk(m, p, 12, 20, end) == 20;
  }

  lemma HoleUnsafe(m: seq<byte>, at: nat, heapSize: nat)
    requires 40 <= heapSize && at + heapSize <= |m| && Word(m, at + 16) == 0
    ensures LiveAt(HOLE, at, at + 4) == 4 && After(HOLE, at, at + 4) == Link(4, false, End)
    ensures !GrowthSafe(m, HOLE, at, heapSize, at + 4, 20)
  {
    hide Word;
  }

  /** The first heap, carved into the blocks of a chain. */
  function FirstHeap(c: Chain): seq<Region> {
    [Region(c, 8, INITIAL_HEAP_SIZE)]
  }

  lemma FourCarved(m: seq<byte>, m': seq<byte>, c: Chain, rs: seq<Region>, p: nat)
    requires Bumped(m, m', FirstHeap(c), rs, p, 4)
    ensures p == 8 + Span(c) + MARKER <= |m| && rs == FirstHeap(Append(c, Link(4, true, End)))
    ensures m' == StoreWord(m, p - MARKER, Header(4, true))
  {
    hide StoreWord;
  }

  lemma SecondLive()
    ensures Size(FirstHeap(Link(4, true, Link(4, true, End))), 20) == 4
  {
    assert FirstHeap(Link(4, true, Link(4, true, End)))[0].at == 8;
  }

  lemma SecondFreed(m: seq<byte>, m': seq<byte>, rs: seq<Region>, i: nat)
    requires GivenBack(m, m', FirstHeap(Link(4, true, Link(4, true, End))), rs, i, 20)
    ensures 20 <= |m| && rs == FirstHeap(HOLE) && m' == StoreWord(m, 16, 4)
  {
    hide StoreWord;
  }

  /** What is written leaves the memory above the two blocks as it was. */
  lemma HoleFacts(m0: seq<byte>, m: seq<byte>)
    requires |m0| == PAGE && (forall k :: 24 <= k < PAGE ==> m0[k] == 0) && m == StoreWord(m0, 16, 4)
    ensures Size(FirstHeap(HOLE), 12) == 4 && !SafeToResize(m, FirstHeap(HOLE), 12, 20)
    ensures Walk(m, 12, 4, 20, 8 + INITIAL_HEAP_SIZE) == 20
  {
    hide Word, StoreWord, Walk, GrowthSafe;
    WordStored(m0, 16, 4);
    ZeroWord(m, 24);
    ZeroWord(m, 28);
    WalkOut(m, 12, 8 + INITIAL_HEAP_SIZE);
    HoleUnsafe(m, 8, INITIAL_HEAP_SIZE);
    assert FirstHeap(HOLE)[0].chain == HOLE;
  }

  /** The manager after two mallocs of 4 bytes on fresh memory and a free of the second: resizing the first
      to 20 bytes is unsafe, the walk takes it for free all the way, and the next block is carved from
      inside these 20 bytes. */
  method HoleReached() returns (mgr: MemoryManager, p: nat)
    ensures mgr.Valid() && mgr.Growing() && mgr.regions == FirstHeap(HOLE)
    ensures Size(mgr.regions, p) == 4 && !SafeToResize(mgr.ram[..], mgr.regions, p, Adjust(20))
    ensures Walk(mgr.ram[..], p, 4, Adjust(20), 8 + INITIAL_HEAP_SIZE) == Adjust(20) == 20
    ensures p < 8 + Span(HOLE) + MARKER < p + 20
  {
    hide StoreWord, Walk, HandedOut, KeepsBytes, SameSizesBut, Bumped, GivenBack, MemoryManager.Layout, SafeToResize;
    var ram := new byte[PAGE](_ => 0);
    mgr := new MemoryManager(ram, 8, 1, 1);
    ghost var m0 := ram[..];
    p := mgr.Malloc(4);
    ghost var m1 := ram[..];
    FourCarved(m0, m1, End, mgr.regions, p);
    var q := mgr.Malloc(4);
    ghost var m2 := ram[..];
    FourCarved(m1, m2, Link(4, true, End), mgr.regions, q);
    ghost var rs := mgr.regions;
    SecondLive();
    mgr.Free(q);
    ghost var i :| GivenBack(m2, ram[..], rs, mgr.regions, i, q);
    SecondFreed(m2, ram[..], mgr.regions, i);
    HoleFacts(m2, ram[..]);
  }
}
