/** Switching to a longer fork, taking a failed switch back, and pushing blocks. */
module ForkSwitch {
  import opened Options
  import opened UndoState
  import opened ChainState
  import opened ForkTree
  import opened BlockReplay
  import opened ChainNode

  /** The blocks of two branches, which stay in memory while the fork is switched. */
  function Holding(index: Index, first: seq<Block>, second: seq<Block>): Index {
    map id | id in index && (index[id] in first || index[id] in second) :: index[id]
  }

  /** The known blocks without those of a branch from the `from`-th on. */
  function Forgotten(index: Index, blocks: seq<Block>, from: nat): Index {
    map id | id in index && (forall k :: from <= k < |blocks| ==> blocks[k].id != id) :: index[id]
  }

  /** The block a branch forked from. */
  function Ancestor(br: seq<Block>): nat
    requires br != []
  {
    br[|br| - 1].previous
  }

  /** A failed switch taken back: the new branch is popped and the old one applied again. */
  ghost function SwitchedBack(rules: Rules, n: Node, held: Index, second: seq<Block>): (r: Node)
    requires Fit(n) && second != []
    ensures Fit(r)
  {
    var m := PoppedTo(n, n.index + held, Ancestor(second));
    if HeadId(m.db) != Ancestor(second) then m else AppliedAll(rules, m, Upward(second))
  }

  /** Branch `second`, which ends at the head, left for branch `first`, and whether that worked. */
  ghost function Switch(rules: Rules, n: Node, first: seq<Block>, second: seq<Block>): (r: (Node, bool))
    requires Fit(n) && second != []
    ensures Fit(r.0)
  {
    var blocks, m := Upward(first), PoppedTo(n, n.index, Ancestor(second));
    if HeadId(m.db) != Ancestor(second) then (m, false)
    else
      var done, m' := Applying(rules, m.db, blocks), AppliedAll(rules, m, blocks);
      if done == |blocks| then (m', true)
      else
        var failed := m'.(index := Forgotten(m'.index, blocks, done), head := second[0]);
        (SwitchedBack(rules, failed, Holding(n.index, first, second), second), false)
  }

  /** The fork from the head of the chain to the highest known block, which is higher. */
  ghost predicate Parted(ids: Ids, rules: Rules, n: Node, first: seq<Block>, second: seq<Block>) {
    Sound(ids, rules, n) && Forked(n.index, n.head.id, HeadId(n.db), first, second) && n.head.num > HeadNum(n.db)
  }

  lemma PartedShape(ids: Ids, rules: Rules, n: Node, first: seq<Block>, second: seq<Block>)
    requires Parted(ids, rules, n, first, second)
    ensures Tree(n.index) && Path(n.index, first) && Path(n.index, second) && 0 < |second| < |first|
    ensures first[0] == n.head && second[0].id == HeadId(n.db) && Ancestor(first) == Ancestor(second)
    ensures forall i :: 0 <= i < |first| ==> Named(ids, first[i])
    ensures forall i :: 0 <= i < |second| ==> Named(ids, second[i])
    ensures OnHistory(n.history, second)
  {
    hide Recorded, Effect;
    FilingTree(ids, n.index);
    BranchOnHistory(ids, rules, n.saved, n.db, n.history, n.index, second);
  }

  /** Going down: the first pops reach the ancestor unless the undo stack is too short for that. */
  lemma DownExact(ids: Ids, rules: Rules, n: Node, first: seq<Block>, second: seq<Block>)
    requires Parted(ids, rules, n, first, second)
    ensures second != []
    ensures var m := PoppedTo(n, n.index, Ancestor(second));
      && m.index == n.index && (HeadId(m.db) == Ancestor(second) <==> |second| <= |n.saved|)
      && m.db == StateBack(n.saved, n.db, if |second| <= |n.saved| then |second| else |n.saved|)
      && Sound(ids, rules, m)
  {
    hide Recorded, Effect, Forked, Path, PoppedTo, StateBack;
    PartedShape(ids, rules, n, first, second);
    HeadsBack(rules, n.saved, n.db, n.history, n.index, second);
    PoppedToBack(n, n.index, Ancestor(second), |second|);
    PopCountAlong(n.index, first, 0, |n.saved|, |second|);
    PoppedToSound(ids, rules, n, n.index, Ancestor(second));
  }

  lemma FitBack(n: Node, k: nat)
    requires Fit(n) && k <= |n.saved|
    ensures Good(StateBack(n.saved, n.db, k))
  {
  }

  /** A head the undo stack leads back to after part of a branch has been applied. */
  lemma HeadOfRun(rules: Rules, n: Node, index: Index, br: seq<Block>, j: nat)
    requires Fit(n) && Tree(index) && Path(index, br) && br != [] && HeadId(n.db) == Ancestor(br)
    requires j <= Applying(rules, n.db, Upward(br)) && j <= |AppliedAll(rules, n, Upward(br)).saved|
    ensures var m, done := AppliedAll(rules, n, Upward(br)), Applying(rules, n.db, Upward(br));
      var d := StateBack(m.saved, m.db, j);
      && Good(d) && Replay(rules, n.db, Upward(br)[..done - j]) == Some(d)
      && (if j == done then d == n.db else HeadId(d) == br[|br| - (done - j)].id != Ancestor(br))
  {
    hide Replay, AppliedAll, Effect, StateBack, Applying;
    var m, done := AppliedAll(rules, n, Upward(br)), Applying(rules, n.db, Upward(br));
    FitBack(m, j);
    AppliedAllBack(rules, n, Upward(br), j);
    ReplayHead(rules, n.db, Upward(br), done - j, StateBack(m.saved, m.db, j));
    if j == done {
      ReplayNone(rules, n.db, Upward(br));
    } else {
      PathNotBelow(index, br, |br| - (done - j));
    }
  }

  /** How many blocks of the new branch come off again after it has failed. */
  ghost function TakenBack(rules: Rules, n: Node, first: seq<Block>, second: seq<Block>): nat
    requires Fit(n) && second != [] && |second| <= |n.saved|
  {
    var m := PoppedTo(n, n.index, Ancestor(second));
    var m' := AppliedAll(rules, m, Upward(first));
    PopCount(m'.index + Holding(n.index, first, second), second[0], |m'.saved|, Applying(rules, m.db, Upward(first)))
  }

  /** Blocks held in memory do not go when they are forgotten. */
  lemma HeldAnyway(index: Index, index': Index, first: seq<Block>, second: seq<Block>, done: nat)
    requires Path(index, first) && (forall id :: id in index' ==> id in index && index'[id] == index[id])
    ensures Forgotten(index', Upward(first), done) + Holding(index, first, second) ==
      index' + Holding(index, first, second)
  {
    forall id | id in index' && !(id in Forgotten(index', Upward(first), done))
      ensures id in Holding(index, first, second) {
      var k :| done <= k < |first| && Upward(first)[k].id == id;
      assert index[first[|first| - 1 - k].id] == first[|first| - 1 - k];
    }
  }

  lemma HeldFiling(ids: Ids, index: Index, index': Index, first: seq<Block>, second: seq<Block>)
    requires Filing(ids, index) && Filing(ids, index')
    ensures Filing(ids, index' + Holding(index, first, second))
  {
  }

  lemma SmallerIndex(rules: Rules, n: Node, blocks: seq<Block>)
    requires Fit(n)
    ensures forall id :: id in AppliedAll(rules, n, blocks).index ==>
      id in n.index && AppliedAll(rules, n, blocks).index[id] == n.index[id]
  {
    hide AppliedAll;
    var low := AppliedAllIndex(rules, n, blocks);
  }

  /** Where popping the failed branch ends. */
  lemma FailedPops(rules: Rules, n: Node, m: Node, first: seq<Block>, second: seq<Block>)
    requires Fit(m) && Tree(n.index) && Path(n.index, first) && first != [] && second != [] && m.index == n.index
    requires HeadId(m.db) == Ancestor(second) == Ancestor(first)
    ensures var m', done := AppliedAll(rules, m, Upward(first)), Applying(rules, m.db, Upward(first));
      var failed, held :=
        m'.(index := Forgotten(m'.index, Upward(first), done), head := second[0]), Holding(n.index, first, second);
      var r, p :=
        PoppedTo(failed, failed.index + held, Ancestor(second)), PopCount(m'.index + held, second[0], |m'.saved|, done);
      && (HeadId(r.db) == Ancestor(second) <==> p == done) && (p == done ==> r.db == m.db)
      && Replay(rules, m.db, Upward(first)[..done - p]) == Some(r.db)
  {
    hide Effect, PoppedTo, StateBack, AppliedAll, Replay, Applying, PopCount, Forgotten, Holding, Path, Tree, Upward;
    var blocks := Upward(first);
    var done, m' := Applying(rules, m.db, blocks), AppliedAll(rules, m, blocks);
    var failed, held :=
      m'.(index := Forgotten(m'.index, blocks, done), head := second[0]), Holding(n.index, first, second);
    SmallerIndex(rules, m, blocks);
    HeldAnyway(n.index, m'.index, first, second, done);
    forall j | 0 <= j <= done && j <= |m'.saved|
      ensures Good(StateBack(m'.saved, m'.db, j))
      ensures if j == done then StateBack(m'.saved, m'.db, j) == m.db
        else HeadId(StateBack(m'.saved, m'.db, j)) != Ancestor(second)
    {
      HeadOfRun(rules, m, n.index, first, j);
    }
    PoppedToBack(failed, failed.index + held, Ancestor(second), done);
    HeadOfRun(rules, m, n.index, first, PopCount(m'.index + held, second[0], |m'.saved|, done));
  }

  /** Applying the old branch again leads to the state before it was left. */
  lemma Restored(ids: Ids, rules: Rules, n: Node, m: Node, second: seq<Block>)
    requires Sound(ids, rules, n) && Fit(m) && OnHistory(n.history, second) && |second| <= |n.saved|
    requires m.db == StateBack(n.saved, n.db, |second|)
    ensures AppliedAll(rules, m, Upward(second)).db == n.db
  {
    hide Recorded, Effect, AppliedAll, Replay, Applying, StateBack;
    OldBranchReplays(rules, n.saved, n.db, n.history, second);
    ApplyingExact(rules, m.db, Upward(second));
    AppliedAllBack(rules, m, Upward(second), 0);
    assert Upward(second)[..|second|] == Upward(second);
    BackNone(AppliedAll(rules, m, Upward(second)));
  }

  /** What a failed switch ends in: `TakenBack` blocks of the new branch are off again, and if these are
      all that were applied, the old branch is back. */
  lemma BackExact(ids: Ids, rules: Rules, n: Node, first: seq<Block>, second: seq<Block>)
    requires Parted(ids, rules, n, first, second) && second != [] && |second| <= |n.saved|
    requires Good(StateBack(n.saved, n.db, |second|))
    requires Applying(rules, StateBack(n.saved, n.db, |second|), Upward(first)) < |first|
    ensures var base := StateBack(n.saved, n.db, |second|);
      var done, p, r :=
        Applying(rules, base, Upward(first)), TakenBack(rules, n, first, second), Switch(rules, n, first, second);
      && !r.1 && p <= done
      && (if p == done then r.0.db == n.db else Some(r.0.db) == Replay(rules, base, Upward(first)[..done - p]))
  {
    hide Recorded, Effect, Forked, Path, PoppedTo, StateBack, AppliedAll, Replay, Applying, PopCount, Forgotten,
         Holding;
    hide Upward, Tree, OnHistory, Filing, Named, WellNumbered;
    UpwardMeaning(first);
    PartedShape(ids, rules, n, first, second);
    DownExact(ids, rules, n, first, second);
    var m := PoppedTo(n, n.index, Ancestor(second));
    FailedPops(rules, n, m, first, second);
    var m', done := AppliedAll(rules, m, Upward(first)), Applying(rules, m.db, Upward(first));
    var failed := m'.(index := Forgotten(m'.index, Upward(first), done), head := second[0]);
    var back := PoppedTo(failed, failed.index + Holding(n.index, first, second), Ancestor(second));
    if TakenBack(rules, n, first, second) == done {
      Restored(ids, rules, n, back, second);
    } else {
      assert Switch(rules, n, first, second).0 == back;
    }
  }

  /** A block of the new branch is the head of the old one only if the new branch goes through it. */
  lemma SharedHead(ids: Ids, rules: Rules, n: Node, first: seq<Block>, second: seq<Block>, i: nat)
    requires Parted(ids, rules, n, first, second) && i < |first| && second != []
    ensures first[i].id == HeadId(n.db) <==> i == |first| - 1 && first[i] == second[0]
  {
    hide Recorded, Effect;
    PartedShape(ids, rules, n, first, second);
    if first[i].id == HeadId(n.db) {
      assert first[i] == second[0];
      PathHeights(n.index, first, i);
      assert i == |first| - |second|;
    }
  }

  /** A state on the way along the new branch is the one it was left in only where the new branch goes
      through the old head. */
  lemma SharedState(ids: Ids, rules: Rules, n: Node, first: seq<Block>, second: seq<Block>, j: nat, d: Db)
    requires Parted(ids, rules, n, first, second) && second != [] && |second| <= |n.saved| && 0 < j <= |first|
    requires Good(StateBack(n.saved, n.db, |second|))
    requires Replay(rules, StateBack(n.saved, n.db, |second|), Upward(first)[..j]) == Some(d)
    ensures d == n.db <==> j == 1 && first[|first| - 1] == second[0]
  {
    hide Recorded, Effect, Forked, Path, StateBack, Replay, Tree, OnHistory, Named, WellNumbered, Filing, Numbered;
    var base := StateBack(n.saved, n.db, |second|);
    PartedShape(ids, rules, n, first, second);
    ReplayHead(rules, base, Upward(first), j, d);
    SharedHead(ids, rules, n, first, second, |first| - j);
    if j == 1 && first[|first| - 1] == second[0] {
      SharedEnd(ids, rules, n, first, second);
      OldBranchReplays(rules, n.saved, n.db, n.history, second);
      assert Upward(first)[..1] == Upward(second);
    }
  }

  lemma SharedEnd(ids: Ids, rules: Rules, n: Node, first: seq<Block>, second: seq<Block>)
    requires Parted(ids, rules, n, first, second) && second != [] && first != [] && first[|first| - 1] == second[0]
    ensures |second| == 1
  {
    hide Recorded, Effect;
    PartedShape(ids, rules, n, first, second);
    PathHeights(n.index, first, |first| - 1);
    PathHeights(n.index, second, |second| - 1);
  }

  /** Every way a switch can end. It fails, with blocks lost, if the undo stack does not reach down to the
      ancestor. It succeeds exactly when every block of the new branch applies. And if one throws, the
      objects are as they were exactly when all the blocks applied so far come off again, or all but the
      old head itself. */
  lemma SwitchExact(ids: Ids, rules: Rules, n: Node, first: seq<Block>, second: seq<Block>)
    requires Parted(ids, rules, n, first, second)
    ensures second != [] && first != []
    ensures |second| <= |n.saved| ==> Good(StateBack(n.saved, n.db, |second|))
    ensures var (r, ok) := Switch(rules, n, first, second);
      if |second| > |n.saved| then !ok && r.db == StateBack(n.saved, n.db, |n.saved|) && r.index == n.index
      else
        var base := StateBack(n.saved, n.db, |second|);
        var done, p := Applying(rules, base, Upward(first)), TakenBack(rules, n, first, second);
        && (ok <==> Replay(rules, base, Upward(first)).Some?)
        && (ok ==> Replay(rules, base, Upward(first)) == Some(r.db))
        && (!ok ==>
          p <= done < |first| && (r.db == n.db <==> p == done || (p + 1 == done && first[|first| - 1] == second[0])))
        && (!ok && p < done ==> Replay(rules, base, Upward(first)[..done - p]) == Some(r.db))
  {
    hide Recorded, Effect, Forked, Path, PoppedTo, StateBack, AppliedAll, Replay, Applying, Forgotten, Holding;
    hide Upward, Tree, OnHistory, Filing, Named, WellNumbered, TakenBack, SwitchedBack;
    PartedShape(ids, rules, n, first, second);
    DownExact(ids, rules, n, first, second);
    UpwardMeaning(first);
    if |second| <= |n.saved| {
      var m, base := PoppedTo(n, n.index, Ancestor(second)), StateBack(n.saved, n.db, |second|);
      ApplyingExact(rules, base, Upward(first));
      var done := Applying(rules, base, Upward(first));
      if done == |first| {
        AppliedAllBack(rules, m, Upward(first), 0);
        assert Upward(first)[..done] == Upward(first);
        BackNone(AppliedAll(rules, m, Upward(first)));
      } else {
        BackExact(ids, rules, n, first, second);
        var p, r := TakenBack(rules, n, first, second), Switch(rules, n, first, second).0;
        if p < done { SharedState(ids, rules, n, first, second, done - p, r.db); }
      }
    }
  }

  /** A switch that fails at a block forgets that block and those above it, and never learns of others. */
  lemma SwitchForgets(ids: Ids, rules: Rules, n: Node, first: seq<Block>, second: seq<Block>, k: nat)
    requires Parted(ids, rules, n, first, second) && second != [] && |second| <= |n.saved|
    requires Good(StateBack(n.saved, n.db, |second|))
    requires Applying(rules, StateBack(n.saved, n.db, |second|), Upward(first)) <= k < |first|
    ensures k < |Upward(first)| && Upward(first)[k].id !in Switch(rules, n, first, second).0.index
  {
    hide Recorded, Effect, Forked, Path, PoppedTo, StateBack, AppliedAll, Replay, Applying, Holding;
    hide Upward, Tree, OnHistory, Filing, Named, WellNumbered;
    UpwardMeaning(first);
    PartedShape(ids, rules, n, first, second);
    DownExact(ids, rules, n, first, second);
    var m, blocks := PoppedTo(n, n.index, Ancestor(second)), Upward(first);
    var m', done := AppliedAll(rules, m, blocks), Applying(rules, m.db, blocks);
    var failed := m'.(index := Forgotten(m'.index, blocks, done), head := second[0]);
    BackKnows(rules, failed, Holding(n.index, first, second), second, blocks[k].id);
  }

  lemma BackKnows(rules: Rules, n: Node, held: Index, second: seq<Block>, id: nat)
    requires Fit(n) && second != [] && id !in n.index
    ensures id !in SwitchedBack(rules, n, held, second).index
  {
    hide AppliedAll;
    var m := PoppedTo(n, n.index + held, Ancestor(second));
    PoppedToIndex(n, n.index + held, Ancestor(second));
    var low := AppliedAllIndex(rules, m, Upward(second));
  }

  lemma HeldPath(index: Index, index': Index, first: seq<Block>, second: seq<Block>)
    requires Path(index, second) && (forall id :: id in index' ==> id in index && index'[id] == index[id])
    ensures Path(index' + Holding(index, first, second), second)
  {
  }

  /** Below the place where the branches part, only known blocks are in memory. */
  lemma HeldAbove(ids: Ids, rules: Rules, n: Node, index: Index, first: seq<Block>, second: seq<Block>, id: nat)
    requires Parted(ids, rules, n, first, second) && second != [] && ids.height(id) < second[|second| - 1].num
    ensures id in index <==> id in index + Holding(n.index, first, second)
  {
    hide Recorded, Effect;
    PartedShape(ids, rules, n, first, second);
    if id in Holding(n.index, first, second) {
      assert Named(ids, n.index[id]);
      PathHeights(n.index, first, |first| - 1);
      PathHeights(n.index, second, |second| - 1);
      if n.index[id] in first {
        var i :| 0 <= i < |first| && first[i] == n.index[id];
        PathHeights(n.index, first, i);
      } else {
        var i :| 0 <= i < |second| && second[i] == n.index[id];
        PathHeights(n.index, second, i);
      }
    }
  }

  /** The last `k` blocks of the part of the new branch that applied come off again: while it was applied,
      irreversibility did not reach past the block after the one they stand on; and they are fewer than
      the old branch has blocks, or the fork database still knows the ancestor and as many blocks below it
      as they are more. */
  ghost predicate ComesOff(rules: Rules, n: Node, first: seq<Block>, second: seq<Block>, k: nat)
    requires Fit(n) && second != [] && |second| <= |n.saved| && Good(StateBack(n.saved, n.db, |second|))
  {
    var base := StateBack(n.saved, n.db, |second|);
    var done := Applying(rules, base, Upward(first));
    var known := AppliedAll(rules, PoppedTo(n, n.index, Ancestor(second)), Upward(first)).index;
    && HeldBack(rules, base, Upward(first), HeadNum(base) + 1 + (done - k))
    && (k < |second| || Reach(known, Ancestor(second), k - |second| + 1))
  }

  /** How many blocks of the new branch come off again. */
  lemma TakenBackExact(ids: Ids, rules: Rules, n: Node, first: seq<Block>, second: seq<Block>, k: nat)
    requires Parted(ids, rules, n, first, second) && second != [] && |second| <= |n.saved|
    requires Good(StateBack(n.saved, n.db, |second|))
    requires k <= Applying(rules, StateBack(n.saved, n.db, |second|), Upward(first)) < |first|
    ensures TakenBack(rules, n, first, second) >= k <==> ComesOff(rules, n, first, second, k)
  {
    hide Recorded, Effect, Forked, PoppedTo, StateBack, AppliedAll, Applying, PopCount, Holding, Reach, HeldBack, Roomy;
    hide Upward, Replay, WellNumbered;
    UpwardMeaning(first);
    PartedShape(ids, rules, n, first, second);
    DownExact(ids, rules, n, first, second);
    var m, blocks := PoppedTo(n, n.index, Ancestor(second)), Upward(first);
    var m', done := AppliedAll(rules, m, blocks), Applying(rules, m.db, blocks);
    var alive := m'.index + Holding(n.index, first, second);
    PopCountExact(alive, second[0], |m'.saved|, done, k);
    SessionsLeft(rules, m, blocks, k - done);
    RoomyExact(ids, rules, m, blocks, k - done);
    SmallerIndex(rules, m, blocks);
    HeldPath(n.index, m'.index, first, second);
    ReachAlong(alive, second, 0, k);
    if k >= |second| {
      AppliedAllSound(ids, rules, m, blocks);
      HeldFiling(ids, n.index, m'.index, first, second);
      forall id | ids.height(id) < second[|second| - 1].num ensures id in m'.index <==> id in alive {
        HeldAbove(ids, rules, n, m'.index, first, second, id);
      }
      ReachBelow(ids, m'.index, alive, second[|second| - 1].num, Ancestor(second), k - |second| + 1);
    }
  }
}
