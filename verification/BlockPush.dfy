/** Pushing a block: every way it can end, and when it leaves the objects as they were. */
module BlockPush {
  import opened Options
  import opened UndoState
  import opened ChainState
  import opened ForkTree
  import opened BlockReplay
  import opened ChainNode
  import opened ForkSwitch

  /** What a highest known block that does not extend the head leads to. */
  ghost function Consider(rules: Rules, n: Node): (r: (Node, Outcome))
    requires Fit(n)
    ensures Fit(r.0)
  {
    if n.head.num <= HeadNum(n.db) then (n, Returned(false))
    else if exists first, second :: Forked(n.index, n.head.id, HeadId(n.db), first, second) then
      var first, second :| Forked(n.index, n.head.id, HeadId(n.db), first, second);
      var r := Switch(rules, n, first, second);
      (r.0, if r.1 then Returned(true) else Threw)
    else (n, Threw)
  }

  /** The node once a block has been filed. */
  function WithBlock(n: Node, b: Block): Node {
    var r := Filed(n.index, n.head, n.forkMax, b);
    n.(index := r.0, head := r.1)
  }

  /** A block pushed: filed, then applied if the highest known block extends the head. */
  ghost function Push(rules: Rules, n: Node, b: Block): (r: (Node, Outcome))
    requires Fit(n)
    ensures Fit(r.0)
  {
    var m := WithBlock(n, b);
    if !Linkable(n.index, n.head, n.forkMax, b) then (n, Threw)
    else if m.head.previous != HeadId(n.db) then Consider(rules, m)
    else
      var r := Applied(rules, m, b);
      if Effect(rules, n.db, b).Some? then (r, Returned(false)) else (r.(index := r.index - {b.id}), Threw)
  }

  /** Pushing `b` makes the node try to switch from branch `second` to branch `first`. */
  ghost predicate Tries(n: Node, b: Block, first: seq<Block>, second: seq<Block>)
    requires Good(n.db)
  {
    var m := WithBlock(n, b);
    && Linkable(n.index, n.head, n.forkMax, b) && m.head.previous != HeadId(n.db) && m.head.num > HeadNum(n.db)
    && Forked(m.index, m.head.id, HeadId(n.db), first, second)
  }

  lemma WithBlockSound(ids: Ids, rules: Rules, n: Node, b: Block)
    requires Sound(ids, rules, n) && Named(ids, b)
    ensures Sound(ids, rules, WithBlock(n, b))
  {
    hide Recorded;
    FiledTree(ids, n.index, n.head, n.forkMax, b);
  }

  lemma PushTries(ids: Ids, rules: Rules, n: Node, b: Block, first: seq<Block>, second: seq<Block>)
    requires Sound(ids, rules, n) && Named(ids, b) && Tries(n, b, first, second)
    ensures Parted(ids, rules, WithBlock(n, b), first, second) && second != []
    ensures var r := Switch(rules, WithBlock(n, b), first, second);
      Push(rules, n, b) == (r.0, if r.1 then Returned(true) else Threw)
  {
    hide Recorded, Forked, Switch, Filed;
    var m := WithBlock(n, b);
    WithBlockSound(ids, rules, n, b);
    PartedShape(ids, rules, m, first, second);
    forall p, q | Forked(m.index, m.head.id, HeadId(n.db), p, q) ensures p == first && q == second {
      ForkUnique(m.index, m.head.id, HeadId(n.db), first, second, p, q);
    }
  }

  /** What becomes of a pushed block. It is refused, and nothing changes, if its predecessor is not known or
      if it is too far below the highest known block. Otherwise it is filed, and the block that is then the
      highest decides: if it builds on the head, the pushed block is applied there, and forgotten if it
      throws; if it is not higher than the head, nothing else happens; else a switch is due. */
  ghost predicate Handled(rules: Rules, n: Node, b: Block, r: Node, o: Outcome)
    requires Good(n.db)
  {
    var top := if b.num > n.head.num then b else n.head;
    if (b.previous != 0 && b.previous !in n.index) || b.num + n.forkMax <= n.head.num then o.Threw? && r == n
    else if top.previous == HeadId(n.db) then
      match Effect(rules, n.db, b)
      case None => o.Threw? && r.db == n.db && r.head == top && b.id !in r.index
      case Some(d) => o == Returned(false) && r.db == d && r.head == top && EndsWith(r.history, b)
    else if top.num <= HeadNum(n.db) then o == Returned(false) && WasFiled(n, b, r)
    else o == Returned(true) || (o.Threw? && (WasFiled(n, b, r) || exists first, second :: Tries(n, b, first, second)))
  }

  predicate EndsWith(blocks: seq<Block>, b: Block) {
    blocks != [] && blocks[|blocks| - 1] == b
  }

  /** The block has been filed, and nothing else has happened. */
  ghost predicate WasFiled(n: Node, b: Block, r: Node) {
    && r == n.(index := r.index, head := if b.num > n.head.num then b else n.head)
    && b.id in r.index && r.index[b.id] == b
    && (forall id :: id in r.index ==> id == b.id || (id in n.index && r.index[id] == n.index[id]))
    && forall id :: id in n.index ==> (id in r.index <==> b.num <= n.head.num || n.index[id].num + n.forkMax >= b.num)
  }

  lemma FiledNode(ids: Ids, rules: Rules, n: Node, b: Block)
    requires Sound(ids, rules, n) && Named(ids, b)
    ensures WasFiled(n, b, WithBlock(n, b))
  {
    hide Recorded, Filed;
    FiledTree(ids, n.index, n.head, n.forkMax, b);
  }

  lemma PushHandled(ids: Ids, rules: Rules, n: Node, b: Block)
    requires Sound(ids, rules, n) && Named(ids, b)
    ensures Handled(rules, n, b, Push(rules, n, b).0, Push(rules, n, b).1)
  {
    hide Recorded, Switch, Forked, Effect, Filed, Resized, WasFiled;
    FiledNode(ids, rules, n, b);
    var m := WithBlock(n, b);
    assert m.head == if b.num > n.head.num then b else n.head by { FiledTree(ids, n.index, n.head, n.forkMax, b); }
    AppliedKeeps(rules, m, b);
    if first, second :| Tries(n, b, first, second) {
      PushTries(ids, rules, n, b, first, second);
    } else if m.head.previous != HeadId(n.db) && m.head.num > HeadNum(n.db) {
      if Linkable(n.index, n.head, n.forkMax, b) {
        forall p, q ensures !Forked(m.index, m.head.id, HeadId(n.db), p, q) { assert !Tries(n, b, p, q); }
      }
    }
  }

  /** A push that tries no switch refuses the block, files it, or applies it to the head. */
  lemma PushNoFork(rules: Rules, n: Node, b: Block)
    requires Fit(n) && forall first, second :: !Tries(n, b, first, second)
    ensures var (r, o) := Push(rules, n, b);
      && o != Returned(true)
      && (o.Threw? ==> r.db == n.db)
      && (r.db == n.db || (Some(r.db) == Effect(rules, n.db, b) && b.previous == HeadId(n.db)))
  {
    hide Forked, Effect, Resized;
    AppliedKeeps(rules, WithBlock(n, b), b);
    if Effect(rules, n.db, b).Some? { EffectHead(rules, n.db, b); }
    var m := WithBlock(n, b);
    if Linkable(n.index, n.head, n.forkMax, b) && m.head.previous != HeadId(n.db) && m.head.num > HeadNum(n.db) {
      forall p, q ensures !Forked(m.index, m.head.id, HeadId(n.db), p, q) { assert !Tries(n, b, p, q); }
    }
  }

  lemma AllNamedUpward(ids: Ids, br: seq<Block>)
    requires forall i :: 0 <= i < |br| ==> Named(ids, br[i])
    ensures forall i :: 0 <= i < |Upward(br)| ==> Named(ids, Upward(br)[i])
  {
  }

  lemma SwitchedBackSound(ids: Ids, rules: Rules, n: Node, held: Index, second: seq<Block>)
    requires Sound(ids, rules, n) && Filing(ids, n.index + held) && second != []
    requires forall i :: 0 <= i < |second| ==> Named(ids, second[i])
    ensures Sound(ids, rules, SwitchedBack(rules, n, held, second))
  {
    hide Sound, PoppedTo, AppliedAll;
    assert Fit(n) by { SoundFit(ids, rules, n); }
    PoppedToSound(ids, rules, n, n.index + held, Ancestor(second));
    AllNamedUpward(ids, second);
    AppliedAllSound(ids, rules, PoppedTo(n, n.index + held, Ancestor(second)), Upward(second));
  }

  lemma FailedSound(ids: Ids, rules: Rules, n: Node, blocks: seq<Block>, from: nat, head: Block)
    requires Sound(ids, rules, n) && Named(ids, head)
    ensures Sound(ids, rules, n.(index := Forgotten(n.index, blocks, from), head := head))
  {
    hide Recorded;
  }

  lemma SwitchSound(ids: Ids, rules: Rules, n: Node, first: seq<Block>, second: seq<Block>)
    requires Parted(ids, rules, n, first, second) && second != []
    ensures Sound(ids, rules, Switch(rules, n, first, second).0)
  {
    hide Sound, PoppedTo, AppliedAll, Forgotten, Holding, SwitchedBack, Forked, Path, Filing;
    PartedShape(ids, rules, n, first, second);
    SoundFit(ids, rules, n);
    PoppedToSound(ids, rules, n, n.index, Ancestor(second));
    var m, blocks := PoppedTo(n, n.index, Ancestor(second)), Upward(first);
    AllNamedUpward(ids, first);
    AppliedAllSound(ids, rules, m, blocks);
    var m', done := AppliedAll(rules, m, blocks), Applying(rules, m.db, blocks);
    FailedSound(ids, rules, m', blocks, done, second[0]);
    var failed := m'.(index := Forgotten(m'.index, blocks, done), head := second[0]);
    SoundFit(ids, rules, failed);
    HeldFiling(ids, n.index, failed.index, first, second);
    SwitchedBackSound(ids, rules, failed, Holding(n.index, first, second), second);
  }

  /** Over every run of pushes the undo stack records the blocks applied. */
  lemma PushSound(ids: Ids, rules: Rules, n: Node, b: Block)
    requires Sound(ids, rules, n) && Named(ids, b)
    ensures Sound(ids, rules, Push(rules, n, b).0)
  {
    hide Recorded, Switch, Forked, Applied, Effect, Filed;
    var m := WithBlock(n, b);
    WithBlockSound(ids, rules, n, b);
    AppliedSound(ids, rules, m, b);
    if first, second :| Tries(n, b, first, second) {
      PushTries(ids, rules, n, b, first, second);
      SwitchSound(ids, rules, m, first, second);
    } else if Linkable(n.index, n.head, n.forkMax, b) && m.head.previous != HeadId(n.db) && m.head.num > HeadNum(n.db) {
      forall p, q ensures !Forked(m.index, m.head.id, HeadId(n.db), p, q) { assert !Tries(n, b, p, q); }
    }
  }

  /** The state after the branch `first` has been replayed from where it left the branch `second`. */
  ghost function OnFork(rules: Rules, n: Node, first: seq<Block>, second: seq<Block>): Option<Db>
    requires Fit(n)
  {
    if |second| > |n.saved| then None
    else
      FitBack(n, |second|);
      Replay(rules, StateBack(n.saved, n.db, |second|), Upward(first))
  }

  /** A fork is switched to exactly when it is tried, the undo stack reaches its ancestor and all its
      blocks apply; the state is then the replay of the fork. */
  lemma SwitchedExact(ids: Ids, rules: Rules, n: Node, b: Block)
    requires Sound(ids, rules, n) && Named(ids, b)
    ensures var (r, o) := Push(rules, n, b);
      && (o == Returned(true) <==>
        exists first, second :: Tries(n, b, first, second) && OnFork(rules, n, first, second).Some?)
      && (o == Returned(true) ==>
        exists first, second :: Tries(n, b, first, second) && OnFork(rules, n, first, second) == Some(r.db))
  {
    hide Recorded, Switch, Forked, Filed, Replay, StateBack, Tries, Push, TakenBack;
    var m := WithBlock(n, b);
    if first, second :| Tries(n, b, first, second) {
      PushTries(ids, rules, n, b, first, second);
      SwitchExact(ids, rules, m, first, second);
      forall p, q | Tries(n, b, p, q) ensures p == first && q == second { OneTry(n, b, first, second, p, q); }
    } else {
      PushNoFork(rules, n, b);
    }
  }

  lemma OneTry(n: Node, b: Block, first: seq<Block>, second: seq<Block>, p: seq<Block>, q: seq<Block>)
    requires Good(n.db) && Tries(n, b, first, second) && Tries(n, b, p, q)
    ensures p == first && q == second
  {
    hide Forked, Filed;
    var m := WithBlock(n, b);
    ForkUnique(m.index, m.head.id, HeadId(n.db), first, second, p, q);
  }

  /** Popping everything there is leaves a different head. */
  lemma BottomDiffers(ids: Ids, rules: Rules, n: Node, first: seq<Block>, second: seq<Block>)
    requires Parted(ids, rules, n, first, second) && 0 < |n.saved| < |second|
    ensures StateBack(n.saved, n.db, |n.saved|) != n.db
  {
    hide Recorded, Effect, Forked;
    PartedShape(ids, rules, n, first, second);
    RecordedLengths(rules, n.saved, n.db, n.history);
    var k := |n.saved|;
    StateAt(rules, n.saved, n.db, n.history, k);
    EffectHead(rules, StateBack(n.saved, n.db, k), n.history[0]);
    assert second[k - 1] == n.history[0];
    PathHeights(n.index, second, k - 1);
    assert HeadId(StateBack(n.saved, n.db, k)) == second[k].id;
    PathHeights(n.index, second, k);
  }

  /** How many blocks of the new branch applied. */
  ghost function Done(rules: Rules, n: Node, first: seq<Block>, second: seq<Block>): nat
    requires |second| <= |n.saved| && Good(StateBack(n.saved, n.db, |second|))
  {
    Applying(rules, StateBack(n.saved, n.db, |second|), Upward(first))
  }

  /** A failed switch does no harm: there was nothing to pop, or all that applied comes off, or all but the
      block after the ancestor does and that block is the old head. */
  ghost predicate Harmless(rules: Rules, n: Node, first: seq<Block>, second: seq<Block>)
    requires Fit(n)
  {
    && first != [] && second != []
    && if |second| > |n.saved| then n.saved == []
       else
         && Good(StateBack(n.saved, n.db, |second|))
         && var done := Done(rules, n, first, second);
         || ComesOff(rules, n, first, second, done)
         || (first[|first| - 1] == second[0] && done > 0 && ComesOff(rules, n, first, second, done - 1))
  }

  lemma FailedSwitchExact(ids: Ids, rules: Rules, n: Node, first: seq<Block>, second: seq<Block>)
    requires Parted(ids, rules, n, first, second) && second != [] && !Switch(rules, n, first, second).1
    ensures Switch(rules, n, first, second).0.db == n.db <==> Harmless(rules, n, first, second)
  {
    hide Recorded, Switch, Forked, Replay, StateBack, TakenBack, ComesOff, Applying, Upward, Effect;
    SwitchExact(ids, rules, n, first, second);
    BackNone(n);
    if |second| <= |n.saved| {
      var done := Done(rules, n, first, second);
      TakenBackExact(ids, rules, n, first, second, done);
      if done > 0 { TakenBackExact(ids, rules, n, first, second, done - 1); }
    } else if n.saved != [] {
      BottomDiffers(ids, rules, n, first, second);
    }
  }

  /** Pushing is all or nothing, except for a switch that fails and cannot be taken back. */
  lemma AllOrNothing(ids: Ids, rules: Rules, n: Node, b: Block)
    requires Sound(ids, rules, n) && Named(ids, b) && Push(rules, n, b).1.Threw?
    ensures Push(rules, n, b).0.db == n.db <==>
      forall first, second :: Tries(n, b, first, second) ==> Harmless(rules, WithBlock(n, b), first, second)
  {
    hide Recorded, Switch, Forked, Filed, Tries, Push, Harmless;
    if first, second :| Tries(n, b, first, second) {
      PushTries(ids, rules, n, b, first, second);
      FailedSwitchExact(ids, rules, WithBlock(n, b), first, second);
      forall p, q | Tries(n, b, p, q) ensures p == first && q == second { OneTry(n, b, first, second, p, q); }
    } else {
      PushNoFork(rules, n, b);
    }
  }

  lemma OnForkHead(rules: Rules, n: Node, index: Index, a: nat, first: seq<Block>, second: seq<Block>)
    requires Fit(n) && Forked(index, a, HeadId(n.db), first, second) && OnFork(rules, n, first, second).Some?
    ensures Good(OnFork(rules, n, first, second).value) && HeadId(OnFork(rules, n, first, second).value) == a
  {
    hide StateBack, Effect, Replay;
    FitBack(n, |second|);
    assert Upward(first)[..|first|] == Upward(first);
    ReplayHead(rules, StateBack(n.saved, n.db, |second|), Upward(first), |first|,
      OnFork(rules, n, first, second).value);
  }

  /** A pushed block that completes a longer fork all of whose blocks apply is switched to exactly when it
      is higher than the highest block known before, or is that block. */
  lemma SwitchMadeExact(ids: Ids, rules: Rules, n: Node, b: Block, first: seq<Block>, second: seq<Block>)
    requires Sound(ids, rules, n) && Named(ids, b) && Linkable(n.index, n.head, n.forkMax, b)
    requires b.num > HeadNum(n.db) && b.previous != HeadId(n.db)
    requires Forked(WithBlock(n, b).index, b.id, HeadId(n.db), first, second) && OnFork(rules, n, first, second).Some?
    ensures var (r, o) := Push(rules, n, b);
      o == Returned(true) && OnFork(rules, n, first, second) == Some(r.db) <==> b.num > n.head.num || b == n.head
  {
    hide Recorded, Switch, Forked, Replay, StateBack, Push, TakenBack;
    var (r, o) := Push(rules, n, b);
    if b.num > n.head.num || b == n.head {
      assert Tries(n, b, first, second);
      PushTries(ids, rules, n, b, first, second);
      SwitchExact(ids, rules, WithBlock(n, b), first, second);
    } else if o == Returned(true) {
      SwitchedExact(ids, rules, n, b);
      var p, q :| Tries(n, b, p, q) && OnFork(rules, n, p, q) == Some(r.db);
      OnForkHead(rules, n, WithBlock(n, b).index, b.id, first, second);
      OnForkHead(rules, n, WithBlock(n, b).index, n.head.id, p, q);
    }
  }

  /** A block that extended the head but threw is still the highest one known, though it is no longer
      filed. Then a block that completes a fork of the same height is applied to the head instead, throws
      and is forgotten. */
  lemma StaleHeadMisses(rules: Rules, n: Node, b: Block)
    requires Fit(n) && Linkable(n.index, n.head, n.forkMax, b)
    requires n.head.previous == HeadId(n.db) != b.previous && b.num <= n.head.num
    ensures var (r, o) := Push(rules, n, b);
      o.Threw? && r.db == n.db && b.id !in r.index && r.head == n.head
  {
    AppliedKeeps(rules, WithBlock(n, b), b);
  }

  /** A block that extends the head and throws leaves itself behind as the highest block, unfiled. */
  lemma StaleHeadArises(ids: Ids, rules: Rules, n: Node, b: Block)
    requires Sound(ids, rules, n) && Named(ids, b) && Linkable(n.index, n.head, n.forkMax, b)
    requires b.previous == HeadId(n.db) && b.num > n.head.num && Effect(rules, n.db, b).None?
    ensures var (r, o) := Push(rules, n, b);
      o.Threw? && r.db == n.db && r.head == b && b.id !in r.index && r.head.previous == HeadId(r.db)
  {
    AppliedKeeps(rules, WithBlock(n, b), b);
  }

  /** What a push promises of the objects: nothing changes, or the block is applied, or the fork is
      replayed; and if it throws, nothing changes unless a failed switch cannot be taken back. */
  lemma PushPromise(ids: Ids, rules: Rules, n: Node, b: Block)
    requires Sound(ids, rules, n) && Named(ids, b)
    ensures var (r, o) := Push(rules, n, b);
      && (o == Returned(false) ==> r.db == n.db || Some(r.db) == Effect(rules, n.db, b))
      && (o == Returned(true) ==>
        exists first, second :: Tries(n, b, first, second) && OnFork(rules, n, first, second) == Some(r.db))
      && (o.Threw? ==> (r.db == n.db <==>
            forall first, second :: Tries(n, b, first, second) ==> Harmless(rules, WithBlock(n, b), first, second)))
  {
    hide Recorded, Effect, Push, Tries, Harmless, OnFork, Filed, Switch;
    var (r, o) := Push(rules, n, b);
    if o.Threw? { AllOrNothing(ids, rules, n, b); }
    SwitchedExact(ids, rules, n, b);
    if o == Returned(false) {
      if first, second :| Tries(n, b, first, second) {
        PushTries(ids, rules, n, b, first, second);
      } else {
        PushNoFork(rules, n, b);
      }
    }
  }

  lemma PushRefused(rules: Rules, n: Node, b: Block)
    requires Fit(n) && !Linkable(n.index, n.head, n.forkMax, b)
    ensures Push(rules, n, b) == (n, Threw)
  {
  }

  /** Applying a block to the head files no other block. */
  lemma PushFiles(rules: Rules, n: Node, b: Block)
    requires Fit(n) && b.num > n.head.num && b.previous == HeadId(n.db)
    ensures forall id :: id in Push(rules, n, b).0.index ==> id in n.index || id == b.id
  {
    hide Effect, Midway;
  }

  /** A block that extends the head and throws costs the node a switch it would have made: the block that
      completes the longer fork is thrown away with the node's state as it was. */
  lemma StaleHeadCosts(ids: Ids, rules: Rules, n: Node, bad: Block, b: Block, first: seq<Block>, second: seq<Block>)
    requires Sound(ids, rules, n) && Named(ids, bad) && Named(ids, b)
    requires Linkable(n.index, n.head, n.forkMax, bad) && Linkable(n.index, n.head, n.forkMax, b)
    requires n.head.num <= HeadNum(n.db) && bad.previous == HeadId(n.db) && Effect(rules, n.db, bad).None?
    requires b.num == HeadNum(n.db) + 1 && b.previous != HeadId(n.db)
    requires Forked(WithBlock(n, b).index, b.id, HeadId(n.db), first, second) && OnFork(rules, n, first, second).Some?
    ensures Push(rules, n, b).1 == Returned(true) && OnFork(rules, n, first, second) == Some(Push(rules, n, b).0.db)
    ensures var n' := Push(rules, n, bad).0;
      var (r, o) := Push(rules, n', b);
      o.Threw? && r.db == n.db && (b.id !in n.index ==> b.id !in r.index)
  {
    hide Recorded, Forked, OnFork, Push, Filed, Effect;
    SwitchMadeExact(ids, rules, n, b, first, second);
    StaleHeadArises(ids, rules, n, bad);
    var n' := Push(rules, n, bad).0;
    if Linkable(n'.index, n'.head, n'.forkMax, b) {
      StaleHeadMisses(rules, n', b);
    } else {
      PushRefused(rules, n', b);
      PushFiles(rules, n, bad);
    }
  }
}
