/** Replaying blocks, and the states an undo stack leads back to. */
module BlockReplay {
  import opened Options
  import opened UndoState
  import opened UndoDatabase
  import opened ChainState
  import opened ForkTree

  /** Block `history[i]` led from `saved[i]` to the state after it. */
  ghost predicate Recorded(rules: Rules, saved: seq<Db>, db: Db, history: seq<Block>) {
    && |history| == |saved| && Good(db)
    && forall i :: 0 <= i < |saved| ==>
         Good(saved[i]) && Effect(rules, saved[i], history[i]) == Some(EndOf(saved, db, i))
  }

  /** How many of `n` sessions survive the size limit when the next one is opened. */
  function Kept(n: nat, limit: nat): (k: nat)
    ensures k <= n
  {
    if n > limit then limit else n
  }

  /** The state `k` blocks ago. */
  ghost function StateBack(saved: seq<Db>, db: Db, k: nat): Db
    requires k <= |saved|
  {
    if k == 0 then db else saved[|saved| - k]
  }

  /** A branch with its lowest block first. */
  function Upward(br: seq<Block>): seq<Block> {
    seq(|br|, i requires 0 <= i < |br| => br[|br| - 1 - i])
  }

  lemma UpwardMeaning(br: seq<Block>)
    ensures |Upward(br)| == |br| && forall i :: 0 <= i < |br| ==> Upward(br)[i] == br[|br| - 1 - i]
  {
  }

  lemma RecordedButLast(rules: Rules, saved: seq<Db>, db: Db, history: seq<Block>)
    requires Recorded(rules, saved, db, history) && saved != []
    ensures var n := |saved| - 1;
      Good(saved[n]) && Recorded(rules, saved[..n], saved[n], history[..n])
  {
    hide Effect, Good;
    var n := |saved| - 1;
    forall i | 0 <= i < n ensures EndOf(saved[..n], saved[n], i) == EndOf(saved, db, i) {
    }
  }

  lemma RecordedSuffix(rules: Rules, saved: seq<Db>, db: Db, history: seq<Block>, k: nat)
    requires Recorded(rules, saved, db, history) && k <= |saved|
    ensures Recorded(rules, saved[k..], db, history[k..])
  {
    hide Effect;
    forall i | 0 <= i < |saved| - k
      ensures Effect(rules, saved[k..][i], history[k..][i]) == Some(EndOf(saved[k..], db, i)) {
      assert EndOf(saved[k..], db, i) == EndOf(saved, db, i + k);
    }
  }

  lemma RecordedSnoc(rules: Rules, saved: seq<Db>, db: Db, history: seq<Block>, b: Block)
    requires Recorded(rules, saved, db, history) && Effect(rules, db, b).Some?
    ensures Recorded(rules, saved + [db], Effect(rules, db, b).value, history + [b])
  {
    EffectHead(rules, db, b);
    var db' := Effect(rules, db, b).value;
    forall i | 0 <= i < |saved| ensures EndOf(saved + [db], db', i) == EndOf(saved, db, i) {
    }
  }

  lemma StateAt(rules: Rules, saved: seq<Db>, db: Db, history: seq<Block>, k: nat)
    requires Recorded(rules, saved, db, history) && k <= |saved|
    ensures Good(StateBack(saved, db, k))
    ensures k > 0 ==> Effect(rules, StateBack(saved, db, k), history[|saved| - k]) == Some(StateBack(saved, db, k - 1))
  {
    if k > 0 { assert EndOf(saved, db, |saved| - k) == StateBack(saved, db, k - 1); }
  }

  lemma ReplayNone(rules: Rules, db: Db, blocks: seq<Block>)
    requires Good(db)
    ensures Replay(rules, db, blocks[..0]) == Some(db)
  {
  }

  lemma ReplayHead(rules: Rules, base: Db, blocks: seq<Block>, j: nat, d: Db)
    requires Good(base) && Good(d) && j <= |blocks| && Replay(rules, base, blocks[..j]) == Some(d)
    ensures HeadId(d) == if j == 0 then HeadId(base) else blocks[j - 1].id
  {
    if j == 0 {
      ReplayNone(rules, base, blocks);
    } else {
      assert blocks[..j] == blocks[..j - 1] + [blocks[j - 1]];
      ReplaySnoc(rules, base, blocks[..j - 1], blocks[j - 1]);
      EffectHead(rules, Replay(rules, base, blocks[..j - 1]).value, blocks[j - 1]);
    }
  }

  lemma ReplayFirst(rules: Rules, db: Db, blocks: seq<Block>, j: nat)
    requires Good(db) && 0 < j <= |blocks| && Effect(rules, db, blocks[0]).Some?
    ensures var d := Effect(rules, db, blocks[0]).value;
      Good(d) && Replay(rules, db, blocks[..j]) == Replay(rules, d, blocks[1..][..j - 1])
  {
    hide Effect;
    EffectHead(rules, db, blocks[0]);
    assert blocks[..j][1..] == blocks[1..][..j - 1];
  }

  /** How many of the blocks apply, one after the other, before the first that throws. */
  ghost function Applying(rules: Rules, db: Db, blocks: seq<Block>): nat
    requires Good(db)
    ensures Applying(rules, db, blocks) <= |blocks|
    decreases |blocks|
  {
    if blocks == [] then 0
    else
      match Effect(rules, db, blocks[0])
      case None => 0
      case Some(db') =>
        EffectHead(rules, db, blocks[0]);
        1 + Applying(rules, db', blocks[1..])
  }

  /** All of the blocks that come before the first that throws can be replayed, and no more. */
  lemma {:induction false} ApplyingExact(rules: Rules, db: Db, blocks: seq<Block>)
    requires Good(db)
    ensures var done := Applying(rules, db, blocks);
      && Replay(rules, db, blocks[..done]).Some? && (done == |blocks| <==> Replay(rules, db, blocks).Some?)
      && (done < |blocks| ==> Effect(rules, Replay(rules, db, blocks[..done]).value, blocks[done]).None?)
    decreases |blocks|
  {
    hide Effect, Replay;
    var done := Applying(rules, db, blocks);
    ReplayNone(rules, db, blocks);
    assert blocks[..|blocks|] == blocks;
    if blocks == [] {
    } else if Effect(rules, db, blocks[0]).None? {
      ReplayThrows(rules, db, blocks);
    } else {
      ReplayFirst(rules, db, blocks, done);
      ReplayFirst(rules, db, blocks, |blocks|);
      assert blocks[1..][..|blocks| - 1] == blocks[1..];
      ApplyingExact(rules, Effect(rules, db, blocks[0]).value, blocks[1..]);
    }
  }

  lemma ReplayThrows(rules: Rules, db: Db, blocks: seq<Block>)
    requires Good(db) && blocks != [] && Effect(rules, db, blocks[0]).None?
    ensures Replay(rules, db, blocks).None?
  {
    hide Effect;
  }

  lemma {:induction false} ApplyingIs(rules: Rules, db: Db, blocks: seq<Block>, k: nat, d: Db)
    requires Good(db) && Good(d) && k < |blocks| && Replay(rules, db, blocks[..k]) == Some(d)
    requires Effect(rules, d, blocks[k]).None?
    ensures Applying(rules, db, blocks) == k
    decreases k
  {
    hide Effect, Replay;
    if k == 0 {
      ReplayNone(rules, db, blocks);
    } else {
      if Effect(rules, db, blocks[0]).None? { ReplayThrows(rules, db, blocks[..k]); }
      ReplayFirst(rules, db, blocks, k);
      ApplyingIs(rules, Effect(rules, db, blocks[0]).value, blocks[1..], k - 1, d);
    }
  }

  /** The branch, highest block first, is the end of the chain applied so far, as far back as that goes. */
  ghost predicate OnHistory(history: seq<Block>, br: seq<Block>) {
    forall j :: 0 <= j < |br| && j < |history| ==> br[j] == history[|history| - 1 - j]
  }

  lemma RecordedLengths(rules: Rules, saved: seq<Db>, db: Db, history: seq<Block>)
    requires Recorded(rules, saved, db, history)
    ensures |history| == |saved| && Good(db) && forall i :: 0 <= i < |saved| ==> Good(saved[i])
  {
  }

  /** The branch leading back from the head is the end of the chain applied so far. */
  lemma BranchOnHistory(ids: Ids, rules: Rules, saved: seq<Db>, db: Db, history: seq<Block>, index: Index,
                        br: seq<Block>)
    requires Recorded(rules, saved, db, history) && Filing(ids, index) && Path(index, br)
    requires forall i :: 0 <= i < |history| ==> Named(ids, history[i])
    requires br != [] && br[0].id == HeadId(db)
    ensures OnHistory(history, br)
  {
    hide Recorded, Effect;
    RecordedLengths(rules, saved, db, history);
    forall j | 0 <= j < |br| && j < |history| ensures br[j] == history[|history| - 1 - j] {
      BlockOnHistory(ids, rules, saved, db, history, index, br, j);
    }
  }

  lemma {:induction false} BlockOnHistory(ids: Ids, rules: Rules, saved: seq<Db>, db: Db, history: seq<Block>,
                                          index: Index, br: seq<Block>, j: nat)
    requires Recorded(rules, saved, db, history) && Filing(ids, index) && Path(index, br)
    requires forall i :: 0 <= i < |history| ==> Named(ids, history[i])
    requires j < |br| && j < |saved| == |history| && br[0].id == HeadId(db)
    ensures br[j] == history[|history| - 1 - j]
  {
    hide Recorded, Effect;
    StateAt(rules, saved, db, history, j + 1);
    EffectHead(rules, StateBack(saved, db, j + 1), history[|saved| - (j + 1)]);
    if j == 0 {
      assert Named(ids, index[br[0].id]);
    } else {
      BlockOnHistory(ids, rules, saved, db, history, index, br, j - 1);
      StateAt(rules, saved, db, history, j);
      EffectHead(rules, StateBack(saved, db, j), history[|saved| - j]);
      assert br[j - 1].previous == br[j].id;
    }
  }

  /** No block of a path has the id of the block below its end. */
  lemma PathNotBelow(index: Index, br: seq<Block>, i: nat)
    requires Tree(index) && Path(index, br) && i < |br|
    ensures br[i].id != br[|br| - 1].previous
  {
    PathHeights(index, br, i);
    PathHeights(index, br, |br| - 1);
  }

  /** The heads met on the way back along the branch: its own blocks, then the one it forked from. */
  lemma HeadsBack(rules: Rules, saved: seq<Db>, db: Db, history: seq<Block>, index: Index, br: seq<Block>)
    requires Recorded(rules, saved, db, history) && Tree(index) && Path(index, br) && br != []
    requires OnHistory(history, br) && HeadId(db) == br[0].id
    ensures forall k :: 0 <= k <= |saved| ==> Good(StateBack(saved, db, k))
    ensures |br| <= |saved| ==> HeadId(StateBack(saved, db, |br|)) == br[|br| - 1].previous
    ensures forall j :: 0 <= j < |br| && j <= |saved| ==> HeadId(StateBack(saved, db, j)) != br[|br| - 1].previous
  {
    hide Recorded, Effect;
    RecordedLengths(rules, saved, db, history);
    forall k | 0 <= k <= |br| && k <= |saved|
      ensures HeadId(StateBack(saved, db, k)) == if k == 0 then br[0].id else br[k - 1].previous
    {
      StateAt(rules, saved, db, history, k);
      if k > 0 {
        assert br[k - 1] == history[|history| - k];
        EffectHead(rules, StateBack(saved, db, k), br[k - 1]);
      }
    }
    forall j | 0 <= j < |br| && j <= |saved| ensures HeadId(StateBack(saved, db, j)) != br[|br| - 1].previous {
      PathNotBelow(index, br, j);
    }
  }

  /** Replaying the branch just left leads back to the state before it was left. */
  lemma {:induction false} OldBranchReplays(rules: Rules, saved: seq<Db>, db: Db, history: seq<Block>, br: seq<Block>)
    requires Recorded(rules, saved, db, history) && OnHistory(history, br) && |br| <= |saved| == |history|
    ensures Good(StateBack(saved, db, |br|)) && Replay(rules, StateBack(saved, db, |br|), Upward(br)) == Some(db)
    decreases |br|
  {
    hide Effect, Recorded, Good;
    var n := |br|;
    StateAt(rules, saved, db, history, n);
    if n == 0 {
      assert Upward(br) == [];
    } else {
      OldBranchReplays(rules, saved, db, history, br[..n - 1]);
      assert Upward(br)[0] == br[n - 1] == history[|saved| - n];
      assert Upward(br)[1..] == Upward(br[..n - 1]);
    }
  }
}
