/** What pushing a block does to a node: its objects, its undo stack and the blocks it knows. */
module ChainNode {
  import opened Options
  import opened UndoState
  import opened ChainState
  import opened ForkTree
  import opened BlockReplay

  /** The objects, the states the undo stack leads back to and the blocks that led on from them, how
      long the stack may get, the known blocks, the highest of them and how far below it they go. */
  datatype Node = Node(saved: seq<Db>, db: Db, history: seq<Block>, limit: nat, index: Index, head: Block, forkMax: nat)

  /** How pushing a block ends: with an exception, or telling whether the fork was switched. */
  datatype Outcome = Threw | Returned(switched: bool)

  ghost predicate Fit(n: Node) {
    Good(n.db) && |n.history| == |n.saved| && forall i :: 0 <= i < |n.saved| ==> Good(n.saved[i])
  }

  /** The height of the head is the one in its id, and no block above it is irreversible. */
  ghost predicate Numbered(ids: Ids, db: Db)
    requires Good(db)
  {
    HeadNum(db) == ids.height(HeadId(db)) && LastIrreversible(db) <= HeadNum(db)
  }

  /** The undo stack records the blocks applied, and every block around is the one its id stands for. */
  ghost predicate Sound(ids: Ids, rules: Rules, n: Node) {
    && Fit(n) && Recorded(rules, n.saved, n.db, n.history) && Numbered(ids, n.db)
    && (forall i :: 0 <= i < |n.saved| ==> Numbered(ids, n.saved[i]) && Named(ids, n.history[i]))
    && Filing(ids, n.index) && Named(ids, n.head)
  }

  lemma SoundFit(ids: Ids, rules: Rules, n: Node)
    requires Sound(ids, rules, n)
    ensures Fit(n) && Filing(ids, n.index)
  {
  }

  // Applying blocks

  /** Once the transactions of a block are through, the undo stack and the fork database are resized. */
  ghost function Resized(rules: Rules, n: Node, b: Block): (r: Node)
    requires Good(n.db)
  {
    match Midway(rules, n.db, b)
    case None => n
    case Some(mid) =>
      MidwayHead(rules, n.db, b);
      var limit := UndoLimit(mid);
      n.(limit := limit, forkMax := limit, index := Pruned(n.index, n.head.num, limit))
  }

  lemma ResizedParts(rules: Rules, n: Node, n': Node, b: Block)
    requires Good(n.db) && n' == n.(saved := n'.saved, history := n'.history)
    ensures var r, r' := Resized(rules, n, b), Resized(rules, n', b);
      && r == n.(limit := r.limit, index := r.index, forkMax := r.forkMax)
      && r.limit == r'.limit && r.index == r'.index && r.forkMax == r'.forkMax
  {
    hide Midway;
  }

  /** A block applied in a session of its own; a block that throws leaves the objects as they were. */
  ghost function Applied(rules: Rules, n: Node, b: Block): (r: Node)
    requires Fit(n)
    ensures Fit(r)
  {
    var k := |n.saved| - Kept(|n.saved|, n.limit);
    var m := Resized(rules, n, b).(saved := n.saved[k..], history := n.history[k..]);
    match Effect(rules, n.db, b)
    case None => m
    case Some(d) =>
      EffectHead(rules, n.db, b);
      m.(saved := m.saved + [n.db], history := m.history + [b], db := d)
  }

  lemma AppliedIs(rules: Rules, n: Node, b: Block, r: Node)
    requires Fit(n) && r.head == n.head
    requires var m := Resized(rules, n, b); r.limit == m.limit && r.index == m.index && r.forkMax == m.forkMax
    requires var k := |n.saved| - Kept(|n.saved|, n.limit);
      match Effect(rules, n.db, b)
      case None => r.db == n.db && r.saved == n.saved[k..] && r.history == n.history[k..]
      case Some(d) => r.db == d && r.saved == n.saved[k..] + [n.db] && r.history == n.history[k..] + [b]
    ensures r == Applied(rules, n, b)
  {
    hide Effect;
  }

  /** Blocks applied one after the other, up to the first that throws. */
  ghost function AppliedAll(rules: Rules, n: Node, blocks: seq<Block>): (r: Node)
    requires Fit(n)
    ensures Fit(r)
    decreases |blocks|
  {
    if blocks == [] then n
    else if Effect(rules, n.db, blocks[0]).None? then Applied(rules, n, blocks[0])
    else AppliedAll(rules, Applied(rules, n, blocks[0]), blocks[1..])
  }

  lemma AppliedBack(rules: Rules, n: Node, b: Block, k: nat)
    requires Fit(n) && Effect(rules, n.db, b).Some? && 0 < k <= |Applied(rules, n, b).saved|
    ensures var m := Applied(rules, n, b);
      m.db == Effect(rules, n.db, b).value && k - 1 <= |n.saved|
        && StateBack(m.saved, m.db, k) == StateBack(n.saved, n.db, k - 1)
  {
    hide Effect, Resized;
  }

  /** The undo stack leads back over the run just applied, and from there on as before. */
  ghost predicate LeadsBack(rules: Rules, n: Node, blocks: seq<Block>, m: Node, done: nat, k: nat)
    requires Good(n.db) && done <= |blocks| && k <= |m.saved|
  {
    if k <= done then Replay(rules, n.db, blocks[..done - k]) == Some(StateBack(m.saved, m.db, k))
    else k - done <= |n.saved| && StateBack(m.saved, m.db, k) == StateBack(n.saved, n.db, k - done)
  }

  lemma LeadsBackStep(rules: Rules, n: Node, blocks: seq<Block>, m: Node, done: nat, k: nat)
    requires Fit(n) && 0 < done <= |blocks| && k <= |m.saved| && Effect(rules, n.db, blocks[0]).Some?
    requires LeadsBack(rules, Applied(rules, n, blocks[0]), blocks[1..], m, done - 1, k)
    ensures LeadsBack(rules, n, blocks, m, done, k)
  {
    hide Effect, Replay, Resized;
    ReplayNone(rules, n.db, blocks);
    ReplayNone(rules, Applied(rules, n, blocks[0]).db, blocks[1..]);
    if k < done { ReplayFirst(rules, n.db, blocks, done - k); }
    if k >= done { AppliedBack(rules, n, blocks[0], k - (done - 1)); }
  }

  /** What the undo stack leads back to after a run: the states the run went through, then those before. */
  lemma {:induction false} AppliedAllBack(rules: Rules, n: Node, blocks: seq<Block>, k: nat)
    requires Fit(n) && k <= |AppliedAll(rules, n, blocks).saved|
    ensures var m := AppliedAll(rules, n, blocks);
      m.head == n.head && LeadsBack(rules, n, blocks, m, Applying(rules, n.db, blocks), k)
    decreases |blocks|
  {
    hide Effect, Replay, Resized, LeadsBack, Applied;
    if blocks == [] {
      LeadsBackSame(rules, n, blocks, n, k);
    } else if Effect(rules, n.db, blocks[0]).None? {
      AppliedKeeps(rules, n, blocks[0]);
      LeadsBackSame(rules, n, blocks, Applied(rules, n, blocks[0]), k);
    } else {
      AppliedKeeps(rules, n, blocks[0]);
      var n' := Applied(rules, n, blocks[0]);
      AppliedAllBack(rules, n', blocks[1..], k);
      LeadsBackStep(rules, n, blocks, AppliedAll(rules, n', blocks[1..]), Applying(rules, n.db, blocks), k);
    }
  }

  lemma AppliedKeeps(rules: Rules, n: Node, b: Block)
    requires Fit(n)
    ensures var m := Applied(rules, n, b);
      && m.head == n.head
      && (match Effect(rules, n.db, b)
          case None => m.db == n.db && |m.saved| <= |n.saved| && m.saved == n.saved[|n.saved| - |m.saved|..]
          case Some(d) => m.db == d)
  {
    hide Effect, Resized, WellNumbered;
    ResizedParts(rules, n, n, b);
  }

  lemma LeadsBackSame(rules: Rules, n: Node, blocks: seq<Block>, m: Node, k: nat)
    requires Fit(n) && m.db == n.db && k <= |m.saved| <= |n.saved| && m.saved == n.saved[|n.saved| - |m.saved|..]
    ensures LeadsBack(rules, n, blocks, m, 0, k)
  {
    ReplayNone(rules, n.db, blocks);
  }

  lemma AppliedSound(ids: Ids, rules: Rules, n: Node, b: Block)
    requires Sound(ids, rules, n) && Named(ids, b)
    ensures Sound(ids, rules, Applied(rules, n, b))
  {
    hide Effect, Midway, Recorded, WellNumbered;
    var k := |n.saved| - Kept(|n.saved|, n.limit);
    RecordedSuffix(rules, n.saved, n.db, n.history, k);
    if Effect(rules, n.db, b).Some? {
      EffectHead(rules, n.db, b);
      RecordedSnoc(rules, n.saved[k..], n.db, n.history[k..], b);
    }
  }

  lemma {:induction false} AppliedAllSound(ids: Ids, rules: Rules, n: Node, blocks: seq<Block>)
    requires Sound(ids, rules, n) && forall i :: 0 <= i < |blocks| ==> Named(ids, blocks[i])
    ensures Sound(ids, rules, AppliedAll(rules, n, blocks))
    decreases |blocks|
  {
    hide Effect, Applied, Recorded;
    if blocks == [] {
    } else {
      AppliedSound(ids, rules, n, blocks[0]);
      if Effect(rules, n.db, blocks[0]).Some? {
        AppliedAllSound(ids, rules, Applied(rules, n, blocks[0]), blocks[1..]);
      }
    }
  }

  /** A run only takes blocks off the bottom of the fork database. */
  lemma {:induction false} AppliedAllIndex(rules: Rules, n: Node, blocks: seq<Block>) returns (low: nat)
    requires Fit(n)
    ensures AppliedAll(rules, n, blocks).index == map id | id in n.index && n.index[id].num >= low :: n.index[id]
    decreases |blocks|
  {
    hide Effect, Midway;
    if blocks == [] {
      low := 0;
    } else {
      var m := Applied(rules, n, blocks[0]);
      var first := match Midway(rules, n.db, blocks[0])
        case None => 0
        case Some(mid) => (if n.head.num > m.limit then n.head.num - m.limit else 0);
      assert m.index == map id | id in n.index && n.index[id].num >= first :: n.index[id];
      low := first;
      if Effect(rules, n.db, blocks[0]).Some? {
        var rest := AppliedAllIndex(rules, m, blocks[1..]);
        low := if first < rest then rest else first;
      }
    }
  }

  // Taking blocks off

  predicate CanPop(n: Node, alive: Index) {
    n.head.previous in alive && n.saved != []
  }

  /** The head block taken off; `alive` are the blocks still in memory. The fork database goes first. */
  ghost function Popped(n: Node, alive: Index): (r: Node)
    requires Fit(n)
    ensures Fit(r)
  {
    var k := |n.saved| - 1;
    if n.head.previous !in alive then n
    else if n.saved == [] then n.(head := alive[n.head.previous])
    else n.(head := alive[n.head.previous], db := n.saved[k], saved := n.saved[..k], history := n.history[..k])
  }

  /** Blocks taken off until `target` is the head, or until that fails. */
  ghost function PoppedTo(n: Node, alive: Index, target: nat): (r: Node)
    requires Fit(n)
    ensures Fit(r)
    decreases |n.saved|
  {
    if HeadId(n.db) == target then n
    else if CanPop(n, alive) then PoppedTo(Popped(n, alive), alive, target)
    else Popped(n, alive)
  }

  /** How many of `k` blocks come off before the fork database or the undo stack gives out. */
  function PopCount(alive: Index, head: Block, sessions: nat, k: nat): (p: nat)
    ensures p <= k && p <= sessions
    decreases k
  {
    if k == 0 || sessions == 0 || head.previous !in alive then 0
    else 1 + PopCount(alive, alive[head.previous], sessions - 1, k - 1)
  }

  lemma BackNone(n: Node)
    ensures StateBack(n.saved, n.db, 0) == n.db && n.saved[..|n.saved| - 0] == n.saved
  {
  }

  lemma PoppedBack(n: Node, alive: Index, j: nat)
    requires Fit(n) && CanPop(n, alive) && j < |n.saved|
    ensures var m := Popped(n, alive);
      && m.head == alive[n.head.previous] && |m.saved| == |n.saved| - 1
      && m.index == n.index && m.limit == n.limit && m.forkMax == n.forkMax
      && m.saved[..|m.saved| - j] == n.saved[..|n.saved| - (j + 1)]
      && StateBack(m.saved, m.db, j) == StateBack(n.saved, n.db, j + 1)
  {
  }

  lemma PoppedStuck(n: Node, alive: Index)
    requires Fit(n) && !CanPop(n, alive)
    ensures var m := Popped(n, alive);
      m.db == n.db && m.saved == n.saved && m.index == n.index && m.limit == n.limit && m.forkMax == n.forkMax
  {
  }

  /** Popping goes back `k` states, to where `target` is the head, or stops where it fails. */
  lemma {:induction false} PoppedToBack(n: Node, alive: Index, target: nat, k: nat)
    requires Fit(n) && (k <= |n.saved| ==> HeadId(StateBack(n.saved, n.db, k)) == target)
    requires forall j :: 0 <= j < k && j <= |n.saved| ==> HeadId(StateBack(n.saved, n.db, j)) != target
    ensures var r, p := PoppedTo(n, alive, target), PopCount(alive, n.head, |n.saved|, k);
      && r.db == StateBack(n.saved, n.db, p) && r.saved == n.saved[..|n.saved| - p]
      && r.index == n.index && r.limit == n.limit && r.forkMax == n.forkMax
      && (HeadId(r.db) == target <==> p == k)
    decreases k
  {
    hide StateBack, Popped, WellNumbered;
    BackNone(n);
    if HeadId(n.db) == target {
    } else if CanPop(n, alive) {
      var m := Popped(n, alive);
      PoppedBack(n, alive, 0);
      forall j | 0 <= j < |n.saved| ensures StateBack(m.saved, m.db, j) == StateBack(n.saved, n.db, j + 1) {
        PoppedBack(n, alive, j);
      }
      PoppedToBack(m, alive, target, k - 1);
      PoppedBack(n, alive, PopCount(alive, m.head, |m.saved|, k - 1));
    } else {
      PoppedStuck(n, alive);
    }
  }

  lemma PoppedSound(ids: Ids, rules: Rules, n: Node, alive: Index)
    requires Sound(ids, rules, n) && Filing(ids, alive)
    ensures Sound(ids, rules, Popped(n, alive))
  {
    hide Recorded, Effect;
    if CanPop(n, alive) { RecordedButLast(rules, n.saved, n.db, n.history); }
  }

  lemma {:induction false} PoppedToSound(ids: Ids, rules: Rules, n: Node, alive: Index, target: nat)
    requires Sound(ids, rules, n) && Filing(ids, alive)
    ensures Sound(ids, rules, PoppedTo(n, alive, target))
    decreases |n.saved|
  {
    hide Recorded, Popped;
    PoppedSound(ids, rules, n, alive);
    PoppedFewer(n, alive);
    if HeadId(n.db) != target && CanPop(n, alive) {
      PoppedToSound(ids, rules, Popped(n, alive), alive, target);
    }
  }

  lemma {:induction false} PoppedToIndex(n: Node, alive: Index, target: nat)
    requires Fit(n)
    ensures PoppedTo(n, alive, target).index == n.index
    decreases |n.saved|
  {
    PoppedFewer(n, alive);
    if HeadId(n.db) != target && CanPop(n, alive) {
      PoppedToIndex(Popped(n, alive), alive, target);
    }
  }

  lemma PoppedFewer(n: Node, alive: Index)
    requires Fit(n)
    ensures CanPop(n, alive) ==> |Popped(n, alive).saved| < |n.saved|
  {
  }

  // How far back a failed switch can be taken

  /** The `k` blocks from `id` down are known. */
  predicate Reach(index: Index, id: nat, k: nat)
    decreases k
  {
    k == 0 || (id in index && Reach(index, index[id].previous, k - 1))
  }

  lemma {:induction false} PopCountExact(alive: Index, head: Block, sessions: nat, k: nat, j: nat)
    requires j <= k
    ensures PopCount(alive, head, sessions, k) >= j <==> j <= sessions && Reach(alive, head.previous, j)
    decreases k
  {
    if j == 0 {
    } else if sessions > 0 && head.previous in alive {
      PopCountExact(alive, alive[head.previous], sessions - 1, k - 1, j - 1);
    }
  }

  lemma {:induction false} PopCountAlong(alive: Index, path: seq<Block>, i: nat, sessions: nat, k: nat)
    requires Path(alive, path) && i + k < |path|
    ensures PopCount(alive, path[i], sessions, k) == if k <= sessions then k else sessions
    decreases k
  {
    if k == 0 || sessions == 0 {
    } else {
      assert path[i + 1].id in alive && alive[path[i].previous] == path[i + 1];
      PopCountAlong(alive, path, i + 1, sessions - 1, k - 1);
    }
  }

  lemma {:induction false} ReachAlong(alive: Index, path: seq<Block>, i: nat, k: nat)
    requires Path(alive, path) && i < |path|
    ensures Reach(alive, path[i].previous, k) <==>
      i + k < |path| || Reach(alive, path[|path| - 1].previous, i + k - (|path| - 1))
    decreases |path| - i
  {
    if k > 0 && i + 1 < |path| {
      assert path[i + 1].id in alive && alive[path[i].previous] == path[i + 1];
      ReachAlong(alive, path, i + 1, k - 1);
    }
  }

  /** Blocks that are only held, and not known, are of no use below them. */
  lemma {:induction false} ReachBelow(ids: Ids, index: Index, alive: Index, low: nat, id: nat, k: nat)
    requires Filing(ids, index) && Filing(ids, alive) && ids.height(id) < low
    requires forall i :: ids.height(i) < low ==> (i in index <==> i in alive)
    ensures Reach(alive, id, k) <==> Reach(index, id, k)
    decreases k
  {
    if k > 0 && id in index {
      assert Named(ids, index[id]) && Named(ids, alive[id]);
      ReachBelow(ids, index, alive, low, index[id].previous, k - 1);
    }
  }

  /** Whenever a session is opened during the run, the undo stack may hold those of the run so far, and
      `c` more; or, if `c` is below zero, all but the first of them. */
  ghost predicate Roomy(rules: Rules, n: Node, blocks: seq<Block>, c: int)
    requires Fit(n)
    decreases |blocks|
  {
    blocks == [] ||
    (n.limit >= c
      && (Effect(rules, n.db, blocks[0]).None? || Roomy(rules, Applied(rules, n, blocks[0]), blocks[1..], c + 1)))
  }

  lemma AppliedSessions(rules: Rules, n: Node, b: Block)
    requires Fit(n)
    ensures |Applied(rules, n, b).saved| == Kept(|n.saved|, n.limit) + if Effect(rules, n.db, b).Some? then 1 else 0
  {
    hide Effect, Resized;
  }

  lemma {:induction false} SessionsLeft(rules: Rules, n: Node, blocks: seq<Block>, c: int)
    requires Fit(n)
    ensures |AppliedAll(rules, n, blocks).saved| >= c + Applying(rules, n.db, blocks) <==>
      c <= |n.saved| && Roomy(rules, n, blocks, c)
    decreases |blocks|
  {
    hide Effect, Applied;
    if blocks == [] {
    } else {
      AppliedSessions(rules, n, blocks[0]);
      AppliedKeeps(rules, n, blocks[0]);
      if Effect(rules, n.db, blocks[0]).Some? {
        SessionsLeft(rules, Applied(rules, n, blocks[0]), blocks[1..], c + 1);
      }
    }
  }

  /** The last irreversible block when the transactions of block `i` of a run are through. */
  ghost function IrreversibleAt(rules: Rules, db: Db, blocks: seq<Block>, i: nat): nat
    requires Good(db) && i < |blocks| && Replay(rules, db, blocks[..i]).Some?
  {
    match Midway(rules, Replay(rules, db, blocks[..i]).value, blocks[i])
    case None => 0
    case Some(mid) =>
      MidwayHead(rules, Replay(rules, db, blocks[..i]).value, blocks[i]);
      LastIrreversible(mid)
  }

  lemma LimitAfter(ids: Ids, rules: Rules, n: Node, b: Block, c: int)
    requires Fit(n) && Numbered(ids, n.db) && Named(ids, b) && Effect(rules, n.db, b).Some?
    ensures Replay(rules, n.db, [b][..0]) == Some(n.db)
    ensures var m := Applied(rules, n, b);
      && Numbered(ids, m.db) && HeadNum(m.db) == HeadNum(n.db) + 1
      && (m.limit >= c + 1 <==> IrreversibleAt(rules, n.db, [b], 0) + c <= HeadNum(n.db) + 1)
  {
    ReplayNone(rules, n.db, [b]);
    MidwayHead(rules, n.db, b);
    EffectHead(rules, n.db, b);
  }

  /** While the blocks of a run that apply are applied, no block above height `bound` is irreversible. */
  ghost predicate HeldBack(rules: Rules, db: Db, blocks: seq<Block>, bound: int)
    requires Good(db)
  {
    forall i :: 0 <= i < Applying(rules, db, blocks) ==>
      Replay(rules, db, blocks[..i]).Some? && IrreversibleAt(rules, db, blocks, i) <= bound
  }

  lemma IrreversibleShift(rules: Rules, db: Db, blocks: seq<Block>, i: nat)
    requires Good(db) && i + 1 < |blocks| && Effect(rules, db, blocks[0]).Some?
    requires Good(Effect(rules, db, blocks[0]).value)
    ensures var d := Effect(rules, db, blocks[0]).value;
      && Replay(rules, db, blocks[..i + 1]) == Replay(rules, d, blocks[1..][..i])
      && (Replay(rules, db, blocks[..i + 1]).Some? ==>
            IrreversibleAt(rules, db, blocks, i + 1) == IrreversibleAt(rules, d, blocks[1..], i))
  {
    hide Effect, Replay, Midway, WellNumbered;
    ReplayFirst(rules, db, blocks, i + 1);
    assert blocks[i + 1] == blocks[1..][i];
  }

  lemma HeldBackStep(rules: Rules, db: Db, blocks: seq<Block>, bound: int)
    requires Good(db) && blocks != [] && Effect(rules, db, blocks[0]).Some?
    requires Good(Effect(rules, db, blocks[0]).value)
    ensures Replay(rules, db, blocks[..0]).Some?
    ensures HeldBack(rules, db, blocks, bound) <==>
      IrreversibleAt(rules, db, blocks, 0) <= bound
        && HeldBack(rules, Effect(rules, db, blocks[0]).value, blocks[1..], bound)
  {
    hide Effect, Replay, Midway, IrreversibleAt;
    var d, done := Effect(rules, db, blocks[0]).value, Applying(rules, db, blocks);
    ReplayNone(rules, db, blocks);
    forall i | 0 <= i < done - 1
      ensures Replay(rules, db, blocks[..i + 1]) == Replay(rules, d, blocks[1..][..i])
      ensures Replay(rules, db, blocks[..i + 1]).Some? ==>
        IrreversibleAt(rules, db, blocks, i + 1) == IrreversibleAt(rules, d, blocks[1..], i)
    {
      IrreversibleShift(rules, db, blocks, i);
    }
    if HeldBack(rules, db, blocks, bound) {
      forall i | 0 <= i < done - 1
        ensures Replay(rules, d, blocks[1..][..i]).Some? && IrreversibleAt(rules, d, blocks[1..], i) <= bound {
        assert Replay(rules, db, blocks[..i + 1]).Some? && IrreversibleAt(rules, db, blocks, i + 1) <= bound;
      }
    }
    if IrreversibleAt(rules, db, blocks, 0) <= bound && HeldBack(rules, d, blocks[1..], bound) {
      forall i | 0 <= i < done
        ensures Replay(rules, db, blocks[..i]).Some? && IrreversibleAt(rules, db, blocks, i) <= bound {
        if i > 0 {
          assert Replay(rules, d, blocks[1..][..i - 1]).Some? && IrreversibleAt(rules, d, blocks[1..], i - 1) <= bound;
          IrreversibleShift(rules, db, blocks, i - 1);
        }
      }
    }
  }

  lemma IrreversibleFirst(rules: Rules, db: Db, blocks: seq<Block>)
    requires Good(db) && blocks != []
    ensures Replay(rules, db, blocks[..0]) == Some(db) == Replay(rules, db, [blocks[0]][..0])
    ensures IrreversibleAt(rules, db, blocks, 0) == IrreversibleAt(rules, db, [blocks[0]], 0)
  {
    hide Midway;
    ReplayNone(rules, db, blocks);
    ReplayNone(rules, db, [blocks[0]]);
  }

  /** The undo stack stays long enough exactly when irreversibility does not pass the block that many
      above the one the run started from. */
  lemma {:induction false} RoomyExact(ids: Ids, rules: Rules, n: Node, blocks: seq<Block>, c: int)
    requires Fit(n) && Numbered(ids, n.db) && Applying(rules, n.db, blocks) < |blocks|
    requires forall i :: 0 <= i < |blocks| ==> Named(ids, blocks[i])
    ensures Roomy(rules, n, blocks, c) <==> n.limit >= c && HeldBack(rules, n.db, blocks, HeadNum(n.db) + 1 - c)
    decreases |blocks|
  {
    hide Effect, Applied, Replay, Midway, IrreversibleAt, HeldBack;
    if Effect(rules, n.db, blocks[0]).None? {
      HeldBackNone(rules, n.db, blocks, HeadNum(n.db) + 1 - c);
    } else {
      AppliedKeeps(rules, n, blocks[0]);
      LimitAfter(ids, rules, n, blocks[0], c);
      IrreversibleFirst(rules, n.db, blocks);
      RoomyExact(ids, rules, Applied(rules, n, blocks[0]), blocks[1..], c + 1);
      HeldBackStep(rules, n.db, blocks, HeadNum(n.db) + 1 - c);
    }
  }

  lemma HeldBackNone(rules: Rules, db: Db, blocks: seq<Block>, bound: int)
    requires Good(db) && Applying(rules, db, blocks) == 0
    ensures HeldBack(rules, db, blocks, bound)
  {
  }
}
