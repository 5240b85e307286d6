/** Pushing blocks: extending the head, switching forks, and taking a failed switch back. */
module ChainDatabase {
  import opened Options
  import opened UndoState
  import opened UndoDatabase
  import opened ChainState
  import opened ForkTree
  import opened BlockReplay
  import opened ChainNode
  import opened ForkSwitch
  import opened BlockPush

  method ApplyChange(undo: ObjectDatabase, c: Change)
    requires undo.Valid() && Good(undo.db) && |undo.saved| > 0 && Allowed(undo.db, c)
    modifies undo`db, undo`stack, undo`saved
    ensures undo.Valid() && undo.saved == old(undo.saved)
    ensures undo.db == Changed(old(undo.db), c) && Good(undo.db)
  {
    ChangedKeeps(undo.db, c);
    match c {
      case CreateObject(index, v) => var id := undo.Create(index, v);
      case ModifyObject(id, v) => undo.Modify(id, v);
      case RemoveObject(id) => undo.Remove(id);
    }
  }

  /** Applies the changes of one phase, stopping at the first that is refused. */
  method RunPhase(undo: ObjectDatabase, s: Script) returns (ok: bool)
    requires undo.Valid() && Good(undo.db) && |undo.saved| > 0
    modifies undo`db, undo`stack, undo`saved
    ensures undo.Valid() && undo.saved == old(undo.saved)
    ensures ok <==> RunScript(old(undo.db), s).Some?
    ensures ok ==> undo.db == RunScript(old(undo.db), s).value && Good(undo.db)
  {
    hide Changed, Allowed;
    var i := 0;
    while i < |s.changes|
      invariant i <= |s.changes| && undo.Valid() && undo.saved == old(undo.saved)
      invariant Good(undo.db) && RunChanges(old(undo.db), s.changes) == RunChanges(undo.db, s.changes[i..])
    {
      assert s.changes[i..][1..] == s.changes[i + 1..];
      if !Allowed(undo.db, s.changes[i]) {
        return false;
      }
      ApplyChange(undo, s.changes[i]);
      i := i + 1;
    }
    ok := s.completes;
  }

  lemma FitParts(n: Node)
    requires Fit(n)
    ensures Good(n.db) && |n.history| == |n.saved|
  {
  }

  lemma OnTop(saved: seq<Db>, db: Db)
    ensures var s := saved + [db];
      s[|s| - 1] == db && s[..|s| - 1] == saved
  {
  }

  /** The two phases of a block on top of `db`: its transactions, run with the head already moved, lead to
      `mid`, and its maintenance from there to `db'`. */
  ghost predicate InPhases(rules: Rules, db: Db, b: Block, mid: Db, db': Db)
    requires Good(db)
  {
    && HeadId(db) == b.previous && Good(mid) && HeadId(mid) == b.id && HeadNum(mid) == b.num
    && var moved := Properties(b.id, b.num, LastIrreversible(db));
    var start := db.(objects := db.objects[PROPERTIES := moved]);
    && RunScript(start, rules.transact(start, b)) == Some(mid)
    && RunScript(mid, rules.maintain(mid, b)) == Some(db')
  }

  /** How long the undo stack and the fork database may be when the transactions have led to `mid`. */
  ghost predicate LimitedAt(mid: Db, limit: nat)
    requires Good(mid)
  {
    if LastIrreversible(mid) <= HeadNum(mid) then limit + LastIrreversible(mid) == HeadNum(mid) + 1 else limit == 0
  }

  lemma EffectPhases(rules: Rules, db: Db, b: Block, mid: Db)
    requires Good(db) && Effect(rules, db, b).Some? && Midway(rules, db, b) == Some(mid)
    ensures InPhases(rules, db, b, mid, Effect(rules, db, b).value) && LimitedAt(mid, UndoLimit(mid))
  {
    hide RunChanges, WellNumbered;
    MidwayHead(rules, db, b);
  }

  /** Exactly the blocks at most `max` below height `top` are left. */
  ghost predicate OnlyNear(index: Index, top: nat, max: nat, index': Index) {
    forall id :: id in index' <==> id in index && index[id].num + max >= top
  }

  class Database {
    const rules: Rules
    const undo: ObjectDatabase
    var index: Index
    var forkHead: Block
    var forkMax: nat
    /** The blocks whose undo sessions are on the stack. */
    ghost var history: seq<Block>
    /** What the ids of the blocks stand for. */
    ghost const ids: Ids

    ghost predicate Valid()
      reads this, undo
    {
      undo.Valid() && undo.activeSessions == 0 && Sound(ids, rules, Now())
    }

    /** The state of the node. */
    ghost function Now(): Node
      reads this, undo
    {
      Node(undo.saved, undo.db, history, undo.maxSize, index, forkHead, forkMax)
    }

    constructor (rules: Rules, db: Db, maxSize: nat, start: Block, ghost ids: Ids)
      requires Good(db) && Numbered(ids, db) && Named(ids, start)
      ensures Valid() && fresh(undo) && this.rules == rules && this.ids == ids
      ensures Now() == Node([], db, [], maxSize, map[start.id := start], start, 1024)
    {
      this.rules, this.ids := rules, ids;
      undo := new ObjectDatabase(db, maxSize);
      index, forkHead, forkMax, history := map[start.id := start], start, 1024, [];
    }

    /** Applies a block in the open session. A block that throws may leave part of its changes. */
    method ApplyBlock(b: Block) returns (ok: bool)
      requires undo.Valid() && Good(undo.db) && |undo.saved| > 0
      modifies this`index, this`forkMax, undo
      ensures undo.Valid() && undo.saved == old(undo.saved) && undo.activeSessions == old(undo.activeSessions)
      ensures ok <==> Effect(rules, old(undo.db), b).Some?
      ensures ok ==> undo.db == Effect(rules, old(undo.db), b).value
      ensures var r := Resized(rules, old(Now()), b);
        undo.maxSize == r.limit && index == r.index && forkMax == r.forkMax
      ensures ok ==> exists mid :: InPhases(rules, old(undo.db), b, mid, undo.db) && LimitedAt(mid, forkMax)
      ensures ok ==> undo.maxSize == forkMax && OnlyNear(old(index), forkHead.num, forkMax, index)
    {
      hide Linked, RunChanges, InPhases, LimitedAt;
      if HeadId(undo.db) != b.previous {
        return false;
      }
      undo.Modify(PROPERTIES, Properties(b.id, b.num, LastIrreversible(undo.db)));
      ok := RunPhase(undo, rules.transact(undo.db, b));
      if !ok {
        return;
      }
      MidwayHead(rules, old(undo.db), b);
      undo.maxSize, forkMax := UndoLimit(undo.db), UndoLimit(undo.db);
      index := Pruned(index, forkHead.num, forkMax);
      ghost var mid := undo.db;
      ok := RunPhase(undo, rules.maintain(undo.db, b));
      if ok { EffectPhases(rules, old(undo.db), b, mid); }
    }

    /** Commits the session of a block, or undoes it if the block threw; the oldest `k` sessions are gone. */
    method EndSession(ok: bool, ghost b: Block, ghost k: nat)
      requires undo.Valid() && undo.activeSessions == 1 && k <= |history|
      modifies this`history, undo`db, undo`stack, undo`saved, undo`disabled, undo`activeSessions
      ensures undo.Valid() && undo.activeSessions == 0 && |old(undo.saved)| > 0
      ensures var top := |old(undo.saved)| - 1;
        if ok then undo.db == old(undo.db) && undo.saved == old(undo.saved) && history == old(history)[k..] + [b]
        else undo.db == old(undo.saved)[top] && undo.saved == old(undo.saved)[..top] && history == old(history)[k..]
    {
      hide Linked;
      if ok {
        undo.Commit();
        history := history[k..] + [b];
      } else {
        undo.UndoSession();
        history := history[k..];
      }
    }

    /** Applies a block in a session of its own: committed if the block applies, undone if it throws. */
    method ApplyInSession(b: Block) returns (ok: bool)
      requires Valid() && Named(ids, b)
      modifies this`index, this`forkMax, this`history, undo
      ensures Valid() && Now() == Applied(rules, old(Now()), b)
      ensures ok <==> Effect(rules, old(undo.db), b).Some?
    {
      hide Sound, Fit, Effect, Resized, Applied, Good, Midway, Named, ObjectDatabase.Valid, InPhases, LimitedAt,
           OnlyNear;
      ghost var n := Now();
      SoundFit(ids, rules, n);
      FitParts(n);
      AppliedSound(ids, rules, n, b);
      ghost var k := |n.saved| - Kept(|n.saved|, n.limit);
      undo.StartUndoSession();
      assert undo.saved == n.saved[k..] + [n.db];
      OnTop(n.saved[k..], n.db);
      ResizedParts(rules, n, Now(), b);
      ok := ApplyBlock(b);
      EndSession(ok, b, k);
      AppliedIs(rules, n, b, Now());
    }

    /** Applies blocks one by one, each in its own session, up to the first that throws. */
    method ApplyAll(blocks: seq<Block>) returns (done: nat)
      requires Valid() && forall i :: 0 <= i < |blocks| ==> Named(ids, blocks[i])
      modifies this`index, this`forkMax, this`history, undo
      ensures Valid() && Now() == AppliedAll(rules, old(Now()), blocks)
      ensures done == Applying(rules, old(undo.db), blocks)
    {
      hide Recorded, Linked, Filing, Effect, Applied;
      done := 0;
      assert blocks[0..] == blocks;
      while done < |blocks|
        invariant Valid() && done <= |blocks|
        invariant AppliedAll(rules, old(Now()), blocks) == AppliedAll(rules, Now(), blocks[done..])
        invariant Applying(rules, old(undo.db), blocks) == done + Applying(rules, undo.db, blocks[done..])
      {
        assert blocks[done..][1..] == blocks[done + 1..] && blocks[done..][0] == blocks[done];
        AppliedKeeps(rules, Now(), blocks[done]);
        var ok := ApplyInSession(blocks[done]);
        if !ok {
          return;
        }
        done := done + 1;
      }
    }

    /** Takes the head block off again. Fails when the block before the fork head is no longer in memory,
        or when there is no undo session left; in that case the fork head has moved all the same. */
    method PopBlock(alive: Index) returns (ok: bool)
      requires Valid() && Filing(ids, alive)
      modifies this`forkHead, this`history, undo
      ensures Valid() && Now() == Popped(old(Now()), alive)
      ensures ok <==> CanPop(old(Now()), alive)
    {
      hide Recorded, Linked, Filing, WellNumbered, Named, Numbered;
      PoppedSound(ids, rules, Now(), alive);
      if forkHead.previous !in alive {
        return false;
      }
      forkHead := alive[forkHead.previous];
      ok := undo.PopCommit();
      if ok {
        history := history[..|history| - 1];
      }
    }

    /** Pops blocks until `target` is the head. */
    method PopTo(target: nat, alive: Index) returns (ok: bool)
      requires Valid() && Filing(ids, alive)
      modifies this`forkHead, this`history, undo
      ensures Valid() && Now() == PoppedTo(old(Now()), alive, target)
      ensures ok <==> HeadId(undo.db) == target
    {
      hide Recorded, Linked, Filing, Popped;
      ok := true;
      while HeadId(undo.db) != target
        invariant Valid() && PoppedTo(Now(), alive, target) == PoppedTo(old(Now()), alive, target)
        decreases |undo.saved|
      {
        PoppedFewer(Now(), alive);
        if !CanPop(Now(), alive) { PoppedStuck(Now(), alive); }
        ok := PopBlock(alive);
        if !ok {
          return;
        }
      }
    }

    /** Forgets the blocks of a branch from the `done`-th on. */
    method ForgetFrom(blocks: seq<Block>, done: nat)
      requires done <= |blocks|
      modifies this`index
      ensures index == Forgotten(old(index), blocks, done)
    {
      var i := done;
      while i < |blocks|
        invariant done <= i <= |blocks| && index == Forgotten(old(index), blocks[..i], done)
      {
        index := index - {blocks[i].id};
        i := i + 1;
      }
      assert blocks[..i] == blocks;
    }

    /** After the new branch has failed: pops it and applies the old one again. */
    method SwitchBack(held: Index, second: seq<Block>)
      requires Valid() && Filing(ids, index + held) && second != []
      requires forall i :: 0 <= i < |second| ==> Named(ids, second[i])
      modifies this, undo
      ensures Valid() && Now() == SwitchedBack(rules, old(Now()), held, second)
    {
      hide Sound, Linked, PoppedTo, AppliedAll;
      SoundFit(ids, rules, Now());
      AllNamedUpward(ids, second);
      var back := PopTo(second[|second| - 1].previous, index + held);
      if back {
        var done := ApplyAll(Upward(second));
      }
    }

    /** Leaves branch `second`, which ends at the head, for branch `first`. */
    method SwitchFork(first: seq<Block>, second: seq<Block>) returns (ok: bool)
      requires Valid() && Parted(ids, rules, Now(), first, second) && second != []
      modifies this, undo
      ensures Valid() && (Now(), ok) == Switch(rules, old(Now()), first, second)
    {
      hide Sound, Linked, PoppedTo, AppliedAll, Forked, Path, Filing, Forgotten, Holding, SwitchedBack;
      hide Upward, OnHistory, Tree, Named, Applying;
      ghost var n := Now();
      UpwardMeaning(first);
      PartedShape(ids, rules, n, first, second);
      SoundFit(ids, rules, n);
      AllNamedUpward(ids, first);
      var held := Holding(index, first, second);
      var down := PopTo(second[|second| - 1].previous, index);
      if !down {
        return false;
      }
      var done := ApplyAll(Upward(first));
      if done == |first| {
        return true;
      }
      FailedSound(ids, rules, Now(), Upward(first), done, second[0]);
      ForgetFrom(Upward(first), done);
      forkHead := second[0];
      SoundFit(ids, rules, Now());
      HeldFiling(ids, n.index, index, first, second);
      SwitchBack(held, second);
      return false;
    }

    /** Looks at the highest block of the fork database when it does not extend the head: if it is no
        higher than the head nothing happens, otherwise its fork is switched to. */
    method ConsiderFork() returns (r: Outcome)
      requires Valid()
      modifies this, undo
      ensures Valid() && (Now(), r) == Consider(rules, old(Now()))
    {
      hide Recorded, Linked, Switch, Path;
      ghost var n := Now();
      if forkHead.num <= HeadNum(undo.db) {
        return Returned(false);
      }
      FilingTree(ids, index);
      var branches := FetchBranchFrom(index, forkHead.id, HeadId(undo.db));
      if branches.None? {
        return Threw;
      }
      var first, second := branches.value.0, branches.value.1;
      forall p, q | Forked(index, forkHead.id, HeadId(undo.db), p, q) ensures p == first && q == second {
        ForkUnique(index, forkHead.id, HeadId(undo.db), first, second, p, q);
      }
      var ok := SwitchFork(first, second);
      r := if ok then Returned(true) else Threw;
    }

    /** Pushes a block: the block extends the head, or is only filed, or the longer fork it completes is
        switched to. */
    method PushBlock(b: Block) returns (r: Outcome)
      requires Valid() && Named(ids, b)
      modifies this, undo
      ensures Valid() && (Now(), r) == Push(rules, old(Now()), b) && Handled(rules, old(Now()), b, Now(), r)
      ensures r == Returned(false) ==> undo.db == old(undo.db) || Some(undo.db) == Effect(rules, old(undo.db), b)
      ensures r == Returned(true) ==> exists first, second ::
        Tries(old(Now()), b, first, second) && OnFork(rules, old(Now()), first, second) == Some(undo.db)
      ensures r.Threw? ==> (undo.db == old(undo.db) <==>
        forall first, second :: Tries(old(Now()), b, first, second) ==>
          Harmless(rules, WithBlock(old(Now()), b), first, second))
    {
      hide Recorded, Linked, Filed, Consider, Applied, Effect, Harmless, Tries, OnFork, Handled;
      ghost var n := Now();
      PushSound(ids, rules, n, b);
      PushHandled(ids, rules, n, b);
      PushPromise(ids, rules, n, b);
      if !Linkable(index, forkHead, forkMax, b) {
        return Threw;
      }
      WithBlockSound(ids, rules, n, b);
      var filed := Filed(index, forkHead, forkMax, b);
      index, forkHead := filed.0, filed.1;
      if forkHead.previous != HeadId(undo.db) {
        r := ConsiderFork();
        return;
      }
      var ok := ApplyInSession(b);
      if !ok {
        index := index - {b.id};
        return Threw;
      }
      return Returned(false);
    }
  }
}
