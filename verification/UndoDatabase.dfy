/** The object database with nested undo sessions. */
module UndoDatabase {
  import opened UndoState

  /** In the cells of the merge table marked impossible nothing can ever stand: an object the inner
      session changed or removed was not removed by the outer one, and one it created is unknown there. */
  lemma ImpossibleMerges(a: Undo, b: Undo, d0: Db, d1: Db, d2: Db, id: ObjectId)
    requires Tracks(a, d0, d1) && Tracks(b, d1, d2) && WellNumbered(d0)
    ensures id in b.oldValues || id in b.removed ==> id !in a.removed && id !in b.newIds
    ensures id in b.newIds ==> id !in a.newIds && id !in a.oldValues && id !in a.removed
  {
    assert TracksObject(a, d0, d1, id) && TracksObject(b, d1, d2, id);
  }

  /** The inner session's old values join the outer's, unless the outer knows the object already. */
  method MergeOldValues(a: Undo, b: Undo) returns (r: map<ObjectId, Value>)
    requires forall id :: id in b.oldValues && id !in a.newIds && id !in a.oldValues ==> id !in a.removed
    ensures r == b.oldValues - a.newIds + a.oldValues
  {
    r := a.oldValues;
    var todo := b.oldValues.Keys;
    while todo != {}
      invariant todo <= b.oldValues.Keys
      invariant r == (map id | id in b.oldValues && id !in todo && id !in a.newIds :: b.oldValues[id]) + a.oldValues
    {
      var id :| id in todo;
      todo := todo - {id};
      if id in a.newIds || id in r {
        continue;
      }
      assert id !in a.removed;
      r := r[id := b.oldValues[id]];
    }
  }

  method MergeNext(a: Undo, b: Undo) returns (r: map<nat, nat>)
    ensures r == b.oldNext + a.oldNext
  {
    r := a.oldNext;
    var todo := b.oldNext.Keys;
    while todo != {}
      invariant todo <= b.oldNext.Keys
      invariant r == (map i | i in b.oldNext && i !in todo :: b.oldNext[i]) + a.oldNext
    {
      var i :| i in todo;
      todo := todo - {i};
      if i !in r {
        r := r[i := b.oldNext[i]];
      }
    }
  }

  /** What becomes of object `id` in the outer session `p` when the inner one removed it. */
  function RemoveMerged(p: Undo, id: ObjectId, was: Value): Undo {
    if id in p.newIds then p.(newIds := p.newIds - {id})
    else if id in p.oldValues then p.(removed := p.removed[id := p.oldValues[id]], oldValues := p.oldValues - {id})
    else p.(removed := p.removed[id := was])
  }

  /** `r` says about `id` what `p` does, with the removal of `id` merged unless it is still to do. */
  predicate MergedAt(p: Undo, b: Undo, r: Undo, todo: set<ObjectId>, id: ObjectId) {
    var q := if id !in todo && id in b.removed then RemoveMerged(p, id, b.removed[id]) else p;
    && (id in r.newIds <==> id in q.newIds)
    && (if id in q.oldValues then id in r.oldValues && r.oldValues[id] == q.oldValues[id] else id !in r.oldValues)
    && (if id in q.removed then id in r.removed && r.removed[id] == q.removed[id] else id !in r.removed)
  }

  /** The inner session's removals: an object new in the outer session is forgotten, one changed there
      keeps its oldest value, any other is remembered as removed. */
  method MergeRemoved(p: Undo, b: Undo) returns (r: Undo)
    requires forall id :: id in b.removed && id !in p.newIds && id !in p.oldValues ==> id !in p.removed
    ensures r.oldNext == p.oldNext && forall id :: MergedAt(p, b, r, {}, id)
  {
    r := p;
    var todo := b.removed.Keys;
    while todo != {}
      invariant todo <= b.removed.Keys && r.oldNext == p.oldNext
      invariant forall id :: MergedAt(p, b, r, todo, id)
    {
      var id :| id in todo;
      ghost var r0 := r;
      assert MergedAt(p, b, r0, todo, id);
      if id in r.newIds {
        r := r.(newIds := r.newIds - {id});
      } else if id in r.oldValues {
        r := r.(removed := r.removed[id := r.oldValues[id]], oldValues := r.oldValues - {id});
      } else {
        assert id !in p.removed;
        r := r.(removed := r.removed[id := b.removed[id]]);
      }
      ghost var todo0 := todo;
      todo := todo - {id};
      forall x ensures MergedAt(p, b, r, todo, x) {
        assert MergedAt(p, b, r0, todo0, x);
      }
    }
  }

  /** The database at the end of session `i`: where the next one starts, or now. */
  function EndOf(saved: seq<Db>, db: Db, i: nat): Db {
    if i + 1 < |saved| then saved[i + 1] else db
  }

  /** Every session on the stack tracks what happened between its start and its end. */
  ghost predicate Linked(stack: seq<Undo>, saved: seq<Db>, db: Db) {
    && |saved| == |stack| && WellNumbered(db)
    && forall i :: 0 <= i < |stack| ==> WellNumbered(saved[i]) && Tracks(stack[i], saved[i], EndOf(saved, db, i))
  }

  lemma LinkedPush(stack: seq<Undo>, saved: seq<Db>, db: Db)
    requires Linked(stack, saved, db)
    ensures Linked(stack + [Nothing], saved + [db], db)
  {
    hide Tracks, WellNumbered;
    TracksNothing(db);
  }

  lemma LinkedChange(stack: seq<Undo>, saved: seq<Db>, db: Db, u: Undo, db': Db)
    requires Linked(stack, saved, db) && |stack| > 0 && WellNumbered(db') && Tracks(u, saved[|saved| - 1], db')
    ensures Linked(stack[|stack| - 1 := u], saved, db')
  {
    hide Tracks, WellNumbered;
  }

  lemma LinkedTop(stack: seq<Undo>, saved: seq<Db>, db: Db)
    requires Linked(stack, saved, db) && |stack| > 0
    ensures var n := |stack| - 1;
      && WellNumbered(db) && WellNumbered(saved[n]) && Tracks(stack[n], saved[n], db)
        && Linked(stack[..n], saved[..n], saved[n])
      && (n > 0 ==> WellNumbered(saved[n - 1]) && Tracks(stack[n - 1], saved[n - 1], saved[n]))
  {
    hide Tracks, WellNumbered;
    var n := |stack| - 1;
    assert EndOf(saved, db, n) == db;
    if n > 0 { assert EndOf(saved, db, n - 1) == saved[n]; }
  }

  lemma LinkedSuffix(stack: seq<Undo>, saved: seq<Db>, db: Db)
    requires Linked(stack, saved, db) && |stack| > 0
    ensures Linked(stack[1..], saved[1..], db)
  {
    hide Tracks, WellNumbered;
    forall i | 0 <= i < |stack| - 1 ensures Tracks(stack[1..][i], saved[1..][i], EndOf(saved[1..], db, i)) {
      assert EndOf(saved[1..], db, i) == EndOf(saved, db, i + 1);
    }
  }

  class ObjectDatabase {
    var db: Db
    var stack: seq<Undo>
    var activeSessions: nat
    var disabled: bool
    var maxSize: nat
    /** The database as it was when each session on the stack started. */
    ghost var saved: seq<Db>

    ghost predicate Valid()
      reads this
    {
      !disabled && |saved| == |stack| && Linked(stack, saved, db) && activeSessions <= |stack|
    }

    constructor (db: Db, maxSize: nat)
      requires WellNumbered(db)
      ensures Valid() && this.db == db && stack == [] && activeSessions == 0 && this.maxSize == maxSize
    {
      this.db, this.maxSize := db, maxSize;
      stack, saved, activeSessions, disabled := [], [], 0, false;
    }

    /** Opens a session; sessions beyond the size limit are dropped from the bottom. */
    method StartUndoSession()
      requires Valid() && activeSessions <= maxSize
      modifies this`stack, this`saved, this`activeSessions
      ensures Valid() && activeSessions == old(activeSessions) + 1
      ensures var kept := if |old(saved)| > maxSize then old(saved)[|old(saved)| - maxSize..] else old(saved);
        saved == kept + [db]
    {
      hide Linked;
      ghost var k := 0;
      while |stack| > maxSize
        invariant Linked(stack, saved, db) && |stack| == |saved| && k <= |old(saved)| && saved == old(saved)[k..]
        invariant old(activeSessions) == activeSessions <= |stack| && (k > 0 ==> |stack| >= maxSize)
        decreases |stack|
      {
        LinkedSuffix(stack, saved, db);
        stack, saved, k := stack[1..], saved[1..], k + 1;
      }
      LinkedPush(stack, saved, db);
      stack, saved := stack + [Nothing], saved + [db];
      activeSessions := activeSessions + 1;
    }

    /** A change outside any session is tracked from here on. */
    method EnsureState()
      requires Valid()
      modifies this`stack, this`saved
      ensures Valid() && |stack| > 0
      ensures |old(stack)| > 0 ==> saved == old(saved) && stack == old(stack)
      ensures |old(stack)| == 0 ==> saved == [db]
    {
      if stack == [] {
        LinkedPush(stack, saved, db);
        stack, saved := [Nothing], [db];
        assert stack == [] + [Nothing] && saved == [] + [db];
      }
    }

    method Create(index: nat, v: Value) returns (id: ObjectId)
      requires Valid() && index < |db.next|
      modifies this`db, this`stack, this`saved
      ensures Valid() && id == ObjectId(index, old(db).next[index])
      ensures db == Db(old(db).objects[id := v], old(db).next[index := old(db).next[index] + 1])
      ensures saved == if old(saved) == [] then [old(db)] else old(saved)
    {
      hide Tracks, OnCreate, Linked;
      EnsureState();
      id := ObjectId(index, db.next[index]);
      var top := |stack| - 1;
      LinkedTop(stack, saved, db);
      TracksCreate(stack[top], saved[top], db, index, v);
      ghost var db' := Db(db.objects[id := v], db.next[index := db.next[index] + 1]);
      LinkedChange(stack, saved, db, OnCreate(stack[top], id), db');
      db := Db(db.objects[id := v], db.next[index := db.next[index] + 1]);
      stack := stack[top := OnCreate(stack[top], id)];
    }

    method Modify(id: ObjectId, v: Value)
      requires !disabled ==> Valid()
      requires id in db.objects
      modifies this`db, this`stack, this`saved
      ensures db == old(db).(objects := old(db).objects[id := v])
      ensures if disabled then stack == old(stack) && saved == old(saved)
              else Valid() && saved == if old(saved) == [] then [old(db)] else old(saved)
    {
      hide Tracks, OnModify, Linked;
      if !disabled {
        EnsureState();
        var top := |stack| - 1;
        LinkedTop(stack, saved, db);
        TracksModify(stack[top], saved[top], db, id, v);
        LinkedChange(stack, saved, db, OnModify(stack[top], id, db.objects[id]), db.(objects := db.objects[id := v]));
        stack := stack[top := OnModify(stack[top], id, db.objects[id])];
      }
      db := db.(objects := db.objects[id := v]);
    }

    method Remove(id: ObjectId)
      requires !disabled ==> Valid()
      requires id in db.objects
      modifies this`db, this`stack, this`saved
      ensures db == old(db).(objects := old(db).objects - {id})
      ensures if disabled then stack == old(stack) && saved == old(saved)
              else Valid() && saved == if old(saved) == [] then [old(db)] else old(saved)
    {
      hide Tracks, OnRemove, Linked;
      if !disabled {
        EnsureState();
        var top := |stack| - 1;
        LinkedTop(stack, saved, db);
        TracksRemove(stack[top], saved[top], db, id);
        LinkedChange(stack, saved, db, OnRemove(stack[top], id, db.objects[id]), db.(objects := db.objects - {id}));
        stack := stack[top := OnRemove(stack[top], id, db.objects[id])];
      }
      db := db.(objects := db.objects - {id});
    }

    method RestoreValues(values: map<ObjectId, Value>)
      requires disabled && values.Keys <= db.objects.Keys
      modifies this`db, this`stack, this`saved
      ensures db == old(db).(objects := old(db).objects + values) && stack == old(stack) && saved == old(saved)
    {
      var todo := values.Keys;
      while todo != {}
        invariant todo <= values.Keys && stack == old(stack) && saved == old(saved) && db.next == old(db).next
        invariant db.objects == old(db).objects + (map id | id in values && id !in todo :: values[id])
      {
        var id :| id in todo;
        Modify(id, values[id]);
        todo := todo - {id};
      }
      assert (map id | id in values && id !in todo :: values[id]) == values;
    }

    method RemoveNew(ids: set<ObjectId>)
      requires disabled && ids <= db.objects.Keys
      modifies this`db, this`stack, this`saved
      ensures db == old(db).(objects := old(db).objects - ids) && stack == old(stack) && saved == old(saved)
    {
      var todo := ids;
      while todo != {}
        invariant todo <= ids && stack == old(stack) && saved == old(saved) && db.next == old(db).next
        invariant db.objects == old(db).objects - (ids - todo)
      {
        var id :| id in todo;
        Remove(id);
        todo := todo - {id};
      }
      assert ids - todo == ids;
    }

    method RestoreNext(oldNext: map<nat, nat>)
      requires forall i :: i in oldNext ==> i < |db.next|
      modifies this`db
      ensures db.objects == old(db).objects && |db.next| == |old(db).next|
      ensures forall i :: 0 <= i < |db.next| ==> db.next[i] == if i in oldNext then oldNext[i] else old(db).next[i]
    {
      var todo := oldNext.Keys;
      while todo != {}
        invariant todo <= oldNext.Keys && db.objects == old(db).objects && |db.next| == |old(db).next|
        invariant forall i :: 0 <= i < |db.next| ==>
          db.next[i] == if i in oldNext && i !in todo then oldNext[i] else old(db).next[i]
      {
        var i :| i in todo;
        db := db.(next := db.next[i := oldNext[i]]);
        todo := todo - {i};
      }
    }

    method InsertRemoved(values: map<ObjectId, Value>)
      modifies this`db
      ensures db == old(db).(objects := old(db).objects + values)
    {
      var todo := values.Keys;
      while todo != {}
        invariant todo <= values.Keys && db.next == old(db).next
        invariant db.objects == old(db).objects + (map id | id in values && id !in todo :: values[id])
      {
        var id :| id in todo;
        db := db.(objects := db.objects[id := values[id]]);
        todo := todo - {id};
      }
      assert (map id | id in values && id !in todo :: values[id]) == values;
    }

    /** Puts everything the top session changed back, and drops the session. */
    method RestoreTop()
      requires Valid() && |stack| > 0
      modifies this`db, this`stack, this`saved, this`disabled
      ensures !disabled && Linked(stack, saved, db)
      ensures db == old(saved)[|old(saved)| - 1]
      ensures saved == old(saved)[..|old(saved)| - 1] && |stack| == |old(stack)| - 1
    {
      hide Tracks, Linked;
      var top := |stack| - 1;
      var state := stack[top];
      ghost var db0 := db;
      LinkedTop(stack, saved, db);
      TracksReversed(state, saved[top], db);
      TracksParts(state, saved[top], db);
      disabled := true;
      RestoreValues(state.oldValues);
      RemoveNew(state.newIds);
      RestoreNext(state.oldNext);
      InsertRemoved(state.removed);
      assert db == Reversed(state, db0);
      stack, saved := stack[..top], saved[..top];
      disabled := false;
    }

    /** Undoes the innermost session: the database is again what it was when the session started. */
    method UndoSession()
      requires Valid() && activeSessions > 0
      modifies this`db, this`stack, this`saved, this`disabled, this`activeSessions
      ensures Valid() && activeSessions == old(activeSessions) - 1
      ensures db == old(saved)[|old(saved)| - 1] && saved == old(saved)[..|old(saved)| - 1]
    {
      RestoreTop();
      activeSessions := activeSessions - 1;
    }

    /** Takes back the last committed session; fails, changing nothing, when there is none. */
    method PopCommit() returns (ok: bool)
      requires Valid()
      modifies this`db, this`stack, this`saved, this`disabled
      ensures Valid() && (ok <==> old(activeSessions) == 0 && |old(stack)| > 0)
      ensures ok ==> db == old(saved)[|old(saved)| - 1] && saved == old(saved)[..|old(saved)| - 1]
      ensures !ok ==> db == old(db) && saved == old(saved)
    {
      if activeSessions != 0 || stack == [] {
        return false;
      }
      RestoreTop();
      return true;
    }

    /** Keeps the innermost session's changes as part of the history. */
    method Commit()
      requires Valid() && activeSessions > 0
      modifies this`activeSessions
      ensures Valid() && activeSessions == old(activeSessions) - 1
    {
      activeSessions := activeSessions - 1;
    }

    /** Folds the innermost session into the one around it: the changes stay, and undoing the outer
        session will undo both. */
    method Merge()
      requires Valid() && activeSessions > 0
      modifies this`stack, this`saved, this`activeSessions
      ensures Valid() && activeSessions == old(activeSessions) - 1 && saved == old(saved)[..|old(saved)| - 1]
    {
      hide Tracks, Linked, MergedAt, Merged;
      var n := |stack|;
      LinkedTop(stack, saved, db);
      if activeSessions == 1 && n == 1 {
        stack, saved := [], [];
        activeSessions := 0;
        LinkedEmpty(db);
        assert saved == old(saved)[..|old(saved)| - 1];
        return;
      }
      var state, prev := stack[n - 1], stack[n - 2];
      ghost var d0, d1 := saved[n - 2], saved[n - 1];
      NothingImpossible(prev, state, d0, d1, db);
      var oldValues := MergeOldValues(prev, state);
      var oldNext := MergeNext(prev, state);
      var joined := Undo(oldValues, oldNext, prev.newIds + state.newIds, prev.removed);
      RemovalsPossible(prev, state, d0, d1, db, joined);
      var merged := MergeRemoved(joined, state);
      MergedAgrees(prev, state, d0, d1, db, joined, merged);
      TracksMerged(prev, state, d0, d1, db);
      LinkedMerge(stack, saved, db, merged);
      stack, saved := stack[..n - 2] + [merged], saved[..n - 1];
      activeSessions := activeSessions - 1;
    }
  }

  lemma LinkedEmpty(db: Db)
    requires WellNumbered(db)
    ensures Linked([], [], db)
  {
  }

  lemma TracksParts(u: Undo, before: Db, after: Db)
    requires Tracks(u, before, after)
    ensures u.oldValues.Keys <= after.objects.Keys && u.newIds <= after.objects.Keys && u.newIds !! u.oldValues.Keys
    ensures forall i :: i in u.oldNext ==> i < |after.next|
  {
    forall id ensures id in u.oldValues || id in u.newIds ==>
      id in after.objects.Keys && !(id in u.newIds && id in u.oldValues) {
      assert TracksObject(u, before, after, id);
    }
  }

  lemma NothingImpossible(a: Undo, b: Undo, d0: Db, d1: Db, d2: Db)
    requires Tracks(a, d0, d1) && Tracks(b, d1, d2) && WellNumbered(d0)
    ensures forall id :: id in b.oldValues && id !in a.newIds && id !in a.oldValues ==> id !in a.removed
  {
    forall id | id in b.oldValues ensures id !in a.removed { ImpossibleMerges(a, b, d0, d1, d2, id); }
  }

  lemma RemovalsPossible(a: Undo, b: Undo, d0: Db, d1: Db, d2: Db, p: Undo)
    requires Tracks(a, d0, d1) && Tracks(b, d1, d2) && WellNumbered(d0) && p.removed == a.removed
    ensures forall id :: id in b.removed && id !in p.newIds && id !in p.oldValues ==> id !in p.removed
  {
    forall id | id in b.removed ensures id !in a.removed { ImpossibleMerges(a, b, d0, d1, d2, id); }
  }

  /** What the merge loops compute is the merge of the two sessions. */
  lemma MergedAgrees(a: Undo, b: Undo, d0: Db, d1: Db, d2: Db, p: Undo, r: Undo)
    requires Tracks(a, d0, d1) && Tracks(b, d1, d2) && WellNumbered(d0)
    requires p == Undo(b.oldValues - a.newIds + a.oldValues, b.oldNext + a.oldNext, a.newIds + b.newIds, a.removed)
    requires r.oldNext == p.oldNext && forall id :: MergedAt(p, b, r, {}, id)
    ensures r == Merged(a, b)
  {
    hide MergedAt;
    var m := Merged(a, b);
    forall id
      ensures (id in r.newIds <==> id in m.newIds)
      ensures (id in r.oldValues <==> id in m.oldValues) && (id in r.oldValues ==> r.oldValues[id] == m.oldValues[id])
      ensures (id in r.removed <==> id in m.removed) && (id in r.removed ==> r.removed[id] == m.removed[id])
    {
      assert TracksObject(a, d0, d1, id) && TracksObject(b, d1, d2, id);
      assert id in d0.objects ==> id.index < |d1.next| && id.instance < d1.next[id.index];
      MergedAgreesAt(a, b, d0, d1, d2, p, r, id);
    }
  }

  lemma MergedAgreesAt(a: Undo, b: Undo, d0: Db, d1: Db, d2: Db, p: Undo, r: Undo, id: ObjectId)
    requires TracksObject(a, d0, d1, id) && TracksObject(b, d1, d2, id) && MergedAt(p, b, r, {}, id)
    requires id in d0.objects ==> id.index < |d1.next| && id.instance < d1.next[id.index]
    requires p == Undo(b.oldValues - a.newIds + a.oldValues, b.oldNext + a.oldNext, a.newIds + b.newIds, a.removed)
    ensures var m := Merged(a, b);
      && (id in r.newIds <==> id in m.newIds)
      && (id in r.oldValues <==> id in m.oldValues) && (id in r.oldValues ==> r.oldValues[id] == m.oldValues[id])
      && (id in r.removed <==> id in m.removed) && (id in r.removed ==> r.removed[id] == m.removed[id])
  {
  }

  lemma LinkedMerge(stack: seq<Undo>, saved: seq<Db>, db: Db, u: Undo)
    requires Linked(stack, saved, db) && |stack| >= 2 && Tracks(u, saved[|stack| - 2], db)
    ensures Linked(stack[..|stack| - 2] + [u], saved[..|stack| - 1], db)
  {
    hide Tracks, WellNumbered;
    var n := |stack| - 1;
    LinkedTop(stack, saved, db);
    var s, v := stack[..n], saved[..n];
    LinkedChange(s, v, saved[n], u, db);
    assert s[n - 1 := u] == stack[..n - 1] + [u];
  }
}
