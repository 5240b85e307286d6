/** What an undo session remembers about the objects changed in it. */
module UndoState {

  /** An object is named by the index it lives in and its instance number there. */
  datatype ObjectId = ObjectId(index: nat, instance: nat)

  /** The dynamic global properties carry the head block; every other object is opaque here. */
  datatype Value =
    | Properties(headId: nat, headNum: nat, lastIrreversible: nat)
    | Plain(data: nat)

  /** All objects, and for every registered index the instance number it gives out next. */
  datatype Db = Db(objects: map<ObjectId, Value>, next: seq<nat>)

  /** Instance numbers below the next one are the only ones ever given out. */
  ghost predicate WellNumbered(db: Db) {
    forall id :: id in db.objects ==> id.index < |db.next| && id.instance < db.next[id.index]
  }

  datatype Undo = Undo(oldValues: map<ObjectId, Value>, oldNext: map<nat, nat>,
                       newIds: set<ObjectId>, removed: map<ObjectId, Value>)

  const Nothing: Undo := Undo(map[], map[], {}, map[])

  function OnCreate(u: Undo, id: ObjectId): Undo {
    u.(oldNext := if id.index in u.oldNext then u.oldNext else u.oldNext[id.index := id.instance],
       newIds := u.newIds + {id})
  }

  function OnModify(u: Undo, id: ObjectId, was: Value): Undo {
    if id in u.newIds || id in u.oldValues then u else u.(oldValues := u.oldValues[id := was])
  }

  function OnRemove(u: Undo, id: ObjectId, was: Value): Undo {
    if id in u.newIds then u.(newIds := u.newIds - {id})
    else if id in u.oldValues then u.(removed := u.removed[id := u.oldValues[id]], oldValues := u.oldValues - {id})
    else if id in u.removed then u
    else u.(removed := u.removed[id := was])
  }

  /** Object `id` is the same in both databases, or absent from both. */
  predicate SameObject(a: Db, b: Db, id: ObjectId) {
    if id in a.objects then id in b.objects && b.objects[id] == a.objects[id] else id !in b.objects
  }

  /** What `u` says about object `id` is what happened to it between `before` and `after`. */
  predicate TracksObject(u: Undo, before: Db, after: Db, id: ObjectId) {
    if id in u.newIds then
      && id !in u.oldValues && id !in u.removed && id in after.objects && id !in before.objects
      && id.index < |before.next| && before.next[id.index] <= id.instance
    else if id in u.oldValues then
      id !in u.removed && id in after.objects && id in before.objects && before.objects[id] == u.oldValues[id]
    else if id in u.removed then
      id !in after.objects && id in before.objects && before.objects[id] == u.removed[id]
    else SameObject(before, after, id)
  }

  /** The next instance numbers of `before`, recovered from `after`. */
  ghost predicate TracksNext(u: Undo, before: Db, after: Db) {
    && |before.next| == |after.next|
    && (forall i :: i in u.oldNext ==> i < |before.next|)
    && (forall i :: 0 <= i < |before.next| ==>
          before.next[i] == (if i in u.oldNext then u.oldNext[i] else after.next[i]) <= after.next[i])
  }

  /** `u` holds exactly what is needed to get from `after` back to `before`. */
  ghost predicate Tracks(u: Undo, before: Db, after: Db) {
    TracksNext(u, before, after) && forall id :: TracksObject(u, before, after, id)
  }

  lemma TracksNothing(db: Db)
    ensures Tracks(Nothing, db, db)
  {
  }

  lemma TracksCreate(u: Undo, before: Db, after: Db, i: nat, v: Value)
    requires Tracks(u, before, after) && WellNumbered(before) && WellNumbered(after) && i < |after.next|
    ensures var id := ObjectId(i, after.next[i]);
      Tracks(OnCreate(u, id), before, Db(after.objects[id := v], after.next[i := after.next[i] + 1]))
  {
    var id := ObjectId(i, after.next[i]);
    var u', after' := OnCreate(u, id), Db(after.objects[id := v], after.next[i := after.next[i] + 1]);
    forall x ensures TracksObject(u', before, after', x) {
      assert TracksObject(u, before, after, x);
    }
  }

  lemma TracksModify(u: Undo, before: Db, after: Db, id: ObjectId, v: Value)
    requires Tracks(u, before, after) && id in after.objects
    ensures Tracks(OnModify(u, id, after.objects[id]), before, after.(objects := after.objects[id := v]))
  {
    var u', after' := OnModify(u, id, after.objects[id]), after.(objects := after.objects[id := v]);
    forall x ensures TracksObject(u', before, after', x) {
      assert TracksObject(u, before, after, x);
    }
  }

  lemma TracksRemove(u: Undo, before: Db, after: Db, id: ObjectId)
    requires Tracks(u, before, after) && id in after.objects
    ensures Tracks(OnRemove(u, id, after.objects[id]), before, after.(objects := after.objects - {id}))
  {
    var u', after' := OnRemove(u, id, after.objects[id]), after.(objects := after.objects - {id});
    forall x ensures TracksObject(u', before, after', x) {
      assert TracksObject(u, before, after, x);
    }
  }

  /** The database with everything `u` remembers put back. */
  function Reversed(u: Undo, db: Db): Db {
    Db(((db.objects + u.oldValues) - u.newIds) + u.removed,
       seq(|db.next|, i requires 0 <= i < |db.next| => if i in u.oldNext then u.oldNext[i] else db.next[i]))
  }

  /** Undoing a session gives back exactly the database it started from. */
  lemma TracksReversed(u: Undo, before: Db, after: Db)
    requires Tracks(u, before, after)
    ensures Reversed(u, after) == before
  {
    var r := Reversed(u, after);
    forall id ensures SameObject(before, r, id) {
      assert TracksObject(u, before, after, id);
    }
    assert r.objects.Keys == before.objects.Keys by {
      forall id ensures id in r.objects.Keys <==> id in before.objects.Keys { assert SameObject(before, r, id); }
    }
    forall id | id in before.objects ensures r.objects[id] == before.objects[id] { assert SameObject(before, r, id); }
  }

  /** Session `b` folded into the session `a` it was nested in, object by object:
      what was new stays new unless removed, and the oldest value is the one kept. */
  function Merged(a: Undo, b: Undo): Undo {
    Undo((b.oldValues - a.newIds + a.oldValues) - b.removed.Keys,
         b.oldNext + a.oldNext,
         (a.newIds + b.newIds) - b.removed.Keys,
         a.removed + (b.removed - a.newIds + (map id | id in b.removed && id in a.oldValues :: a.oldValues[id])))
  }

  /** Undoing a merged session undoes both: the merge loses nothing and forgets nothing. */
  lemma TracksMerged(a: Undo, b: Undo, d0: Db, d1: Db, d2: Db)
    requires Tracks(a, d0, d1) && Tracks(b, d1, d2) && WellNumbered(d0)
    ensures Tracks(Merged(a, b), d0, d2)
  {
    var u := Merged(a, b);
    TracksNextMerged(a, b, d0, d1, d2);
    hide TracksNext, Merged;
    forall id ensures TracksObject(u, d0, d2, id) {
      assert TracksObject(a, d0, d1, id) && TracksObject(b, d1, d2, id);
      TracksMergedAt(a, b, d0, d1, d2, id);
    }
  }

  lemma TracksNextMerged(a: Undo, b: Undo, d0: Db, d1: Db, d2: Db)
    requires TracksNext(a, d0, d1) && TracksNext(b, d1, d2) && WellNumbered(d0)
    ensures TracksNext(Merged(a, b), d0, d2)
    ensures |d0.next| == |d1.next| && forall i :: 0 <= i < |d0.next| ==> d0.next[i] <= d1.next[i]
  {
  }

  lemma TracksMergedAt(a: Undo, b: Undo, d0: Db, d1: Db, d2: Db, id: ObjectId)
    requires TracksObject(a, d0, d1, id) && TracksObject(b, d1, d2, id) && |d0.next| == |d1.next|
    requires id in d0.objects ==> id.index < |d1.next| && id.instance < d1.next[id.index]
    requires id.index < |d0.next| ==> d0.next[id.index] <= d1.next[id.index]
    ensures TracksObject(Merged(a, b), d0, d2, id)
  {
  }
}
