/** Iterators handed to contracts: numbers that stand for rows, and for the ends of tables. */
module IteratorCache {
  import opened Options
  import opened TableObjects

  /** `objects[i]` is what iterator `i` stands for, None once it is gone; `index` is the way back. The
      end of table `ends[j]` is iterator `-(j + 2)`; -1 is no iterator at all. */
  datatype Cache = Cache(objects: seq<Option<Key>>, index: map<Key, nat>, tables: map<nat, int>, ends: seq<nat>)

  const EMPTY: Cache := Cache([], map[], map[], [])

  /** What an iterator stands for: None if it is an end, out of range or gone. */
  function Get(c: Cache, i: int): Option<Key> {
    if 0 <= i < |c.objects| then c.objects[i] else None
  }

  /** Iterators and objects match one to one, every object is there, and its table is known. */
  ghost predicate Sound(c: Cache, objects: Objects, rows: bool) {
    Forth(c, objects, rows) && Back(c) && Ends(c)
  }

  ghost predicate Forth(c: Cache, objects: Objects, rows: bool) {
    forall i :: Get(c, i).Some? ==>
      var k := Get(c, i).value;
      !k.TableKey? && k.RowKey? == rows && k in objects && k in c.index && c.index[k] == i && k.t in c.tables
  }

  ghost predicate Back(c: Cache) {
    forall k :: k in c.index ==> Get(c, c.index[k]) == Some(k)
  }

  /** A table has one end. */
  ghost predicate Ends(c: Cache) {
    && (forall t :: t in c.tables ==>
          c.tables[t] <= -2 && -c.tables[t] - 2 < |c.ends| && c.ends[-c.tables[t] - 2] == t)
    && forall j :: 0 <= j < |c.ends| ==> c.ends[j] in c.tables && c.tables[c.ends[j]] == -(j + 2)
  }

  function WithTable(c: Cache, t: nat): Cache {
    if t in c.tables then c else c.(tables := c.tables[t := -(|c.ends| + 2)], ends := c.ends + [t])
  }

  function Add(c: Cache, k: Key): (Cache, int) {
    if k in c.index then (c, c.index[k])
    else (c.(objects := c.objects + [Some(k)], index := c.index[k := |c.objects|]), |c.objects|)
  }

  function Forget(c: Cache, i: nat): Cache
    requires Get(c, i).Some?
  {
    c.(objects := c.objects[i := None], index := c.index - {c.objects[i].value})
  }

  /** A table that is known keeps its end; a new one gets the next. */
  lemma WithTableSound(c: Cache, objects: Objects, rows: bool, t: nat)
    requires Sound(c, objects, rows)
    ensures Sound(WithTable(c, t), objects, rows) && t in WithTable(c, t).tables
    ensures forall u :: u in c.tables ==> u in WithTable(c, t).tables && WithTable(c, t).tables[u] == c.tables[u]
    ensures t !in c.tables ==> WithTable(c, t).tables[t] == -(|c.ends| + 2)
    ensures forall i :: Get(WithTable(c, t), i) == Get(c, i)
  {
    var c' := WithTable(c, t);
    assert forall i :: Get(c', i) == Get(c, i);
    EndsMore(c, t);
    hide Get, Ends;
  }

  lemma EndsMore(c: Cache, t: nat)
    requires Ends(c)
    ensures Ends(WithTable(c, t))
  {
  }

  /** The iterator for an object, old or new; every other iterator stands for what it stood for. */
  lemma AddSound(c: Cache, objects: Objects, rows: bool, k: Key)
    requires Sound(c, objects, rows) && !k.TableKey? && k.RowKey? == rows && k in objects && k.t in c.tables
    ensures var (c', i) := Add(c, k);
      && Sound(c', objects, rows) && i >= 0 && Get(c', i) == Some(k)
      && forall j :: j != i ==> Get(c', j) == Get(c, j)
  {
    hide Ends;
    EndsKept(c, Add(c, k).0);
    if k !in c.index {
      AddedGet(c, k);
      AddedBack(c, k);
      hide Get, Back;
      assert Add(c, k).0.index == c.index[k := |c.objects|];
    }
  }

  lemma AddedGet(c: Cache, k: Key)
    requires k !in c.index
    ensures forall j :: Get(Add(c, k).0, j) == if j == |c.objects| then Some(k) else Get(c, j)
  {
  }

  lemma AddedBack(c: Cache, k: Key)
    requires k !in c.index && Back(c)
    ensures Back(Add(c, k).0)
  {
    AddedGet(c, k);
    forall x | x in c.index ensures c.index[x] != |c.objects| {
      assert Get(c, c.index[x]) == Some(x);
    }
  }

  lemma EndsKept(c: Cache, c': Cache)
    requires Ends(c) && c.tables == c'.tables && c.ends == c'.ends
    ensures Ends(c')
  {
  }

  lemma ForgetSound(c: Cache, objects: Objects, rows: bool, i: nat)
    requires Sound(c, objects, rows) && Get(c, i).Some?
    ensures Sound(Forget(c, i), objects - {Get(c, i).value}, rows)
    ensures forall j :: Get(Forget(c, i), j) == if j == i then None else Get(c, j)
  {
    hide Ends;
    var c' := Forget(c, i);
    EndsKept(c, c');
    forall j ensures Get(c', j) == if j == i then None else Get(c, j) {
    }
  }

  lemma StillSound(c: Cache, objects: Objects, objects': Objects, rows: bool)
    requires Sound(c, objects, rows) && forall k :: k in objects && !k.TableKey? ==> k in objects'
    ensures Sound(c, objects', rows)
  {
  }
}
