/** The objects behind contract tables: tables, their rows and secondary keys, and what each costs. */
module TableObjects {
  import opened Words

  datatype Name = Name(code: nat, scope: nat, table: nat)

  /** Rows and secondary keys are found by the id of their table and the primary key. */
  datatype Key = TableKey(id: nat) | RowKey(t: nat, pk: nat) | SecKey(t: nat, pk: nat)

  datatype Obj =
    | TableObj(name: Name, payer: nat, count: nat)
    | RowObj(payer: nat, value: seq<byte>)
    | SecObj(payer: nat, key: nat)

  type Objects = map<Key, Obj>
  type Names = map<Name, nat>

  /** Billable sizes are rounded up to 16 bytes. */
  function Billable(size: nat): nat {
    (size + 15) / 16 * 16
  }

  const TABLE_SIZE: nat := Billable(44 + 2 * 32)
  const ROW_OVERHEAD: nat := Billable(32 + 8 + 4 + 2 * 32)
  const SEC_SIZE: nat := Billable(24 + 8 + 3 * 32)

  function BillableSize(o: Obj): nat {
    match o
    case TableObj(_, _, _) => TABLE_SIZE
    case RowObj(_, value) => |value| + ROW_OVERHEAD
    case SecObj(_, _) => SEC_SIZE
  }

  /** What can be added up over objects: the bytes an account pays for, the rows of a table. */
  datatype Measure = OwedBy(account: nat) | RowsIn(id: nat)

  function Weigh(m: Measure, k: Key, o: Obj): nat {
    match m
    case OwedBy(account) => if o.payer == account then BillableSize(o) else 0
    case RowsIn(id) => if !k.TableKey? && k.t == id then 1 else 0
  }

  ghost function Sum(objects: Objects, m: Measure): nat
    decreases |objects|
  {
    if objects == map[] then 0
    else
      var k :| k in objects;
      Weigh(m, k, objects[k]) + Sum(objects - {k}, m)
  }

  /** The sum does not depend on the order in which it is taken. */
  lemma {:induction false} SumTake(objects: Objects, m: Measure, k: Key)
    requires k in objects
    ensures Sum(objects, m) == Weigh(m, k, objects[k]) + Sum(objects - {k}, m)
    decreases |objects|
  {
    hide Weigh;
    var j :| j in objects && Sum(objects, m) == Weigh(m, j, objects[j]) + Sum(objects - {j}, m);
    if j != k {
      SumTake(objects - {j}, m, k);
      SumTake(objects - {k}, m, j);
      assert objects - {j} - {k} == objects - {k} - {j};
    }
  }

  lemma SumPut(objects: Objects, m: Measure, k: Key, o: Obj)
    ensures Sum(objects[k := o], m) ==
      Sum(objects, m) + Weigh(m, k, o) - (if k in objects then Weigh(m, k, objects[k]) else 0)
  {
    hide Weigh;
    SumTake(objects[k := o], m, k);
    if k in objects {
      SumTake(objects, m, k);
      assert objects[k := o] - {k} == objects - {k};
    } else {
      assert objects[k := o] - {k} == objects;
    }
  }

  /** Tables are filed under their names, rows belong to tables, and tables count their rows. */
  ghost predicate WellKept(objects: Objects, names: Names, nextId: nat) {
    && (forall n :: n in names ==> TableKey(names[n]) in objects)
    && (forall id :: TableKey(id) in objects ==> TableOk(objects, names, nextId, id))
    && (forall k :: k in objects && !k.TableKey? ==>
          TableKey(k.t) in objects && (k.RowKey? <==> objects[k].RowObj?) && !objects[k].TableObj?)
    && (forall n :: n in names ==> objects[TableKey(names[n])].TableObj? && objects[TableKey(names[n])].name == n)
  }

  ghost predicate TableOk(objects: Objects, names: Names, nextId: nat, id: nat)
    requires TableKey(id) in objects
  {
    var o := objects[TableKey(id)];
    && o.TableObj? && id < nextId && o.name in names && names[o.name] == id && o.count == Sum(objects, RowsIn(id))
  }

  /** One more row, or secondary key, in table `t`. */
  function Added(objects: Objects, t: nat, k: Key, o: Obj): Objects
    requires TableKey(t) in objects && objects[TableKey(t)].TableObj?
  {
    var table := objects[TableKey(t)];
    objects[k := o][TableKey(t) := table.(count := table.count + 1)]
  }

  /** One row, or secondary key, less in its table. */
  function Dropped(objects: Objects, k: Key): Objects
    requires k in objects && !k.TableKey? && TableKey(k.t) in objects && objects[TableKey(k.t)].TableObj?
    requires objects[TableKey(k.t)].count > 0
  {
    var table := objects[TableKey(k.t)];
    (objects - {k})[TableKey(k.t) := table.(count := table.count - 1)]
  }

  lemma AddedSums(objects: Objects, t: nat, k: Key, o: Obj, m: Measure)
    requires TableKey(t) in objects && objects[TableKey(t)].TableObj? && k !in objects && !k.TableKey?
    ensures Sum(Added(objects, t, k, o), m) == Sum(objects, m) + Weigh(m, k, o)
  {
    hide Sum;
    var table := objects[TableKey(t)];
    SumPut(objects, m, k, o);
    SumPut(objects[k := o], m, TableKey(t), table.(count := table.count + 1));
  }

  lemma DroppedSums(objects: Objects, k: Key, m: Measure)
    requires k in objects && !k.TableKey? && TableKey(k.t) in objects && objects[TableKey(k.t)].TableObj?
    requires objects[TableKey(k.t)].count > 0
    ensures Sum(Dropped(objects, k), m) == Sum(objects, m) - Weigh(m, k, objects[k])
  {
    hide Sum;
    var table := objects[TableKey(k.t)];
    SumTake(objects, m, k);
    SumPut(objects - {k}, m, TableKey(k.t), table.(count := table.count - 1));
  }

  lemma AddedKept(objects: Objects, names: Names, nextId: nat, t: nat, k: Key, o: Obj)
    requires WellKept(objects, names, nextId) && TableKey(t) in objects && k !in objects && !k.TableKey? && k.t == t
    requires (k.RowKey? <==> o.RowObj?) && !o.TableObj?
    ensures objects[TableKey(t)].TableObj? && WellKept(Added(objects, t, k, o), names, nextId)
  {
    hide Sum;
    assert TableOk(objects, names, nextId, t);
    var objects' := Added(objects, t, k, o);
    forall id | TableKey(id) in objects' ensures TableOk(objects', names, nextId, id) {
      assert TableOk(objects, names, nextId, id);
      AddedSums(objects, t, k, o, RowsIn(id));
    }
  }

  lemma HasRow(objects: Objects, names: Names, nextId: nat, k: Key)
    requires WellKept(objects, names, nextId) && k in objects && !k.TableKey?
    ensures objects[TableKey(k.t)].TableObj? && objects[TableKey(k.t)].count > 0
  {
    assert TableOk(objects, names, nextId, k.t);
    SumTake(objects, RowsIn(k.t), k);
  }

  lemma DroppedKept(objects: Objects, names: Names, nextId: nat, k: Key)
    requires WellKept(objects, names, nextId) && k in objects && !k.TableKey?
    ensures objects[TableKey(k.t)].TableObj? && objects[TableKey(k.t)].count > 0
    ensures WellKept(Dropped(objects, k), names, nextId)
  {
    hide Sum;
    HasRow(objects, names, nextId, k);
    var objects' := Dropped(objects, k);
    forall id | TableKey(id) in objects' ensures TableOk(objects', names, nextId, id) {
      assert TableOk(objects, names, nextId, id);
      DroppedSums(objects, k, RowsIn(id));
    }
  }

  lemma ChangedKept(objects: Objects, names: Names, nextId: nat, k: Key, o: Obj)
    requires WellKept(objects, names, nextId) && k in objects && !k.TableKey? && (k.RowKey? <==> o.RowObj?)
    requires !o.TableObj?
    ensures WellKept(objects[k := o], names, nextId)
  {
    hide Sum;
    forall id | TableKey(id) in objects ensures TableOk(objects[k := o], names, nextId, id) {
      assert TableOk(objects, names, nextId, id);
      SumPut(objects, RowsIn(id), k, o);
    }
  }

  lemma NewTableKept(objects: Objects, names: Names, nextId: nat, n: Name, payer: nat)
    requires WellKept(objects, names, nextId) && n !in names
    ensures WellKept(objects[TableKey(nextId) := TableObj(n, payer, 0)], names[n := nextId], nextId + 1)
    ensures TableKey(nextId) !in objects
  {
    assert TableKey(nextId) !in objects;
    NoRows(objects, nextId);
    hide Sum;
    var objects' := objects[TableKey(nextId) := TableObj(n, payer, 0)];
    forall id | TableKey(id) in objects' ensures TableOk(objects', names[n := nextId], nextId + 1, id) {
      SumPut(objects, RowsIn(id), TableKey(nextId), TableObj(n, payer, 0));
      if id != nextId { assert TableOk(objects, names, nextId, id); }
    }
  }

  /** A table that does not exist has no rows. */
  lemma {:induction false} NoRows(objects: Objects, id: nat)
    requires forall k :: k in objects && !k.TableKey? ==> k.t != id
    ensures Sum(objects, RowsIn(id)) == 0
    decreases |objects|
  {
    if objects != map[] {
      var k :| k in objects;
      SumTake(objects, RowsIn(id), k);
      NoRows(objects - {k}, id);
    }
  }

  /** An empty table has no rows left that its removal could orphan. */
  lemma DroppedTableKept(objects: Objects, names: Names, nextId: nat, t: nat)
    requires WellKept(objects, names, nextId) && TableKey(t) in objects && objects[TableKey(t)].TableObj?
    requires objects[TableKey(t)].count == 0
    ensures WellKept(objects - {TableKey(t)}, names - {objects[TableKey(t)].name}, nextId)
  {
    assert TableOk(objects, names, nextId, t);
    forall k | k in objects && !k.TableKey? ensures k.t != t {
      SumTake(objects, RowsIn(t), k);
    }
    hide Sum;
    var objects', names' := objects - {TableKey(t)}, names - {objects[TableKey(t)].name};
    forall id | TableKey(id) in objects' ensures TableOk(objects', names', nextId, id) {
      assert TableOk(objects, names, nextId, id);
      SumTake(objects, RowsIn(id), TableKey(t));
    }
  }
}
