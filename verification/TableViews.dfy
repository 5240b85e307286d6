/** Contract tables as a contract sees them: rows and secondary keys by table name and primary key. */
module TableViews {
  import opened Options
  import opened TableObjects
  import opened IteratorCache

  datatype Tables = Tables(objects: Objects, names: Names, nextId: nat)

  ghost predicate Kept(ts: Tables) {
    WellKept(ts.objects, ts.names, ts.nextId)
  }

  function KeyOf(rows: bool, t: nat, pk: nat): Key {
    if rows then RowKey(t, pk) else SecKey(t, pk)
  }

  /** The row, or the secondary key, stored for a primary key in a named table. */
  function Found(ts: Tables, rows: bool, n: Name, pk: nat): Option<Obj> {
    if n in ts.names && KeyOf(rows, ts.names[n], pk) in ts.objects then Some(ts.objects[KeyOf(rows, ts.names[n], pk)])
      else None
  }

  /** The bytes an account pays for. */
  ghost function Owed(ts: Tables, account: nat): nat {
    Sum(ts.objects, OwedBy(account))
  }

  /** What an account pays for one object. */
  function Bill(o: Obj, p: nat): nat {
    if o.payer == p then BillableSize(o) else 0
  }

  /** The name of the table an object belongs to. */
  function NameOf(ts: Tables, k: Key): Option<Name> {
    if !k.TableKey? && TableKey(k.t) in ts.objects && ts.objects[TableKey(k.t)].TableObj?
      then Some(ts.objects[TableKey(k.t)].name) else None
  }

  /** The table name and primary key of what an iterator stands for. */
  function Points(ts: Tables, c: Cache, i: int): Option<(Name, nat)> {
    match Get(c, i)
    case None => None
    case Some(k) => match NameOf(ts, k) case None => None case Some(n) => Some((n, if k.TableKey? then 0 else k.pk))
  }

  lemma NameOfKey(ts: Tables, k: Key)
    requires Kept(ts) && k in ts.objects && !k.TableKey?
    ensures NameOf(ts, k).Some? && NameOf(ts, k).value in ts.names && ts.names[NameOf(ts, k).value] == k.t
    ensures Found(ts, k.RowKey?, NameOf(ts, k).value, k.pk) == Some(ts.objects[k])
  {
    hide Sum;
    assert TableOk(ts.objects, ts.names, ts.nextId, k.t);
  }

  lemma KeyOfName(ts: Tables, rows: bool, n: Name, pk: nat)
    requires Kept(ts) && n in ts.names
    ensures NameOf(ts, KeyOf(rows, ts.names[n], pk)) == Some(n)
  {
    hide Sum;
  }

  /** The table with that name, created and charged to `payer` if it is not there. */
  function Opened(ts: Tables, n: Name, payer: nat): (r: Tables)
    ensures n in r.names
  {
    if n in ts.names then ts
    else Tables(ts.objects[TableKey(ts.nextId) := TableObj(n, payer, 0)], ts.names[n := ts.nextId], ts.nextId + 1)
  }

  /** The tables look the same to a contract, and iterators stand for the same rows. */
  ghost predicate SameView(ts: Tables, ts': Tables) {
    && (forall rows, n, pk :: Found(ts', rows, n, pk) == Found(ts, rows, n, pk))
    && (forall k :: k in ts.objects && !k.TableKey? ==> k in ts'.objects && NameOf(ts', k) == NameOf(ts, k))
  }

  lemma OpenedView(ts: Tables, n: Name, payer: nat)
    requires Kept(ts)
    ensures Kept(Opened(ts, n, payer)) && SameView(ts, Opened(ts, n, payer))
    ensures forall p :: Owed(Opened(ts, n, payer), p) ==
              Owed(ts, p) + (if n !in ts.names && p == payer then TABLE_SIZE else 0)
  {
    hide Sum;
    if n !in ts.names {
      NewTableKept(ts.objects, ts.names, ts.nextId, n, payer);
      forall p ensures Owed(Opened(ts, n, payer), p) == Owed(ts, p) + (if p == payer then TABLE_SIZE else 0) {
        SumPut(ts.objects, OwedBy(p), TableKey(ts.nextId), TableObj(n, payer, 0));
      }
      var ts' := Opened(ts, n, payer);
      forall rows, m, pk ensures Found(ts', rows, m, pk) == Found(ts, rows, m, pk) {
        if m == n { assert KeyOf(rows, ts.nextId, pk) !in ts.objects; }
      }
    }
  }

  /** A row or secondary key put into a table that is there. */
  function Stored(ts: Tables, n: Name, pk: nat, o: Obj): Tables
    requires n in ts.names && TableKey(ts.names[n]) in ts.objects && ts.objects[TableKey(ts.names[n])].TableObj?
  {
    ts.(objects := Added(ts.objects, ts.names[n], KeyOf(o.RowObj?, ts.names[n], pk), o))
  }

  /** Only one row, or one secondary key, looks different. */
  ghost predicate ViewBut(ts: Tables, ts': Tables, rows: bool, n: Name, pk: nat, o: Option<Obj>) {
    && (forall r, m, q :: Found(ts', r, m, q) == if r == rows && m == n && q == pk then o else Found(ts, r, m, q))
    && (forall k :: k in ts.objects && k in ts'.objects && !k.TableKey? ==> NameOf(ts', k) == NameOf(ts, k))
  }

  lemma StoredView(ts: Tables, n: Name, pk: nat, o: Obj)
    requires Kept(ts) && n in ts.names && !o.TableObj? && Found(ts, o.RowObj?, n, pk).None?
    ensures TableKey(ts.names[n]) in ts.objects && ts.objects[TableKey(ts.names[n])].TableObj?
    ensures Kept(Stored(ts, n, pk, o)) && ViewBut(ts, Stored(ts, n, pk, o), o.RowObj?, n, pk, Some(o))
    ensures forall p :: Owed(Stored(ts, n, pk, o), p) == Owed(ts, p) + Bill(o, p)
  {
    hide Sum;
    var t := ts.names[n];
    var k := KeyOf(o.RowObj?, t, pk);
    KeyOfName(ts, o.RowObj?, n, pk);
    AddedKept(ts.objects, ts.names, ts.nextId, t, k, o);
    forall p ensures Owed(Stored(ts, n, pk, o), p) == Owed(ts, p) + Bill(o, p) {
      AddedSums(ts.objects, t, k, o, OwedBy(p));
    }
    var ts' := Stored(ts, n, pk, o);
    forall r, m, q
      ensures Found(ts', r, m, q) == if r == o.RowObj? && m == n && q == pk then Some(o) else Found(ts, r, m, q) {
      if m in ts.names { KeyOfName(ts, r, m, q); }
    }
  }

  function Changed(ts: Tables, k: Key, o: Obj): Tables {
    ts.(objects := ts.objects[k := o])
  }

  lemma ChangedView(ts: Tables, k: Key, o: Obj)
    requires Kept(ts) && k in ts.objects && !k.TableKey? && !o.TableObj? && (k.RowKey? <==> o.RowObj?)
    ensures NameOf(ts, k).Some? && Kept(Changed(ts, k, o))
    ensures ViewBut(ts, Changed(ts, k, o), k.RowKey?, NameOf(ts, k).value, k.pk, Some(o))
    ensures forall p :: Owed(Changed(ts, k, o), p) == Owed(ts, p) + Bill(o, p) - Bill(ts.objects[k], p)
  {
    hide Sum;
    NameOfKey(ts, k);
    ChangedKept(ts.objects, ts.names, ts.nextId, k, o);
    forall p ensures Owed(Changed(ts, k, o), p) == Owed(ts, p) + Bill(o, p) - Bill(ts.objects[k], p) {
      SumPut(ts.objects, OwedBy(p), k, o);
    }
    var ts', n := Changed(ts, k, o), NameOf(ts, k).value;
    forall r, m, q
      ensures Found(ts', r, m, q) == if r == k.RowKey? && m == n && q == k.pk then Some(o) else Found(ts, r, m, q) {
      if m in ts.names { KeyOfName(ts, r, m, q); }
    }
  }

  /** A row or secondary key taken out of its table. */
  function Erased(ts: Tables, k: Key): Tables
    requires k in ts.objects && !k.TableKey? && TableKey(k.t) in ts.objects && ts.objects[TableKey(k.t)].TableObj?
    requires ts.objects[TableKey(k.t)].count > 0
  {
    ts.(objects := Dropped(ts.objects, k))
  }

  lemma ErasedView(ts: Tables, k: Key)
    requires Kept(ts) && k in ts.objects && !k.TableKey?
    ensures TableKey(k.t) in ts.objects && ts.objects[TableKey(k.t)].TableObj? && ts.objects[TableKey(k.t)].count > 0
    ensures NameOf(ts, k).Some? && Kept(Erased(ts, k))
    ensures ViewBut(ts, Erased(ts, k), k.RowKey?, NameOf(ts, k).value, k.pk, None)
    ensures Erased(ts, k).objects.Keys == ts.objects.Keys - {k}
    ensures forall p :: Owed(Erased(ts, k), p) == Owed(ts, p) - Bill(ts.objects[k], p)
  {
    hide Sum;
    NameOfKey(ts, k);
    DroppedKept(ts.objects, ts.names, ts.nextId, k);
    forall p ensures Owed(Erased(ts, k), p) == Owed(ts, p) - Bill(ts.objects[k], p) {
      DroppedSums(ts.objects, k, OwedBy(p));
    }
    var ts', n := Erased(ts, k), NameOf(ts, k).value;
    forall r, m, q
      ensures Found(ts', r, m, q) == if r == k.RowKey? && m == n && q == k.pk then None else Found(ts, r, m, q) {
      if m in ts.names { KeyOfName(ts, r, m, q); }
    }
  }

  /** A table removed once it is empty. */
  function Closed(ts: Tables, t: nat): Tables
    requires TableKey(t) in ts.objects && ts.objects[TableKey(t)].TableObj?
  {
    Tables(ts.objects - {TableKey(t)}, ts.names - {ts.objects[TableKey(t)].name}, ts.nextId)
  }

  lemma ClosedView(ts: Tables, t: nat)
    requires Kept(ts) && TableKey(t) in ts.objects && ts.objects[TableKey(t)].TableObj?
    requires ts.objects[TableKey(t)].count == 0
    ensures Kept(Closed(ts, t)) && SameView(ts, Closed(ts, t))
    ensures forall p :: Owed(Closed(ts, t), p) == Owed(ts, p) - Bill(ts.objects[TableKey(t)], p)
  {
    EmptyTable(ts, t);
    hide Sum;
    DroppedTableKept(ts.objects, ts.names, ts.nextId, t);
    forall p ensures Owed(Closed(ts, t), p) == Owed(ts, p) - Bill(ts.objects[TableKey(t)], p) {
      SumTake(ts.objects, OwedBy(p), TableKey(t));
    }
    assert TableOk(ts.objects, ts.names, ts.nextId, t);
  }

  lemma EmptyTable(ts: Tables, t: nat)
    requires Kept(ts) && TableKey(t) in ts.objects && ts.objects[TableKey(t)].TableObj?
    requires ts.objects[TableKey(t)].count == 0
    ensures forall k :: k in ts.objects && !k.TableKey? ==> k.t != t
  {
    assert TableOk(ts.objects, ts.names, ts.nextId, t);
    forall k | k in ts.objects && !k.TableKey? ensures k.t != t {
      SumTake(ts.objects, RowsIn(t), k);
    }
  }
}
