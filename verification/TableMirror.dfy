/** What a contract's view of one of its tables has to agree with on the host. */
module TableMirror {
  import opened Options
  import opened Packing
  import opened TableObjects
  import opened IteratorCache
  import opened TableViews
  import opened ApplyContext

  const UNSET: nat := 0xFFFF_FFFF_FFFF_FFFF
  const NO_KEY: nat := 0xFFFF_FFFF_FFFF_FFFE
  const MAX_INDICES: nat := 16

  /** A table: where it is, the type of its objects, their primary key and their secondary keys. */
  datatype Schema = Schema(code: nat, scope: nat, table: nat, lt: Order, t: Type, key: Value -> nat,
    extract: seq<Value -> nat>)

  predicate Proper(sch: Schema) {
    sch.table % 16 == 0 && |sch.extract| <= MAX_INDICES
  }

  /** An object the table can hold: it unpacks to itself, and its key is a 64-bit number. */
  predicate Holds(sch: Schema, v: Value) {
    HasType(sch.lt, v, sch.t) && Separable(sch.lt, v, sch.t) && sch.key(v) <= UNSET
  }

  function Primary(sch: Schema): Name {
    Name(sch.code, sch.scope, sch.table)
  }

  /** The table of a secondary index differs in the last four bits of its name. */
  function Secondary(sch: Schema, i: nat): Name {
    Name(sch.code, sch.scope, sch.table + i)
  }

  /** The host row for a key holds exactly the packed object. */
  ghost predicate RowHere(sch: Schema, ts: Tables, contents: map<nat, Value>, pk: nat) {
    match Found(ts, true, Primary(sch), pk)
    case None => pk !in contents
    case Some(o) =>
      && pk in contents && Holds(sch, contents[pk]) && sch.key(contents[pk]) == pk
      && o.RowObj? && o.value == Pack(sch.lt, contents[pk], sch.t)
  }

  /** The secondary index holds exactly the secondary key of the object. */
  ghost predicate SecHere(sch: Schema, ts: Tables, contents: map<nat, Value>, i: nat, pk: nat)
    requires i < |sch.extract|
  {
    match Found(ts, false, Secondary(sch, i), pk)
    case None => pk !in contents
    case Some(o) => pk in contents && o.SecObj? && o.key == sch.extract[i](contents[pk])
  }

  ghost predicate RowsHere(sch: Schema, ts: Tables, contents: map<nat, Value>) {
    forall pk :: RowHere(sch, ts, contents, pk)
  }

  ghost predicate SecsHere(sch: Schema, ts: Tables, contents: map<nat, Value>, i: nat)
    requires i < |sch.extract|
  {
    forall pk :: SecHere(sch, ts, contents, i, pk)
  }

  ghost predicate AllSecsHere(sch: Schema, ts: Tables, contents: map<nat, Value>) {
    forall i :: 0 <= i < |sch.extract| ==> SecsHere(sch, ts, contents, i)
  }

  /** An object in the cache, with its host iterators; -1 where one is not known. */
  datatype Item = Item(value: Value, itr: int, iters: seq<int>)

  ghost predicate ItemOk(sch: Schema, ts: Tables, rows: Cache, secs: Cache, contents: map<nat, Value>, item: Item) {
    && sch.key(item.value) in contents && contents[sch.key(item.value)] == item.value
    && Points(ts, rows, item.itr) == Some((Primary(sch), sch.key(item.value)))
    && |item.iters| == |sch.extract|
    && forall i :: 0 <= i < |item.iters| && item.iters[i] >= 0 ==>
         Points(ts, secs, item.iters[i]) == Some((Secondary(sch, i), sch.key(item.value)))
  }

  predicate KeysDistinct(sch: Schema, items: seq<Item>) {
    forall i, j :: 0 <= i < j < |items| ==> sch.key(items[i].value) != sch.key(items[j].value)
  }

  ghost predicate ItemsOk(sch: Schema, ts: Tables, rows: Cache, secs: Cache, contents: map<nat, Value>,
                          items: seq<Item>) {
    KeysDistinct(sch, items) && forall j :: 0 <= j < |items| ==> ItemOk(sch, ts, rows, secs, contents, items[j])
  }

  predicate NextOk(contents: map<nat, Value>, next: nat) {
    next <= UNSET && (next < NO_KEY ==> forall pk :: pk in contents ==> pk < next)
  }

  /** A host row written for an object. */
  lemma RowPut(sch: Schema, ts: Tables, ts': Tables, contents: map<nat, Value>, v: Value, payer: nat)
    requires RowsHere(sch, ts, contents) && Holds(sch, v)
    requires ViewBut(ts, ts', true, Primary(sch), sch.key(v), Some(RowObj(payer, Pack(sch.lt, v, sch.t))))
    ensures RowsHere(sch, ts', contents[sch.key(v) := v])
    ensures forall i, c :: 0 <= i < |sch.extract| && SecsHere(sch, ts, c, i) ==> SecsHere(sch, ts', c, i)
  {
    hide Found;
    var contents' := contents[sch.key(v) := v];
    forall pk ensures RowHere(sch, ts', contents', pk) {
      assert RowHere(sch, ts, contents, pk);
    }
    SecsUntouched(sch, ts, ts', Primary(sch), sch.key(v), Some(RowObj(payer, Pack(sch.lt, v, sch.t))));
  }

  lemma SecsUntouched(sch: Schema, ts: Tables, ts': Tables, n: Name, q: nat, o: Option<Obj>)
    requires ViewBut(ts, ts', true, n, q, o)
    ensures forall i, c :: 0 <= i < |sch.extract| && SecsHere(sch, ts, c, i) ==> SecsHere(sch, ts', c, i)
  {
    hide Found;
    forall i, c | 0 <= i < |sch.extract| && SecsHere(sch, ts, c, i) ensures SecsHere(sch, ts', c, i) {
      forall pk ensures SecHere(sch, ts', c, i, pk) {
        assert SecHere(sch, ts, c, i, pk);
      }
    }
  }

  lemma RowDropped(sch: Schema, ts: Tables, ts': Tables, contents: map<nat, Value>, pk: nat)
    requires RowsHere(sch, ts, contents) && ViewBut(ts, ts', true, Primary(sch), pk, None)
    ensures RowsHere(sch, ts', contents - {pk})
    ensures forall i, c :: 0 <= i < |sch.extract| && SecsHere(sch, ts, c, i) ==> SecsHere(sch, ts', c, i)
  {
    hide Found;
    var contents' := contents - {pk};
    forall q ensures RowHere(sch, ts', contents', q) {
      assert RowHere(sch, ts, contents, q);
    }
    SecsUntouched(sch, ts, ts', Primary(sch), pk, None);
  }

  /** A secondary key written, or taken away, for one primary key. */
  lemma SecChanged(sch: Schema, ts: Tables, ts': Tables, contents: map<nat, Value>, contents': map<nat, Value>, i: nat,
                   pk: nat, o: Option<Obj>)
    requires Proper(sch) && i < |sch.extract| && SecsHere(sch, ts, contents, i)
    requires ViewBut(ts, ts', false, Secondary(sch, i), pk, o)
    requires contents - {pk} == contents' - {pk}
    requires
      match o
      case None => pk !in contents'
      case Some(x) => pk in contents' && x.SecObj? && x.key == sch.extract[i](contents'[pk])
    ensures SecsHere(sch, ts', contents', i)
    ensures forall j, c :: 0 <= j < |sch.extract| && j != i && SecsHere(sch, ts, c, j) ==> SecsHere(sch, ts', c, j)
    ensures forall c :: RowsHere(sch, ts, c) ==> RowsHere(sch, ts', c)
  {
    hide Found;
    forall q ensures SecHere(sch, ts', contents', i, q) {
      assert SecHere(sch, ts, contents, i, q);
      if q != pk { SameElsewhere(contents, contents', pk, q); }
    }
    forall j, c | 0 <= j < |sch.extract| && j != i && SecsHere(sch, ts, c, j) ensures SecsHere(sch, ts', c, j) {
      forall q ensures SecHere(sch, ts', c, j, q) {
        assert SecHere(sch, ts, c, j, q);
      }
    }
    forall c | RowsHere(sch, ts, c) ensures RowsHere(sch, ts', c) {
      forall q ensures RowHere(sch, ts', c, q) {
        assert RowHere(sch, ts, c, q);
      }
    }
  }

  lemma SameElsewhere(a: map<nat, Value>, b: map<nat, Value>, pk: nat, q: nat)
    requires a - {pk} == b - {pk} && q != pk
    ensures (q in a <==> q in b) && (q in a ==> a[q] == b[q])
  {
    assert q in a <==> q in a - {pk};
    assert q in b <==> q in b - {pk};
  }

  /** A secondary key that does not change need not be written. */
  lemma SecUnchanged(sch: Schema, ts: Tables, contents: map<nat, Value>, i: nat, v: Value)
    requires i < |sch.extract| && SecsHere(sch, ts, contents, i) && sch.key(v) in contents
    requires sch.extract[i](v) == sch.extract[i](contents[sch.key(v)])
    ensures SecsHere(sch, ts, contents[sch.key(v) := v], i)
  {
    hide Found;
    var contents' := contents[sch.key(v) := v];
    forall q ensures SecHere(sch, ts, contents', i, q) {
      assert SecHere(sch, ts, contents, i, q);
    }
  }

  /** Items stay right when their iterators keep what they stand for and their objects do not change. */
  lemma ItemsStay(sch: Schema, ts: Tables, rows: Cache, secs: Cache, contents: map<nat, Value>,
                  ts': Tables, rows': Cache, secs': Cache, contents': map<nat, Value>, items: seq<Item>)
    requires ItemsOk(sch, ts, rows, secs, contents, items)
    requires ItersKept(ts, rows, ts', rows') && ItersKept(ts, secs, ts', secs')
    requires forall j :: 0 <= j < |items| ==>
               var pk := sch.key(items[j].value); pk in contents' && contents'[pk] == items[j].value
    ensures ItemsOk(sch, ts', rows', secs', contents', items)
  {
    hide Points;
    forall j | 0 <= j < |items| ensures ItemOk(sch, ts', rows', secs', contents', items[j]) {
      assert ItemOk(sch, ts, rows, secs, contents, items[j]);
    }
  }

  /** The same when one iterator goes that stood for a key of none of the items. */
  lemma ItemsStayBut(sch: Schema, ts: Tables, rows: Cache, secs: Cache, contents: map<nat, Value>,
                     ts': Tables, rows': Cache, secs': Cache, items: seq<Item>, gone: int, n: Name, pk: nat,
                     ofRow: bool)
    requires ItemsOk(sch, ts, rows, secs, contents, items)
    requires Points(ts, if ofRow then rows else secs, gone) == Some((n, pk))
    requires if ofRow then ItersKeptBut(ts, rows, ts', rows', gone) && ItersKept(ts, secs, ts', secs')
             else ItersKept(ts, rows, ts', rows') && ItersKeptBut(ts, secs, ts', secs', gone)
    requires forall j :: 0 <= j < |items| ==> sch.key(items[j].value) != pk
    ensures ItemsOk(sch, ts', rows', secs', contents, items)
  {
    hide Points;
    forall j | 0 <= j < |items| ensures ItemOk(sch, ts', rows', secs', contents, items[j]) {
      assert ItemOk(sch, ts, rows, secs, contents, items[j]);
    }
  }

  /** Two iterators that stand for the same row are the same. */
  lemma PointsOnce(ts: Tables, c: Cache, rows: bool, i: int, j: int)
    requires Kept(ts) && Sound(c, ts.objects, rows) && Points(ts, c, i).Some? && Points(ts, c, i) == Points(ts, c, j)
    ensures i == j
  {
    hide WellKept;
    var k, m := Get(c, i).value, Get(c, j).value;
    NameOfKey(ts, k);
    NameOfKey(ts, m);
    assert k == m;
  }
}
