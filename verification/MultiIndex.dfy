/** The contract side of a table: a cache of unpacked objects over the host rows, and secondary indices. */
module MultiIndex {
  import opened Options
  import opened Words
  import opened Packing
  import opened Datastream
  import opened TableObjects
  import opened IteratorCache
  import opened TableViews
  import opened ApplyContext
  import opened TableMirror

  class MultiIndex {
    const sch: Schema
    const host: Context
    var next: nat
    var items: seq<Item>
    /** The objects of the table, by primary key. */
    ghost var contents: map<nat, Value>

    ghost predicate Valid()
      reads this, host
    {
      && host.Valid() && Proper(sch) && RowsHere(sch, host.tables, contents)
      && AllSecsHere(sch, host.tables, contents)
      && ItemsOk(sch, host.tables, host.rowIters, host.secIters, contents, items)
      && NextOk(contents, next)
    }

    constructor (sch: Schema, host: Context, ghost contents: map<nat, Value>)
      requires host.Valid() && Proper(sch) && RowsHere(sch, host.tables, contents)
      requires AllSecsHere(sch, host.tables, contents)
      ensures Valid() && this.sch == sch && this.host == host && this.contents == contents
    {
      this.sch, this.host, next, items, this.contents := sch, host, UNSET, [], contents;
    }

    /** Stores the secondary keys of a new object, index by index. */
    method StoreSecondaries(payer: nat, v: Value, ghost before: map<nat, Value>) returns (iters: seq<int>)
      requires host.Valid() && Proper(sch) && sch.code == host.receiver && host.MayPay(payer) && sch.key(v) !in before
      requires AllSecsHere(sch, host.tables, before)
      modifies host
      ensures host.Valid() && |iters| == |sch.extract|
      ensures forall c :: RowsHere(sch, old(host.tables), c) ==> RowsHere(sch, host.tables, c)
      ensures AllSecsHere(sch, host.tables, before[sch.key(v) := v])
      ensures forall i :: 0 <= i < |iters| ==>
                Points(host.tables, host.secIters, iters[i]) == Some((Secondary(sch, i), sch.key(v)))
      ensures ItersKept(old(host.tables), old(host.rowIters), host.tables, host.rowIters)
      ensures ItersKept(old(host.tables), old(host.secIters), host.tables, host.secIters)
    {
      hide Found, Points, ViewBut, Sum, WellKept, Sound, SecsHere, RowsHere;
      iters := [];
      var i := 0;
      ghost var after := before[sch.key(v) := v];
      while i < |sch.extract|
        invariant i <= |sch.extract| && |iters| == i && host.Valid()
        invariant forall c :: RowsHere(sch, old(host.tables), c) ==> RowsHere(sch, host.tables, c)
        invariant forall j :: 0 <= j < i ==> SecsHere(sch, host.tables, after, j)
        invariant forall j :: i <= j < |sch.extract| ==> SecsHere(sch, host.tables, before, j)
        invariant forall j :: 0 <= j < i ==>
                    Points(host.tables, host.secIters, iters[j]) == Some((Secondary(sch, j), sch.key(v)))
        invariant ItersKept(old(host.tables), old(host.rowIters), host.tables, host.rowIters)
        invariant ItersKept(old(host.tables), old(host.secIters), host.tables, host.secIters)
      {
        ghost var ts := host.tables;
        NotThere(sch, host.tables, before, i, sch.key(v));
        var x := host.IdxStore(sch.scope, sch.table + i, payer, sch.key(v), sch.extract[i](v));
        SecChanged(sch, ts, host.tables, before, after, i, sch.key(v),
          Some(SecObj(host.Payer(payer), sch.extract[i](v))));
        iters, i := iters + [x.value], i + 1;
      }
    }

    /** The key after `pk`, unless it is reserved. */
    function After(pk: nat): nat {
      if pk >= NO_KEY then NO_KEY else pk + 1
    }

    /** Puts a new object into the table. */
    method Emplace(payer: nat, v: Value) returns (ok: bool)
      requires Valid() && Holds(sch, v)
      modifies this, host
      ensures ok <==> sch.code == host.receiver && host.MayPay(payer) && sch.key(v) !in old(contents)
      ensures ok ==> Valid() && contents == old(contents)[sch.key(v) := v]
      ensures ok ==> |items| == |old(items)| + 1 && old(items) <= items && items[|old(items)|].value == v
      ensures ok ==> next == if sch.key(v) < old(next) then old(next) else if sch.key(v) >= NO_KEY then NO_KEY
        else sch.key(v) + 1
    {
      hide Found, Points, ViewBut, Sum, WellKept, Sound, SecsHere, RowsHere, HasType, Separable, Pack, Billed, Balanced,
           AllPaid;
      if sch.code != host.receiver {
        return false;
      }
      var pk := sch.key(v);
      var bytes := PackValue(sch.lt, v, sch.t);
      ghost var ts := host.tables;
      RowThere(sch, host.tables, contents, pk);
      var itr := host.DbStore(sch.scope, sch.table, payer, pk, bytes);
      if itr.None? {
        return false;
      }
      RowPut(sch, ts, host.tables, contents, v, host.Payer(payer));
      if pk >= next {
        next := After(pk);
      }
      var iters := StoreSecondaries(payer, v, contents);
      var item := Item(v, itr.value, iters);
      ItemsStay(sch, ts, old(host.rowIters), old(host.secIters), contents, host.tables, host.rowIters, host.secIters,
        contents[pk := v], items);
      items := items + [item];
      contents := contents[pk := v];
      ok := true;
    }

    /** The cached object for a host iterator, read from the host row if it is not in the cache. */
    method Load(itr: int, ghost pk: nat) returns (j: nat)
      requires Valid() && pk in contents && Points(host.tables, host.rowIters, itr) == Some((Primary(sch), pk))
      modifies this`items
      ensures Valid() && j < |items| && items[j].value == contents[pk] && old(items) <= items
    {
      hide Found, Points, Sum, WellKept, Sound, SecsHere, HasType, Separable, Pack, Unpack, NextOk;
      var k := |items|;
      while k > 0
        invariant 0 <= k <= |items| && forall m :: k <= m < |items| ==> items[m].itr != itr
      {
        k := k - 1;
        if items[k].itr == itr {
          assert ItemOk(sch, host.tables, host.rowIters, host.secIters, contents, items[k]);
          return k;
        }
      }
      var bytes := host.DbGet(itr);
      assert RowHere(sch, host.tables, contents, pk);
      var v := UnpackValue(sch.lt, sch.t, bytes.value);
      var item := Item(v.value, itr, seq(|sch.extract|, i => -1));
      NotCached(sch, host.tables, host.rowIters, host.secIters, contents, items, itr, pk);
      items := items + [item];
      j := |items| - 1;
    }

    /** The cached object with a primary key, found in the cache or on the host. */
    method Find(pk: nat) returns (r: Option<nat>)
      requires Valid()
      modifies this`items, host`rowIters
      ensures Valid() && (r.Some? <==> pk in contents)
      ensures r.Some? ==> r.value < |items| && items[r.value].value == contents[pk]
    {
      hide Found, Points, Sum, WellKept, Sound, SecsHere, RowsHere, HasType, Separable, Pack, NextOk;
      var k := |items|;
      while k > 0
        invariant 0 <= k <= |items|
      {
        k := k - 1;
        if sch.key(items[k].value) == pk {
          assert ItemOk(sch, host.tables, host.rowIters, host.secIters, contents, items[k]);
          return Some(k);
        }
      }
      RowThere(sch, host.tables, contents, pk);
      ghost var rows := host.rowIters;
      var itr := host.DbFind(Primary(sch), pk);
      CachedKeys(sch, host.tables, rows, host.secIters, contents, items);
      ItemsStay(sch, host.tables, rows, host.secIters, contents, host.tables, host.rowIters, host.secIters, contents,
        items);
      if itr < 0 {
        return None;
      }
      var j := Load(itr, pk);
      r := Some(j);
    }

    /** The host iterator of a secondary key, looked up unless it is known. */
    method SecondaryIterator(known: int, i: nat, pk: nat) returns (itr: int)
      requires host.Valid() && i < |sch.extract| && Found(host.tables, false, Secondary(sch, i), pk).Some?
      requires known >= 0 ==> Points(host.tables, host.secIters, known) == Some((Secondary(sch, i), pk))
      modifies host`secIters
      ensures host.Valid() && itr >= 0 && Points(host.tables, host.secIters, itr) == Some((Secondary(sch, i), pk))
      ensures ItersKept(host.tables, old(host.secIters), host.tables, host.secIters)
    {
      hide Found, Points, Sum, WellKept, Sound;
      itr := known;
      if itr < 0 {
        itr := host.IdxFindPrimary(Secondary(sch, i), pk);
      }
    }

    /** Rewrites the secondary keys that change when an object becomes `v`. */
    method UpdateSecondaries(payer: nat, item: Item, v: Value, ghost before: map<nat, Value>) returns (iters: seq<int>)
      requires host.Valid() && Proper(sch) && sch.code == host.receiver && host.MayPay(payer)
      requires sch.key(v) == sch.key(item.value) && sch.key(v) in before && before[sch.key(v)] == item.value
      requires |item.iters| == |sch.extract| && AllSecsHere(sch, host.tables, before)
      requires SecItersOk(sch, host.tables, host.secIters, item.iters, sch.key(v))
      modifies host
      ensures host.Valid() && |iters| == |sch.extract|
      ensures forall c :: RowsHere(sch, old(host.tables), c) ==> RowsHere(sch, host.tables, c)
      ensures AllSecsHere(sch, host.tables, before[sch.key(v) := v])
      ensures SecItersOk(sch, host.tables, host.secIters, iters, sch.key(v))
      ensures ItersKept(old(host.tables), old(host.rowIters), host.tables, host.rowIters)
      ensures ItersKept(old(host.tables), old(host.secIters), host.tables, host.secIters)
    {
      hide Found, Points, ViewBut, Sum, WellKept, Sound, SecsHere, RowsHere;
      iters := item.iters;
      var i := 0;
      ghost var after := before[sch.key(v) := v];
      while i < |sch.extract|
        invariant i <= |sch.extract| && |iters| == |sch.extract| && host.Valid()
        invariant forall c :: RowsHere(sch, old(host.tables), c) ==> RowsHere(sch, host.tables, c)
        invariant forall j :: 0 <= j < i ==> SecsHere(sch, host.tables, after, j)
        invariant forall j :: i <= j < |sch.extract| ==> SecsHere(sch, host.tables, before, j)
        invariant SecItersOk(sch, host.tables, host.secIters, iters, sch.key(v))
        invariant ItersKept(old(host.tables), old(host.rowIters), host.tables, host.rowIters)
        invariant ItersKept(old(host.tables), old(host.secIters), host.tables, host.secIters)
      {
        ghost var ts := host.tables;
        if sch.extract[i](v) != sch.extract[i](item.value) {
          NotThere(sch, host.tables, before, i, sch.key(v));
          var itr := SecondaryIterator(iters[i], i, sch.key(v));
          iters := iters[i := itr];
          var ok := host.IdxUpdate(itr, payer, sch.extract[i](v));
          ghost var p :|
            ViewBut(ts, host.tables, false, Secondary(sch, i), sch.key(v), Some(SecObj(p, sch.extract[i](v))));
          SecChanged(sch, ts, host.tables, before, after, i, sch.key(v), Some(SecObj(p, sch.extract[i](v))));
        } else {
          SecUnchanged(sch, ts, before, i, v);
        }
        i := i + 1;
      }
    }

    /** Changes a cached object to `v`, which keeps its primary key. */
    method Modify(j: nat, payer: nat, v: Value) returns (ok: bool)
      requires Valid() && j < |items| && Holds(sch, v)
      modifies this, host
      ensures ok <==> sch.code == host.receiver && host.MayPay(payer) && sch.key(v) == sch.key(old(items)[j].value)
      ensures ok ==> Valid() && contents == old(contents)[sch.key(v) := v]
      ensures ok ==> |items| == |old(items)| && items[j].value == v
    {
      hide Found, Points, ViewBut, Sum, WellKept, Sound, SecsHere, RowsHere, HasType, Separable, Pack;
      if sch.code != host.receiver {
        return false;
      }
      var item, pk := items[j], sch.key(items[j].value);
      if sch.key(v) != pk {
        return false;
      }
      ghost var ts, rows, secs := host.tables, host.rowIters, host.secIters;
      assert ItemOk(sch, ts, rows, secs, contents, item);
      var bytes := PackValue(sch.lt, v, sch.t);
      ok := host.DbUpdate(item.itr, payer, bytes);
      if !ok {
        return;
      }
      RowPut(sch, ts, host.tables, contents, v, host.Payer(payer));
      if pk >= next {
        next := After(pk);
      }
      SecItersKept(sch, ts, secs, host.tables, host.secIters, item.iters, pk);
      var iters := UpdateSecondaries(payer, item, v, contents);
      var item' := Item(v, item.itr, iters);
      ItemChanged(sch, ts, rows, secs, contents, host.tables, host.rowIters, host.secIters, items, j, item');
      items := items[j := item'];
      contents := contents[pk := v];
    }

    /** Removes the secondary keys of an object that is no longer in the cache. */
    method RemoveSecondaries(item: Item, ghost before: map<nat, Value>, ghost others: map<nat, Value>)
      requires host.Valid() && Proper(sch) && sch.code == host.receiver && sch.key(item.value) in before
      requires |item.iters| == |sch.extract| && AllSecsHere(sch, host.tables, before)
      requires SecItersOk(sch, host.tables, host.secIters, item.iters, sch.key(item.value))
      requires ItemsOk(sch, host.tables, host.rowIters, host.secIters, others, items)
      requires forall j :: 0 <= j < |items| ==> sch.key(items[j].value) != sch.key(item.value)
      modifies host
      ensures host.Valid()
      ensures forall c :: RowsHere(sch, old(host.tables), c) ==> RowsHere(sch, host.tables, c)
      ensures AllSecsHere(sch, host.tables, before - {sch.key(item.value)})
      ensures ItemsOk(sch, host.tables, host.rowIters, host.secIters, others, items)
    {
      hide Found, Points, ViewBut, Sum, WellKept, Sound, SecsHere, RowsHere, ItemsOk;
      var i, pk := 0, sch.key(item.value);
      ghost var after := before - {pk};
      while i < |sch.extract|
        invariant i <= |sch.extract| && host.Valid()
        invariant forall c :: RowsHere(sch, old(host.tables), c) ==> RowsHere(sch, host.tables, c)
        invariant forall j :: 0 <= j < i ==> SecsHere(sch, host.tables, after, j)
        invariant forall j :: i <= j < |sch.extract| ==> SecsHere(sch, host.tables, before, j)
        invariant forall j :: i <= j < |sch.extract| && item.iters[j] >= 0 ==>
          Points(host.tables, host.secIters, item.iters[j]) == Some((Secondary(sch, j), pk))
        invariant ItemsOk(sch, host.tables, host.rowIters, host.secIters, others, items)
      {
        ghost var ts, secs := host.tables, host.secIters;
        NotThere(sch, host.tables, before, i, pk);
        var itr := SecondaryIterator(item.iters[i], i, pk);
        CachedKeys(sch, ts, host.rowIters, secs, others, items);
        ItemsStay(sch, ts, host.rowIters, secs, others, ts, host.rowIters, host.secIters, others, items);
        ghost var secs' := host.secIters;
        var ok := host.IdxRemove(itr);
        ItemsStayBut(sch, ts, host.rowIters, secs', others, host.tables, host.rowIters, host.secIters, items, itr,
          Secondary(sch, i), pk, false);
        SecChanged(sch, ts, host.tables, before, after, i, pk, None);
        i := i + 1;
      }
    }

    /** Takes a cached object out of the table. */
    method Erase(j: nat) returns (ok: bool)
      requires Valid() && j < |items|
      modifies this, host
      ensures ok <==> sch.code == host.receiver
      ensures ok ==>
        Valid() && contents == old(contents) - {sch.key(old(items)[j].value)} && items == Without(old(items), j)
    {
      hide Found, Points, ViewBut, Sum, WellKept, Sound, SecsHere, RowsHere, ItemsOk;
      if sch.code != host.receiver {
        return false;
      }
      var item, pk := items[j], sch.key(items[j].value);
      ghost var ts, rows, secs := host.tables, host.rowIters, host.secIters;
      ItemGone(sch, ts, rows, secs, contents, items, j);
      items := Without(items, j);
      ok := host.DbRemove(item.itr);
      RowDropped(sch, ts, host.tables, contents, pk);
      SecItersKept(sch, ts, secs, host.tables, host.secIters, item.iters, pk);
      ItemsStayBut(sch, ts, rows, secs, contents - {pk}, host.tables, host.rowIters, host.secIters, items, item.itr,
        Primary(sch), pk, true);
      RemoveSecondaries(item, contents, contents - {pk});
      contents := contents - {pk};
    }

    /** The greatest primary key of a table that is not empty, whose object is loaded on the way. */
    method LastKey() returns (pk: nat)
      requires Valid() && contents != map[]
      modifies this`items, host`rowIters
      ensures Valid() && pk in contents && forall q :: q in contents ==> q <= pk
    {
      hide Found, Points, ViewBut, Sum, WellKept, Sound, SecsHere, RowsHere, ItemsOk, NextOk;
      ghost var some :| some in contents;
      RowThere(sch, host.tables, contents, some);
      TableThere(sch, host.tables, some);
      ghost var rows := host.rowIters;
      CachedKeys(sch, host.tables, rows, host.secIters, contents, items);
      var end := host.DbEnd(Primary(sch));
      ItemsStay(sch, host.tables, rows, host.secIters, contents, host.tables, host.rowIters, host.secIters, contents,
        items);
      rows := host.rowIters;
      var itr, last := host.DbPrevious(end);
      ItemsStay(sch, host.tables, rows, host.secIters, contents, host.tables, host.rowIters, host.secIters, contents,
        items);
      forall q | q in contents ensures q <= last && itr.value >= 0 {
        RowThere(sch, host.tables, contents, q);
      }
      RowThere(sch, host.tables, contents, last);
      var j := Load(itr.value, last);
      pk := sch.key(items[j].value);
    }

    /** A key above every key in the table; None at the limit. */
    method AvailablePrimaryKey() returns (r: Option<nat>)
      requires Valid()
      modifies this`next, this`items, host`rowIters
      ensures Valid()
      ensures r.Some? ==> r.value < NO_KEY && forall pk :: pk in contents ==> pk < r.value
      ensures r == if next < NO_KEY then Some(next) else None
      ensures old(next) != UNSET ==> next == old(next)
      ensures old(next) == UNSET && contents == map[] ==> next == 0
      ensures old(next) == UNSET && contents != map[] ==>
        exists pk :: pk in contents && next == (if pk >= NO_KEY then NO_KEY else pk + 1)
          && forall q :: q in contents ==> q <= pk
    {
      hide Found, Points, ViewBut, Sum, WellKept, Sound, SecsHere, ItemsOk;
      if next == UNSET {
        ghost var rows := host.rowIters;
        var first, at := host.DbLowerBound(Primary(sch), 0);
        CachedKeys(sch, host.tables, rows, host.secIters, contents, items);
        ItemsStay(sch, host.tables, rows, host.secIters, contents, host.tables, host.rowIters, host.secIters, contents,
          items);
        if first < 0 {
          NoKeys(sch, host.tables, contents);
          next := 0;
        } else {
          RowThere(sch, host.tables, contents, at);
          var begin := Load(first, at);
          var pk := LastKey();
          next := After(pk);
        }
      }
      r := if next < NO_KEY then Some(next) else None;
    }
  }

  lemma NotThere(sch: Schema, ts: Tables, contents: map<nat, Value>, i: nat, pk: nat)
    requires i < |sch.extract| && SecsHere(sch, ts, contents, i)
    ensures Found(ts, false, Secondary(sch, i), pk).Some? <==> pk in contents
  {
    assert SecHere(sch, ts, contents, i, pk);
  }

  lemma TableThere(sch: Schema, ts: Tables, pk: nat)
    requires Found(ts, true, Primary(sch), pk).Some?
    ensures Primary(sch) in ts.names
  {
  }

  lemma RowThere(sch: Schema, ts: Tables, contents: map<nat, Value>, pk: nat)
    requires RowsHere(sch, ts, contents)
    ensures Found(ts, true, Primary(sch), pk).Some? <==> pk in contents
    ensures pk in contents ==> Holds(sch, contents[pk]) && sch.key(contents[pk]) == pk
  {
    assert RowHere(sch, ts, contents, pk);
  }

  /** Known iterators of secondary keys stand for them. */
  ghost predicate SecItersOk(sch: Schema, ts: Tables, secs: Cache, iters: seq<int>, pk: nat) {
    forall i :: 0 <= i < |iters| && iters[i] >= 0 ==> Points(ts, secs, iters[i]) == Some((Secondary(sch, i), pk))
  }

  lemma SecItersKept(sch: Schema, ts: Tables, secs: Cache, ts': Tables, secs': Cache, iters: seq<int>, pk: nat)
    requires SecItersOk(sch, ts, secs, iters, pk) && ItersKept(ts, secs, ts', secs')
    ensures SecItersOk(sch, ts', secs', iters, pk)
  {
    hide Points;
  }

  lemma ItemChanged(sch: Schema, ts: Tables, rows: Cache, secs: Cache, contents: map<nat, Value>,
                    ts': Tables, rows': Cache, secs': Cache, items: seq<Item>, j: nat, item: Item)
    requires j < |items| && ItemsOk(sch, ts, rows, secs, contents, items)
    requires ItersKept(ts, rows, ts', rows') && ItersKept(ts, secs, ts', secs')
    requires sch.key(item.value) == sch.key(items[j].value) && item.itr == items[j].itr && |item.iters| == |sch.extract|
    requires SecItersOk(sch, ts', secs', item.iters, sch.key(item.value))
    ensures ItemsOk(sch, ts', rows', secs', contents[sch.key(item.value) := item.value], items[j := item])
  {
    hide Points;
    var items', contents' := items[j := item], contents[sch.key(item.value) := item.value];
    forall m | 0 <= m < |items'| ensures ItemOk(sch, ts', rows', secs', contents', items'[m]) {
      assert ItemOk(sch, ts, rows, secs, contents, items[m]);
      assert m != j ==> sch.key(items[m].value) != sch.key(items[j].value);
    }
  }

  function Without(items: seq<Item>, j: nat): (r: seq<Item>)
    requires j < |items|
    ensures |r| == |items| - 1
  {
    items[..j] + items[j + 1..]
  }

  /** The cache without one of its items. */
  lemma ItemGone(sch: Schema, ts: Tables, rows: Cache, secs: Cache, contents: map<nat, Value>, items: seq<Item>, j: nat)
    requires j < |items| && ItemsOk(sch, ts, rows, secs, contents, items)
    ensures var pk := sch.key(items[j].value);
      && ItemOk(sch, ts, rows, secs, contents, items[j])
      && ItemsOk(sch, ts, rows, secs, contents - {pk}, Without(items, j))
      && forall m :: 0 <= m < |items| - 1 ==> sch.key(Without(items, j)[m].value) != pk
  {
    hide Points;
    var items', pk := Without(items, j), sch.key(items[j].value);
    forall m | 0 <= m < |items'|
      ensures ItemOk(sch, ts, rows, secs, contents - {pk}, items'[m]) && sch.key(items'[m].value) != pk {
      var k := if m < j then m else m + 1;
      assert items'[m] == items[k];
      assert ItemOk(sch, ts, rows, secs, contents, items[k]);
      assert sch.key(items[k].value) != pk;
    }
  }

  lemma NoKeys(sch: Schema, ts: Tables, contents: map<nat, Value>)
    requires RowsHere(sch, ts, contents) && forall q: nat :: Found(ts, true, Primary(sch), q).None?
    ensures contents == map[]
  {
    forall pk ensures pk !in contents {
      RowThere(sch, ts, contents, pk);
    }
  }

  /** A row without a cached object of its iterator has no cached object at all. */
  lemma NotCached(sch: Schema, ts: Tables, rows: Cache, secs: Cache, contents: map<nat, Value>, items: seq<Item>,
                  itr: int, pk: nat)
    requires Kept(ts) && Sound(rows, ts.objects, true) && ItemsOk(sch, ts, rows, secs, contents, items)
    requires Points(ts, rows, itr) == Some((Primary(sch), pk)) && forall m :: 0 <= m < |items| ==> items[m].itr != itr
    ensures forall m :: 0 <= m < |items| ==> sch.key(items[m].value) != pk
  {
    hide Points, WellKept, Sound;
    forall m | 0 <= m < |items| ensures sch.key(items[m].value) != pk {
      assert ItemOk(sch, ts, rows, secs, contents, items[m]);
      if sch.key(items[m].value) == pk { PointsOnce(ts, rows, true, itr, items[m].itr); }
    }
  }

  lemma CachedKeys(sch: Schema, ts: Tables, rows: Cache, secs: Cache, contents: map<nat, Value>, items: seq<Item>)
    requires ItemsOk(sch, ts, rows, secs, contents, items)
    ensures forall j :: 0 <= j < |items| ==>
              var pk := sch.key(items[j].value); pk in contents && contents[pk] == items[j].value
  {
    forall j | 0 <= j < |items|
      ensures sch.key(items[j].value) in contents && contents[sch.key(items[j].value)] == items[j].value {
      assert ItemOk(sch, ts, rows, secs, contents, items[j]);
    }
  }
}
