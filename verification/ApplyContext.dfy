/** The host side of contract tables: stores, updates and removals, with the bytes billed for them. */
module ApplyContext {
  import opened Options
  import opened Words
  import opened TableObjects
  import opened IteratorCache
  import opened TableViews

  function RamOf(ram: map<nat, int>, account: nat): int {
    if account in ram then ram[account] else 0
  }

  /** Every account other than 0 has been billed the change in what it pays for. */
  ghost predicate Balanced(ram: map<nat, int>, start: Tables, now: Tables) {
    forall p :: p != 0 ==> RamOf(ram, p) == Owed(now, p) - Owed(start, p)
  }

  /** One account other than 0 has been billed, and no other. */
  ghost predicate Billed(ram: map<nat, int>, ram': map<nat, int>, account: nat, delta: int) {
    forall p :: p != 0 ==> RamOf(ram', p) == RamOf(ram, p) + if p == account then delta else 0
  }

  /** One account has been billed and another one refunded; they may be the same. */
  ghost predicate Shifted(ram: map<nat, int>, ram': map<nat, int>, from: nat, refund: int, to: nat, delta: int) {
    forall p :: p != 0 ==>
      RamOf(ram', p) == RamOf(ram, p) - (if p == from then refund else 0) + if p == to then delta else 0
  }

  /** Billing follows a row from one payer to the next. */
  lemma ShiftedBalance(ram: map<nat, int>, ram': map<nat, int>, start: Tables, ts: Tables, ts': Tables, was: Obj,
                       o: Obj)
    requires Balanced(ram, start, ts) && was.RowObj? && o.RowObj?
    requires Shifted(ram, ram', was.payer, |was.value| + 112, o.payer, |o.value| + 112)
    requires forall p :: Owed(ts', p) == Owed(ts, p) + Bill(o, p) - Bill(was, p)
    ensures Balanced(ram', start, ts')
  {
    hide RamOf, Owed;
  }

  /** Every object is paid for by somebody. */
  ghost predicate AllPaid(ts: Tables) {
    forall k :: k in ts.objects ==> ts.objects[k].payer != 0
  }

  class Context {
    const receiver: nat
    const sender: nat
    const origin: nat
    var tables: Tables
    var ram: map<nat, int>
    var rowIters: Cache
    var secIters: Cache
    /** The tables when the transaction began. */
    ghost const start: Tables

    ghost predicate Valid()
      reads this
    {
      && Kept(tables) && Balanced(ram, start, tables) && (receiver != 0 && AllPaid(start) ==> AllPaid(tables))
      && Sound(rowIters, tables.objects, true) && Sound(secIters, tables.objects, false)
    }

    constructor (receiver: nat, sender: nat, origin: nat, tables: Tables)
      requires Kept(tables)
      ensures Valid() && this.tables == tables && start == tables
      ensures this.receiver == receiver && this.sender == sender && this.origin == origin
    {
      this.receiver, this.sender, this.origin, this.tables, start := receiver, sender, origin, tables, tables;
      ram, rowIters, secIters := map[], EMPTY, EMPTY;
    }

    predicate MayPay(payer: nat) {
      payer == 0 || payer == sender || payer == origin || payer == receiver
    }

    function Payer(payer: nat): nat {
      if payer == 0 then receiver else payer
    }

    /** Bills an account; account 0 is not billed. */
    method UpdateRam(account: nat, delta: int)
      modifies this`ram
      ensures Billed(old(ram), ram, account, delta)
    {
      if account == 0 {
        return;
      }
      ram := ram[account := RamOf(ram, account) + delta];
    }

    /** Bills the new payer and refunds the old one, or bills one and the same payer the difference. */
    method ShiftRam(from: nat, oldSize: nat, to: nat, newSize: nat)
      modifies this`ram
      ensures Shifted(old(ram), ram, from, oldSize, to, newSize)
    {
      hide RamOf;
      if from != to {
        UpdateRam(from, 0 - oldSize);
        UpdateRam(to, newSize);
      } else if oldSize != newSize {
        UpdateRam(from, newSize - oldSize);
      }
    }

    method FindOrCreateTable(n: Name, payer: nat)
      requires Valid() && (receiver != 0 ==> payer != 0)
      modifies this`tables, this`ram
      ensures Valid() && tables == Opened(old(tables), n, payer)
      ensures Billed(old(ram), ram, payer, if n in old(tables.names) then 0 else 112)
      ensures SameView(old(tables), tables)
    {
      hide Sum, WellKept;
      OpenedView(tables, n, payer);
      StillSound(rowIters, tables.objects, Opened(tables, n, payer).objects, true);
      StillSound(secIters, tables.objects, Opened(tables, n, payer).objects, false);
      if n !in tables.names {
        UpdateRam(payer, TABLE_SIZE);
        tables := Opened(tables, n, payer);
      }
    }

    /** Files a new object in an open table, bills it, and hands out an iterator. */
    method Put(n: Name, pk: nat, o: Obj) returns (i: int)
      requires Valid() && n in tables.names && !o.TableObj? && Found(tables, o.RowObj?, n, pk).None?
      requires receiver != 0 ==> o.payer != 0
      modifies this
      ensures Billed(old(ram), ram, o.payer, BillableSize(o))
      ensures Valid() && ViewBut(old(tables), tables, o.RowObj?, n, pk, Some(o)) && n in tables.names
      ensures o.RowObj? ==>
        && IterAdded(old(tables), old(rowIters), tables, rowIters, i, n, pk)
        && ItersKept(old(tables), old(secIters), tables, secIters)
      ensures !o.RowObj? ==>
        && IterAdded(old(tables), old(secIters), tables, secIters, i, n, pk)
        && ItersKept(old(tables), old(rowIters), tables, rowIters)
    {
      hide Sum, WellKept, Sound, Found, Points;
      StoredView(tables, n, pk, o);
      ghost var ts, rows, secs := tables, rowIters, secIters;
      tables := Stored(tables, n, pk, o);
      UpdateRam(o.payer, BillableSize(o));
      StillSound(rowIters, ts.objects, tables.objects, true);
      StillSound(secIters, ts.objects, tables.objects, false);
      var k := KeyOf(o.RowObj?, tables.names[n], pk);
      AddedIter(tables, if o.RowObj? then rowIters else secIters, o.RowObj?, n, pk);
      IterStable(ts, tables, rowIters, true);
      IterStable(ts, tables, secIters, false);
      if o.RowObj? {
        rowIters := WithTable(rowIters, k.t);
        var added := Add(rowIters, k);
        rowIters, i := added.0, added.1;
      } else {
        secIters := WithTable(secIters, k.t);
        var added := Add(secIters, k);
        secIters, i := added.0, added.1;
      }
    }

    /** Stores a row in a table of the receiver; refused if the payer may not pay or the key is taken. */
    method DbStore(scope: nat, table: nat, payer: nat, pk: nat, value: seq<byte>) returns (r: Option<int>)
      requires Valid()
      modifies this
      ensures Valid()
      ensures r.Some? <==>
        payer in {0, sender, origin, receiver} && Found(old(tables), true, Name(receiver, scope, table), pk).None?
      ensures r.None? ==>
        tables == old(tables) && ram == old(ram) && rowIters == old(rowIters) && secIters == old(secIters)
      ensures r.Some? ==>
        var n, account := Name(receiver, scope, table), if payer == 0 then receiver else payer;
        && ViewBut(old(tables), tables, true, n, pk, Some(RowObj(account, value)))
        && Billed(old(ram), ram, account, |value| + if n in old(tables.names) then 112 else 224)
        && IterAdded(old(tables), old(rowIters), tables, rowIters, r.value, Name(receiver, scope, table), pk)
        && ItersKept(old(tables), old(secIters), tables, secIters)
    {
      hide Sum, WellKept, Sound, Points;
      var n := Name(receiver, scope, table);
      if !MayPay(payer) || Found(tables, true, n, pk).Some? {
        return None;
      }
      ghost var ts := tables;
      FindOrCreateTable(n, Payer(payer));
      StableView(ts, tables, rowIters, true);
      StableView(ts, tables, secIters, false);
      var i := Put(n, pk, RowObj(Payer(payer), value));
      r := Some(i);
    }

    /** Stores a secondary key. */
    method IdxStore(scope: nat, table: nat, payer: nat, pk: nat, key: nat) returns (r: Option<int>)
      requires Valid()
      modifies this
      ensures Valid()
      ensures r.Some? <==>
        payer in {0, sender, origin, receiver} && Found(old(tables), false, Name(receiver, scope, table), pk).None?
      ensures r.None? ==>
        tables == old(tables) && ram == old(ram) && rowIters == old(rowIters) && secIters == old(secIters)
      ensures r.Some? ==>
        var n, account := Name(receiver, scope, table), if payer == 0 then receiver else payer;
        && ViewBut(old(tables), tables, false, n, pk, Some(SecObj(account, key)))
        && Billed(old(ram), ram, account, if n in old(tables.names) then 128 else 240)
        && IterAdded(old(tables), old(secIters), tables, secIters, r.value, Name(receiver, scope, table), pk)
        && ItersKept(old(tables), old(rowIters), tables, rowIters)
    {
      hide Sum, WellKept, Sound, Points;
      var n := Name(receiver, scope, table);
      if !MayPay(payer) || Found(tables, false, n, pk).Some? {
        return None;
      }
      ghost var ts := tables;
      FindOrCreateTable(n, Payer(payer));
      StableView(ts, tables, rowIters, true);
      StableView(ts, tables, secIters, false);
      var i := Put(n, pk, SecObj(Payer(payer), key));
      r := Some(i);
    }

    /** Overwrites the row an iterator stands for. A new payer takes over the whole row: the old one is
        refunded, the new one billed. */
    method DbUpdate(i: int, payer: nat, value: seq<byte>) returns (ok: bool)
      requires Valid()
      modifies this
      ensures Valid()
      ensures ok <==>
        && payer in {0, sender, origin, receiver} && Points(old(tables), old(rowIters), i).Some?
        && Points(old(tables), old(rowIters), i).value.0.code == receiver
      ensures !ok ==> tables == old(tables) && ram == old(ram)
      ensures rowIters == old(rowIters) && secIters == old(secIters)
      ensures ok ==>
        var (n, pk) := Points(old(tables), old(rowIters), i).value;
        var account, was := if payer == 0 then receiver else payer, Found(old(tables), true, n, pk);
        && ViewBut(old(tables), tables, true, n, pk, Some(RowObj(account, value)))
        && was.Some? && was.value.RowObj?
        && Shifted(old(ram), ram, was.value.payer, |was.value.value| + 112, account, |value| + 112)
      ensures ItersKept(old(tables), rowIters, tables, rowIters) && ItersKept(old(tables), secIters, tables, secIters)
    {
      hide Sum, WellKept, Found, ViewBut;
      var k := Get(rowIters, i);
      if !MayPay(payer) || k.None? {
        return false;
      }
      NameOfKey(tables, k.value);
      hide Sound, ItersKept, Shifted;
      if NameOf(tables, k.value).value.code != receiver {
        return false;
      }
      var was, o := tables.objects[k.value], RowObj(Payer(payer), value);
      assert was.RowObj? by { RowIsRow(tables, k.value); }
      var oldSize, newSize := |was.value| + ROW_OVERHEAD, |value| + ROW_OVERHEAD;
      ShiftRam(was.payer, oldSize, o.payer, newSize);
      ChangedIters(tables, k.value, o, rowIters, secIters);
      ShiftedBalance(old(ram), ram, start, tables, Changed(tables, k.value, o), was, o);
      tables := Changed(tables, k.value, o);
      ok := true;
    }

    /** Takes a row or secondary key out of its table and refunds its payer. */
    method Drop(k: Key)
      requires Valid() && k in tables.objects && !k.TableKey?
      requires forall j :: Get(rowIters, j) != Some(k) && Get(secIters, j) != Some(k)
      modifies this`tables, this`ram
      ensures Valid() && NameOf(old(tables), k).Some?
      ensures ViewBut(old(tables), tables, k.RowKey?, NameOf(old(tables), k).value, k.pk, None)
      ensures ItersKept(old(tables), rowIters, tables, rowIters) && ItersKept(old(tables), secIters, tables, secIters)
      ensures TableKey(k.t) in old(tables.objects) && TableKey(k.t) in tables.objects
      ensures var table := old(tables.objects)[TableKey(k.t)];
        table.TableObj? && 0 < table.count && tables.objects[TableKey(k.t)] == table.(count := table.count - 1)
      ensures Billed(old(ram), ram, old(tables.objects[k]).payer, 0 - BillableSize(old(tables.objects[k])))
    {
      hide Sum, WellKept, Found, ViewBut;
      ghost var ts := tables;
      ErasedView(tables, k);
      UpdateRam(tables.objects[k].payer, 0 - BillableSize(tables.objects[k]));
      tables := Erased(tables, k);
      SoundWithout(rowIters, ts.objects, tables.objects, true, k);
      SoundWithout(secIters, ts.objects, tables.objects, false, k);
      NamesBut(ts, tables, k.RowKey?, NameOf(ts, k).value, k.pk, None);
      IterStable(ts, tables, rowIters, true);
      IterStable(ts, tables, secIters, false);
    }

    /** Removes the row an iterator stands for. The table stays, even if it is empty. */
    method DbRemove(i: int) returns (ok: bool)
      requires Valid()
      modifies this
      ensures Valid() && secIters == old(secIters)
      ensures ok <==>
        Points(old(tables), old(rowIters), i).Some? && Points(old(tables), old(rowIters), i).value.0.code == receiver
      ensures !ok ==> tables == old(tables) && ram == old(ram) && rowIters == old(rowIters)
      ensures ok ==> var (n, pk) := Points(old(tables), old(rowIters), i).value;
        && ViewBut(old(tables), tables, true, n, pk, None)
        && ItersKeptBut(old(tables), old(rowIters), tables, rowIters, i)
        && var was := Found(old(tables), true, n, pk);
        was.Some? && was.value.RowObj? && Billed(old(ram), ram, was.value.payer, 0 - (|was.value.value| + 112))
      ensures ItersKept(old(tables), secIters, tables, secIters)
    {
      hide Sum, WellKept, Found, ViewBut, Sound;
      var k := Get(rowIters, i);
      if k.None? {
        return false;
      }
      GotKey(rowIters, tables.objects, true, i);
      NameOfKey(tables, k.value);
      if NameOf(tables, k.value).value.code != receiver {
        return false;
      }
      ghost var c := rowIters;
      RowIsRow(tables, k.value);
      Forgotten(tables, rowIters, secIters, true, i);
      rowIters := Forget(rowIters, i);
      Drop(k.value);
      assert ItersKeptBut(old(tables), c, tables, rowIters, i);
      ok := true;
    }

    method IdxUpdate(i: int, payer: nat, key: nat) returns (ok: bool)
      requires Valid()
      modifies this`tables
      ensures Valid()
      ensures ok <==>
        && payer in {0, sender, origin, receiver} && Points(old(tables), secIters, i).Some?
        && Points(old(tables), secIters, i).value.0.code == receiver
      ensures !ok ==> tables == old(tables)
      ensures ok ==> var (n, pk) := Points(old(tables), secIters, i).value;
        && Found(old(tables), false, n, pk).Some? && Found(old(tables), false, n, pk).value.SecObj?
        && ViewBut(old(tables), tables, false, n, pk, Some(SecObj(Found(old(tables), false, n, pk).value.payer, key)))
      ensures ItersKept(old(tables), rowIters, tables, rowIters) && ItersKept(old(tables), secIters, tables, secIters)
    {
      hide Sum, WellKept, Found, ViewBut;
      var k := Get(secIters, i);
      if !MayPay(payer) || k.None? {
        return false;
      }
      NameOfKey(tables, k.value);
      if NameOf(tables, k.value).value.code != receiver {
        return false;
      }
      RowIsRow(tables, k.value);
      var o := SecObj(tables.objects[k.value].payer, key);
      ChangedIters(tables, k.value, o, rowIters, secIters);
      tables := Changed(tables, k.value, o);
      ok := true;
    }

    /** Removes a secondary key, and its table with the last one. */
    method IdxRemove(i: int) returns (ok: bool)
      requires Valid()
      modifies this
      ensures Valid() && rowIters == old(rowIters)
      ensures ok <==>
        Points(old(tables), old(secIters), i).Some? && Points(old(tables), old(secIters), i).value.0.code == receiver
      ensures !ok ==> tables == old(tables) && ram == old(ram) && secIters == old(secIters)
      ensures ok ==> var (n, pk) := Points(old(tables), old(secIters), i).value;
        && ViewBut(old(tables), tables, false, n, pk, None)
        && ItersKeptBut(old(tables), old(secIters), tables, secIters, i)
        && var was := Found(old(tables), false, n, pk);
        && was.Some? && n in old(tables.names) && TableKey(old(tables.names)[n]) in old(tables.objects)
        && var table := old(tables.objects)[TableKey(old(tables.names)[n])];
        && table.TableObj? && table.count > 0
        && Shifted(old(ram), ram, was.value.payer, 128, table.payer, if table.count > 1 then 0 else 0 - 112)
      ensures ItersKept(old(tables), rowIters, tables, rowIters)
    {
      hide Sum, WellKept, Found, ViewBut, Sound, SameView;
      var k := Get(secIters, i);
      if k.None? {
        return false;
      }
      GotKey(secIters, tables.objects, false, i);
      NameOfKey(tables, k.value);
      if NameOf(tables, k.value).value.code != receiver {
        return false;
      }
      ghost var c := secIters;
      RowIsRow(tables, k.value);
      Forgotten(tables, secIters, rowIters, false, i);
      secIters := Forget(secIters, i);
      Drop(k.value);
      ghost var ts := tables;
      var table := tables.objects[TableKey(k.value.t)];
      if table.count == 0 {
        ClosedView(tables, k.value.t);
        UpdateRam(table.payer, 0 - TABLE_SIZE);
        tables := Closed(tables, k.value.t);
        ClosedIters(ts, tables, rowIters, secIters);
        ThenSame(old(tables), ts, tables, false, NameOf(old(tables), k.value).value, k.value.pk, None);
      }
      assert ItersKeptBut(old(tables), c, tables, secIters, i);
      ok := true;
    }

    /** The bytes of the row an iterator stands for. */
    method DbGet(i: int) returns (r: Option<seq<byte>>)
      requires Valid()
      ensures r.Some? <==> Points(tables, rowIters, i).Some?
      ensures r.Some? ==> var (n, pk) := Points(tables, rowIters, i).value;
        Found(tables, true, n, pk).Some? && Found(tables, true, n, pk).value.RowObj?
          && r.value == Found(tables, true, n, pk).value.value
    {
      hide Sum, WellKept;
      var k := Get(rowIters, i);
      if k.None? {
        return None;
      }
      NameOfKey(tables, k.value);
      RowIsRow(tables, k.value);
      r := Some(tables.objects[k.value].value);
    }

    /** An iterator for a row that is there. */
    method RowIterator(n: Name, pk: nat) returns (i: int)
      requires Valid() && Found(tables, true, n, pk).Some?
      modifies this`rowIters
      ensures Valid() && IterAdded(tables, old(rowIters), tables, rowIters, i, n, pk)
    {
      hide Sum, WellKept, Sound, IterAdded;
      var k := RowKey(tables.names[n], pk);
      AddedIter(tables, rowIters, true, n, pk);
      rowIters := WithTable(rowIters, k.t);
      var added := Add(rowIters, k);
      rowIters, i := added.0, added.1;
    }

    /** The end of a table: -1 if there is no such table. */
    method DbEnd(n: Name) returns (i: int)
      requires Valid()
      modifies this`rowIters
      ensures Valid() && i < 0 && AtEnd(tables, rowIters, n, i) && ItersKept(tables, old(rowIters), tables, rowIters)
      ensures forall m, j :: AtEnd(tables, old(rowIters), m, j) ==> AtEnd(tables, rowIters, m, j)
      ensures forall j :: AtEnd(tables, old(rowIters), n, j) ==> i == j
    {
      hide Sum, WellKept, Sound, ItersKept, AtEnd, WithTable;
      if n !in tables.names {
        NoEnd(tables, rowIters, n);
        SameIters(tables, rowIters);
        return -1;
      }
      TableEnd(tables, rowIters, true, n);
      rowIters := WithTable(rowIters, tables.names[n]);
      i := rowIters.tables[tables.names[n]];
    }

    method DbFind(n: Name, pk: nat) returns (i: int)
      requires Valid()
      modifies this`rowIters
      ensures Valid() && (i >= 0 <==> Found(tables, true, n, pk).Some?)
      ensures if i >= 0 then IterAdded(tables, old(rowIters), tables, rowIters, i, n, pk)
        else AtEnd(tables, rowIters, n, i)
      ensures ItersKept(tables, old(rowIters), tables, rowIters)
    {
      hide Sum, WellKept, Sound, Points, AtEnd;
      if Found(tables, true, n, pk).Some? {
        i := RowIterator(n, pk);
      } else {
        i := DbEnd(n);
      }
    }

    method IdxFindPrimary(n: Name, pk: nat) returns (i: int)
      requires Valid()
      modifies this`secIters
      ensures Valid() && (i >= 0 <==> Found(tables, false, n, pk).Some?)
      ensures if i >= 0 then IterAdded(tables, old(secIters), tables, secIters, i, n, pk)
        else AtEnd(tables, secIters, n, i)
      ensures ItersKept(tables, old(secIters), tables, secIters)
    {
      hide Sum, WellKept, Sound, ItersKept, AtEnd, WithTable, Add;
      if n !in tables.names {
        NoEnd(tables, secIters, n);
        SameIters(tables, secIters);
        return -1;
      }
      var k := SecKey(tables.names[n], pk);
      TableEnd(tables, secIters, false, n);
      if k !in tables.objects {
        secIters := WithTable(secIters, k.t);
        return secIters.tables[k.t];
      }
      AddedIter(tables, secIters, false, n, pk);
      secIters := WithTable(secIters, k.t);
      var added := Add(secIters, k);
      secIters, i := added.0, added.1;
    }

    /** The least primary key above `low` in a table. */
    method FirstAbove(n: Name, low: int) returns (r: Option<nat>)
      ensures r.Some? ==> r.value > low && Found(tables, true, n, r.value).Some?
      ensures forall q: nat :: q > low && Found(tables, true, n, q).Some? ==> r.Some? && r.value <= q
    {
      r := None;
      if n !in tables.names {
        return;
      }
      var t, todo := tables.names[n], tables.objects.Keys;
      while todo != {}
        invariant todo <= tables.objects.Keys
        invariant r.Some? ==> r.value > low && RowKey(t, r.value) in tables.objects
        invariant forall q: nat :: q > low && RowKey(t, q) in tables.objects && RowKey(t, q) !in todo ==>
                    r.Some? && r.value <= q
        decreases |todo|
      {
        var k :| k in todo;
        if k.RowKey? && k.t == t && k.pk > low && (r.None? || k.pk < r.value) {
          r := Some(k.pk);
        }
        todo := todo - {k};
      }
    }

    /** The greatest primary key below `high` in a table, or the greatest of all. */
    method LastBelow(n: Name, high: Option<nat>) returns (r: Option<nat>)
      ensures r.Some? ==> (high.Some? ==> r.value < high.value) && Found(tables, true, n, r.value).Some?
      ensures forall q: nat :: (high.Some? ==> q < high.value) && Found(tables, true, n, q).Some? ==>
                r.Some? && q <= r.value
    {
      r := None;
      if n !in tables.names {
        return;
      }
      var t, todo := tables.names[n], tables.objects.Keys;
      while todo != {}
        invariant todo <= tables.objects.Keys
        invariant r.Some? ==> (high.Some? ==> r.value < high.value) && RowKey(t, r.value) in tables.objects
        invariant forall q: nat ::
          (high.Some? ==> q < high.value) && RowKey(t, q) in tables.objects && RowKey(t, q) !in todo ==>
            r.Some? && q <= r.value
        decreases |todo|
      {
        var k :| k in todo;
        if k.RowKey? && k.t == t && (high.Some? ==> k.pk < high.value) && (r.None? || k.pk > r.value) {
          r := Some(k.pk);
        }
        todo := todo - {k};
      }
    }

    /** The first row at or above a key. */
    method DbLowerBound(n: Name, pk: nat) returns (i: int, ghost at: nat)
      requires Valid()
      modifies this`rowIters
      ensures Valid() && ItersKept(tables, old(rowIters), tables, rowIters)
      ensures i >= 0 ==>
        at >= pk && Found(tables, true, n, at).Some? && IterAdded(tables, old(rowIters), tables, rowIters, i, n, at)
      ensures i < 0 ==> AtEnd(tables, rowIters, n, i)
      ensures forall q: nat :: q >= pk && Found(tables, true, n, q).Some? ==> i >= 0 && at <= q
    {
      hide Sum, WellKept, Sound, Points, AtEnd;
      at := pk;
      var first := FirstAbove(n, pk - 1);
      if first.Some? {
        at := first.value;
        i := RowIterator(n, first.value);
      } else {
        i := DbEnd(n);
      }
    }

    /** The row after the one an iterator stands for; None where the iterator stands for nothing. */
    method DbNext(i: int) returns (r: Option<int>, ghost at: nat)
      requires Valid()
      modifies this`rowIters
      ensures Valid() && ItersKept(tables, old(rowIters), tables, rowIters)
      ensures r.Some? <==> i < -1 || Points(tables, old(rowIters), i).Some?
      ensures i < -1 ==> r == Some(-1)
      ensures i >= 0 && r.Some? ==> var (n, pk) := Points(tables, old(rowIters), i).value;
        && (r.value >= 0 ==>
              && at > pk && Found(tables, true, n, at).Some?
              && IterAdded(tables, old(rowIters), tables, rowIters, r.value, n, at))
        && (r.value < 0 ==> AtEnd(tables, rowIters, n, r.value))
        && (forall q: nat :: q > pk && Found(tables, true, n, q).Some? ==> r.value >= 0 && at <= q)
    {
      hide Sum, WellKept;
      at := 0;
      if i < -1 {
        return Some(-1), 0;
      }
      var k := Get(rowIters, i);
      if k.None? {
        return None, 0;
      }
      NameOfKey(tables, k.value);
      hide Sound, Points;
      var n := NameOf(tables, k.value).value;
      var first := FirstAbove(n, k.value.pk);
      var next;
      if first.Some? {
        at := first.value;
        next := RowIterator(n, first.value);
      } else {
        next := DbEnd(n);
      }
      r := Some(next);
    }

    /** The row before the one an iterator stands for, or the last row before the end of a table; -1
        where there is none. None where the iterator is neither. */
    method DbPrevious(i: int) returns (r: Option<int>, pk: nat)
      requires Valid()
      modifies this`rowIters
      ensures Valid() && ItersKept(tables, old(rowIters), tables, rowIters)
      ensures r.Some? <==> EndTable(tables, old(rowIters), i).Some? || Points(tables, old(rowIters), i).Some?
      ensures EndTable(tables, old(rowIters), i).Some? && r.Some? ==>
        LastRow(tables, old(rowIters), rowIters, EndTable(tables, old(rowIters), i).value, None, r.value, pk)
      ensures i >= 0 && r.Some? ==> var (n, high) := Points(tables, old(rowIters), i).value;
        LastRow(tables, old(rowIters), rowIters, n, Some(high), r.value, pk)
    {
      hide Sum, WellKept;
      pk := 0;
      var n, high;
      if i < -1 {
        var end := EndTable(tables, rowIters, i);
        if end.None? {
          return None, 0;
        }
        n, high := end.value, None;
      } else {
        var k := Get(rowIters, i);
        if k.None? {
          return None, 0;
        }
        NameOfKey(tables, k.value);
        n, high := NameOf(tables, k.value).value, Some(k.value.pk);
      }
      hide Sound, Points;
      var last := LastBelow(n, high);
      if last.Some? {
        pk := last.value;
        var at := RowIterator(n, pk);
        r := Some(at);
      } else {
        r := Some(-1);
      }
    }
  }

  /** The table whose end an iterator is. */
  function EndTable(ts: Tables, c: Cache, i: int): Option<Name> {
    if i < -1 && -i - 2 < |c.ends| && TableKey(c.ends[-i - 2]) in ts.objects
      && ts.objects[TableKey(c.ends[-i - 2])].TableObj?
    then Some(ts.objects[TableKey(c.ends[-i - 2])].name) else None
  }

  /** Iterator `i` is the end of a table, or -1 if there is no such table. */
  predicate AtEnd(ts: Tables, c: Cache, n: Name, i: int) {
    if n in ts.names then EndTable(ts, c, i) == Some(n) else i == -1
  }

  lemma NoEnd(ts: Tables, c: Cache, n: Name)
    requires n !in ts.names
    ensures forall j :: AtEnd(ts, c, n, j) <==> j == -1
  {
  }

  lemma SameIters(ts: Tables, c: Cache)
    ensures ItersKept(ts, c, ts, c)
  {
  }

  /** Every table has one end, which it keeps. */
  lemma TableEnd(ts: Tables, c: Cache, rows: bool, n: Name)
    requires Kept(ts) && Sound(c, ts.objects, rows) && n in ts.names
    ensures var t, c' := ts.names[n], WithTable(c, ts.names[n]);
      && Sound(c', ts.objects, rows) && t in c'.tables && c'.tables[t] < -1 && AtEnd(ts, c', n, c'.tables[t])
      && ItersKept(ts, c, ts, c') && (forall m, j :: AtEnd(ts, c, m, j) ==> AtEnd(ts, c', m, j))
      && forall j :: AtEnd(ts, c, n, j) ==> j == c'.tables[t]
  {
    hide Sum;
    var t, c' := ts.names[n], WithTable(c, ts.names[n]);
    WithTableSound(c, ts.objects, rows, t);
    assert TableOk(ts.objects, ts.names, ts.nextId, t);
    forall j | AtEnd(ts, c, n, j) ensures j == c'.tables[t] {
      OneEnd(ts, c, rows, n, j);
    }
  }

  lemma OneEnd(ts: Tables, c: Cache, rows: bool, n: Name, j: int)
    requires Kept(ts) && Sound(c, ts.objects, rows) && n in ts.names && AtEnd(ts, c, n, j)
    ensures ts.names[n] in c.tables && c.tables[ts.names[n]] == j
  {
    hide Sum;
    var u := c.ends[-j - 2];
    assert TableOk(ts.objects, ts.names, ts.nextId, u);
  }

  /** Iterator `i` stands for the row with the greatest key below `high`, or -1 if there is none. */
  ghost predicate LastRow(ts: Tables, c: Cache, c': Cache, n: Name, high: Option<nat>, i: int, pk: nat) {
    && i >= -1 && (i >= 0 ==>
      (high.Some? ==> pk < high.value) && Found(ts, true, n, pk).Some? && IterAdded(ts, c, ts, c', i, n, pk))
    && (forall q: nat :: (high.Some? ==> q < high.value) && Found(ts, true, n, q).Some? ==> i >= 0 && q <= pk)
  }

  /** Every iterator that stood for something stands for the same row. */
  ghost predicate ItersKept(ts: Tables, c: Cache, ts': Tables, c': Cache) {
    forall j :: Points(ts, c, j).Some? ==> Points(ts', c', j) == Points(ts, c, j)
  }

  /** Iterator `i` stands for a row; the others stand for what they stood for. */
  ghost predicate IterAdded(ts: Tables, c: Cache, ts': Tables, c': Cache, i: int, n: Name, pk: nat) {
    i >= 0 && Points(ts', c', i) == Some((n, pk)) && ItersKept(ts, c, ts', c')
  }

  lemma IterStable(ts: Tables, ts': Tables, c: Cache, rows: bool)
    requires Sound(c, ts.objects, rows) && Sound(c, ts'.objects, rows)
    requires forall k :: k in ts.objects && k in ts'.objects && !k.TableKey? ==> NameOf(ts', k) == NameOf(ts, k)
    ensures ItersKept(ts, c, ts', c)
  {
    forall j | Points(ts, c, j).Some? ensures Points(ts', c, j) == Points(ts, c, j) {
      var k := Get(c, j).value;
      assert k in ts.objects && k in ts'.objects;
    }
  }

  /** Every iterator but one stands for what it stood for. */
  ghost predicate ItersKeptBut(ts: Tables, c: Cache, ts': Tables, c': Cache, i: int) {
    forall j :: j != i && Points(ts, c, j).Some? ==> Points(ts', c', j) == Points(ts, c, j)
  }

  lemma GotKey(c: Cache, objects: Objects, rows: bool, i: int)
    requires Sound(c, objects, rows) && Get(c, i).Some?
    ensures var k := Get(c, i).value; !k.TableKey? && k in objects && k.RowKey? == rows
  {
  }

  lemma SoundWithout(c: Cache, objects: Objects, objects': Objects, rows: bool, k: Key)
    requires Sound(c, objects, rows) && (forall j :: Get(c, j) != Some(k)) && objects'.Keys == objects.Keys - {k}
    ensures Sound(c, objects', rows)
  {
  }

  lemma Forgotten(ts: Tables, c: Cache, other: Cache, rows: bool, i: nat)
    requires Sound(c, ts.objects, rows) && Sound(other, ts.objects, !rows) && Get(c, i).Some?
    ensures var k := Get(c, i).value;
      && Sound(Forget(c, i), ts.objects, rows)
      && (forall j :: Get(Forget(c, i), j) != Some(k) && Get(other, j) != Some(k))
      && (forall j :: j != i ==> Get(Forget(c, i), j) == Get(c, j))
  {
    ForgetSound(c, ts.objects, rows, i);
    var k := Get(c, i).value;
    StillSound(Forget(c, i), ts.objects - {k}, ts.objects, rows);
  }

  lemma ClosedIters(ts: Tables, ts': Tables, rows: Cache, secs: Cache)
    requires Sound(rows, ts.objects, true) && Sound(secs, ts.objects, false) && SameView(ts, ts')
    ensures Sound(rows, ts'.objects, true) && Sound(secs, ts'.objects, false)
    ensures ItersKept(ts, rows, ts', rows) && ItersKept(ts, secs, ts', secs)
  {
    StillSound(rows, ts.objects, ts'.objects, true);
    StillSound(secs, ts.objects, ts'.objects, false);
    StableView(ts, ts', rows, true);
    StableView(ts, ts', secs, false);
  }

  lemma ThenSame(ts: Tables, ts': Tables, ts'': Tables, rows: bool, n: Name, pk: nat, o: Option<Obj>)
    requires ViewBut(ts, ts', rows, n, pk, o) && SameView(ts', ts'') && ts''.objects.Keys <= ts'.objects.Keys
    ensures ViewBut(ts, ts'', rows, n, pk, o)
  {
  }

  lemma StableView(ts: Tables, ts': Tables, c: Cache, rows: bool)
    requires Sound(c, ts.objects, rows) && Sound(c, ts'.objects, rows) && SameView(ts, ts')
    ensures ItersKept(ts, c, ts', c)
  {
    IterStable(ts, ts', c, rows);
  }

  /** Overwriting an object keeps every iterator, and changes what is owed by the difference. */
  lemma ChangedIters(ts: Tables, k: Key, o: Obj, rows: Cache, secs: Cache)
    requires Kept(ts) && k in ts.objects && !k.TableKey? && !o.TableObj? && (k.RowKey? <==> o.RowObj?)
    requires Sound(rows, ts.objects, true) && Sound(secs, ts.objects, false)
    ensures NameOf(ts, k).Some? && Kept(Changed(ts, k, o))
    ensures ViewBut(ts, Changed(ts, k, o), k.RowKey?, NameOf(ts, k).value, k.pk, Some(o))
    ensures forall p :: Owed(Changed(ts, k, o), p) == Owed(ts, p) + Bill(o, p) - Bill(ts.objects[k], p)
    ensures Sound(rows, Changed(ts, k, o).objects, true) && Sound(secs, Changed(ts, k, o).objects, false)
    ensures ItersKept(ts, rows, Changed(ts, k, o), rows) && ItersKept(ts, secs, Changed(ts, k, o), secs)
  {
    hide Sum, WellKept, Found, Sound, ViewBut;
    var ts' := Changed(ts, k, o);
    ChangedView(ts, k, o);
    StillSound(rows, ts.objects, ts'.objects, true);
    StillSound(secs, ts.objects, ts'.objects, false);
    NamesBut(ts, ts', k.RowKey?, NameOf(ts, k).value, k.pk, Some(o));
    IterStable(ts, ts', rows, true);
    IterStable(ts, ts', secs, false);
  }

  lemma RowIsRow(ts: Tables, k: Key)
    requires Kept(ts) && k in ts.objects && !k.TableKey?
    ensures k.RowKey? <==> ts.objects[k].RowObj?
    ensures k.SecKey? <==> ts.objects[k].SecObj?
  {
    hide Sum;
  }

  lemma NamesBut(ts: Tables, ts': Tables, rows: bool, n: Name, pk: nat, o: Option<Obj>)
    requires ViewBut(ts, ts', rows, n, pk, o)
    ensures forall k :: k in ts.objects && k in ts'.objects && !k.TableKey? ==> NameOf(ts', k) == NameOf(ts, k)
  {
  }

  lemma AddedIter(ts: Tables, c: Cache, rows: bool, n: Name, pk: nat)
    requires Kept(ts) && Sound(c, ts.objects, rows) && n in ts.names && KeyOf(rows, ts.names[n], pk) in ts.objects
    ensures var k := KeyOf(rows, ts.names[n], pk);
      var (c', i) := Add(WithTable(c, k.t), k);
      Sound(c', ts.objects, rows) && IterAdded(ts, c, ts, c', i, n, pk)
  {
    hide Sound, WellKept;
    var k := KeyOf(rows, ts.names[n], pk);
    WithTableSound(c, ts.objects, rows, k.t);
    AddSound(WithTable(c, k.t), ts.objects, rows, k);
    KeyOfName(ts, rows, n, pk);
    var (c', i) := Add(WithTable(c, k.t), k);
    forall j | Points(ts, c, j).Some? ensures Points(ts, c', j) == Points(ts, c, j) {
      if j == i { Same(c, ts.objects, rows, k, j); }
    }
  }

  /** An iterator that is handed out again already stood for the same object. */
  lemma Same(c: Cache, objects: Objects, rows: bool, k: Key, j: int)
    requires !k.TableKey? && Sound(c, objects, rows) && Get(c, j).Some? && j == Add(WithTable(c, k.t), k).1
    ensures Get(c, j) == Some(k)
  {
  }
}
