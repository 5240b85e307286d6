/** What a block does to the object database, and the tree of blocks known to a node. */
module ChainState {
  import opened Options
  import opened UndoState

  /** A block: its id, the id of the block it builds on, its height, and what it carries. */
  datatype Block = Block(id: nat, previous: nat, num: nat, body: nat)

  /** What ids stand for: the one block that has an id, and the height that is part of the id. */
  datatype Ids = Ids(block: nat -> Block, height: nat -> nat)

  /** `b` is the block its id stands for, and its height is one above that in the id it builds on. */
  predicate Named(ids: Ids, b: Block) {
    ids.block(b.id) == b && ids.height(b.id) == b.num == ids.height(b.previous) + 1
  }

  datatype Change =
    | CreateObject(index: nat, v: Value)
    | ModifyObject(id: ObjectId, v: Value)
    | RemoveObject(id: ObjectId)

  /** The changes made by one phase of applying a block, in order, and whether the phase completes
      or throws after the last of them. */
  datatype Script = Script(changes: seq<Change>, completes: bool)

  /** The two phases, transactions and maintenance, as functions of the objects they read. */
  datatype Rules = Rules(transact: (Db, Block) -> Script, maintain: (Db, Block) -> Script)

  const PROPERTIES: ObjectId := ObjectId(0, 0)

  predicate HasHead(db: Db) {
    PROPERTIES in db.objects && db.objects[PROPERTIES].Properties?
  }

  function HeadId(db: Db): nat requires HasHead(db) { db.objects[PROPERTIES].headId }
  function HeadNum(db: Db): nat requires HasHead(db) { db.objects[PROPERTIES].headNum }
  function LastIrreversible(db: Db): nat requires HasHead(db) { db.objects[PROPERTIES].lastIrreversible }

  function WithHead(db: Db, b: Block): Db
    requires HasHead(db)
  {
    db.(objects := db.objects[PROPERTIES := Properties(b.id, b.num, LastIrreversible(db))])
  }

  /** A change is refused when it names a missing object or index, would touch the head block, or would
      move the last irreversible block down or past the head. */
  predicate Allowed(db: Db, c: Change)
    requires HasHead(db)
  {
    match c
    case CreateObject(index, v) => index < |db.next|
    case ModifyObject(id, v) =>
      id in db.objects &&
      (id == PROPERTIES ==>
        && v.Properties? && v.headId == HeadId(db) && v.headNum == HeadNum(db)
        && LastIrreversible(db) <= v.lastIrreversible <= HeadNum(db))
    case RemoveObject(id) => id in db.objects && id != PROPERTIES
  }

  function Changed(db: Db, c: Change): Db
    requires HasHead(db) && Allowed(db, c)
  {
    match c
    case CreateObject(index, v) =>
      Db(db.objects[ObjectId(index, db.next[index]) := v], db.next[index := db.next[index] + 1])
    case ModifyObject(id, v) => db.(objects := db.objects[id := v])
    case RemoveObject(id) => db.(objects := db.objects - {id})
  }

  /** The last irreversible block does not go down, and does not pass the head. */
  ghost predicate Rises(db: Db, db': Db)
    requires HasHead(db) && HasHead(db')
  {
    && LastIrreversible(db) <= LastIrreversible(db')
    && (LastIrreversible(db) <= HeadNum(db') ==> LastIrreversible(db') <= HeadNum(db'))
  }

  lemma ChangedKeeps(db: Db, c: Change)
    requires HasHead(db) && Allowed(db, c) && WellNumbered(db)
    ensures WellNumbered(Changed(db, c)) && HasHead(Changed(db, c))
    ensures HeadId(Changed(db, c)) == HeadId(db) && HeadNum(Changed(db, c)) == HeadNum(db)
    ensures Rises(db, Changed(db, c))
  {
  }

  /** The database after all the changes, or None if one of them is refused. */
  function RunChanges(db: Db, changes: seq<Change>): Option<Db>
    requires HasHead(db) && WellNumbered(db)
    ensures RunChanges(db, changes).Some? ==>
      var r := RunChanges(db, changes).value;
      HasHead(r) && WellNumbered(r) && HeadId(r) == HeadId(db) && HeadNum(r) == HeadNum(db) && Rises(db, r)
    decreases |changes|
  {
    if changes == [] then Some(db)
    else if !Allowed(db, changes[0]) then None
    else
      ChangedKeeps(db, changes[0]);
      RunChanges(Changed(db, changes[0]), changes[1..])
  }

  function RunScript(db: Db, s: Script): Option<Db>
    requires HasHead(db) && WellNumbered(db)
  {
    if s.completes then RunChanges(db, s.changes) else None
  }

  ghost predicate Good(db: Db) {
    HasHead(db) && WellNumbered(db)
  }

  /** The database after the transactions of `b`, where the undo history is resized. */
  function Midway(rules: Rules, db: Db, b: Block): Option<Db>
    requires Good(db)
  {
    if HeadId(db) != b.previous then None
    else RunScript(WithHead(db, b), rules.transact(WithHead(db, b), b))
  }

  /** The database after `b` has been applied, or None if applying it throws. */
  function Effect(rules: Rules, db: Db, b: Block): Option<Db>
    requires Good(db)
  {
    match Midway(rules, db, b)
    case None => None
    case Some(mid) => RunScript(mid, rules.maintain(mid, b))
  }

  lemma EffectHead(rules: Rules, db: Db, b: Block)
    requires Good(db) && Effect(rules, db, b).Some?
    ensures var r := Effect(rules, db, b).value;
      Good(r) && HeadId(r) == b.id && HeadNum(r) == b.num && HeadId(db) == b.previous && Rises(db, r)
  {
  }

  lemma MidwayHead(rules: Rules, db: Db, b: Block)
    requires Good(db) && Midway(rules, db, b).Some?
    ensures var r := Midway(rules, db, b).value;
      Good(r) && HeadId(r) == b.id && HeadNum(r) == b.num && HeadId(db) == b.previous && Rises(db, r)
  {
  }

  /** The database after a run of blocks has been replayed, or None if one of them throws. */
  function Replay(rules: Rules, db: Db, blocks: seq<Block>): Option<Db>
    requires Good(db)
    ensures Replay(rules, db, blocks).Some? ==> Good(Replay(rules, db, blocks).value)
    decreases |blocks|
  {
    if blocks == [] then Some(db)
    else
      match Effect(rules, db, blocks[0])
      case None => None
      case Some(db') =>
        EffectHead(rules, db, blocks[0]);
        Replay(rules, db', blocks[1..])
  }

  lemma {:induction false} ReplaySnoc(rules: Rules, db: Db, blocks: seq<Block>, b: Block)
    requires Good(db)
    ensures Replay(rules, db, blocks + [b]) ==
      match Replay(rules, db, blocks) case None => None case Some(d) => Effect(rules, d, b)
    decreases |blocks|
  {
    if blocks == [] {
      assert blocks + [b] == [b] && [b][1..] == [];
    } else {
      assert (blocks + [b])[1..] == blocks[1..] + [b];
      match Effect(rules, db, blocks[0])
      case None =>
      case Some(db') =>
        EffectHead(rules, db, blocks[0]);
        ReplaySnoc(rules, db', blocks[1..], b);
    }
  }

  /** How many undo sessions are kept at this state: those above the last irreversible block. */
  function UndoLimit(db: Db): nat
    requires HasHead(db)
  {
    if HeadNum(db) + 1 >= LastIrreversible(db) then HeadNum(db) + 1 - LastIrreversible(db) else 0
  }
}
