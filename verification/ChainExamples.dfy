/** Runs of pushes in which the node does not do what it should. */
module ChainExamples {
  import opened Options
  import opened UndoState
  import opened UndoDatabase
  import opened ChainState
  import opened ForkTree
  import opened BlockReplay
  import opened ChainNode
  import opened ForkSwitch
  import opened BlockPush
  import opened ChainDatabase

  const START := Block(10, 0, 1, 0)
  const A2 := Block(20, 10, 2, 0)
  const A3 := Block(30, 20, 3, 0)
  const A4 := Block(40, 30, 4, 0)
  const A5 := Block(50, 40, 5, 0)
  const A6 := Block(60, 50, 6, 1)
  const C2 := Block(21, 10, 2, 0)
  const C3 := Block(31, 21, 3, 2)
  const C4 := Block(41, 31, 4, 3)
  const C5 := Block(51, 41, 5, 4)
  const C6 := Block(61, 51, 6, 1)
  const D6 := Block(62, 51, 6, 0)

  const IDS := Ids(BlockOf, (id: nat) => id / 10)

  function BlockOf(id: nat): Block {
    match id
    case 10 => START
    case 20 => A2
    case 30 => A3
    case 40 => A4
    case 50 => A5
    case 60 => A6
    case 21 => C2
    case 31 => C3
    case 41 => C4
    case 51 => C5
    case 61 => C6
    case _ => D6
  }

  function Maintenance(b: Block): seq<Change> {
    if b.body > 1 then [ModifyObject(PROPERTIES, Properties(b.id, b.num, b.body))] else []
  }

  /** A block with body 1 throws; one with a higher body makes the block of that height irreversible. */
  const RULES := Rules(
    (db: Db, b: Block) => Script([], b.body != 1),
    (db: Db, b: Block) => Script(Maintenance(b), true))

  function At(b: Block, last: nat): Db {
    Db(map[PROPERTIES := Properties(b.id, b.num, last)], [1])
  }

  lemma GoodAt(b: Block, last: nat)
    ensures Good(At(b, last)) && HeadId(At(b, last)) == b.id && HeadNum(At(b, last)) == b.num
  {
  }

  lemma GoodEffect(b: Block, prev: Block, last: nat)
    requires b.previous == prev.id && b.body != 1 && (b.body > 1 ==> last <= b.body <= b.num)
    ensures Good(At(prev, last)) && Midway(RULES, At(prev, last), b) == Some(At(b, last))
    ensures Effect(RULES, At(prev, last), b) == Some(At(b, if b.body > 1 then b.body else last))
  {
    assert WithHead(At(prev, last), b) == At(b, last);
    if b.body > 1 {
      var c := ModifyObject(PROPERTIES, Properties(b.id, b.num, b.body));
      assert Changed(At(b, last), c) == At(b, b.body) && [c][1..] == [];
      assert RunChanges(At(b, last), [c]) == Some(At(b, b.body));
    }
  }

  lemma BadEffect(b: Block, prev: Block, last: nat)
    requires b.body == 1
    ensures Good(At(prev, last)) && Effect(RULES, At(prev, last), b) == None
  {
  }

  const N1 := Node([], At(START, 1), [], 10, map[10 := START], START, 1024)
  const N2 := Node([At(START, 1)], At(A2, 1), [A2], 2, map[10 := START, 20 := A2], A2, 2)
  const N3 := Node(N2.saved + [At(A2, 1)], At(A3, 1), [A2, A3], 3, N2.index[30 := A3], A3, 3)
  const N4 := Node(N3.saved + [At(A3, 1)], At(A4, 1), [A2, A3, A4], 4, N3.index[40 := A4], A4, 4)
  const N5 := Node(N4.saved + [At(A4, 1)], At(A5, 1), [A2, A3, A4, A5], 5, N4.index[50 := A5], A5, 5)
  const F2 := N5.(index := N5.index[21 := C2])
  const F3 := N5.(index := F2.index[31 := C3])
  const F4 := N5.(index := F3.index[41 := C4])
  const F5 := N5.(index := F4.index[51 := C5])

  /** Pushing a plain block on top of the head. */
  lemma Extends(n: Node, b: Block, prev: Block, r: Node)
    requires Fit(n) && n.db == At(prev, 1) && |n.saved| <= n.limit && n.head == prev && b.num == prev.num + 1
    requires b.previous == prev.id && prev.id in n.index && b.body == 0 && b.id !in n.index && n.forkMax > 0
    requires forall id :: id in n.index ==> n.index[id].num + n.forkMax >= b.num && n.index[id].num > 0
    requires r == Node(n.saved + [n.db], At(b, 1), n.history + [b], b.num, n.index[b.id := b], b, b.num)
    ensures Push(RULES, n, b) == (r, Returned(false))
  {
    GoodEffect(b, prev, 1);
    var m := WithBlock(n, b);
    assert m == n.(index := n.index[b.id := b], head := b);
    hide Midway, Effect;
    assert Resized(RULES, m, b) == m.(limit := b.num, forkMax := b.num);
    AppliedIs(RULES, m, b, r);
  }

  /** Pushing a new block that is not higher than the head. */
  lemma OnlyFiled(n: Node, b: Block, r: Node)
    requires Fit(n) && n.head.num == HeadNum(n.db) >= b.num && n.head.previous != HeadId(n.db)
    requires Linkable(n.index, n.head, n.forkMax, b) && b.id !in n.index && r == n.(index := n.index[b.id := b])
    ensures Push(RULES, n, b) == (r, Returned(false))
  {
    hide Fit;
  }

  lemma MainFit(n: Node)
    requires n == N5.(index := n.index)
    ensures Fit(n) && HeadNum(n.db) == 5 && HeadId(n.db) == 50
  {
    hide Good, At;
    GoodAt(START, 1);
    GoodAt(A2, 1);
    GoodAt(A3, 1);
    GoodAt(A4, 1);
    GoodAt(A5, 1);
  }

  lemma AllNamed()
    ensures Good(At(START, 1)) && Numbered(IDS, At(START, 1)) && Named(IDS, START)
    ensures Named(IDS, A2) && Named(IDS, A3) && Named(IDS, A4) && Named(IDS, A5) && Named(IDS, A6)
    ensures Named(IDS, C2) && Named(IDS, C3) && Named(IDS, C4) && Named(IDS, C5) && Named(IDS, C6) && Named(IDS, D6)
  {
  }

  /** One push, and what it leaves of the node. */
  method Step(d: Database, b: Block) returns (o: Outcome)
    requires d.Valid() && d.rules == RULES && d.ids == IDS && Named(IDS, b)
    modifies d, d.undo
    ensures d.Valid() && Fit(d.Now()) && Fit(old(d.Now())) && (d.Now(), o) == Push(RULES, old(d.Now()), b)
  {
    hide Sound, Push, Named, Harmless, Tries, OnFork, Effect, WithBlock;
    SoundFit(IDS, RULES, d.Now());
    o := d.PushBlock(b);
  }

  /** Two blocks on the main chain. */
  method Started() returns (d: Database)
    ensures fresh(d) && fresh(d.undo) && d.Valid() && d.rules == RULES && d.ids == IDS && d.Now() == N3
  {
    hide Sound, Push, Named, Good, BlockOf, At, Numbered, Fit;
    AllNamed();
    d := new Database(RULES, At(START, 1), 10, START, IDS);
    SoundFit(IDS, RULES, d.Now());
    Extends(N1, A2, START, N2);
    var r := Step(d, A2);
    Extends(N2, A3, A2, N3);
    r := Step(d, A3);
  }

  /** Four blocks on the main chain. */
  method Extended() returns (d: Database)
    ensures fresh(d) && fresh(d.undo) && d.Valid() && d.rules == RULES && d.ids == IDS && d.Now() == N5
  {
    hide Sound, Push, Named, Good, BlockOf, At, Numbered, Fit;
    AllNamed();
    d := Started();
    SoundFit(IDS, RULES, d.Now());
    Extends(N3, A4, A3, N4);
    var r := Step(d, A4);
    Extends(N4, A5, A4, N5);
    r := Step(d, A5);
  }

  /** Four blocks on the main chain, and two of a fork. */
  method Forking() returns (d: Database)
    ensures fresh(d) && fresh(d.undo) && d.Valid() && d.rules == RULES && d.ids == IDS && d.Now() == F3
  {
    hide Sound, Push, Named, Good, BlockOf, At, Numbered, Fit;
    AllNamed();
    d := Extended();
    MainFit(N5);
    OnlyFiled(N5, C2, F2);
    var r := Step(d, C2);
    MainFit(F2);
    OnlyFiled(F2, C3, F3);
    r := Step(d, C3);
  }

  /** Four blocks on the main chain, and a fork of the same height. */
  method Reached() returns (d: Database)
    ensures fresh(d) && fresh(d.undo) && d.Valid() && d.rules == RULES && d.ids == IDS && d.Now() == F5
  {
    hide Sound, Push, Named, Good, BlockOf, At, Numbered, Fit;
    AllNamed();
    d := Forking();
    MainFit(F3);
    OnlyFiled(F3, C4, F4);
    var r := Step(d, C4);
    MainFit(F4);
    OnlyFiled(F4, C5, F5);
    r := Step(d, C5);
  }

  const OLD := [A5, A4, A3, A2]

  /** The fork, from its lowest block up, and the block on top of it. */
  function Fork(b: Block): seq<Block> {
    [C2, C3, C4, C5, b]
  }

  lemma OneMore(b: Block, i: nat, prev: Block, last: nat)
    requires i < 4 && Good(At(START, 1)) && Replay(RULES, At(START, 1), Fork(b)[..i]) == Some(At(prev, last))
    requires Fork(b)[i].previous == prev.id && Fork(b)[i].body != 1
    requires Fork(b)[i].body > 1 ==> last <= Fork(b)[i].body <= Fork(b)[i].num
    ensures Replay(RULES, At(START, 1), Fork(b)[..i + 1]) ==
      Some(At(Fork(b)[i], if Fork(b)[i].body > 1 then Fork(b)[i].body else last))
    ensures IrreversibleAt(RULES, At(START, 1), Fork(b), i) == last
  {
    hide Replay, Effect, Midway;
    GoodEffect(Fork(b)[i], prev, last);
    assert Fork(b)[..i + 1] == Fork(b)[..i] + [Fork(b)[i]];
    ReplaySnoc(RULES, At(START, 1), Fork(b)[..i], Fork(b)[i]);
  }

  /** How the fork is applied, and the last irreversible block each time the undo stack is resized. */
  lemma ForkRuns(b: Block)
    ensures Good(At(START, 1)) && Replay(RULES, At(START, 1), Fork(b)[..1]) == Some(At(C2, 1))
    ensures Replay(RULES, At(START, 1), Fork(b)[..2]) == Some(At(C3, 2))
    ensures Replay(RULES, At(START, 1), Fork(b)[..3]) == Some(At(C4, 3))
    ensures Replay(RULES, At(START, 1), Fork(b)[..4]) == Some(At(C5, 4))
    ensures Replay(RULES, At(START, 1), Fork(b)[..0]) == Some(At(START, 1))
    ensures IrreversibleAt(RULES, At(START, 1), Fork(b), 0) == IrreversibleAt(RULES, At(START, 1), Fork(b), 1) == 1
    ensures IrreversibleAt(RULES, At(START, 1), Fork(b), 2) == 2
    ensures IrreversibleAt(RULES, At(START, 1), Fork(b), 3) == 3
  {
    hide Replay, At, IrreversibleAt;
    GoodAt(START, 1);
    ReplayNone(RULES, At(START, 1), Fork(b));
    OneMore(b, 0, START, 1);
    OneMore(b, 1, C2, 1);
    OneMore(b, 2, C3, 2);
    OneMore(b, 3, C4, 3);
  }

  /** With a last block that throws, four blocks apply, and the undo stack is one session short. */
  lemma ForkFails()
    ensures Good(At(START, 1)) && HeadNum(At(START, 1)) == 1 && Applying(RULES, At(START, 1), Fork(C6)) == 4
    ensures HeldBack(RULES, At(START, 1), Fork(C6), 3) && !HeldBack(RULES, At(START, 1), Fork(C6), 2)
  {
    hide Replay, Effect, IrreversibleAt, At, Applying;
    GoodAt(START, 1);
    ForkRuns(C6);
    BadEffect(C6, C5, 4);
    GoodAt(C5, 4);
    ApplyingIs(RULES, At(START, 1), Fork(C6), 4, At(C5, 4));
    assert IrreversibleAt(RULES, At(START, 1), Fork(C6), 3) == 3;
  }

  /** With a last block that applies, all of the fork does. */
  lemma ForkSucceeds()
    ensures Good(At(START, 1)) && Replay(RULES, At(START, 1), Fork(D6)) == Some(At(D6, 4))
  {
    hide Replay, Effect, Midway, At;
    ForkRuns(D6);
    GoodEffect(D6, C5, 4);
    assert Fork(D6) == Fork(D6)[..4] + [D6];
    ReplaySnoc(RULES, At(START, 1), Fork(D6)[..4], D6);
  }

  lemma ForkFiled(b: Block)
    requires b == C6 || b == D6
    ensures WithBlock(F5, b) == F5.(index := F5.index[b.id := b], head := b)
    ensures Linkable(F5.index, F5.head, F5.forkMax, b)
  {
  }

  lemma OldPath(index: Index)
    requires 20 in index && 30 in index && 40 in index && 50 in index
    requires index[20] == A2 && index[30] == A3 && index[40] == A4 && index[50] == A5
    ensures Path(index, OLD)
  {
  }

  lemma NewPath(b: Block, index: Index)
    requires (b == C6 || b == D6) && 21 in index && 31 in index && 41 in index && 51 in index && b.id in index
    requires index[21] == C2 && index[31] == C3 && index[41] == C4 && index[51] == C5 && index[b.id] == b
    ensures Path(index, [b, C5, C4, C3, C2]) && Upward([b, C5, C4, C3, C2]) == Fork(b)
  {
  }

  lemma ForkPaths(b: Block, index: Index)
    requires (b == C6 || b == D6) && Path(index, OLD) && Path(index, [b, C5, C4, C3, C2])
    ensures Forked(index, b.id, 50, [b, C5, C4, C3, C2], OLD)
  {
    hide Path;
  }

  lemma ForkThere(b: Block)
    requires b == C6 || b == D6
    ensures Good(F5.db) && Tries(F5, b, [b, C5, C4, C3, C2], OLD) && Upward([b, C5, C4, C3, C2]) == Fork(b)
  {
    hide Good, Forked, WithBlock, Linkable, Upward, Fork, Path;
    MainFit(F5);
    ForkFiled(b);
    OldPath(F5.index[b.id := b]);
    NewPath(b, F5.index[b.id := b]);
    ForkPaths(b, F5.index[b.id := b]);
  }

  lemma BackToStart(n: Node)
    requires n.saved == F5.saved
    ensures |n.saved| == 4 && StateBack(n.saved, n.db, 4) == At(START, 1)
  {
    hide At;
  }

  /** The fork fails at its last block. By then the undo stack is one session short, so one of its four
      blocks does not come off again. */
  lemma OneStays(n: Node, first: seq<Block>)
    requires Parted(IDS, RULES, n, first, OLD) && n.saved == F5.saved && Upward(first) == Fork(C6)
    ensures TakenBack(RULES, n, first, OLD) == 3 && Good(At(START, 1))
    ensures Applying(RULES, At(START, 1), Fork(C6)) == 4 && Replay(RULES, At(START, 1), Fork(C6)).None?
    ensures |n.saved| == 4 && StateBack(n.saved, n.db, 4) == At(START, 1)
  {
    hide Sound, Forked, TakenBack, Replay, At, HeldBack, Upward, Applying, IrreversibleAt, StateBack, Fork, Effect;
    BackToStart(n);
    ForkFails();
    assert |Upward(first)| == 5 && |first| == 5 by { UpwardMeaning(first); ForkLength(C6); }
    TakenBackExact(IDS, RULES, n, first, OLD, 4);
    TakenBackExact(IDS, RULES, n, first, OLD, 3);
    ApplyingExact(RULES, At(START, 1), Fork(C6));
  }

  lemma ForkLength(b: Block)
    ensures |Fork(b)| == 5
  {
  }

  /** The node is left on a branch it has rejected. */
  lemma StrandedOnFork()
    requires Sound(IDS, RULES, F5)
    ensures var (r, o) := Push(RULES, F5, C6);
      o.Threw? && r.db == At(C2, 1)
  {
    hide Sound, Push, Named, Tries, Effect, WithBlock, BlockOf, Switch, TakenBack, Replay, At, Upward, Parted,
         Applying, IrreversibleAt, StateBack, Fork, Forked;
    AllNamed();
    ForkThere(C6);
    ForkFiled(C6);
    var first := [C6, C5, C4, C3, C2];
    SoundFit(IDS, RULES, F5);
    PushTries(IDS, RULES, F5, C6, first, OLD);
    var m := WithBlock(F5, C6);
    SwitchExact(IDS, RULES, m, first, OLD);
    OneStays(m, first);
    ForkRuns(C6);
  }

  ghost predicate Switches(n: Node, b: Block) {
    Fit(n) && Push(RULES, n, b).1 == Returned(true)
  }

  /** With a last block that applies, the fork is switched to; but not once a bad block has been pushed
      on top of the old head. */
  lemma SwitchLost()
    requires Sound(IDS, RULES, F5)
    ensures Switches(F5, D6)
    ensures var (r, o) := Push(RULES, Push(RULES, F5, A6).0, D6);
      o.Threw? && r.db == At(A5, 1)
  {
    hide Sound, Push, Named, BlockOf, Switch, TakenBack, Replay, Midway, Effect, Forked, Upward, StateBack, Fork;
    AllNamed();
    BadEffect(A6, A5, 1);
    ForkThere(D6);
    ForkFiled(D6);
    ForkSucceeds();
    SoundFit(IDS, RULES, F5);
    BackToStart(F5);
    StaleHeadCosts(IDS, RULES, F5, A6, D6, [D6, C5, C4, C3, C2], OLD);
  }

  /** The node pushes a block that throws, and is left with the head on the fork it has rejected. */
  method PushStranded() returns (d: Database, before: Db, r: Outcome)
    ensures d.Valid() && r.Threw? && before == At(A5, 1) && d.undo.db == At(C2, 1) != before
  {
    hide Sound, Push, Named, BlockOf, Fit, At;
    d := Reached();
    before := d.undo.db;
    GoodAt(A5, 1);
    GoodAt(C2, 1);
    AllNamed();
    StrandedOnFork();
    r := Step(d, C6);
  }

  /** The node loses a switch: the two pushes throw, and the objects stay as they are. */
  method PushLost() returns (d: Database, r: Outcome)
    ensures d.Valid() && r.Threw? && d.undo.db == At(A5, 1) && Switches(F5, D6)
  {
    hide Sound, Push, Named, Good, BlockOf, At, Numbered, Fit;
    d := Reached();
    AllNamed();
    SwitchLost();
    r := Step(d, A6);
    r := Step(d, D6);
  }
}
