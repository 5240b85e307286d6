/** Building a block from pending transactions, and applying the built block again. */
module BlockGeneration {
  import opened Options
  import opened UndoState
  import opened UndoDatabase
  import opened ChainState
  import opened ChainDatabase

  datatype Operation = Native(body: nat) | ContractCall(body: nat)
  datatype Transaction = Transaction(operations: seq<Operation>, body: nat)
  datatype Result = Value(value: nat) | Receipt(billedCpu: nat, charged: nat)
  datatype Processed = Processed(tx: Transaction, results: seq<Result>)

  /** What the evaluators do to the objects they read, and the chain parameters that no transaction
      changes. Running contract code takes no note of the clock; its charge depends on the billed time. */
  datatype Evaluators = Evaluators(
    admit: (Db, Transaction) -> Script,
    native: (Db, nat) -> (Script, nat),
    exec: (Db, nat) -> Script,
    charge: (Db, nat, nat) -> (Script, nat),
    size: Processed -> nat,
    trxCpuLimit: nat,
    blockCpuLimit: nat,
    maximumBlockSize: nat)

  /** Microseconds a contract may run when its time was billed before. */
  const BILLED_CPU_LIMIT: nat := 3_000_000

  /** One operation: `billed` is the recorded time, or 0 if there is none; `time` is what the clock says. */
  function Operate(ev: Evaluators, db: Db, op: Operation, billed: nat, time: nat): (r: Option<(Db, Result)>)
    requires Good(db)
    ensures r.Some? ==> Good(r.value.0)
  {
    match op
    case Native(body) =>
      (match RunScript(db, ev.native(db, body).0)
       case None => None
       case Some(d) => Some((d, Result.Value(ev.native(db, body).1))))
    case ContractCall(body) =>
      if time > (if billed == 0 then ev.trxCpuLimit else BILLED_CPU_LIMIT) then None
      else
        match RunScript(db, ev.exec(db, body))
        case None => None
        case Some(d) =>
          var cpu := if billed > 0 then billed else time;
          match RunScript(d, ev.charge(d, body, cpu).0)
          case None => None
          case Some(e) => Some((e, Receipt(cpu, ev.charge(d, body, cpu).1)))
  }

  /** A call of contract code: the code runs first and leads to `mid`, then its time is charged. */
  ghost predicate Executes(ev: Evaluators, db: Db, body: nat, cpu: nat, mid: Db, db': Db, result: Result)
    requires Good(db)
  {
    && RunScript(db, ev.exec(db, body)) == Some(mid) && Good(mid)
    && var (script, charged) := ev.charge(mid, body, cpu);
    RunScript(mid, script) == Some(db') && result == Receipt(cpu, charged)
  }

  /** What an operation has to do: a native one runs its script. A call of contract code has to be done in
      time, runs the code and charges it; it takes the recorded time if there is one, and the clock else. */
  ghost predicate Operates(ev: Evaluators, db: Db, op: Operation, billed: nat, time: nat, db': Db, result: Result)
    requires Good(db)
  {
    match op
    case Native(body) =>
      var (script, value) := ev.native(db, body);
      RunScript(db, script) == Some(db') && result == Result.Value(value)
    case ContractCall(body) =>
      if billed == 0 then time <= ev.trxCpuLimit && exists mid :: Executes(ev, db, body, time, mid, db', result)
      else time <= BILLED_CPU_LIMIT && exists mid :: Executes(ev, db, body, billed, mid, db', result)
  }

  lemma OperatesExact(ev: Evaluators, db: Db, op: Operation, billed: nat, time: nat, db': Db, result: Result)
    requires Good(db)
    ensures Operate(ev, db, op, billed, time) == Some((db', result)) <==>
      Operates(ev, db, op, billed, time, db', result)
  {
    hide RunScript, WellNumbered;
    if op.ContractCall? && Operate(ev, db, op, billed, time) == Some((db', result)) {
      RunGood(db, ev.exec(db, op.body));
      var mid := RunScript(db, ev.exec(db, op.body)).value;
      assert Executes(ev, db, op.body, if billed > 0 then billed else time, mid, db', result);
    }
  }

  lemma RunGood(db: Db, s: Script)
    requires Good(db)
    ensures RunScript(db, s).Some? ==> Good(RunScript(db, s).value)
  {
  }

  /** The time recorded for an operation, or 0. */
  ghost function RecordedTime(recorded: seq<Result>, i: nat): nat {
    if i < |recorded| then match recorded[i] case Receipt(billed, _) => billed case Value(_) => 0 else 0
  }

  /** The states that operations lead through, one after the other. */
  ghost predicate Leads(ev: Evaluators, states: seq<Db>, ops: seq<Operation>, recorded: seq<Result>, times: seq<nat>,
                        results: seq<Result>) {
    && |states| == |ops| + 1 && |times| == |results| == |ops|
    && (forall i :: 0 <= i < |states| ==> Good(states[i]))
    && forall i :: 0 <= i < |ops| ==>
         Operates(ev, states[i], ops[i], RecordedTime(recorded, i), times[i], states[i + 1], results[i])
  }

  /** What a transaction has to do: it is admitted first, then its operations follow one another. */
  ghost predicate Applies(ev: Evaluators, db: Db, tx: Transaction, recorded: seq<Result>, times: seq<nat>, db': Db,
                          results: seq<Result>)
    requires Good(db)
  {
    exists states :: Leads(ev, states, tx.operations, recorded, times, results) && |states| == |tx.operations| + 1
      && RunScript(db, ev.admit(db, tx)) == Some(states[0]) && states[|tx.operations|] == db'
  }

  /** The time recorded for the first operation. */
  function BilledFirst(recorded: seq<Result>): nat {
    if recorded != [] && recorded[0].Receipt? then recorded[0].billedCpu else 0
  }

  function Rest(recorded: seq<Result>): seq<Result> {
    if recorded == [] then [] else recorded[1..]
  }

  function OperateAll(ev: Evaluators, db: Db, ops: seq<Operation>, recorded: seq<Result>,
                      times: seq<nat>): (r: Option<(Db, seq<Result>)>)
    requires Good(db) && |times| == |ops|
    ensures r.Some? ==> Good(r.value.0) && |r.value.1| == |ops|
    decreases |ops|
  {
    if ops == [] then Some((db, []))
    else
      match Operate(ev, db, ops[0], BilledFirst(recorded), times[0])
      case None => None
      case Some((d, first)) =>
        match OperateAll(ev, d, ops[1..], Rest(recorded), times[1..])
        case None => None
        case Some((e, others)) => Some((e, [first] + others))
  }

  function ApplyTo(ev: Evaluators, db: Db, tx: Transaction, recorded: seq<Result>,
                   times: seq<nat>): (r: Option<(Db, seq<Result>)>)
    requires Good(db) && |times| == |tx.operations|
    ensures r.Some? ==> Good(r.value.0) && |r.value.1| == |tx.operations|
  {
    match RunScript(db, ev.admit(db, tx))
    case None => None
    case Some(d) => OperateAll(ev, d, tx.operations, recorded, times)
  }

  lemma LeadsFirst(ev: Evaluators, states: seq<Db>, ops: seq<Operation>, recorded: seq<Result>, times: seq<nat>,
                   results: seq<Result>)
    requires Leads(ev, states, ops, recorded, times, results) && ops != []
    ensures Leads(ev, states[1..], ops[1..], Rest(recorded), times[1..], results[1..])
    ensures Operate(ev, states[0], ops[0], BilledFirst(recorded), times[0]) == Some((states[1], results[0]))
  {
    hide Operates, Operate, Good;
    OperatesExact(ev, states[0], ops[0], RecordedTime(recorded, 0), times[0], states[1], results[0]);
    forall i | 0 <= i < |ops| - 1
      ensures Operates(ev, states[1..][i], ops[1..][i], RecordedTime(Rest(recorded), i), times[1..][i],
        states[1..][i + 1], results[1..][i]) {
      assert RecordedTime(Rest(recorded), i) == RecordedTime(recorded, i + 1);
    }
  }

  lemma LeadsMore(ev: Evaluators, db: Db, states: seq<Db>, ops: seq<Operation>, recorded: seq<Result>,
                  times: seq<nat>, results: seq<Result>, first: Result)
    requires Good(db) && ops != [] && |times| == |ops| && states != []
    requires Leads(ev, states, ops[1..], Rest(recorded), times[1..], results)
    requires Operate(ev, db, ops[0], BilledFirst(recorded), times[0]) == Some((states[0], first))
    ensures Leads(ev, [db] + states, ops, recorded, times, [first] + results)
  {
    hide Operates, Operate, Good;
    OperatesExact(ev, db, ops[0], RecordedTime(recorded, 0), times[0], states[0], first);
    var all, rs := [db] + states, [first] + results;
    forall i | 0 <= i < |ops|
      ensures Operates(ev, all[i], ops[i], RecordedTime(recorded, i), times[i], all[i + 1], rs[i]) {
      if i > 0 {
        assert Operates(ev, states[i - 1], ops[1..][i - 1], RecordedTime(Rest(recorded), i - 1), times[1..][i - 1],
          states[i], results[i - 1]);
        assert RecordedTime(Rest(recorded), i - 1) == RecordedTime(recorded, i);
      }
    }
  }

  lemma {:induction false} LeadsAll(ev: Evaluators, states: seq<Db>, ops: seq<Operation>, recorded: seq<Result>,
                                    times: seq<nat>, results: seq<Result>)
    requires Leads(ev, states, ops, recorded, times, results)
    ensures Good(states[0]) && OperateAll(ev, states[0], ops, recorded, times) == Some((states[|ops|], results))
    decreases |ops|
  {
    hide Operate, Leads;
    LeadsShape(ev, states, ops, recorded, times, results);
    if ops == [] {
    } else {
      LeadsFirst(ev, states, ops, recorded, times, results);
      LeadsAll(ev, states[1..], ops[1..], Rest(recorded), times[1..], results[1..]);
      assert [results[0]] + results[1..] == results;
    }
  }

  lemma LeadsShape(ev: Evaluators, states: seq<Db>, ops: seq<Operation>, recorded: seq<Result>, times: seq<nat>,
                   results: seq<Result>)
    requires Leads(ev, states, ops, recorded, times, results)
    ensures |states| == |ops| + 1 && |times| == |results| == |ops| && Good(states[0])
  {
  }

  lemma {:induction false} AllLead(ev: Evaluators, db: Db, ops: seq<Operation>, recorded: seq<Result>,
                                   times: seq<nat>) returns (states: seq<Db>)
    requires Good(db) && |times| == |ops| && OperateAll(ev, db, ops, recorded, times).Some?
    ensures var (d, results) := OperateAll(ev, db, ops, recorded, times).value;
      |states| == |ops| + 1 && states[0] == db && states[|ops|] == d
        && Leads(ev, states, ops, recorded, times, results)
    decreases |ops|
  {
    hide Operate, Operates;
    if ops == [] {
      states := [db];
    } else {
      var (d, first) := Operate(ev, db, ops[0], BilledFirst(recorded), times[0]).value;
      var rest := AllLead(ev, d, ops[1..], Rest(recorded), times[1..]);
      LeadsMore(ev, db, rest, ops, recorded, times, OperateAll(ev, d, ops[1..], Rest(recorded), times[1..]).value.1,
        first);
      states := [db] + rest;
    }
  }

  /** Applying a transaction does what a transaction has to do, and throws only where that is impossible. */
  lemma AppliesExact(ev: Evaluators, db: Db, tx: Transaction, recorded: seq<Result>, times: seq<nat>, db': Db,
                     results: seq<Result>)
    requires Good(db) && |times| == |tx.operations|
    ensures ApplyTo(ev, db, tx, recorded, times) == Some((db', results)) <==>
      Applies(ev, db, tx, recorded, times, db', results)
  {
    hide OperateAll, Leads, RunScript, WellNumbered;
    if Applies(ev, db, tx, recorded, times, db', results) {
      var states :| Leads(ev, states, tx.operations, recorded, times, results) && |states| == |tx.operations| + 1
        && RunScript(db, ev.admit(db, tx)) == Some(states[0]) && states[|tx.operations|] == db';
      LeadsAll(ev, states, tx.operations, recorded, times, results);
    }
    if ApplyTo(ev, db, tx, recorded, times) == Some((db', results)) {
      RunGood(db, ev.admit(db, tx));
      var states := AllLead(ev, RunScript(db, ev.admit(db, tx)).value, tx.operations, recorded, times);
      assert Leads(ev, states, tx.operations, recorded, times, results);
    }
  }

  /** The microseconds billed in a list of results. */
  function Cpu(results: seq<Result>): nat {
    if results == [] then 0
    else (if results[0].Receipt? then results[0].billedCpu else 0) + Cpu(results[1..])
  }

  function CpuOfBlock(txs: seq<Processed>): nat {
    if txs == [] then 0 else Cpu(txs[0].results) + CpuOfBlock(txs[1..])
  }

  /** Every receipt counts with its time, wherever it is, and nothing else counts. */
  lemma {:induction false} CpuAdds(a: seq<Result>, b: seq<Result>)
    ensures Cpu(a + b) == Cpu(a) + Cpu(b)
    ensures |a| == 1 ==> Cpu(a) == match a[0] case Receipt(billed, _) => billed case Value(_) => 0
    decreases |a|
  {
    if a == [] {
      assert a + b == b;
    } else {
      assert (a + b)[1..] == a[1..] + b;
      CpuAdds(a[1..], b);
    }
  }

  lemma {:induction false} CpuOfBlockAdds(a: seq<Processed>, b: seq<Processed>)
    ensures CpuOfBlock(a + b) == CpuOfBlock(a) + CpuOfBlock(b)
    ensures |a| == 1 ==> CpuOfBlock(a) == Cpu(a[0].results)
    decreases |a|
  {
    if a == [] {
      assert a + b == b;
    } else {
      assert (a + b)[1..] == a[1..] + b;
      CpuOfBlockAdds(a[1..], b);
    }
  }

  /** One clock reading per operation. */
  predicate Timed(txs: seq<Processed>, times: seq<seq<nat>>) {
    |times| == |txs| && forall i :: 0 <= i < |txs| ==> |times[i]| == |txs[i].tx.operations|
  }

  /** Applies the transactions of a block with their recorded results. */
  function ApplyRecorded(ev: Evaluators, db: Db, txs: seq<Processed>,
                         times: seq<seq<nat>>): (r: Option<(Db, seq<seq<Result>>)>)
    requires Good(db) && Timed(txs, times)
    ensures r.Some? ==> Good(r.value.0) && |r.value.1| == |txs|
    decreases |txs|
  {
    if txs == [] then Some((db, []))
    else
      match ApplyTo(ev, db, txs[0].tx, txs[0].results, times[0])
      case None => None
      case Some((d, first)) =>
        match ApplyRecorded(ev, d, txs[1..], times[1..])
        case None => None
        case Some((e, others)) => Some((e, [first] + others))
  }

  /** The states that the transactions of a block lead through, each with its recorded results. */
  ghost predicate Follows(ev: Evaluators, states: seq<Db>, txs: seq<Processed>, times: seq<seq<nat>>,
                          results: seq<seq<Result>>) {
    && |states| == |txs| + 1 && |times| == |results| == |txs|
    && (forall i :: 0 <= i < |states| ==> Good(states[i]))
    && forall i :: 0 <= i < |txs| ==>
         Applies(ev, states[i], txs[i].tx, txs[i].results, times[i], states[i + 1], results[i])
  }

  lemma {:induction false} FollowsAll(ev: Evaluators, states: seq<Db>, txs: seq<Processed>, times: seq<seq<nat>>,
                                      results: seq<seq<Result>>)
    requires Timed(txs, times) && Follows(ev, states, txs, times, results)
    ensures ApplyRecorded(ev, states[0], txs, times) == Some((states[|txs|], results))
    decreases |txs|
  {
    hide ApplyTo, Applies, Good;
    if txs == [] {
    } else {
      AppliesExact(ev, states[0], txs[0].tx, txs[0].results, times[0], states[1], results[0]);
      forall i | 0 <= i < |txs| - 1
        ensures Applies(ev, states[1..][i], txs[1..][i].tx, txs[1..][i].results, times[1..][i], states[1..][i + 1],
          results[1..][i]) {
        assert Applies(ev, states[i + 1], txs[i + 1].tx, txs[i + 1].results, times[i + 1], states[i + 2],
          results[i + 1]);
      }
      FollowsAll(ev, states[1..], txs[1..], times[1..], results[1..]);
      assert [results[0]] + results[1..] == results;
    }
  }

  lemma {:induction false} AllFollow(ev: Evaluators, db: Db, txs: seq<Processed>,
                                     times: seq<seq<nat>>) returns (states: seq<Db>)
    requires Good(db) && Timed(txs, times) && ApplyRecorded(ev, db, txs, times).Some?
    ensures var (d, results) := ApplyRecorded(ev, db, txs, times).value;
      |states| == |txs| + 1 && states[0] == db && states[|txs|] == d && Follows(ev, states, txs, times, results)
    decreases |txs|
  {
    hide ApplyTo, Applies, Good;
    if txs == [] {
      states := [db];
    } else {
      var (d, first) := ApplyTo(ev, db, txs[0].tx, txs[0].results, times[0]).value;
      AppliesExact(ev, db, txs[0].tx, txs[0].results, times[0], d, first);
      var rest := AllFollow(ev, d, txs[1..], times[1..]);
      var (e, others) := ApplyRecorded(ev, d, txs[1..], times[1..]).value;
      states := [db] + rest;
      var results := [first] + others;
      forall i | 0 <= i < |txs|
        ensures Applies(ev, states[i], txs[i].tx, txs[i].results, times[i], states[i + 1], results[i]) {
        if i > 0 {
          assert Applies(ev, rest[i - 1], txs[1..][i - 1].tx, txs[1..][i - 1].results, times[1..][i - 1], rest[i],
            others[i - 1]);
        }
      }
    }
  }

  /** Applying the transactions of a block is possible exactly if they lead on from one to the next. */
  lemma BlockExact(ev: Evaluators, db: Db, txs: seq<Processed>, times: seq<seq<nat>>, db': Db)
    requires Good(db) && Timed(txs, times)
    ensures (ApplyRecorded(ev, db, txs, times).Some? && ApplyRecorded(ev, db, txs, times).value.0 == db') <==>
      exists states, results :: |states| == |txs| + 1 && states[0] == db && states[|txs|] == db'
        && Follows(ev, states, txs, times, results)
  {
    hide ApplyRecorded, Follows, Good;
    if ApplyRecorded(ev, db, txs, times).Some? {
      var states := AllFollow(ev, db, txs, times);
      assert Follows(ev, states, txs, times, ApplyRecorded(ev, db, txs, times).value.1);
    }
    forall states, results | |states| == |txs| + 1 && states[0] == db && Follows(ev, states, txs, times, results)
      ensures ApplyRecorded(ev, db, txs, times) == Some((states[|txs|], results)) {
      FollowsAll(ev, states, txs, times, results);
    }
  }

  /** The transactions kept for the block out of the pending ones, and the state they lead to. A
      transaction is passed over if it would make the block too big, if the time budget is used up
      before or by it, or if it throws; time spent on one that is passed over still counts. */
  function Select(ev: Evaluators, db: Db, pending: seq<Processed>, times: seq<seq<nat>>, size: nat,
                  cpu: nat): (r: (seq<Processed>, Db))
    requires Good(db) && Timed(pending, times)
    ensures Good(r.1)
    decreases |pending|
  {
    if pending == [] then ([], db)
    else if size + ev.size(pending[0]) >= ev.maximumBlockSize || cpu >= ev.blockCpuLimit then
      Select(ev, db, pending[1..], times[1..], size, cpu)
    else
      match ApplyTo(ev, db, pending[0].tx, [], times[0])
      case None => Select(ev, db, pending[1..], times[1..], size, cpu)
      case Some((d, results)) =>
        if cpu + Cpu(results) >= ev.blockCpuLimit then
          Select(ev, db, pending[1..], times[1..], size, cpu + Cpu(results))
        else
          var kept := Processed(pending[0].tx, results);
          var (others, e) := Select(ev, d, pending[1..], times[1..], size + ev.size(kept), cpu + Cpu(results));
          ([kept] + others, e)
  }

  /** How far a block has got: the state, the size and the time spent. */
  datatype Progress = Progress(db: Db, size: nat, cpu: nat)

  /** What is to become of a pending transaction. It is tried if it fits and time is left; its time counts
      then. It is kept exactly if it applies and time is still left. */
  ghost predicate Considered(ev: Evaluators, from: Progress, tx: Processed, times: seq<nat>, to: Progress,
                             kept: Option<Processed>)
    requires Good(from.db)
  {
    if from.size + ev.size(tx) >= ev.maximumBlockSize || from.cpu >= ev.blockCpuLimit then to == from && kept.None?
    else if exists d, results :: Applies(ev, from.db, tx.tx, [], times, d, results) then
      exists d, results :: Applies(ev, from.db, tx.tx, [], times, d, results)
        && if from.cpu + Cpu(results) < ev.blockCpuLimit then
             kept == Some(Processed(tx.tx, results))
               && to == Progress(d, from.size + ev.size(kept.value), from.cpu + Cpu(results))
           else kept.None? && to == from.(cpu := from.cpu + Cpu(results))
    else to == from && kept.None?
  }

  /** The transactions kept, without gaps. */
  ghost function Gathered(kept: seq<Option<Processed>>): seq<Processed> {
    if kept == [] then []
    else if kept[0].Some? then [kept[0].value] + Gathered(kept[1..])
    else Gathered(kept[1..])
  }

  /** The pending transactions are considered one after the other. */
  ghost predicate Proceeds(ev: Evaluators, steps: seq<Progress>, pending: seq<Processed>, times: seq<seq<nat>>,
                           kept: seq<Option<Processed>>) {
    && |steps| == |pending| + 1 && |times| == |kept| == |pending|
    && (forall i :: 0 <= i < |steps| ==> Good(steps[i].db))
    && forall i :: 0 <= i < |pending| ==> Considered(ev, steps[i], pending[i], times[i], steps[i + 1], kept[i])
  }

  lemma TriedExact(ev: Evaluators, db: Db, tx: Transaction, times: seq<nat>)
    requires Good(db) && |times| == |tx.operations|
    ensures forall d, results :: Applies(ev, db, tx, [], times, d, results) <==>
      ApplyTo(ev, db, tx, [], times) == Some((d, results))
  {
    hide ApplyTo, Applies, Good;
    forall d, results ensures Applies(ev, db, tx, [], times, d, results) <==>
      ApplyTo(ev, db, tx, [], times) == Some((d, results)) {
      AppliesExact(ev, db, tx, [], times, d, results);
    }
  }

  lemma ConsideredSkipped(ev: Evaluators, from: Progress, tx: Processed, times: seq<nat>)
    requires Good(from.db) && |times| == |tx.tx.operations|
    requires from.size + ev.size(tx) >= ev.maximumBlockSize || from.cpu >= ev.blockCpuLimit
      || ApplyTo(ev, from.db, tx.tx, [], times).None?
    ensures Considered(ev, from, tx, times, from, None)
  {
    hide ApplyTo, Applies, Good, Cpu;
    TriedExact(ev, from.db, tx.tx, times);
  }

  lemma ConsideredTried(ev: Evaluators, from: Progress, tx: Processed, times: seq<nat>, d: Db, results: seq<Result>)
    requires Good(from.db) && |times| == |tx.tx.operations|
    requires from.size + ev.size(tx) < ev.maximumBlockSize && from.cpu < ev.blockCpuLimit
    requires ApplyTo(ev, from.db, tx.tx, [], times) == Some((d, results))
    ensures var cpu, kept := from.cpu + Cpu(results), Processed(tx.tx, results);
      if cpu < ev.blockCpuLimit then
        Considered(ev, from, tx, times, Progress(d, from.size + ev.size(kept), cpu), Some(kept))
      else Considered(ev, from, tx, times, from.(cpu := cpu), None)
  {
    hide ApplyTo, Applies, Good, Cpu;
    TriedExact(ev, from.db, tx.tx, times);
    assert Applies(ev, from.db, tx.tx, [], times, d, results);
  }

  lemma SelectSkips(ev: Evaluators, db: Db, pending: seq<Processed>, times: seq<seq<nat>>, size: nat, cpu: nat)
    requires Good(db) && Timed(pending, times) && pending != []
    requires size + ev.size(pending[0]) >= ev.maximumBlockSize || cpu >= ev.blockCpuLimit
      || ApplyTo(ev, db, pending[0].tx, [], times[0]).None?
    ensures Select(ev, db, pending, times, size, cpu) == Select(ev, db, pending[1..], times[1..], size, cpu)
  {
    hide ApplyTo, Cpu, Good;
  }

  lemma SelectTries(ev: Evaluators, db: Db, pending: seq<Processed>, times: seq<seq<nat>>, size: nat, cpu: nat, d: Db,
                    results: seq<Result>)
    requires Good(db) && Good(d) && Timed(pending, times) && pending != []
    requires size + ev.size(pending[0]) < ev.maximumBlockSize && cpu < ev.blockCpuLimit
    requires ApplyTo(ev, db, pending[0].tx, [], times[0]) == Some((d, results))
    ensures var more, kept := cpu + Cpu(results), Processed(pending[0].tx, results);
      Select(ev, db, pending, times, size, cpu) ==
      if more >= ev.blockCpuLimit then Select(ev, db, pending[1..], times[1..], size, more)
      else
        var rest := Select(ev, d, pending[1..], times[1..], size + ev.size(kept), more);
        ([kept] + rest.0, rest.1)
  {
    hide ApplyTo, Cpu, Good;
  }

  lemma ConsideredFirst(ev: Evaluators, db: Db, pending: seq<Processed>, times: seq<seq<nat>>, size: nat, cpu: nat)
    returns (to: Progress, kept: Option<Processed>)
    requires Good(db) && Timed(pending, times) && pending != []
    ensures Good(to.db) && Considered(ev, Progress(db, size, cpu), pending[0], times[0], to, kept)
    ensures var rest := Select(ev, to.db, pending[1..], times[1..], to.size, to.cpu);
      Select(ev, db, pending, times, size, cpu) == (if kept.Some? then [kept.value] + rest.0 else rest.0, rest.1)
  {
    hide ApplyTo, Cpu, Considered, Good, Select;
    var tx, from := pending[0], Progress(db, size, cpu);
    var r := ApplyTo(ev, db, tx.tx, [], times[0]);
    if size + ev.size(tx) >= ev.maximumBlockSize || cpu >= ev.blockCpuLimit || r.None? {
      to, kept := from, None;
      ConsideredSkipped(ev, from, tx, times[0]);
      SelectSkips(ev, db, pending, times, size, cpu);
    } else {
      var (d, results) := r.value;
      var done := Processed(tx.tx, results);
      ConsideredTried(ev, from, tx, times[0], d, results);
      SelectTries(ev, db, pending, times, size, cpu, d, results);
      if cpu + Cpu(results) < ev.blockCpuLimit {
        to, kept := Progress(d, size + ev.size(done), cpu + Cpu(results)), Some(done);
      } else {
        to, kept := from.(cpu := cpu + Cpu(results)), None;
      }
    }
  }

  /** The block takes every pending transaction that is to be kept, in order, and no other. */
  lemma {:induction false} SelectExact(ev: Evaluators, db: Db, pending: seq<Processed>, times: seq<seq<nat>>, size: nat,
                                       cpu: nat) returns (steps: seq<Progress>, kept: seq<Option<Processed>>)
    requires Good(db) && Timed(pending, times)
    ensures Proceeds(ev, steps, pending, times, kept) && steps[0] == Progress(db, size, cpu)
    ensures Select(ev, db, pending, times, size, cpu) == (Gathered(kept), steps[|pending|].db)
    decreases |pending|
  {
    hide Select, Considered, Good;
    if pending == [] {
      NoPending(ev, db, pending, times, size, cpu);
      steps, kept := [Progress(db, size, cpu)], [];
    } else {
      var to, first := ConsideredFirst(ev, db, pending, times, size, cpu);
      var more, others := SelectExact(ev, to.db, pending[1..], times[1..], to.size, to.cpu);
      steps, kept := [Progress(db, size, cpu)] + more, [first] + others;
      assert kept[1..] == others;
      forall i | 0 <= i < |pending| ensures Considered(ev, steps[i], pending[i], times[i], steps[i + 1], kept[i]) {
        if i > 0 {
          assert Considered(ev, more[i - 1], pending[1..][i - 1], times[1..][i - 1], more[i], others[i - 1]);
        }
      }
    }
  }

  /** A block holds what is to be kept of the pending transactions. */
  ghost predicate Selected(ev: Evaluators, db: Db, pending: seq<Processed>, times: seq<seq<nat>>, size: nat,
                           block: seq<Processed>) {
    exists steps, kept ::
      Proceeds(ev, steps, pending, times, kept) && steps[0] == Progress(db, size, 0) && block == Gathered(kept)
  }

  lemma SelectSelected(ev: Evaluators, db: Db, pending: seq<Processed>, times: seq<seq<nat>>, size: nat)
    requires Good(db) && Timed(pending, times)
    ensures Selected(ev, db, pending, times, size, Select(ev, db, pending, times, size, 0).0)
  {
    hide Select, Proceeds, Good;
    var steps, kept := SelectExact(ev, db, pending, times, size, 0);
    assert Proceeds(ev, steps, pending, times, kept);
  }

  /** Every contract call was billed some time. */
  predicate Billed(results: seq<Result>) {
    forall i :: 0 <= i < |results| && results[i].Receipt? ==> results[i].billedCpu > 0
  }

  predicate AllBilled(txs: seq<Processed>) {
    forall i :: 0 <= i < |txs| ==> Billed(txs[i].results)
  }

  /** The replaying node is fast enough for every contract call. */
  predicate Prompt(times: seq<nat>) {
    forall i :: 0 <= i < |times| ==> times[i] <= BILLED_CPU_LIMIT
  }

  predicate AllPrompt(times: seq<seq<nat>>) {
    forall i :: 0 <= i < |times| ==> Prompt(times[i])
  }

  lemma {:induction false} OperationsReplay(ev: Evaluators, db: Db, ops: seq<Operation>, times: seq<nat>,
                                            times': seq<nat>)
    requires Good(db) && |times| == |times'| == |ops| && Prompt(times')
    requires OperateAll(ev, db, ops, [], times).Some? && Billed(OperateAll(ev, db, ops, [], times).value.1)
    ensures OperateAll(ev, db, ops, OperateAll(ev, db, ops, [], times).value.1, times') ==
      OperateAll(ev, db, ops, [], times)
    decreases |ops|
  {
    if ops != [] {
      var rs := OperateAll(ev, db, ops, [], times).value.1;
      var (d, first) := Operate(ev, db, ops[0], 0, times[0]).value;
      assert rs[0] == first && rs[1..] == OperateAll(ev, d, ops[1..], [], times[1..]).value.1;
      OperationsReplay(ev, d, ops[1..], times[1..], times'[1..]);
    }
  }

  /** A transaction whose calls were all billed replays to the same state and results. */
  lemma TransactionReplays(ev: Evaluators, db: Db, tx: Transaction, times: seq<nat>, times': seq<nat>)
    requires Good(db) && |times| == |times'| == |tx.operations| && Prompt(times')
    requires ApplyTo(ev, db, tx, [], times).Some? && Billed(ApplyTo(ev, db, tx, [], times).value.1)
    ensures ApplyTo(ev, db, tx, ApplyTo(ev, db, tx, [], times).value.1, times') == ApplyTo(ev, db, tx, [], times)
  {
    hide Operate, OperateAll;
    OperationsReplay(ev, RunScript(db, ev.admit(db, tx)).value, tx.operations, times, times');
  }

  /** The clock of a node on which every call takes one microsecond. */
  function Ones(n: nat): (r: seq<nat>)
    ensures |r| == n && Prompt(r)
  {
    seq(n, i => 1)
  }

  lemma {:induction false} ZeroReceiptDiffers(ev: Evaluators, db: Db, ops: seq<Operation>, times: seq<nat>)
    requires Good(db) && |times| == |ops| && OperateAll(ev, db, ops, [], times).Some?
    requires !Billed(OperateAll(ev, db, ops, [], times).value.1)
    ensures var first := OperateAll(ev, db, ops, [], times);
      OperateAll(ev, db, ops, first.value.1, Ones(|ops|)) != first
    decreases |ops|
  {
    var rs := OperateAll(ev, db, ops, [], times).value.1;
    var (d, first) := Operate(ev, db, ops[0], 0, times[0]).value;
    assert rs[0] == first && rs[1..] == OperateAll(ev, d, ops[1..], [], times[1..]).value.1;
    assert Ones(|ops|)[1..] == Ones(|ops| - 1);
    if !(first.Receipt? && first.billedCpu == 0) {
      ZeroReceiptDiffers(ev, d, ops[1..], times[1..]);
    }
  }

  /** The recorded results make a transaction replay on every prompt node exactly when no recorded
      time is zero: zero is read as "not billed", and the time is measured again. */
  lemma ReplayExact(ev: Evaluators, db: Db, tx: Transaction, times: seq<nat>)
    requires Good(db) && |times| == |tx.operations| && ApplyTo(ev, db, tx, [], times).Some?
    ensures Billed(ApplyTo(ev, db, tx, [], times).value.1) <==>
      forall times' :: |times'| == |tx.operations| && Prompt(times') ==>
        ApplyTo(ev, db, tx, ApplyTo(ev, db, tx, [], times).value.1, times') == ApplyTo(ev, db, tx, [], times)
  {
    hide Operate, OperateAll;
    if Billed(ApplyTo(ev, db, tx, [], times).value.1) {
      forall times' | |times'| == |tx.operations| && Prompt(times')
        ensures ApplyTo(ev, db, tx, ApplyTo(ev, db, tx, [], times).value.1, times') == ApplyTo(ev, db, tx, [], times) {
        TransactionReplays(ev, db, tx, times, times');
      }
    } else {
      ZeroReceiptDiffers(ev, RunScript(db, ev.admit(db, tx)).value, tx.operations, times);
      var ones := Ones(|tx.operations|);
    }
  }

  function ResultsOf(txs: seq<Processed>): (r: seq<seq<Result>>)
    ensures |r| == |txs|
  {
    seq(|txs|, i requires 0 <= i < |txs| => txs[i].results)
  }

  /** A generated block replays: whatever was passed over in between, the kept transactions all apply
      again in order with the same results and the same final state, and their time is within the limit. */
  lemma {:induction false} GeneratedBlockReplays(ev: Evaluators, db: Db, pending: seq<Processed>, times: seq<seq<nat>>,
                                                 size: nat, cpu: nat, times': seq<seq<nat>>)
    requires Good(db) && Timed(pending, times)
    requires var kept := Select(ev, db, pending, times, size, cpu).0;
      Timed(kept, times') && AllPrompt(times') && AllBilled(kept)
    ensures var (kept, d) := Select(ev, db, pending, times, size, cpu);
      ApplyRecorded(ev, db, kept, times') == Some((d, ResultsOf(kept)))
    decreases |pending|
  {
    hide ApplyTo, Cpu, Billed, Prompt, Good;
    if pending == [] { return; }
    var (kept, e) := Select(ev, db, pending, times, size, cpu);
    var r := ApplyTo(ev, db, pending[0].tx, [], times[0]);
    if size + ev.size(pending[0]) >= ev.maximumBlockSize || cpu >= ev.blockCpuLimit || r.None? {
      GeneratedBlockReplays(ev, db, pending[1..], times[1..], size, cpu, times');
    } else if cpu + Cpu(r.value.1) >= ev.blockCpuLimit {
      GeneratedBlockReplays(ev, db, pending[1..], times[1..], size, cpu + Cpu(r.value.1), times');
    } else {
      var first := Processed(pending[0].tx, r.value.1);
      var others := Select(ev, r.value.0, pending[1..], times[1..], size + ev.size(first), cpu + Cpu(r.value.1)).0;
      assert kept[0] == first && kept[1..] == others;
      TransactionReplays(ev, db, first.tx, times[0], times'[0]);
      GeneratedBlockReplays(ev, r.value.0, pending[1..], times[1..], size + ev.size(first), cpu + Cpu(r.value.1),
        times'[1..]);
      assert ResultsOf(kept) == [first.results] + ResultsOf(others);
    }
  }

  lemma {:induction false} GeneratedBlockWithinLimit(ev: Evaluators, db: Db, pending: seq<Processed>,
                                                     times: seq<seq<nat>>, size: nat, cpu: nat)
    requires Good(db) && Timed(pending, times)
    ensures var kept := Select(ev, db, pending, times, size, cpu).0;
      kept == [] || cpu + CpuOfBlock(kept) < ev.blockCpuLimit
    decreases |pending|
  {
    hide ApplyTo, Cpu, Billed, Prompt, Good;
    if pending == [] { return; }
    var r := ApplyTo(ev, db, pending[0].tx, [], times[0]);
    if size + ev.size(pending[0]) >= ev.maximumBlockSize || cpu >= ev.blockCpuLimit || r.None? {
      GeneratedBlockWithinLimit(ev, db, pending[1..], times[1..], size, cpu);
    } else if cpu + Cpu(r.value.1) >= ev.blockCpuLimit {
      GeneratedBlockWithinLimit(ev, db, pending[1..], times[1..], size, cpu + Cpu(r.value.1));
    } else {
      var first := Processed(pending[0].tx, r.value.1);
      var (others, e) := Select(ev, r.value.0, pending[1..], times[1..], size + ev.size(first), cpu + Cpu(r.value.1));
      GeneratedBlockWithinLimit(ev, r.value.0, pending[1..], times[1..], size + ev.size(first), cpu + Cpu(r.value.1));
      assert CpuOfBlock([first] + others) == Cpu(first.results) + CpuOfBlock(others) by {
        assert ([first] + others)[1..] == others;
      }
      assert CpuOfBlock([]) == 0;
    }
  }

  /** A generated block passes: it replays, and its time is within the limit that is checked. */
  lemma GeneratedBlockPasses(ev: Evaluators, db: Db, pending: seq<Processed>, times: seq<seq<nat>>, headerSize: nat,
                             times': seq<seq<nat>>)
    requires Good(db) && Timed(pending, times)
    requires var kept := Select(ev, db, pending, times, headerSize, 0).0;
      Timed(kept, times') && AllPrompt(times') && AllBilled(kept)
    ensures var (kept, d) := Select(ev, db, pending, times, headerSize, 0);
      ApplyRecorded(ev, db, kept, times') == Some((d, ResultsOf(kept))) && CpuOfBlock(kept) <= ev.blockCpuLimit
  {
    hide Select, ApplyRecorded;
    GeneratedBlockReplays(ev, db, pending, times, headerSize, 0, times');
    GeneratedBlockWithinLimit(ev, db, pending, times, headerSize, 0);
  }

  /** Objects may be changed: there is a session to record the changes in. */
  ghost predicate Open(undo: ObjectDatabase)
    reads undo
  {
    undo.Valid() && Good(undo.db) && |undo.saved| > 0
  }

  method ApplyOperation(ev: Evaluators, undo: ObjectDatabase, op: Operation, billed: nat,
                        time: nat) returns (r: Option<Result>)
    requires Open(undo)
    modifies undo`db, undo`stack, undo`saved
    ensures undo.Valid() && undo.saved == old(undo.saved)
    ensures r.Some? <==> Operate(ev, old(undo.db), op, billed, time).Some?
    ensures r.Some? ==> Operate(ev, old(undo.db), op, billed, time) == Some((undo.db, r.value))
    ensures r.Some? ==> Operates(ev, old(undo.db), op, billed, time, undo.db, r.value)
    ensures r.None? ==> forall d, result :: !Operates(ev, old(undo.db), op, billed, time, d, result)
  {
    forall d, result ensures Operate(ev, undo.db, op, billed, time) == Some((d, result)) <==>
      Operates(ev, undo.db, op, billed, time, d, result) {
      OperatesExact(ev, undo.db, op, billed, time, d, result);
    }
    hide Operates;
    match op {
      case Native(body) =>
        var value := ev.native(undo.db, body).1;
        var ok := RunPhase(undo, ev.native(undo.db, body).0);
        return if ok then Some(Result.Value(value)) else None;
      case ContractCall(body) =>
        var limit := BILLED_CPU_LIMIT;
        if billed == 0 {
          limit := ev.trxCpuLimit;
        }
        if time > limit {
          return None;
        }
        var ok := RunPhase(undo, ev.exec(undo.db, body));
        if !ok {
          return None;
        }
        var cpu := if billed > 0 then billed else time;
        var charged := ev.charge(undo.db, body, cpu).1;
        ok := RunPhase(undo, ev.charge(undo.db, body, cpu).0);
        return if ok then Some(Receipt(cpu, charged)) else None;
    }
  }

  ghost function Prefixed(front: seq<Result>, r: Option<(Db, seq<Result>)>): Option<(Db, seq<Result>)> {
    match r case None => None case Some((d, others)) => Some((d, front + others))
  }

  ghost function Drop(recorded: seq<Result>, i: nat): seq<Result> {
    if i <= |recorded| then recorded[i..] else []
  }

  lemma NextOperation(ev: Evaluators, db: Db, ops: seq<Operation>, recorded: seq<Result>, times: seq<nat>, i: nat,
                      front: seq<Result>)
    requires Good(db) && i < |ops| == |times|
    ensures Prefixed(front, OperateAll(ev, db, ops[i..], Drop(recorded, i), times[i..])) ==
      match Operate(ev, db, ops[i], BilledFirst(Drop(recorded, i)), times[i])
      case None => None
      case Some((d, first)) => Prefixed(front + [first],
        OperateAll(ev, d, ops[i + 1..], Drop(recorded, i + 1), times[i + 1..]))
  {
    hide Operate, Good;
    assert ops[i..][1..] == ops[i + 1..] && times[i..][1..] == times[i + 1..];
    assert Rest(Drop(recorded, i)) == Drop(recorded, i + 1);
    match Operate(ev, db, ops[i], BilledFirst(Drop(recorded, i)), times[i])
    case None =>
    case Some((d, first)) =>
      match OperateAll(ev, d, ops[i + 1..], Drop(recorded, i + 1), times[i + 1..])
      case None =>
      case Some((e, others)) =>
        assert front + ([first] + others) == front + [first] + others;
  }

  method ApplyOperations(ev: Evaluators, undo: ObjectDatabase, ops: seq<Operation>, recorded: seq<Result>,
                         times: seq<nat>) returns (r: Option<seq<Result>>)
    requires Open(undo) && |times| == |ops|
    modifies undo`db, undo`stack, undo`saved
    ensures undo.Valid() && undo.saved == old(undo.saved)
    ensures r.Some? <==> OperateAll(ev, old(undo.db), ops, recorded, times).Some?
    ensures r.Some? ==> OperateAll(ev, old(undo.db), ops, recorded, times) == Some((undo.db, r.value))
  {
    hide Operate, OperateAll, Operates;
    ghost var all := OperateAll(ev, undo.db, ops, recorded, times);
    var results, i := [], 0;
    assert ops[0..] == ops && times[0..] == times && Drop(recorded, 0) == recorded;
    assert all.Some? ==> [] + all.value.1 == all.value.1;
    while i < |ops|
      invariant i <= |ops| && Open(undo) && undo.saved == old(undo.saved)
      invariant all == Prefixed(results, OperateAll(ev, undo.db, ops[i..], Drop(recorded, i), times[i..]))
    {
      NextOperation(ev, undo.db, ops, recorded, times, i, results);
      var billed := 0;
      if i < |recorded| && recorded[i].Receipt? {
        billed := recorded[i].billedCpu;
      }
      var result := ApplyOperation(ev, undo, ops[i], billed, times[i]);
      if result.None? {
        return None;
      }
      results, i := results + [result.value], i + 1;
    }
    NoOperations(ev, undo.db, ops[i..], Drop(recorded, i), times[i..]);
    assert results + [] == results;
    r := Some(results);
  }

  /** Applies a transaction in the open session, taking the billed times from the recorded results. */
  method ApplyTransaction(ev: Evaluators, undo: ObjectDatabase, tx: Transaction, recorded: seq<Result>,
                          times: seq<nat>) returns (r: Option<seq<Result>>)
    requires Open(undo) && |times| == |tx.operations|
    modifies undo`db, undo`stack, undo`saved
    ensures undo.Valid() && undo.saved == old(undo.saved)
    ensures r.Some? <==> ApplyTo(ev, old(undo.db), tx, recorded, times).Some?
    ensures r.Some? ==> ApplyTo(ev, old(undo.db), tx, recorded, times) == Some((undo.db, r.value))
    ensures r.Some? ==> Applies(ev, old(undo.db), tx, recorded, times, undo.db, r.value)
    ensures r.None? ==> forall d, results :: !Applies(ev, old(undo.db), tx, recorded, times, d, results)
  {
    hide OperateAll, Applies;
    forall d, results ensures ApplyTo(ev, undo.db, tx, recorded, times) == Some((d, results)) <==>
      Applies(ev, undo.db, tx, recorded, times, d, results) {
      AppliesExact(ev, undo.db, tx, recorded, times, d, results);
    }
    var ok := RunPhase(undo, ev.admit(undo.db, tx));
    if !ok {
      return None;
    }
    r := ApplyOperations(ev, undo, tx.operations, recorded, times);
  }

  lemma NoOperations(ev: Evaluators, db: Db, ops: seq<Operation>, recorded: seq<Result>, times: seq<nat>)
    requires Good(db) && |times| == |ops| == 0
    ensures OperateAll(ev, db, ops, recorded, times) == Some((db, []))
  {
  }

  method CpuTime(results: seq<Result>) returns (cpu: nat)
    ensures cpu == Cpu(results)
  {
    cpu := 0;
    var i := 0;
    while i < |results|
      invariant i <= |results| && cpu + Cpu(results[i..]) == Cpu(results)
    {
      assert results[i..][1..] == results[i + 1..];
      if results[i].Receipt? {
        cpu := cpu + results[i].billedCpu;
      }
      i := i + 1;
    }
  }

  /** The sessions of the block being built: the innermost one started from `base`. */
  ghost predicate Building(undo: ObjectDatabase, base: Db)
    reads undo
  {
    Open(undo) && undo.activeSessions == 1 && undo.maxSize >= 1 && undo.saved[|undo.saved| - 1] == base
  }

  /** Tries one pending transaction in a session of its own, and keeps its changes only if the time
      billed so far stays below the limit. */
  method TryTransaction(ev: Evaluators, undo: ObjectDatabase, tx: Transaction, times: seq<nat>, cpu: nat,
                        ghost base: Db)
    returns (kept: Option<seq<Result>>, cpu': nat)
    requires Building(undo, base) && |times| == |tx.operations|
    modifies undo
    ensures Building(undo, base)
    ensures var r := ApplyTo(ev, old(undo.db), tx, [], times);
      && cpu' == cpu + (if r.Some? then Cpu(r.value.1) else 0)
      && (kept.Some? <==> r.Some? && cpu' < ev.blockCpuLimit)
      && (if kept.Some? then r == Some((undo.db, kept.value)) else undo.db == old(undo.db))
  {
    hide ApplyTo, Applies, Cpu, Linked, WellNumbered;
    undo.StartUndoSession();
    ghost var saved := undo.saved;
    var r := ApplyTransaction(ev, undo, tx, [], times);
    cpu' := cpu;
    if r.Some? {
      var more := CpuTime(r.value);
      cpu' := cpu' + more;
    }
    if r.None? || cpu' >= ev.blockCpuLimit {
      undo.UndoSession();
      kept := None;
    } else {
      undo.Merge();
      kept := r;
    }
  }

  /** Builds a block out of the pending transactions in a session that is undone again. Throws, with the
      session left open, if the header cannot be applied. */
  method GenerateBlock(ev: Evaluators, undo: ObjectDatabase, header: Script, headerSize: nat, pending: seq<Processed>,
                       times: seq<seq<nat>>)
    returns (r: Option<seq<Processed>>)
    requires undo.Valid() && Good(undo.db) && undo.activeSessions == 0 && undo.maxSize >= 1 && Timed(pending, times)
    modifies undo
    ensures undo.Valid() && (r.Some? <==> RunScript(old(undo.db), header).Some?)
    ensures r.Some? ==> undo.db == old(undo.db) && undo.activeSessions == 0
    ensures r.Some? ==> r.value == Select(ev, RunScript(old(undo.db), header).value, pending, times, headerSize, 0).0
    ensures r.Some? ==> Selected(ev, RunScript(old(undo.db), header).value, pending, times, headerSize, r.value)
    ensures r.None? ==> undo.activeSessions == 1 && undo.saved[|undo.saved| - 1] == old(undo.db)
  {
    hide ApplyTo, Cpu, Linked, Select, Selected, RunScript, WellNumbered;
    ghost var base := undo.db;
    undo.StartUndoSession();
    var ok := RunPhase(undo, header);
    if !ok {
      return None;
    }
    ghost var selected := Select(ev, undo.db, pending, times, headerSize, 0);
    SelectSelected(ev, undo.db, pending, times, headerSize);
    var block, i := [], 0;
    var size: nat, cpu: nat := headerSize, 0;
    assert pending[0..] == pending && times[0..] == times && [] + selected.0 == selected.0;
    while i < |pending|
      invariant i <= |pending| && Building(undo, base)
      invariant selected == Behind(block, Select(ev, undo.db, pending[i..], times[i..], size, cpu))
    {
      NextPending(ev, undo.db, pending, times, size, cpu, i, block);
      var tx := pending[i];
      if size + ev.size(tx) < ev.maximumBlockSize && cpu < ev.blockCpuLimit {
        var results, more := TryTransaction(ev, undo, tx.tx, times[i], cpu, base);
        cpu := more;
        if results.Some? {
          var kept := Processed(tx.tx, results.value);
          size, block := size + ev.size(kept), block + [kept];
        }
      }
      i := i + 1;
    }
    NoPending(ev, undo.db, pending[i..], times[i..], size, cpu);
    assert block + [] == block;
    undo.UndoSession();
    r := Some(block);
  }

  ghost function Behind(front: seq<Processed>, r: (seq<Processed>, Db)): (seq<Processed>, Db) {
    (front + r.0, r.1)
  }

  lemma NoPending(ev: Evaluators, db: Db, pending: seq<Processed>, times: seq<seq<nat>>, size: nat, cpu: nat)
    requires Good(db) && pending == [] && times == []
    ensures Select(ev, db, pending, times, size, cpu) == ([], db)
  {
  }

  lemma NextPending(ev: Evaluators, db: Db, pending: seq<Processed>, times: seq<seq<nat>>, size: nat, cpu: nat, i: nat,
                    front: seq<Processed>)
    requires Good(db) && Timed(pending, times) && i < |pending|
    ensures Behind(front, Select(ev, db, pending[i..], times[i..], size, cpu)) ==
      if size + ev.size(pending[i]) >= ev.maximumBlockSize || cpu >= ev.blockCpuLimit then
        Behind(front, Select(ev, db, pending[i + 1..], times[i + 1..], size, cpu))
      else
        match ApplyTo(ev, db, pending[i].tx, [], times[i])
        case None => Behind(front, Select(ev, db, pending[i + 1..], times[i + 1..], size, cpu))
        case Some((d, results)) =>
          if cpu + Cpu(results) >= ev.blockCpuLimit then
            Behind(front, Select(ev, db, pending[i + 1..], times[i + 1..], size, cpu + Cpu(results)))
          else
            var kept := Processed(pending[i].tx, results);
            Behind(front + [kept],
              Select(ev, d, pending[i + 1..], times[i + 1..], size + ev.size(kept), cpu + Cpu(results)))
  {
    hide ApplyTo, Cpu, Good;
    assert pending[i..][1..] == pending[i + 1..] && times[i..][1..] == times[i + 1..];
    match ApplyTo(ev, db, pending[i].tx, [], times[i])
    case None =>
    case Some((d, results)) =>
      var kept := Processed(pending[i].tx, results);
      var others := Select(ev, d, pending[i + 1..], times[i + 1..], size + ev.size(kept), cpu + Cpu(results)).0;
      assert front + ([kept] + others) == front + [kept] + others;
  }

  method CpuTimeOfBlock(txs: seq<Processed>) returns (cpu: nat)
    ensures cpu == CpuOfBlock(txs)
  {
    cpu := 0;
    var i := 0;
    while i < |txs|
      invariant i <= |txs| && cpu + CpuOfBlock(txs[i..]) == CpuOfBlock(txs)
    {
      assert txs[i..][1..] == txs[i + 1..];
      var more := CpuTime(txs[i].results);
      cpu, i := cpu + more, i + 1;
    }
  }

  /** Applies the transactions of a received block with their recorded results, then checks their time. */
  method ApplyTransactions(ev: Evaluators, undo: ObjectDatabase, txs: seq<Processed>,
                           times: seq<seq<nat>>) returns (ok: bool)
    requires Open(undo) && Timed(txs, times)
    modifies undo`db, undo`stack, undo`saved
    ensures undo.Valid() && undo.saved == old(undo.saved)
    ensures ok <==> ApplyRecorded(ev, old(undo.db), txs, times).Some? && CpuOfBlock(txs) <= ev.blockCpuLimit
    ensures ok ==> undo.db == ApplyRecorded(ev, old(undo.db), txs, times).value.0
  {
    hide ApplyTo, Applies, Cpu, Linked;
    ghost var all := ApplyRecorded(ev, undo.db, txs, times);
    var i := 0;
    while i < |txs|
      invariant i <= |txs| && Open(undo) && undo.saved == old(undo.saved)
      invariant ApplyRecorded(ev, undo.db, txs[i..], times[i..]).Some? <==> all.Some?
      invariant all.Some? ==> ApplyRecorded(ev, undo.db, txs[i..], times[i..]).value.0 == all.value.0
    {
      assert txs[i..][1..] == txs[i + 1..] && times[i..][1..] == times[i + 1..];
      var r := ApplyTransaction(ev, undo, txs[i].tx, txs[i].results, times[i]);
      if r.None? {
        return false;
      }
      i := i + 1;
    }
    var cpu := CpuTimeOfBlock(txs);
    ok := cpu <= ev.blockCpuLimit;
  }
}
