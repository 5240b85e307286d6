/** Catching up with a peer: a synopsis of the chain on one side, the ids that follow it on the other. */
module Synopsis {
  import opened Options
  import opened PowersOfTwo

  /** A block id carries the number of its block; the zero id stands for no block. */
  datatype Id = Id(num: nat, hash: nat)

  const NONE: Id := Id(0, 0)

  /** The ids of the blocks 1, 2, ... of a chain. */
  predicate Numbered(chain: seq<Id>) {
    forall i :: 0 <= i < |chain| ==> chain[i].num == i + 1
  }

  lemma NumberedFront(chain: seq<Id>, k: nat)
    requires Numbered(chain) && k <= |chain|
    ensures Numbered(chain[..k])
  {
  }

  /** The step from one stop to the next: half of what is left up to `top`, and one more. */
  function NextStop(low: nat, top: nat): (r: nat)
    requires low <= top
    ensures low < r
  {
    low + (top - low + 2) / 2
  }

  /** Where the synopsis looks, from `low` on: each step halves what is left up to `top`. */
  function Stops(low: nat, high: nat, top: nat): (r: seq<nat>)
    requires low <= high <= top
    ensures |r| > 0 && r[0] == low
    decreases high - low
  {
    var next := NextStop(low, top);
    if next <= high then [low] + Stops(next, high, top) else [low]
  }

  lemma {:induction false} StopsIncrease(low: nat, high: nat, top: nat, i: nat)
    requires low <= high <= top && i < |Stops(low, high, top)|
    ensures low <= Stops(low, high, top)[i] <= high
    ensures i + 1 < |Stops(low, high, top)| ==>
      Stops(low, high, top)[i + 1] == NextStop(Stops(low, high, top)[i], top)
    decreases high - low
  {
    var next := NextStop(low, top);
    if next <= high {
      if i > 0 { StopsIncrease(next, high, top, i - 1); }
    }
  }

  /** There are logarithmically many stops. */
  lemma {:induction false} StopsFew(low: nat, high: nat, top: nat)
    requires low <= high <= top
    ensures |Stops(low, high, top)| <= Log2(top - low + 1) + 1
    decreases high - low
  {
    var next := NextStop(low, top);
    if next <= high {
      StopsFew(next, high, top);
      assert top - next + 1 == (top - low + 1) / 2;
    }
  }

  /** With nothing to follow, the last stop is the end. */
  lemma {:induction false} StopsEnd(low: nat, high: nat)
    requires low <= high
    ensures Stops(low, high, high)[|Stops(low, high, high)| - 1] == high
    decreases high - low
  {
    var next := NextStop(low, high);
    if next <= high { StopsEnd(next, high); }
  }

  /** The last stop at or before `c`. */
  function LastStop(stops: seq<nat>, c: nat): (i: nat)
    requires |stops| > 0 && stops[0] <= c
    ensures i < |stops| && stops[i] <= c
    decreases |stops|
  {
    if stops[|stops| - 1] <= c then |stops| - 1 else LastStop(stops[..|stops| - 1], c)
  }

  lemma {:induction false} LastStopNext(stops: seq<nat>, c: nat)
    requires |stops| > 0 && stops[0] <= c
    ensures var i := LastStop(stops, c); i + 1 < |stops| ==> stops[i + 1] > c
    decreases |stops|
  {
    if stops[|stops| - 1] > c { LastStopNext(stops[..|stops| - 1], c); }
  }

  /** The last stop at or before `c` is no further from `c` than `c` is from the end. */
  lemma StopsNear(low: nat, high: nat, c: nat)
    requires low <= c <= high
    ensures var stops := Stops(low, high, high); c - stops[LastStop(stops, c)] <= high - c
  {
    var stops := Stops(low, high, high);
    var i := LastStop(stops, c);
    LastStopNext(stops, c);
    StopsIncrease(low, high, high, i);
    if i + 1 == |stops| { StopsEnd(low, high); }
  }

  /** Whether a block is on the chain; None, an exception, if the chain has no block of its number. */
  function Included(chain: seq<Id>, id: Id): Option<bool> {
    if 1 <= id.num <= |chain| then Some(chain[id.num - 1] == id) else None
  }

  /** The branch from a block back to the block it forked from, which is on the chain or is no block. */
  predicate ForkFrom(chain: seq<Id>, reference: Id, branch: seq<Id>) {
    && |branch| >= 2 && branch[0] == reference
    && (forall i :: 0 <= i < |branch| - 1 ==> branch[i].num == branch[i + 1].num + 1)
    && var base := branch[|branch| - 1];
       base == NONE || (1 <= base.num <= |chain| && chain[base.num - 1] == base)
  }

  /** A chain up to the block a branch forked from, then the branch. */
  ghost predicate Continues(chain: seq<Id>, branch: seq<Id>, ours: seq<Id>) {
    && branch != []
    && var base := branch[|branch| - 1];
    && base.num <= |chain| && (base == NONE || (0 < base.num && chain[base.num - 1] == base))
    && |ours| == base.num + |branch| - 1 && ours[..base.num] == chain[..base.num]
    && forall i :: base.num <= i < |ours| ==> ours[i] == branch[|branch| - 2 - (i - base.num)]
  }

  /** A branch in ascending order, without the block it forked from. */
  function Ascending(branch: seq<Id>): (r: seq<Id>)
    requires |branch| > 0
    ensures |r| == |branch| - 1
  {
    seq(|branch| - 1, i requires 0 <= i < |branch| - 1 => branch[|branch| - 2 - i])
  }

  lemma Joined(chain: seq<Id>, reference: Id, branch: seq<Id>)
    requires ForkFrom(chain, reference, branch)
    ensures var base := branch[|branch| - 1];
      base.num <= |chain| && Continues(chain, branch, chain[..base.num] + Ascending(branch))
        && Ascending(branch) != [] && Ascending(branch)[|branch| - 2] == reference
  {
    var base := branch[|branch| - 1];
    var ours := chain[..base.num] + Ascending(branch);
    assert ours[..base.num] == chain[..base.num];
  }

  lemma {:induction false} BranchNumbers(branch: seq<Id>, i: nat)
    requires i < |branch| && forall k :: 0 <= k < |branch| - 1 ==> branch[k].num == branch[k + 1].num + 1
    ensures branch[i].num == branch[|branch| - 1].num + (|branch| - 1 - i)
    decreases |branch| - i
  {
    if i + 1 < |branch| { BranchNumbers(branch, i + 1); }
  }

  lemma JoinedNumbers(chain: seq<Id>, branch: seq<Id>)
    requires Numbered(chain) && |branch| > 0 && branch[|branch| - 1].num <= |chain|
    requires forall k :: 0 <= k < |branch| - 1 ==> branch[k].num == branch[k + 1].num + 1
    ensures Numbered(chain[..branch[|branch| - 1].num] + Ascending(branch))
  {
    var base := branch[|branch| - 1].num;
    forall i | base <= i < base + |branch| - 1 ensures (chain[..base] + Ascending(branch))[i].num == i + 1 {
      BranchNumbers(branch, |branch| - 2 - (i - base));
    }
  }

  /** The ids of a chain at the stops from block `from` on, with `after` more blocks to follow. */
  predicate Summarises(r: seq<Id>, from: nat, ours: seq<Id>, after: nat) {
    1 <= from <= |ours| &&
    var stops := Stops(from, |ours|, |ours| + after);
    |r| == |stops| && forall i :: 0 <= i < |r| ==> 1 <= stops[i] <= |ours| && r[i] == ours[stops[i] - 1]
  }

  /** The reference cannot be placed, or it forked off before the last block that can be undone. */
  predicate OutOfReach(chain: seq<Id>, undoable: nat, reference: Id, fork: Option<seq<Id>>)
    requires fork.Some? ==> ForkFrom(chain, reference, fork.value)
  {
    && reference != NONE
    && (reference.num == 0 || reference.num > |chain|
        || (chain[reference.num - 1] != reference
            && (fork.None? || fork.value[|fork.value| - 1].num < undoable)))
  }

  /** The ids at the stops of the synopsis. */
  method Collect(chain: seq<Id>, hist: seq<Id>, nonFork: nat, first: nat, high: nat, after: nat) returns (r: seq<Id>)
    requires nonFork <= |chain| && 1 <= first <= high == nonFork + |hist|
    ensures r != [] && Summarises(r, first, chain[..nonFork] + hist, after)
  {
    hide Stops, Summarises, NextStop, Picked;
    r := [];
    var low, top := first, high + after;
    ghost var ours := chain[..nonFork] + hist;
    while true
      invariant first <= low <= high && r + Picked(ours, low, top) == Picked(ours, first, top)
      decreases high - low
    {
      var id := if low <= nonFork then chain[low - 1] else hist[low - nonFork - 1];
      PickNext(r, ours, low, top);
      r := r + [id];
      low := NextStop(low, top);
      if low > high {
        PickedSummarises(ours, first, after);
        return;
      }
    }
  }

  /** The ids of a chain at the stops, one after the other. */
  function Picked(ours: seq<Id>, low: nat, top: nat): (r: seq<Id>)
    requires 1 <= low <= |ours| <= top
    ensures |r| > 0
    decreases |ours| - low
  {
    var next := NextStop(low, top);
    [ours[low - 1]] + if next <= |ours| then Picked(ours, next, top) else []
  }

  lemma PickNext(r: seq<Id>, ours: seq<Id>, low: nat, top: nat)
    requires 1 <= low <= |ours| <= top
    ensures r + Picked(ours, low, top) ==
      if NextStop(low, top) <= |ours| then r + [ours[low - 1]] + Picked(ours, NextStop(low, top), top)
        else r + [ours[low - 1]]
  {
    hide NextStop;
  }

  lemma {:induction false} PickedAt(ours: seq<Id>, low: nat, top: nat, i: nat)
    requires 1 <= low <= |ours| <= top && i < |Picked(ours, low, top)|
    ensures |Picked(ours, low, top)| == |Stops(low, |ours|, top)|
    ensures 1 <= Stops(low, |ours|, top)[i] <= |ours|
    ensures Picked(ours, low, top)[i] == ours[Stops(low, |ours|, top)[i] - 1]
    decreases |ours| - low
  {
    hide NextStop;
    var next := NextStop(low, top);
    if next <= |ours| { PickedAt(ours, next, top, if i == 0 then 0 else i - 1); }
  }

  lemma PickedSummarises(ours: seq<Id>, from: nat, after: nat)
    requires 1 <= from <= |ours|
    ensures Summarises(Picked(ours, from, |ours| + after), from, ours, after)
  {
    hide Stops, Picked;
    var top := |ours| + after;
    PickedAt(ours, from, top, 0);
    var stops, r := Stops(from, |ours|, top), Picked(ours, from, top);
    forall i | 0 <= i < |r| ensures 1 <= stops[i] <= |ours| && r[i] == ours[stops[i] - 1] {
      PickedAt(ours, from, top, i);
    }
  }

  /** The chain that a synopsis is about: the whole chain, the chain up to the reference, or the fork that
      leads to it; and the first block told, the last one that can no longer be undone. */
  ghost predicate Placed(chain: seq<Id>, undoable: nat, reference: Id, fork: Option<seq<Id>>, from: nat, ours: seq<Id>)
  {
    && ours != [] && Numbered(ours)
    && from == (if undoable == 0 then 1 else if undoable <= |ours| then undoable else |ours|)
    && (reference == NONE || (ours[|ours| - 1] == reference && 1 <= reference.num <= |chain|))
    && if reference == NONE then ours == chain
       else if chain[reference.num - 1] == reference then ours == chain[..reference.num]
       else fork.Some? && Continues(chain, fork.value, ours)
  }

  lemma WholePlaced(chain: seq<Id>, undoable: nat, fork: Option<seq<Id>>)
    requires Numbered(chain) && chain != [] && undoable <= |chain|
    ensures Placed(chain, undoable, NONE, fork, if undoable == 0 then 1 else undoable, chain[..|chain|] + [])
  {
    assert chain[..|chain|] + [] == chain;
  }

  lemma IncludedPlaced(chain: seq<Id>, undoable: nat, reference: Id, fork: Option<seq<Id>>)
    requires Numbered(chain) && 1 <= reference.num <= |chain| && chain[reference.num - 1] == reference
    ensures var low := if reference.num < undoable then reference.num else undoable;
      Placed(chain, undoable, reference, fork, if low == 0 then 1 else low, chain[..reference.num] + [])
  {
    assert chain[..reference.num] + [] == chain[..reference.num];
    NumberedFront(chain, reference.num);
  }

  lemma ForkPlaced(chain: seq<Id>, undoable: nat, reference: Id, fork: Option<seq<Id>>)
    requires Numbered(chain) && fork.Some? && ForkFrom(chain, reference, fork.value)
    requires 1 <= reference.num <= |chain| && chain[reference.num - 1] != reference
    requires undoable <= fork.value[|fork.value| - 1].num <= |chain|
    ensures var nonFork := fork.value[|fork.value| - 1].num;
      Placed(chain, undoable, reference, fork, if undoable == 0 then 1 else undoable,
        chain[..nonFork] + Ascending(fork.value))
  {
    hide Ascending, Continues, Numbered;
    JoinedNumbers(chain, fork.value);
    Joined(chain, reference, fork.value);
  }

  /** The synopsis of the chain up to `reference`, or of the whole chain. `low` is the last block that
      can no longer be undone; `after` blocks known to the peer follow the reference. None stands for
      an exception. The chain summarised is `ours`, from block `from` to block `high`. */
  method GetSynopsis(chain: seq<Id>, undoable: nat, reference: Id, fork: Option<seq<Id>>, after: nat)
    returns (r: Option<seq<Id>>, ghost from: nat, ghost ours: seq<Id>)
    requires Numbered(chain) && undoable <= |chain|
    requires fork.Some? ==> ForkFrom(chain, reference, fork.value)
    ensures r.Some? && r.value == [] ==> reference == NONE && chain == []
    ensures r.Some? && r.value != [] ==>
      Summarises(r.value, from, ours, after) && Placed(chain, undoable, reference, fork, from, ours)
    ensures r.None? <==> OutOfReach(chain, undoable, reference, fork)
  {
    hide Summarises, Stops, Ascending, Numbered, Placed;
    var low, high, nonFork := undoable, 0, 0;
    var hist: seq<Id> := [];
    from, ours := 0, chain;
    if reference != NONE {
      var included := Included(chain, reference);
      if included.None? {
        return None, 0, [];
      }
      if included.value {
        high, nonFork := reference.num, reference.num;
        if reference.num < low {
          low := reference.num;
        }
      } else {
        if fork.None? {
          return None, 0, [];
        }
        var base := fork.value[|fork.value| - 1];
        hist, nonFork := Ascending(fork.value), base.num;
        high := nonFork + |hist|;
        if nonFork < low {
          return None, 0, [];
        }
      }
    } else {
      high, nonFork := |chain|, |chain|;
      if high == 0 {
        return Some([]), 0, [];
      }
    }
    if low == 0 {
      low := 1;
    }
    from, ours := low, chain[..nonFork] + hist;
    if reference == NONE {
      WholePlaced(chain, undoable, fork);
    } else if chain[reference.num - 1] == reference {
      IncludedPlaced(chain, undoable, reference, fork);
    } else {
      ForkPlaced(chain, undoable, reference, fork);
    }
    var ids := Collect(chain, hist, nonFork, low, high, after);
    r := Some(ids);
  }

  /** The end of the search through a synopsis. */
  datatype Search = Known(id: Id) | Unknown | Beyond

  /** The last entry of a synopsis that is on the chain. Asking for the block of its number throws if an
      entry is known from a fork, among `forks`, but the chain has no block of that number. */
  function LastKnown(chain: seq<Id>, forks: set<Id>, synopsis: seq<Id>): Search {
    if synopsis == [] then Unknown
    else
      var id := synopsis[|synopsis| - 1];
      if id == NONE || Included(chain, id) == Some(true) then Known(id)
      else if id in forks && Included(chain, id).None? then Beyond
      else LastKnown(chain, forks, synopsis[..|synopsis| - 1])
  }

  /** An entry that tells where the chains meet: a block of the chain, or no block. */
  ghost predicate OnChain(chain: seq<Id>, id: Id) {
    id == NONE || (1 <= id.num <= |chain| && chain[id.num - 1] == id)
  }

  /** An entry that makes the search throw. */
  ghost predicate Throws(chain: seq<Id>, forks: set<Id>, id: Id) {
    !OnChain(chain, id) && id in forks && (id.num == 0 || id.num > |chain|)
  }

  /** Neither is true of any entry from the `k`-th on. */
  ghost predicate PassedOver(chain: seq<Id>, forks: set<Id>, synopsis: seq<Id>, k: nat) {
    forall i :: k <= i < |synopsis| ==> !OnChain(chain, synopsis[i]) && !Throws(chain, forks, synopsis[i])
  }

  ghost predicate FirstHit(chain: seq<Id>, forks: set<Id>, synopsis: seq<Id>, k: int) {
    0 <= k < |synopsis| && PassedOver(chain, forks, synopsis, k + 1)
  }

  /** The search goes back to the last entry that is on the chain, or that makes it throw. */
  lemma {:induction false} LastKnownExact(chain: seq<Id>, forks: set<Id>, synopsis: seq<Id>)
    ensures match LastKnown(chain, forks, synopsis)
      case Unknown =>
        PassedOver(chain, forks, synopsis, 0)
      case Known(id) =>
        exists k :: FirstHit(chain, forks, synopsis, k) && synopsis[k] == id && OnChain(chain, id)
      case Beyond => exists k :: FirstHit(chain, forks, synopsis, k) && Throws(chain, forks, synopsis[k])
    decreases |synopsis|
  {
    if synopsis == [] {
    } else {
      var n := |synopsis| - 1;
      if !OnChain(chain, synopsis[n]) && !Throws(chain, forks, synopsis[n]) {
        LastKnownExact(chain, forks, synopsis[..n]);
        forall k | FirstHit(chain, forks, synopsis[..n], k) ensures FirstHit(chain, forks, synopsis, k) {
          forall i | k < i < |synopsis| ensures !OnChain(chain, synopsis[i]) && !Throws(chain, forks, synopsis[i]) {
            assert i < n ==> synopsis[..n][i] == synopsis[i];
          }
        }
        forall i | 0 <= i < n ensures synopsis[..n][i] == synopsis[i] {
        }
      } else {
        assert FirstHit(chain, forks, synopsis, n);
      }
    }
  }

  /** The number of the first block in the answer to a synopsis. */
  function FirstAnswered(chain: seq<Id>, forks: set<Id>, synopsis: seq<Id>): nat {
    match LastKnown(chain, forks, synopsis)
    case Known(id) => if id.num == 0 then 1 else id.num
    case _ => 1
  }

  /** Up to `limit` ids from block `from` on; there is no block 0. */
  method IdsFrom(chain: seq<Id>, from: nat, limit: nat) returns (result: seq<Id>)
    requires from <= |chain| && chain != []
    ensures var first := if from == 0 then 1 else from;
      && |result| == (if limit < |chain| - first + 1 then limit else |chain| - first + 1)
      && (forall i :: 0 <= i < |result| ==> result[i] == chain[first - 1 + i])
  {
    result := [];
    var num := from;
    ghost var first := if from == 0 then 1 else from;
    while num <= |chain| && |result| < limit
      invariant from <= num <= |chain| + 1 && |result| <= limit
      invariant |result| == if num < first then 0 else num - first
      invariant forall i :: 0 <= i < |result| ==> result[i] == chain[first - 1 + i]
    {
      if num > 0 {
        result := result + [chain[num - 1]];
      }
      num := num + 1;
    }
  }

  /** Answers a synopsis with the ids that follow its last known entry, that entry first, and says how
      many more there are. None stands for an exception: no entry is known, or one is beyond the chain. */
  method GetBlockIds(chain: seq<Id>, forks: set<Id>, synopsis: seq<Id>, limit: nat) returns (r: Option<seq<Id>>,
                     remaining: nat)
    requires Numbered(chain)
    ensures chain == [] ==> r == Some([]) && remaining == 0
    ensures r.None? <==> chain != [] && synopsis != [] && !LastKnown(chain, forks, synopsis).Known?
    ensures r.Some? && chain != [] ==>
      var first := FirstAnswered(chain, forks, synopsis);
      && 1 <= first <= |chain| && |r.value| == (if limit < |chain| - first + 1 then limit else |chain| - first + 1)
      && (forall i :: 0 <= i < |r.value| ==> r.value[i] == chain[first - 1 + i])
      && remaining == if limit == 0 then 0 else |chain| - (first - 1 + |r.value|)
  {
    remaining := 0;
    if |chain| == 0 {
      return Some([]), 0;
    }
    var last := NONE;
    if synopsis != [] && synopsis != [NONE] {
      var found, k := false, |synopsis|;
      assert synopsis[..k] == synopsis;
      while k > 0 && !found
        invariant 0 <= k <= |synopsis|
        invariant found ==> LastKnown(chain, forks, synopsis) == Known(last)
        invariant !found ==> LastKnown(chain, forks, synopsis) == LastKnown(chain, forks, synopsis[..k])
        invariant found ==> last.num <= |chain|
      {
        k := k - 1;
        assert synopsis[..k + 1][..k] == synopsis[..k];
        if synopsis[k] == NONE || Included(chain, synopsis[k]) == Some(true) {
          last, found := synopsis[k], true;
        } else if synopsis[k] in forks && Included(chain, synopsis[k]).None? {
          return None, 0;
        }
      }
      if !found {
        return None, 0;
      }
    }
    var result := IdsFrom(chain, last.num, limit);
    if result != [] && result[|result| - 1].num < |chain| {
      remaining := |chain| - result[|result| - 1].num;
    }
    r := Some(result);
  }

  /** Two chains are the same up to block `c`, and differ from there on. */
  predicate SharedUpTo(ours: seq<Id>, theirs: seq<Id>, c: nat) {
    && c <= |ours| && c <= |theirs|
    && (forall i :: 0 <= i < c ==> ours[i] == theirs[i])
    && (forall i :: c <= i < |ours| && i < |theirs| ==> ours[i] != theirs[i])
  }

  /** An entry known from a fork is higher than the chain. */
  predicate TooHigh(theirs: seq<Id>, forks: set<Id>, synopsis: seq<Id>) {
    exists i :: 0 <= i < |synopsis| && synopsis[i] in forks && synopsis[i].num > |theirs|
  }

  lemma TooHighLast(theirs: seq<Id>, forks: set<Id>, synopsis: seq<Id>)
    requires synopsis != []
    ensures var n := |synopsis| - 1;
      TooHigh(theirs, forks, synopsis) <==>
        (synopsis[n] in forks && synopsis[n].num > |theirs|) || TooHigh(theirs, forks, synopsis[..n])
  {
    var n := |synopsis| - 1;
    if TooHigh(theirs, forks, synopsis) {
      var i :| 0 <= i < |synopsis| && synopsis[i] in forks && synopsis[i].num > |theirs|;
      assert i < n ==> synopsis[..n][i] == synopsis[i];
    }
    if TooHigh(theirs, forks, synopsis[..n]) {
      var i :| 0 <= i < n && synopsis[..n][i] in forks && synopsis[..n][i].num > |theirs|;
      assert synopsis[i] in forks;
    }
  }

  predicate Rising(stops: seq<nat>) {
    forall i, j :: 0 <= i < j < |stops| ==> stops[i] < stops[j]
  }

  lemma RisingPrefix(stops: seq<nat>)
    requires Rising(stops) && stops != []
    ensures Rising(stops[..|stops| - 1]) && forall i :: 0 <= i < |stops| ==> stops[i] <= stops[|stops| - 1]
  {
  }

  lemma {:induction false} LastKnownStop(theirs: seq<Id>, forks: set<Id>, ours: seq<Id>, stops: seq<nat>,
                                         synopsis: seq<Id>, c: nat)
    requires Numbered(ours) && SharedUpTo(ours, theirs, c) && |stops| == |synopsis| > 0 && 1 <= stops[0] <= c
    requires forall i :: 0 <= i < |stops| ==> 1 <= stops[i] <= |ours| && synopsis[i] == ours[stops[i] - 1]
    requires Rising(stops)
    ensures LastKnown(theirs, forks, synopsis) ==
      if TooHigh(theirs, forks, synopsis) then Beyond else Known(ours[stops[LastStop(stops, c)] - 1])
    decreases |stops|
  {
    hide TooHigh, Rising;
    var n := |stops| - 1;
    assert synopsis[n].num == stops[n];
    RisingPrefix(stops);
    if stops[n] > c {
      LastKnownStop(theirs, forks, ours, stops[..n], synopsis[..n], c);
      TooHighLast(theirs, forks, synopsis);
    } else {
      NotTooHigh(theirs, forks, ours, stops, synopsis);
    }
  }

  lemma NotTooHigh(theirs: seq<Id>, forks: set<Id>, ours: seq<Id>, stops: seq<nat>, synopsis: seq<Id>)
    requires Numbered(ours) && |stops| == |synopsis|
    requires forall i :: 0 <= i < |stops| ==> 1 <= stops[i] <= |ours| && synopsis[i] == ours[stops[i] - 1]
    requires forall i :: 0 <= i < |stops| ==> stops[i] <= |theirs|
    ensures !TooHigh(theirs, forks, synopsis)
  {
  }

  lemma PeerSearches(ours: seq<Id>, theirs: seq<Id>, forks: set<Id>, synopsis: seq<Id>, from: nat, after: nat, c: nat)
    requires Numbered(ours) && Summarises(synopsis, from, ours, after) && SharedUpTo(ours, theirs, c) && from <= c
    ensures var stops := Stops(from, |ours|, |ours| + after);
      LastKnown(theirs, forks, synopsis) ==
        if TooHigh(theirs, forks, synopsis) then Beyond else Known(ours[stops[LastStop(stops, c)] - 1])
  {
    hide Stops, LastStop, LastKnown, TooHigh;
    var stops := Stops(from, |ours|, |ours| + after);
    forall i, j | 0 <= i < j < |stops| ensures stops[i] < stops[j] { StopsOrdered(from, |ours|, |ours| + after, i, j); }
    assert Rising(stops);
    LastKnownStop(theirs, forks, ours, stops, synopsis, c);
  }

  /** A peer that shares our chain up to block `c` answers from the last stop at or before `c`, unless an
      entry it knows from a fork is higher than its chain; with nothing to follow, that is no further back
      than `c` is from our end. */
  lemma PeerAnswers(ours: seq<Id>, theirs: seq<Id>, forks: set<Id>, synopsis: seq<Id>, from: nat, after: nat, c: nat)
    requires Numbered(ours) && Summarises(synopsis, from, ours, after) && SharedUpTo(ours, theirs, c) && from <= c
    ensures LastKnown(theirs, forks, synopsis).Known? <==> !TooHigh(theirs, forks, synopsis)
    ensures !TooHigh(theirs, forks, synopsis) ==>
      var s := FirstAnswered(theirs, forks, synopsis);
      && from <= s <= c && ours[s - 1] in synopsis && LastKnown(theirs, forks, synopsis) == Known(ours[s - 1])
      && (forall i :: 0 <= i < |synopsis| && synopsis[i].num > s ==> synopsis[i].num > c)
      && (after == 0 ==> c - s <= |ours| - c)
  {
    hide Stops, LastStop, LastKnown, TooHigh;
    var stops := Stops(from, |ours|, |ours| + after);
    PeerSearches(ours, theirs, forks, synopsis, from, after, c);
    var k := LastStop(stops, c);
    LastStopNext(stops, c);
    StopsIncrease(from, |ours|, |ours| + after, k);
    assert ours[stops[k] - 1] == synopsis[k];
    forall i | 0 <= i < |synopsis| && synopsis[i].num > stops[k] ensures synopsis[i].num > c {
      assert synopsis[i].num == stops[i];
      if i <= k { StopsOrdered(from, |ours|, |ours| + after, i, k); }
      if i > k + 1 { StopsOrdered(from, |ours|, |ours| + after, k + 1, i); }
    }
    if after == 0 { StopsNear(from, |ours|, c); }
  }

  lemma {:induction false} StopsOrdered(low: nat, high: nat, top: nat, i: nat, j: nat)
    requires low <= high <= top && i <= j < |Stops(low, high, top)|
    ensures Stops(low, high, top)[i] <= Stops(low, high, top)[j]
    ensures (i < j ==> Stops(low, high, top)[i] < Stops(low, high, top)[j])
    decreases j - i
  {
    hide Stops, NextStop;
    if i < j {
      StopsIncrease(low, high, top, i);
      StopsOrdered(low, high, top, i + 1, j);
    }
  }
}
