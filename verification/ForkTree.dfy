/** The tree of recent blocks, on and off the main chain. */
module ForkTree {
  import opened Options
  import opened ChainState

  type Index = map<nat, Block>

  /** Blocks are filed under their ids, and one higher than the block they build on if that is known. */
  ghost predicate Tree(index: Index) {
    forall id :: id in index ==>
      && index[id].id == id
      && (index[id].previous in index ==> index[index[id].previous].num + 1 == index[id].num)
  }

  /** A chain of known blocks, highest first, each building on the next. */
  ghost predicate Path(index: Index, br: seq<Block>) {
    && (forall i :: 0 <= i < |br| ==> br[i].id in index && index[br[i].id] == br[i])
    && (forall i :: 0 <= i < |br| - 1 ==> br[i].previous == br[i + 1].id)
  }

  lemma {:induction false} PathHeights(index: Index, br: seq<Block>, i: nat)
    requires Tree(index) && Path(index, br) && i < |br|
    ensures br[i].num + i == br[0].num
  {
    if i > 0 { PathHeights(index, br, i - 1); }
  }

  lemma {:induction false} PathUnique(index: Index, p: seq<Block>, q: seq<Block>, i: nat)
    requires Path(index, p) && Path(index, q) && i < |p| && i < |q| && p[0] == q[0]
    ensures p[i] == q[i]
  {
    if i > 0 { PathUnique(index, p, q, i - 1); }
  }

  /** A path that ends where the next block is not known is as long as any other from the same start. */
  lemma PathEnds(index: Index, p: seq<Block>, q: seq<Block>)
    requires Path(index, p) && Path(index, q) && p != [] && q != [] && p[0] == q[0] && p[|p| - 1].previous !in index
    ensures |q| <= |p|
  {
    if |q| > |p| {
      assert q[|p|].id in index;
      PathUnique(index, p, q, |p| - 1);
    }
  }

  /** Two branches from `a` and from `b` back to blocks with the same predecessor, as high as possible. */
  ghost predicate Forked(index: Index, a: nat, b: nat, left: seq<Block>, right: seq<Block>) {
    && left != [] && right != [] && Path(index, left) && Path(index, right) && left[0].id == a && right[0].id == b
    && left[|left| - 1].previous == right[|right| - 1].previous
    && left[0].num - |left| == right[0].num - |right|
    && forall k :: 0 <= k < |left| - 1 && 0 <= |right| - |left| + k ==>
         left[k].previous != right[|right| - |left| + k].previous
  }

  /** There is at most one such pair of branches. */
  lemma ForkUnique(index: Index, a: nat, b: nat, left: seq<Block>, right: seq<Block>, p: seq<Block>, q: seq<Block>)
    requires Forked(index, a, b, left, right) && Forked(index, a, b, p, q)
    ensures left == p && right == q
  {
    NotLonger(index, a, b, left, right, p, q);
    NotLonger(index, a, b, p, q, left, right);
    forall i | 0 <= i < |p| ensures left[i] == p[i] { PathUnique(index, left, p, i); }
    forall i | 0 <= i < |q| ensures right[i] == q[i] { PathUnique(index, right, q, i); }
  }

  lemma NotLonger(index: Index, a: nat, b: nat, left: seq<Block>, right: seq<Block>, p: seq<Block>, q: seq<Block>)
    requires Forked(index, a, b, left, right) && Forked(index, a, b, p, q)
    ensures |p| <= |left| && |p| - |left| == |q| - |right|
  {
    if |p| > |left| {
      PathUnique(index, left, p, |left| - 1);
      PathUnique(index, right, q, |right| - 1);
    }
  }

  /** Two paths, from `a` and from `b`, that have come down to the same height and not met before. */
  ghost predicate Abreast(index: Index, a: nat, b: nat, left: seq<Block>, right: seq<Block>) {
    && left != [] && right != [] && Path(index, left) && Path(index, right) && left[0].id == a && right[0].id == b
    && left[|left| - 1].num == right[|right| - 1].num && left[0].num - |left| == right[0].num - |right|
    && forall k :: 0 <= k < |left| - 1 && 0 <= |right| - |left| + k ==>
         left[k].previous != right[|right| - |left| + k].previous
  }

  lemma AbreastMore(index: Index, a: nat, b: nat, left: seq<Block>, right: seq<Block>)
    requires Tree(index) && Abreast(index, a, b, left, right)
    requires var x, y := left[|left| - 1], right[|right| - 1];
      x.previous != y.previous && x.previous in index && y.previous in index
    ensures var x, y := left[|left| - 1], right[|right| - 1];
      index[x.previous].num < x.num && Abreast(index, a, b, left + [index[x.previous]], right + [index[y.previous]])
  {
  }

  lemma AbreastForks(index: Index, a: nat, b: nat, left: seq<Block>, right: seq<Block>)
    requires Abreast(index, a, b, left, right) && left[|left| - 1].previous == right[|right| - 1].previous
    ensures Forked(index, a, b, left, right)
  {
  }

  /** Branches that end apart, one of them at a block whose predecessor is not known, never meet. */
  lemma NotYetForked(index: Index, a: nat, b: nat, left: seq<Block>, right: seq<Block>, p: seq<Block>, q: seq<Block>)
    requires Abreast(index, a, b, left, right) && left[|left| - 1].previous != right[|right| - 1].previous
    requires left[|left| - 1].previous !in index || right[|right| - 1].previous !in index
    ensures !Forked(index, a, b, p, q)
  {
    if Forked(index, a, b, p, q) {
      assert |p| - |left| == |q| - |right|;
      if left[|left| - 1].previous !in index {
        PathEnds(index, left, p);
      } else {
        PathEnds(index, right, q);
      }
      PathUnique(index, left, p, |p| - 1);
      PathUnique(index, right, q, |q| - 1);
    }
  }

  /** Walks back from `from` to height `num`, collecting the blocks above it. */
  method WalkDown(index: Index, from: Block, num: nat) returns (at: Option<Block>, br: seq<Block>)
    requires Tree(index) && from.id in index && index[from.id] == from
    ensures at.Some? ==>
      && at.value.id in index && index[at.value.id] == at.value && Path(index, br + [at.value])
        && (br + [at.value])[0] == from
      && (from.num >= num ==> at.value.num == num) && (from.num < num ==> br == [])
    ensures at.None? ==> forall p :: Path(index, p) && p != [] && p[0] == from ==> |p| <= from.num - num
  {
    var b := from;
    br := [];
    while b.num > num
      invariant b.id in index && index[b.id] == b && Path(index, br + [b]) && (br + [b])[0] == from
      invariant from.num >= num ==> b.num >= num
      invariant from.num < num ==> br == [] && b == from
      decreases b.num
    {
      if b.previous !in index {
        forall p | Path(index, p) && p != [] && p[0] == from ensures |p| <= from.num - num {
          PathEnds(index, br + [b], p);
          PathHeights(index, br + [b], |br|);
        }
        return None, br;
      }
      br := br + [b];
      b := index[b.previous];
    }
    at := Some(b);
  }

  /** The branches leading back from two blocks to their most recent common ancestor; None when a
      block on the way is not known. */
  method FetchBranchFrom(index: Index, a: nat, b: nat) returns (r: Option<(seq<Block>, seq<Block>)>)
    requires Tree(index)
    ensures r.Some? ==> a in index && b in index && Forked(index, a, b, r.value.0, r.value.1)
    ensures r.None? ==> forall left, right :: !Forked(index, a, b, left, right)
  {
    if a !in index || b !in index {
      return None;
    }
    var first, left := WalkDown(index, index[a], index[b].num);
    if first.None? {
      return None;
    }
    var second, right := WalkDown(index, index[b], first.value.num);
    if second.None? {
      return None;
    }
    var x, y := first.value, second.value;
    PathHeights(index, left + [x], |left|);
    PathHeights(index, right + [y], |right|);
    assert Abreast(index, a, b, left + [x], right + [y]);
    hide Path, Forked, Abreast;
    while x.previous != y.previous
      invariant Abreast(index, a, b, left + [x], right + [y])
      decreases x.num
    {
      if x.previous !in index || y.previous !in index {
        forall p, q ensures !Forked(index, a, b, p, q) {
          NotYetForked(index, a, b, left + [x], right + [y], p, q);
        }
        return None;
      }
      AbreastMore(index, a, b, left + [x], right + [y]);
      left, right := left + [x], right + [y];
      x, y := index[x.previous], index[y.previous];
    }
    AbreastForks(index, a, b, left + [x], right + [y]);
    r := Some((left + [x], right + [y]));
  }

  /** Every block is filed under its id, and is the block that id stands for. */
  ghost predicate Filing(ids: Ids, index: Index) {
    forall id :: id in index ==> index[id].id == id && Named(ids, index[id])
  }

  /** Heights are part of the ids, so named blocks make a tree. */
  lemma FilingTree(ids: Ids, index: Index)
    requires Filing(ids, index)
    ensures Tree(index)
  {
  }

  /** The blocks at most `max` below height `top`. */
  function Pruned(index: Index, top: nat, max: nat): Index {
    map id | id in index && index[id].num + max >= top :: index[id]
  }

  /** The known blocks and the head after a block has been filed: a block above the head becomes the
      head, and blocks too far below it are dropped. */
  function Filed(index: Index, head: Block, max: nat, b: Block): (Index, Block) {
    var grown := if b.id in index then index else index[b.id := b];
    if b.num > head.num then (Pruned(grown, b.num, max), b) else (grown, head)
  }

  /** A block is accepted if it is recent enough and builds on a known block, or on none. */
  predicate Linkable(index: Index, head: Block, max: nat, b: Block) {
    && b.num > (if head.num > max then head.num - max else 0)
    && (b.previous == 0 || b.previous in index)
  }

  /** Filing keeps the tree. Only a higher block becomes the head. The block is known afterwards, and of the
      others exactly those that are not too far below a new head. */
  lemma FiledTree(ids: Ids, index: Index, head: Block, max: nat, b: Block)
    requires Filing(ids, index) && Named(ids, head) && Named(ids, b)
    ensures var (index', head') := Filed(index, head, max, b);
      && Filing(ids, index') && Tree(index') && Named(ids, head')
      && head' == (if b.num > head.num then b else head)
      && b.id in index' && index'[b.id] == b
      && (forall id :: id in index' ==> id == b.id || (id in index && index'[id] == index[id]))
      && forall id :: id in index ==> (id in index' <==> b.num <= head.num || index[id].num + max >= b.num)
  {
  }
}
