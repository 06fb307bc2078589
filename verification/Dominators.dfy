/** The dominator tree of src/analysis/domtree.rs, on the blocks of a unit. */
module Dominators {
  import opened PostOrder
  import opened Sets
  import DT = DomTree

  /** Block a lies on every path from a root to block b. */
  ghost predicate Dominates(t: PredTable, roots: seq<Block>, a: Block, b: Block) {
    forall p, r {:trigger Leads(t, p, r, b)} :: r in roots && Leads(t, p, r, b) ==> a in p
  }

  /** The entry, and all blocks without predecessors. */
  function Roots(t: PredTable, entry: Block, blocks: seq<Block>): seq<Block>
    requires forall b :: b in blocks ==> b in t.pred
  {
    [entry] + Orphans(t, blocks)
  }

  /** Every block is reachable from a root. */
  ghost predicate Connected(t: PredTable, roots: seq<Block>) {
    forall b {:trigger FromRoots(t, roots, b)} :: b in t.succ ==> FromRoots(t, roots, b)
  }

  /** Some root lies on every path to the block. */
  ghost predicate Anchored(t: PredTable, roots: seq<Block>, b: Block) {
    exists r :: r in roots && Dominates(t, roots, r, b)
  }

  /** No block is reached from two roots, neither of which is always passed. */
  ghost predicate OneRoot(t: PredTable, roots: seq<Block>) {
    forall b {:trigger Anchored(t, roots, b)} :: b in t.succ ==> Anchored(t, roots, b)
  }

  /** A unit whose only block without predecessors is the entry has one root. */
  lemma SingleEntry(t: PredTable, entry: Block, blocks: seq<Block>)
    requires t.Valid() && entry in t.succ && forall b :: b in blocks ==> b in t.pred
    requires forall b :: b in t.pred && t.pred[b] == {} ==> b == entry
    ensures OneRoot(t, Roots(t, entry, blocks))
  {
    forall b | b in t.succ
      ensures Anchored(t, Roots(t, entry, blocks), b)
    {
      assert entry in Roots(t, entry, blocks);
      assert Dominates(t, Roots(t, entry, blocks), entry, b);
    }
  }

  // ---------------------------------------------------------------- from blocks to indices

  /** The order lists every block once, and `preds` are the predecessor sets in terms of it. */
  ghost predicate Indexed(t: PredTable, order: seq<Block>, preds: seq<set<nat>>) {
    && t.Valid() && Distinct(order) && (forall b :: b in order <==> b in t.succ)
    && |preds| == |order|
    && (forall i, p {:trigger p in preds[i]} :: 0 <= i < |order| && p in preds[i] ==>
      p < |order| && order[p] in t.pred[order[i]])
    && (forall i, p {:trigger order[p] in t.pred[order[i]]} ::
         0 <= i < |order| && 0 <= p < |order| && order[p] in t.pred[order[i]] ==> p in preds[i])
  }

  /** The graph by indices, with its roots. */
  ghost predicate Numbered(t: PredTable, roots: seq<Block>, order: seq<Block>, g: DT.Graph) {
    && Indexed(t, order, g.preds) && (forall r :: r in roots ==> r in order)
    && (forall i: nat {:trigger i in g.roots} :: i in g.roots <==> i < |order| && order[i] in roots)
  }

  /** Everything but the roots comes before one of its predecessors. */
  lemma PostOrderFlows(t: PredTable, roots: seq<Block>, order: seq<Block>, g: DT.Graph)
    requires Numbered(t, roots, order, g) && 0 < |order| < DT.UNDEF && ParentsFollow(t, roots, order)
    ensures DT.Flow(g)
  {
    forall i | 0 <= i < |g.preds| && i !in g.roots
      ensures DT.HasLater(g, i)
    {
      assert HasLaterPred(t, order, i);
      var q :| q in order[i + 1..] && q in t.succ && order[i] in t.succ[q];
      var k :| 0 <= k < |order[i + 1..]| && order[i + 1..][k] == q;
      assert order[i + 1 + k] in t.pred[order[i]];
    }
  }

  /** Dominance among blocks is dominance among their indices. */
  lemma DominatesIsDom(t: PredTable, roots: seq<Block>, order: seq<Block>, g: DT.Graph, y: nat, x: nat)
    requires Numbered(t, roots, order, g) && y < |order| && x < |order|
    ensures Dominates(t, roots, order[y], order[x]) <==> DT.Dom(g, y, x)
  {
    if Dominates(t, roots, order[y], order[x]) {
      forall w | DT.Walk(g, w) && w[|w| - 1] == x
        ensures y in w
      {
        WalkToPath(t, roots, order, g, w);
        var p := seq(|w|, k requires 0 <= k < |w| => order[w[k]]);
        assert Leads(t, p, order[w[0]], order[x]);
        var k :| 0 <= k < |p| && p[k] == order[y];
        assert w[k] == y;
      }
    }
    if DT.Dom(g, y, x) {
      forall p, r | r in roots && Leads(t, p, r, order[x])
        ensures order[y] in p
      {
        var w := PathToWalk(t, roots, order, g, p);
        var k :| 0 <= k < |w| && w[k] == y;
        assert p[k] == order[y];
      }
    }
  }

  lemma WalkToPath(t: PredTable, roots: seq<Block>, order: seq<Block>, g: DT.Graph, w: seq<nat>)
    requires Numbered(t, roots, order, g) && DT.Walk(g, w)
    ensures Path(t, seq(|w|, k requires 0 <= k < |w| => order[w[k]])) && order[w[0]] in roots
  {
    var p := seq(|w|, k requires 0 <= k < |w| => order[w[k]]);
    forall j, k | 0 <= j < k < |p| && k == j + 1
      ensures p[j] in t.succ && p[k] in t.succ[p[j]]
    {
      assert w[j] in g.preds[w[k]];
    }
    assert forall k :: 0 <= k < |p| ==> p[k] in order;
  }

  lemma PathToWalk(t: PredTable, roots: seq<Block>, order: seq<Block>, g: DT.Graph, p: seq<Block>) returns (w: seq<nat>)
    requires Numbered(t, roots, order, g) && Path(t, p) && p[0] in roots
    ensures DT.Walk(g, w) && |w| == |p|
    ensures forall k :: 0 <= k < |w| ==> w[k] < |order| && order[w[k]] == p[k]
  {
    w := IndicesOf(order, p);
    forall j, k | 0 <= j < k < |w| && k == j + 1
      ensures w[j] in g.preds[w[k]]
    {
      assert p[k] in t.succ[p[j]];
      assert order[w[j]] in t.pred[order[w[k]]];
    }
    assert w[0] in g.roots;
  }

  /** One root for each block is one root for each index. */
  lemma OneRootByIndex(t: PredTable, roots: seq<Block>, order: seq<Block>, g: DT.Graph)
    requires Numbered(t, roots, order, g)
    ensures OneRoot(t, roots) <==> DT.OneRoot(g)
  {
    if OneRoot(t, roots) {
      forall x: nat | x < |g.preds|
        ensures DT.Anchored(g, x)
      {
        assert order[x] in order;
        assert Anchored(t, roots, order[x]);
        var r :| r in roots && Dominates(t, roots, r, order[x]);
        var i :| 0 <= i < |order| && order[i] == r;
        DominatesIsDom(t, roots, order, g, i, x);
        assert i in g.roots;
      }
    }
    if DT.OneRoot(g) {
      forall b | b in t.succ
        ensures Anchored(t, roots, b)
      {
        var x :| 0 <= x < |order| && order[x] == b;
        assert DT.Anchored(g, x);
        var r :| r in g.roots && DT.Dom(g, r, x);
        DominatesIsDom(t, roots, order, g, r, x);
      }
    }
  }

  lemma {:induction false} IndicesOf(order: seq<Block>, p: seq<Block>) returns (w: seq<nat>)
    requires forall k :: 0 <= k < |p| ==> p[k] in order
    ensures |w| == |p| && forall k :: 0 <= k < |w| ==> w[k] < |order| && order[w[k]] == p[k]
  {
    if p == [] {
      w := [];
    } else {
      var i :| 0 <= i < |order| && order[i] == p[0];
      var rest := IndicesOf(order, p[1..]);
      w := [i] + rest;
    }
  }

  // ---------------------------------------------------------------- construction

  /** Number the blocks in post-order. */
  method Number(order: seq<Block>) returns (inv: map<Block, nat>)
    requires Distinct(order)
    ensures Numbers(order, inv)
  {
    inv := map[];
    for i := 0 to |order|
      invariant forall b :: b in inv <==> b in order[..i]
      invariant forall k :: 0 <= k < i ==> order[k] in inv && inv[order[k]] == k
    {
      inv := inv[order[i] := i];
    }
  }

  /** The order lists every block once, and `inv` is its inverse. */
  ghost predicate Numbers(order: seq<Block>, inv: map<Block, nat>) {
    && Distinct(order) && (forall b :: b in order <==> b in inv)
    && (forall i {:trigger inv[order[i]]} :: 0 <= i < |order| ==> order[i] in inv && inv[order[i]] == i)
  }

  /** The indices of a set of blocks. */
  function IndexSet(s: set<Block>, inv: map<Block, nat>): (r: set<nat>)
    requires s <= inv.Keys
    ensures forall b :: b in s ==> inv[b] in r
    ensures forall p :: p in r ==> exists b :: b in s && inv[b] == p
  {
    set b | b in s :: inv[b]
  }

  /** The predecessor sets in terms of the numbering. */
  method IndexPreds(t: PredTable, order: seq<Block>, inv: map<Block, nat>) returns (preds: seq<set<nat>>)
    requires t.Valid() && Numbers(order, inv) && inv.Keys == t.succ.Keys
    ensures Indexed(t, order, preds)
  {
    forall i | 0 <= i < |order|
      ensures order[i] in t.pred && t.pred[order[i]] <= inv.Keys
    {
      assert order[i] in order;
      assert order[i] in t.pred.Keys;
    }
    preds := seq(|order|, i requires 0 <= i < |order| => IndexSet(t.pred[order[i]], inv));
    forall i, p | 0 <= i < |order| && p in preds[i]
      ensures p < |order| && order[p] in t.pred[order[i]]
    {
      var q :| q in t.pred[order[i]] && inv[q] == p;
      assert q in t.succ.Keys;
      var k :| 0 <= k < |order| && order[k] == q;
      assert inv[order[k]] == k;
    }
    forall i, p | 0 <= i < |order| && 0 <= p < |order| && order[p] in t.pred[order[i]]
      ensures p in preds[i]
    {
      assert inv[order[p]] == p;
    }
  }

  /** The immediate dominators by block mirror the ones by index. */
  ghost predicate Mirrors(order: seq<Block>, d: seq<int>, doms: map<Block, Block>) {
    && Distinct(order) && |d| == |order| && DT.Tree(d) && DT.DefinedFrom(d, 0)
    && (forall b :: b in order ==> b in doms)
    && (forall i {:trigger doms[order[i]]} :: 0 <= i < |order| ==> order[i] in doms && doms[order[i]] == order[d[i]])
  }

  /** The tree by index is exact. */
  ghost predicate Exact(t: PredTable, roots: seq<Block>, order: seq<Block>, d: seq<int>, doms: map<Block, Block>) {
    && Mirrors(order, d, doms) && doms.Keys == t.succ.Keys && (forall b :: b in order <==> b in t.succ)
    && (forall y, x {:trigger DT.Above(d, y, x)} :: 0 <= y < |order| && 0 <= x < |order| ==>
         (DT.Above(d, y, x) <==> Dominates(t, roots, order[y], order[x])))
  }

  lemma MirrorAt(order: seq<Block>, d: seq<int>, doms: map<Block, Block>, i: nat)
    requires Mirrors(order, d, doms) && i < |order|
    ensures order[i] in doms && d[i] < |order| && doms[order[i]] == order[d[i]]
    ensures order[d[i]] == order[i] <==> d[i] == i
    ensures i <= d[i]
  {
    assert order[i] in order && d[i] != DT.UNDEF;
    assert doms[order[i]] == order[d[i]];
  }

  /** Collect the ancestors of one block. */
  method CollectDominators(doms: map<Block, Block>, block: Block, ghost order: seq<Block>, ghost d: seq<int>,
      ghost x0: nat)
    returns (s: set<Block>)
    requires Mirrors(order, d, doms) && x0 < |order| && order[x0] == block
    ensures forall y :: 0 <= y < |order| ==> (DT.Above(d, y, x0) <==> order[y] in s)
  {
    s := {};
    var bb := block;
    ghost var x := x0;
    MirrorAt(order, d, doms, x);
    while true
      invariant 0 <= x < |order| && order[x] == bb && bb in doms
      invariant forall y :: 0 <= y < |order| ==> (DT.Above(d, y, x0) <==> order[y] in s || DT.Above(d, y, x))
      decreases |order| - x
    {
      s := s + {bb};
      var next := doms[bb];
      if next == bb {
        break;
      }
      bb := next;
      x := d[x];
      MirrorAt(order, d, doms, x);
    }
  }

  /** Walk up the tree from `child0` until `parent` or the root is met. */
  method Climb(doms: map<Block, Block>, parent: Block, child0: Block, ghost order: seq<Block>, ghost d: seq<int>,
      ghost y: nat, ghost x0: nat)
    returns (r: bool)
    requires Mirrors(order, d, doms) && y < |order| && x0 < |order| && order[y] == parent && order[x0] == child0
    ensures r <==> DT.Above(d, y, x0)
  {
    var child := child0;
    ghost var x := x0;
    MirrorAt(order, d, doms, x);
    while parent != child
      invariant 0 <= x < |order| && order[x] == child && child in doms
      invariant DT.Above(d, y, x0) == DT.Above(d, y, x)
      decreases |order| - x
    {
      var next := doms[child];
      if next == child {
        return false;
      }
      child := next;
      x := d[x];
      MirrorAt(order, d, doms, x);
    }
    r := true;
  }

  lemma ExactAt(t: PredTable, roots: seq<Block>, order: seq<Block>, d: seq<int>, doms: map<Block, Block>, y: nat,
      x: nat)
    requires Exact(t, roots, order, d, doms) && y < |order| && x < |order|
    ensures DT.Above(d, y, x) <==> Dominates(t, roots, order[y], order[x])
  {
  }

  /** The ancestors of a block are its dominators. */
  method DominatorsOf(t: PredTable, ghost roots: seq<Block>, ghost order: seq<Block>, ghost d: seq<int>,
      doms: map<Block, Block>, block: Block)
    returns (s: set<Block>)
    requires Exact(t, roots, order, d, doms) && block in t.succ
    ensures forall a :: a in t.succ ==> (a in s <==> Dominates(t, roots, a, block))
  {
    ghost var x :| 0 <= x < |order| && order[x] == block;
    s := CollectDominators(doms, block, order, d, x);
    forall a | a in t.succ
      ensures a in s <==> Dominates(t, roots, a, block)
    {
      var y :| 0 <= y < |order| && order[y] == a;
      ExactAt(t, roots, order, d, doms, y, x);
    }
  }

  /** The ancestors of every block. */
  method DominatedTable(t: PredTable, ghost roots: seq<Block>, ghost order: seq<Block>, ghost d: seq<int>,
      doms: map<Block, Block>, blocks: seq<Block>)
    returns (dominated: map<Block, set<Block>>)
    requires Exact(t, roots, order, d, doms) && forall b :: b in blocks <==> b in t.succ
    ensures dominated.Keys == t.succ.Keys
    ensures forall a, b {:trigger a in dominated[b]} :: a in t.succ && b in t.succ ==>
      (a in dominated[b] <==> Dominates(t, roots, a, b))
  {
    dominated := map[];
    for i := 0 to |blocks|
      invariant forall b :: b in dominated <==> b in blocks[..i]
      invariant forall a, b {:trigger a in dominated[b]} :: a in t.succ && b in dominated ==>
        (a in dominated[b] <==> Dominates(t, roots, a, b))
    {
      assert blocks[i] in blocks;
      var s := DominatorsOf(t, roots, order, d, doms, blocks[i]);
      assert blocks[..i + 1] == blocks[..i] + [blocks[i]];
      dominated := dominated[blocks[i] := s];
    }
    assert blocks[..|blocks|] == blocks;
  }

  /** Both compatibility tables. */
  method Tables(t: PredTable, ghost roots: seq<Block>, ghost order: seq<Block>, ghost d: seq<int>,
      doms: map<Block, Block>, blocks: seq<Block>)
    returns (dominated: map<Block, set<Block>>, dominates: map<Block, set<Block>>)
    requires Exact(t, roots, order, d, doms) && t.pred.Keys == t.succ.Keys && forall b :: b in blocks <==> b in t.pred
    ensures dominated.Keys == t.succ.Keys && dominates.Keys == t.succ.Keys
    ensures forall a, b {:trigger a in dominated[b]} :: a in t.succ && b in t.succ ==>
      (a in dominated[b] <==> Dominates(t, roots, a, b))
    ensures forall a, b {:trigger b in dominates[a]} :: a in t.succ && b in t.succ ==>
      (b in dominates[a] <==> Dominates(t, roots, a, b))
  {
    assert forall b :: b in blocks <==> b in t.pred.Keys;
    dominated := DominatedTable(t, roots, order, d, doms, blocks);
    dominates := map a | a in dominated :: set b | b in dominated && a in dominated[b];
  }

  lemma AllListed(t: PredTable, roots: seq<Block>, order: seq<Block>)
    requires Connected(t, roots) && IsPostOrder(t, roots, order)
    ensures forall b :: b in order <==> b in t.succ
  {
    forall b | b in t.succ
      ensures b in order
    {
      assert FromRoots(t, roots, b);
    }
  }

  lemma {:induction false} DistinctLength(s: seq<Block>, all: set<Block>)
    requires Distinct(s) && forall b :: b in s ==> b in all
    ensures |s| <= |all|
    decreases |s|
  {
    if s == [] {
    } else {
      var last := s[|s| - 1];
      DistinctLength(s[..|s| - 1], all - {last});
    }
  }

  /** All blocks in an order in which every one but the roots comes before one of its predecessors. */
  ghost predicate Ordered(t: PredTable, roots: seq<Block>, order: seq<Block>) {
    && Distinct(order) && (forall b :: b in order <==> b in t.succ) && ParentsFollow(t, roots, order)
    && roots != [] && forall b :: b in roots ==> b in t.succ
  }

  lemma PostOrdered(t: PredTable, entry: Block, blocks: seq<Block>, roots: seq<Block>, order: seq<Block>)
    requires t.Valid() && entry in t.succ && forall b :: b in blocks ==> b in t.pred
    requires roots == Roots(t, entry, blocks) && Connected(t, roots) && IsPostOrder(t, roots, order)
    ensures Ordered(t, roots, order)
  {
    AllListed(t, roots, order);
    forall b | b in Orphans(t, blocks)
      ensures b in t.succ
    {
      assert b in t.pred.Keys;
    }
  }

  /** Order and number the blocks, and set up the predecessor sets and roots by index. */
  method Prepare(t: PredTable, entry: Block, blocks: seq<Block>, rootBlocks: seq<Block>)
    returns (order: seq<Block>, inv: map<Block, nat>, g: DT.Graph, roots: seq<nat>)
    requires t.Valid() && entry in t.succ && |t.succ| < DT.UNDEF && forall b :: b in blocks <==> b in t.pred
    requires rootBlocks == Roots(t, entry, blocks) && Connected(t, rootBlocks)
    ensures Numbers(order, inv) && inv.Keys == t.succ.Keys && Numbered(t, rootBlocks, order, g)
    ensures DT.Flow(g) && forall r :: r in roots <==> r in g.roots
  {
    ghost var open: map<Block, set<Block>>;
    order, open := ComputeBlocksPostOrder(t, entry, blocks);
    PostOrdered(t, entry, blocks, rootBlocks, order);
    inv, g, roots := PrepareOrder(t, rootBlocks, order);
  }

  method PrepareOrder(t: PredTable, rootBlocks: seq<Block>, order: seq<Block>)
    returns (inv: map<Block, nat>, g: DT.Graph, roots: seq<nat>)
    requires t.Valid() && |t.succ| < DT.UNDEF && Ordered(t, rootBlocks, order)
    ensures Numbers(order, inv) && inv.Keys == t.succ.Keys && Numbered(t, rootBlocks, order, g)
    ensures DT.Flow(g) && forall r :: r in roots <==> r in g.roots
  {
    inv := Number(order);
    DistinctLength(order, t.succ.Keys);
    var preds := IndexPreds(t, order, inv);
    roots := seq(|rootBlocks|, k requires 0 <= k < |rootBlocks| => inv[rootBlocks[k]]);
    g := DT.Graph(preds, set r | r in roots);
    RootIndices(t, rootBlocks, order, inv, g, roots);
    assert rootBlocks[0] in order;
    PostOrderFlows(t, rootBlocks, order, g);
  }

  lemma RootIndices(t: PredTable, rootBlocks: seq<Block>, order: seq<Block>, inv: map<Block, nat>, g: DT.Graph,
      roots: seq<nat>)
    requires Indexed(t, order, g.preds) && Numbers(order, inv) && forall b :: b in rootBlocks ==> b in inv
    requires |roots| == |rootBlocks| && forall k :: 0 <= k < |roots| ==> roots[k] == inv[rootBlocks[k]]
    requires g.roots == set r | r in roots
    ensures Numbered(t, rootBlocks, order, g)
  {
    forall i: nat
      ensures i in g.roots <==> i < |order| && order[i] in rootBlocks
    {
      if i in g.roots {
        var k :| 0 <= k < |roots| && roots[k] == i;
        assert rootBlocks[k] in order;
        var j :| 0 <= j < |order| && order[j] == rootBlocks[k];
        assert inv[order[j]] == j;
      }
      if i < |order| && order[i] in rootBlocks {
        var k :| 0 <= k < |rootBlocks| && rootBlocks[k] == order[i];
        assert inv[order[i]] == i;
        assert roots[k] == i;
      }
    }
  }

  /** The immediate dominator of every block. */
  method Solve(order: seq<Block>, inv: map<Block, nat>, g: DT.Graph, roots: seq<nat>)
      returns (doms: map<Block, Block>, ghost d: seq<int>)
    requires Numbers(order, inv) && |g.preds| == |order| && DT.Flow(g) && DT.OneRoot(g)
    requires forall r :: r in roots <==> r in g.roots
    ensures Mirrors(order, d, doms) && doms.Keys == inv.Keys
    ensures forall y: nat, x: nat {:trigger DT.Dom(g, y, x)} :: x < |g.preds| ==>
      (DT.Above(d, y, x) <==> DT.Dom(g, y, x))
  {
    var idoms := DT.Iterate(g, roots);
    d := idoms[..];
    doms := MapBack(order, inv, idoms);
  }

  lemma ExactByIndex(t: PredTable, roots: seq<Block>, order: seq<Block>, g: DT.Graph, d: seq<int>,
      doms: map<Block, Block>)
    requires Numbered(t, roots, order, g) && Mirrors(order, d, doms) && doms.Keys == t.succ.Keys
    requires forall y: nat, x: nat {:trigger DT.Dom(g, y, x)} :: x < |g.preds| ==>
      (DT.Above(d, y, x) <==> DT.Dom(g, y, x))
    ensures Exact(t, roots, order, d, doms)
  {
    forall y, x | 0 <= y < |order| && 0 <= x < |order|
      ensures DT.Above(d, y, x) <==> Dominates(t, roots, order[y], order[x])
    {
      DominatesIsDom(t, roots, order, g, y, x);
    }
  }

  /** Trees below the roots can be exact only if every block has a root on all paths to it. */
  lemma ExactlyWithOneRoot(t: PredTable, roots: seq<Block>, order: seq<Block>, g: DT.Graph, d: seq<int>,
      doms: map<Block, Block>)
    requires Numbered(t, roots, order, g) && Exact(t, roots, order, d, doms) && DT.RootsAre(d, g.roots)
    ensures OneRoot(t, roots)
  {
    forall b | b in t.succ
      ensures Anchored(t, roots, b)
    {
      var x :| 0 <= x < |order| && order[x] == b;
      var r := DT.TopAbove(d, x);
      assert r in g.roots;
      ExactAt(t, roots, order, d, doms, r, x);
    }
  }

  /** Translate the indices back into blocks. */
  method MapBack(order: seq<Block>, inv: map<Block, nat>, idoms: array<int>) returns (doms: map<Block, Block>)
    requires |order| == idoms.Length && DT.Tree(idoms[..]) && DT.DefinedFrom(idoms[..], 0)
    requires Numbers(order, inv)
    ensures doms.Keys == inv.Keys
    ensures forall i {:trigger doms[order[i]]} :: 0 <= i < |order| ==>
      order[i] in doms && doms[order[i]] == order[idoms[i]]
  {
    doms := map[];
    for i := 0 to |order|
      invariant forall b :: b in doms <==> b in order[..i]
      invariant forall k {:trigger doms[order[k]]} :: 0 <= k < i ==>
        order[k] in doms && doms[order[k]] == order[idoms[k]]
    {
      assert inv[order[i]] == i;
      doms := doms[order[i] := order[idoms[inv[order[i]]]]];
    }
    assert order[..|order|] == order;
  }

  /** The dominator tree of a unit. */
  class DominatorTree {
    /** Map from a block to the blocks it dominates. */
    const dominates: map<Block, set<Block>>
    /** Map from a block to the blocks that dominate it. */
    const dominated: map<Block, set<Block>>
    /** Immediate dominators. */
    const doms: map<Block, Block>
    /** Blocks in post-order. */
    const postOrder: seq<Block>
    /** Post-order index for each block. */
    const invPostOrder: map<Block, nat>
    /** The immediate dominators by index. */
    ghost const idoms: seq<int>

    ghost predicate Valid(t: PredTable, roots: seq<Block>) {
      Exact(t, roots, postOrder, idoms, doms)
    }

    constructor (t: PredTable, entry: Block, blocks: seq<Block>)
      requires t.Valid() && entry in t.succ && |t.succ| < DT.UNDEF && forall b :: b in blocks <==> b in t.pred
      requires Connected(t, Roots(t, entry, blocks)) && OneRoot(t, Roots(t, entry, blocks))
      ensures Valid(t, Roots(t, entry, blocks))
      ensures dominated.Keys == t.succ.Keys && dominates.Keys == t.succ.Keys
      ensures forall a, b {:trigger a in dominated[b]} :: a in t.succ && b in t.succ ==>
        (a in dominated[b] <==> Dominates(t, Roots(t, entry, blocks), a, b))
      ensures forall a, b {:trigger b in dominates[a]} :: a in t.succ && b in t.succ ==>
        (b in dominates[a] <==> Dominates(t, Roots(t, entry, blocks), a, b))
    {
      var order, inv, g, roots := Prepare(t, entry, blocks, Roots(t, entry, blocks));
      ghost var d;
      var idom;
      OneRootByIndex(t, Roots(t, entry, blocks), order, g);
      idom, d := Solve(order, inv, g, roots);
      ExactByIndex(t, Roots(t, entry, blocks), order, g, d, idom);
      var below, above := Tables(t, Roots(t, entry, blocks), order, d, idom, blocks);
      doms, postOrder, invPostOrder, idoms := idom, order, inv, d;
      dominated, dominates := below, above;
    }

    /** Check if a block dominates another block. */
    method BlockDominatesBlock(parent: Block, child: Block, ghost t: PredTable, ghost roots: seq<Block>)
        returns (r: bool)
      requires Valid(t, roots) && parent in t.succ && child in t.succ
      ensures r <==> Dominates(t, roots, parent, child)
    {
      ghost var y :| 0 <= y < |postOrder| && postOrder[y] == parent;
      ghost var x :| 0 <= x < |postOrder| && postOrder[x] == child;
      r := Climb(doms, parent, child, postOrder, idoms, y, x);
      ExactAt(t, roots, postOrder, idoms, doms, y, x);
    }
  }
}
