/** The dominator fixpoint of src/analysis/domtree.rs, on post-order indices.

    The iteration of Cooper, Harvey and Kennedy keeps one array `doms`: entry i
    is the index of the block that is currently believed to be the immediate
    dominator of the block with post-order index i.  Roots, the entry block and
    those without predecessors, are their own entries.  `preds[i]` holds the
    indices of the predecessors of block i. */
module DomTree {

  /** The marker for an entry that has not been computed yet. */
  const UNDEF := 0xFFFF_FFFF

  // ---------------------------------------------------------------- graph

  datatype Graph = Graph(preds: seq<set<nat>>, roots: set<nat>)

  /** Every block but the roots has a predecessor that comes later in post-order. */
  ghost predicate Flow(g: Graph)
  {
    && 0 < |g.preds| < UNDEF
    && (forall i, p :: 0 <= i < |g.preds| && p in g.preds[i] ==> p < |g.preds|)
    && (forall r :: r in g.roots ==> r < |g.preds|)
    && (forall i {:trigger HasLater(g, i)} :: 0 <= i < |g.preds| && i !in g.roots ==> HasLater(g, i))
  }

  ghost predicate HasLater(g: Graph, i: nat)
    requires i < |g.preds|
  {
    exists p :: p in g.preds[i] && i < p
  }

  /** A predecessor that comes later in post-order, e.g. the parent in the depth-first tree. */
  ghost function Parent(g: Graph, i: nat): (p: nat)
    requires Flow(g) && i < |g.preds| && i !in g.roots
    ensures p in g.preds[i] && i < p < |g.preds|
  {
    assert HasLater(g, i);
    var p :| p in g.preds[i] && i < p;
    p
  }

  /** A walk through the graph that starts in a root. */
  ghost predicate Walk(g: Graph, w: seq<nat>)
  {
    && 0 < |w|
    && w[0] in g.roots
    && (forall k :: 0 <= k < |w| ==> w[k] < |g.preds|)
    && forall j, k {:trigger w[j], w[k]} :: 0 <= j < k < |w| && k == j + 1 ==> w[j] in g.preds[w[k]]
  }

  /** Block y lies on every walk from a root to block x. */
  ghost predicate Dom(g: Graph, y: nat, x: nat)
  {
    forall w :: Walk(g, w) && w[|w| - 1] == x ==> y in w
  }

  /** Some root lies on every walk to block x. */
  ghost predicate Anchored(g: Graph, x: nat)
  {
    exists r :: r in g.roots && Dom(g, r, x)
  }

  /** Every block has such a root. */
  ghost predicate OneRoot(g: Graph)
  {
    forall x: nat {:trigger Anchored(g, x)} :: x < |g.preds| ==> Anchored(g, x)
  }

  /** A root that lies on every walk to block x. */
  ghost function Anchor(g: Graph, x: nat): (r: nat)
    requires OneRoot(g) && x < |g.preds|
    ensures r in g.roots && Dom(g, r, x)
  {
    assert Anchored(g, x);
    var r :| r in g.roots && Dom(g, r, x);
    r
  }

  lemma DomOfPred(g: Graph, y: nat, x: nat, p: nat)
    requires x < |g.preds| && p in g.preds[x] && y != x && Dom(g, y, x)
    ensures Dom(g, y, p)
  {
    forall w | Walk(g, w) && w[|w| - 1] == p
      ensures y in w
    {
      var w' := w + [x];
      assert Walk(g, w') && w'[|w'| - 1] == x;
      assert y in w';
    }
  }

  lemma DomOfRoot(g: Graph, y: nat, r: nat)
    requires r in g.roots && r < |g.preds| && Dom(g, y, r)
    ensures y == r
  {
    var w: seq<nat> := [r];
    assert Walk(g, w);
  }

  // ---------------------------------------------------------------- the tree

  /** The defined entries form trees that lead up to roots; they are defined from the top down. */
  ghost predicate Tree(d: seq<int>)
  {
    && 0 < |d| < UNDEF
    && forall x :: 0 <= x < |d| && d[x] != UNDEF && d[x] != x ==> x < d[x] < |d| && d[d[x]] != UNDEF
  }

  /** The roots are those of the graph. */
  ghost predicate RootsAre(d: seq<int>, roots: set<nat>) {
    forall x {:trigger d[x]} :: 0 <= x < |d| ==> (d[x] == x <==> x in roots)
  }

  /** Index y is x itself or one of the ancestors of x. */
  ghost predicate Above(d: seq<int>, y: int, x: int)
    requires Tree(d) && 0 <= x < |d| && d[x] != UNDEF
    decreases |d| - x
  {
    y == x || (d[x] != x && Above(d, y, d[x]))
  }

  lemma {:induction false} AboveBound(d: seq<int>, y: int, x: int)
    requires Tree(d) && 0 <= x < |d| && d[x] != UNDEF && Above(d, y, x)
    ensures x <= y < |d| && d[y] != UNDEF
    decreases |d| - x
  {
    if y != x {
      AboveBound(d, y, d[x]);
    }
  }

  lemma {:induction false} AboveTrans(d: seq<int>, z: int, y: int, x: int)
    requires Tree(d) && 0 <= x < |d| && d[x] != UNDEF && 0 <= y < |d| && d[y] != UNDEF
    requires Above(d, y, x) && Above(d, z, y)
    ensures Above(d, z, x)
    decreases |d| - x
  {
    if y != x {
      AboveTrans(d, z, y, d[x]);
    }
  }

  /** The ancestors of an index form a chain. */
  lemma {:induction false} AboveChain(d: seq<int>, y: int, z: int, x: int)
    requires Tree(d) && 0 <= x < |d| && d[x] != UNDEF
    requires Above(d, y, x) && Above(d, z, x) && y <= z
    ensures 0 <= y < |d| && d[y] != UNDEF && Above(d, z, y)
    decreases |d| - x
  {
    AboveBound(d, y, x);
    if y != x {
      AboveBound(d, y, d[x]);
      assert z != x;
      AboveChain(d, y, z, d[x]);
    }
  }

  /** The root above an index. */
  lemma {:induction false} TopAbove(d: seq<int>, x: int) returns (r: int)
    requires Tree(d) && 0 <= x < |d| && d[x] != UNDEF
    ensures x <= r < |d| && d[r] == r && Above(d, r, x)
    decreases |d| - x
  {
    r := x;
    if d[x] != x {
      r := TopAbove(d, d[x]);
    }
  }

  // ---------------------------------------------------------------- changing one entry

  /** The new value of entry b, which is no root: a defined index later than b. */
  ghost predicate Hooks(d: seq<int>, b: int, n: int)
  {
    Tree(d) && 0 <= b < n < |d| && d[b] != b && d[n] != UNDEF
  }

  lemma UpdateTree(d: seq<int>, b: int, n: int)
    requires Hooks(d, b, n)
    ensures Tree(d[b := n])
  {
  }

  /** Above an index later than b nothing changes. */
  lemma {:induction false} UpdateAboveLater(d: seq<int>, b: int, n: int, y: int, x: int)
    requires Hooks(d, b, n) && b < x < |d| && d[x] != UNDEF
    ensures Tree(d[b := n])
    ensures Above(d[b := n], y, x) <==> Above(d, y, x)
    decreases |d| - x
  {
    UpdateTree(d, b, n);
    if d[x] != x {
      UpdateAboveLater(d, b, n, y, d[x]);
    }
  }

  /** Above an index from which b cannot be reached nothing changes. */
  lemma {:induction false} UpdateAboveOther(d: seq<int>, b: int, n: int, y: int, x: int)
    requires Hooks(d, b, n) && 0 <= x < |d| && x != b && d[x] != UNDEF && !Above(d, b, x)
    ensures Tree(d[b := n])
    ensures Above(d[b := n], y, x) <==> Above(d, y, x)
    decreases |d| - x
  {
    UpdateTree(d, b, n);
    if d[x] != x {
      UpdateAboveOther(d, b, n, y, d[x]);
    }
  }

  /** Above an index from which b can be reached: everything up to b, then the ancestors of n. */
  lemma {:induction false} UpdateAboveUnder(d: seq<int>, b: int, n: int, y: int, x: int)
    requires Hooks(d, b, n) && 0 <= x < |d| && d[x] != UNDEF && Above(d, b, x)
    ensures Tree(d[b := n])
    ensures Above(d[b := n], y, x) <==> (y <= b && Above(d, y, x)) || Above(d, y, n)
    decreases |d| - x
  {
    UpdateTree(d, b, n);
    AboveBound(d, b, x);
    if Above(d, y, n) { AboveBound(d, y, n); }
    if x == b {
      UpdateAboveLater(d, b, n, y, n);
      if y <= b && Above(d, y, b) { AboveBound(d, y, b); }
    } else {
      UpdateAboveUnder(d, b, n, y, d[x]);
    }
  }

  // ---------------------------------------------------------------- invariant

  /** Exactly the roots and the indices from m on are defined. */
  ghost predicate DefinedFrom(d: seq<int>, m: int)
  {
    0 <= m <= |d| && forall x :: 0 <= x < |d| ==> (d[x] != UNDEF <==> m <= x || d[x] == x)
  }

  /** Index y lies above every defined predecessor of x. */
  ghost predicate Common(g: Graph, d: seq<int>, y: int, x: int)
    requires Tree(d) && |g.preds| == |d| && 0 <= x < |d|
  {
    forall p :: p in g.preds[x] && p < |d| && d[p] != UNDEF ==> Above(d, y, p)
  }

  /** What the predecessors of x agree on already lies above x. */
  ghost predicate PostFix(g: Graph, d: seq<int>)
    requires Tree(d) && |g.preds| == |d|
  {
    forall x, y :: 0 <= x < |d| && d[x] != UNDEF && d[x] != x && Common(g, d, y, x) ==> Above(d, y, d[x])
  }

  /** Every entry lies above the depth-first parent, unless the sweep, which has
      reached index i, still has to correct it. */
  ghost predicate ParentAgrees(g: Graph, d: seq<int>, i: int)
    requires Flow(g) && Tree(d) && |g.preds| == |d| && RootsAre(d, g.roots)
  {
    forall x :: 0 <= x < |d| && d[x] != UNDEF && d[x] != x ==>
      var p := Parent(g, x);
      d[p] != UNDEF && (Above(d, d[x], p) || x <= i < d[x])
  }

  /** No true dominator is ever lost. */
  ghost predicate Sound(g: Graph, d: seq<int>)
    requires Tree(d)
  {
    forall x: nat, y: nat :: x < |d| && d[x] != UNDEF && Dom(g, y, x) ==> Above(d, y, x)
  }

  /** A true dominator from further up is a true dominator of the tree parent as well. */
  ghost predicate Passes(g: Graph, d: seq<int>)
    requires Tree(d)
  {
    forall x: nat, y: nat :: x < |d| && d[x] != UNDEF && d[x] != x && y != d[x] && Above(d, y, d[x]) && Dom(g, y, x)
      ==> Dom(g, y, d[x])
  }

  /** What holds while a sweep is about to visit index i. */
  ghost predicate Inv(g: Graph, d: seq<int>, i: int, m: int)
  {
    && Flow(g) && OneRoot(g) && Tree(d) && |g.preds| == |d| && RootsAre(d, g.roots)
    && DefinedFrom(d, m)
    && PostFix(g, d) && ParentAgrees(g, d, i) && Sound(g, d) && Passes(g, d)
  }

  lemma {:induction false} PassesUp(g: Graph, d: seq<int>, y: nat, n: int, x: nat)
    requires Tree(d) && |g.preds| == |d| && Passes(g, d)
    requires x < |d| && d[x] != UNDEF && Above(d, n, x) && 0 <= n < |d| && d[n] != UNDEF
    requires y != n && Above(d, y, n) && Dom(g, y, x)
    ensures Dom(g, y, n)
    decreases |d| - x
  {
    AboveBound(d, y, n);
    if n != x {
      AboveTrans(d, y, n, d[x]);
      AboveBound(d, n, d[x]);
      PassesUp(g, d, y, n, d[x]);
    }
  }

  /** The meet of the predecessors of b: what lies above n is what all of them agree on. */
  ghost predicate IsMeet(g: Graph, d: seq<int>, b: int, n: int)
    requires Tree(d) && |g.preds| == |d| && 0 <= b < |d|
  {
    0 <= n < |d| && d[n] != UNDEF && forall y :: Above(d, y, n) <==> Common(g, d, y, b)
  }

  /** The step of a sweep at index b. */
  ghost predicate Visit(g: Graph, d: seq<int>, b: int, m: int, n: int)
  {
    && 0 <= b < |d| && d[b] != b && (m == 0 || m == b + 1) && Inv(g, d, b, m) && IsMeet(g, d, b, n)
  }

  lemma VisitHooks(g: Graph, d: seq<int>, b: int, m: int, n: int)
    requires Visit(g, d, b, m, n)
    ensures Hooks(d, b, n)
    ensures d[b] != UNDEF ==> Above(d, n, d[b]) && d[b] <= n
    ensures forall p :: p in g.preds[b] && d[p] != UNDEF ==> Above(d, n, p)
    ensures d[Parent(g, b)] != UNDEF && Above(d, n, Parent(g, b))
  {
    var p := Parent(g, b);
    assert d[p] != UNDEF;
    assert Above(d, n, n);
    assert Common(g, d, n, b);
    AboveBound(d, n, p);
    if d[b] != UNDEF {
      AboveBound(d, n, d[b]);
    }
  }

  /** Nothing gains an ancestor, except b itself when it was undefined. */
  lemma VisitShrinks(g: Graph, d: seq<int>, b: int, m: int, n: int, y: int, x: int)
    requires Visit(g, d, b, m, n) && 0 <= x < |d| && d[x] != UNDEF
    ensures Tree(d[b := n])
    ensures Above(d[b := n], y, x) ==> Above(d, y, x)
    ensures Above(d, y, x) && !Above(d[b := n], y, x) ==> Above(d, b, x) && x <= b < y && !Above(d, y, n)
  {
    VisitHooks(g, d, b, m, n);
    if Above(d, b, x) {
      AboveBound(d, b, x);
      UpdateAboveUnder(d, b, n, y, x);
      if Above(d, y, n) {
        AboveTrans(d, y, n, d[b]);
        AboveBound(d, n, d[b]);
        AboveTrans(d, y, b, x);
      }
    } else {
      UpdateAboveOther(d, b, n, y, x);
    }
  }

  lemma VisitPostFix(g: Graph, d: seq<int>, b: int, m: int, n: int)
    requires Visit(g, d, b, m, n)
    ensures Tree(d[b := n]) && PostFix(g, d[b := n])
  {
    VisitHooks(g, d, b, m, n);
    UpdateTree(d, b, n);
    var d' := d[b := n];
    forall x, y | 0 <= x < |d| && d'[x] != UNDEF && d'[x] != x && Common(g, d', y, x)
      ensures Above(d', y, d'[x])
    {
      CommonShrinks(g, d, b, m, n, y, x);
      if x == b {
        UpdateAboveLater(d, b, n, y, n);
      } else {
        assert Above(d, y, d[x]);
        if !Above(d', y, d[x]) {
          VisitShrinks(g, d, b, m, n, y, d[x]);
          var p := Parent(g, x);
          assert Above(d, d[x], p);
          AboveTrans(d, b, d[x], p);
          UpdateAboveUnder(d, b, n, y, p);
        }
      }
    }
  }

  lemma CommonShrinks(g: Graph, d: seq<int>, b: int, m: int, n: int, y: int, x: int)
    requires Visit(g, d, b, m, n) && 0 <= x < |d|
    requires Tree(d[b := n]) && Common(g, d[b := n], y, x)
    ensures Common(g, d, y, x)
  {
    forall p | p in g.preds[x] && p < |d| && d[p] != UNDEF
      ensures Above(d, y, p)
    {
      VisitShrinks(g, d, b, m, n, y, p);
      assert d[b := n][p] != UNDEF by { VisitHooks(g, d, b, m, n); }
    }
  }

  lemma VisitParentAgrees(g: Graph, d: seq<int>, b: int, m: int, n: int)
    requires Visit(g, d, b, m, n)
    ensures Tree(d[b := n]) && RootsAre(d[b := n], g.roots) && ParentAgrees(g, d[b := n], b - 1)
  {
    VisitHooks(g, d, b, m, n);
    UpdateTree(d, b, n);
    var d' := d[b := n];
    forall x | 0 <= x < |d| && d'[x] != UNDEF && d'[x] != x
      ensures
        var p := Parent(g, x);
        d'[p] != UNDEF && (Above(d', d'[x], p) || x <= b - 1 < d'[x])
    {
      var p := Parent(g, x);
      if x == b {
        UpdateAboveLater(d, b, n, n, p);
      } else if Above(d, d[x], p) && !Above(d', d[x], p) {
        VisitShrinks(g, d, b, m, n, d[x], p);
      }
    }
  }

  lemma VisitSound(g: Graph, d: seq<int>, b: int, m: int, n: int)
    requires Visit(g, d, b, m, n)
    ensures Tree(d[b := n]) && Sound(g, d[b := n])
  {
    VisitHooks(g, d, b, m, n);
    UpdateTree(d, b, n);
    var d' := d[b := n];
    forall x: nat, y: nat | x < |d| && d'[x] != UNDEF && Dom(g, y, x)
      ensures Above(d', y, x)
    {
      if x == b {
        DomAboveMeet(g, d, b, m, n, y);
        UpdateAboveLater(d, b, n, y, n);
      } else if !Above(d', y, x) {
        VisitShrinks(g, d, b, m, n, y, x);
        AboveChain(d, b, y, x);
        PassesUp(g, d, y, b, x);
        DomAboveMeet(g, d, b, m, n, y);
        assert false;
      }
    }
  }

  /** A true dominator of b lies above the meet of its predecessors. */
  lemma DomAboveMeet(g: Graph, d: seq<int>, b: int, m: int, n: int, y: nat)
    requires Visit(g, d, b, m, n) && Dom(g, y, b)
    ensures y == b || Above(d, y, n)
  {
    if y != b {
      forall p | p in g.preds[b] && p < |d| && d[p] != UNDEF
        ensures Above(d, y, p)
      {
        DomOfPred(g, y, b, p);
      }
      assert Common(g, d, y, b);
    }
  }

  lemma VisitPasses(g: Graph, d: seq<int>, b: int, m: int, n: int)
    requires Visit(g, d, b, m, n)
    ensures Tree(d[b := n]) && Passes(g, d[b := n])
  {
    VisitHooks(g, d, b, m, n);
    UpdateTree(d, b, n);
    var d' := d[b := n];
    forall x: nat, y: nat |
      x < |d| && d'[x] != UNDEF && d'[x] != x && y != d'[x] && Above(d', y, d'[x]) && Dom(g, y, x)
      ensures Dom(g, y, d'[x])
    {
      if x == b {
        UpdateAboveLater(d, b, n, y, n);
        AboveBound(d, y, n);
        var p := Parent(g, b);
        DomOfPred(g, y, b, p);
        PassesUp(g, d, y, n, p);
      } else {
        VisitShrinks(g, d, b, m, n, y, d[x]);
      }
    }
  }

  /** One visit keeps the invariant and only moves the entry towards the root. */
  lemma VisitKeepsInv(g: Graph, d: seq<int>, b: int, m: int, n: int)
    requires Visit(g, d, b, m, n)
    ensures Inv(g, d[b := n], b - 1, if m == 0 then 0 else b)
    ensures d[b] != UNDEF ==> d[b] <= n
    ensures b < n < |d|
  {
    VisitHooks(g, d, b, m, n);
    UpdateTree(d, b, n);
    VisitPostFix(g, d, b, m, n);
    VisitParentAgrees(g, d, b, m, n);
    VisitSound(g, d, b, m, n);
    VisitPasses(g, d, b, m, n);
  }

  // ---------------------------------------------------------------- initial and final state

  lemma InitialInv(g: Graph, d: seq<int>)
    requires Flow(g) && OneRoot(g) && |d| == |g.preds|
    requires forall x :: 0 <= x < |d| ==> d[x] == if x in g.roots then x else UNDEF
    ensures Inv(g, d, |d| - 1, |d|)
  {
    forall x: nat, y: nat | x < |d| && d[x] != UNDEF && Dom(g, y, x)
      ensures Above(d, y, x)
    {
      DomOfRoot(g, y, x);
    }
  }

  /** Every entry lies above all predecessors: nothing left to change. */
  ghost predicate Settled(g: Graph, d: seq<int>)
    requires Tree(d) && |g.preds| == |d|
  {
    && DefinedFrom(d, 0)
    && forall x, p :: 0 <= x < |d| && d[x] != x && p in g.preds[x] && p < |d| ==> Above(d, d[x], p)
  }

  lemma {:induction false} AncestorOnWalk(g: Graph, d: seq<int>, y: nat, w: seq<nat>)
    requires Flow(g) && Tree(d) && |g.preds| == |d| && RootsAre(d, g.roots) && Settled(g, d)
    requires Walk(g, w) && w[|w| - 1] < |d| && Above(d, y, w[|w| - 1])
    ensures y in w
    decreases |w|
  {
    var x := w[|w| - 1];
    if y != x {
      var w' := w[..|w| - 1];
      var p := w'[|w'| - 1];
      assert p in g.preds[x];
      AboveTrans(d, y, d[x], p);
      AncestorOnWalk(g, d, y, w');
    }
  }

  /** In a settled array the ancestors of a block are exactly its dominators. */
  lemma SettledIsExact(g: Graph, d: seq<int>, y: nat, x: nat)
    requires Flow(g) && Tree(d) && |g.preds| == |d| && RootsAre(d, g.roots) && Settled(g, d) && Sound(g, d)
    requires x < |d|
    ensures Above(d, y, x) <==> Dom(g, y, x)
  {
    if Above(d, y, x) {
      forall w | Walk(g, w) && w[|w| - 1] == x
        ensures y in w
      {
        AncestorOnWalk(g, d, y, w);
      }
    }
  }

  // ---------------------------------------------------------------- termination

  /** How far one entry still is from the top. */
  function Gap(e: int): int {
    if e == UNDEF then UNDEF + 1 else UNDEF - e
  }

  ghost predicate Bounded(d: seq<int>) {
    forall x :: 0 <= x < |d| ==> 0 <= d[x] <= UNDEF
  }

  /** The distance of the array from the top, which every change lowers. */
  ghost function Slack(d: seq<int>): (s: nat)
    requires Bounded(d)
  {
    if d == [] then 0 else Slack(d[..|d| - 1]) + Gap(d[|d| - 1])
  }

  lemma {:induction false} SlackDrops(d: seq<int>, b: nat, n: nat)
    requires b < |d| && Bounded(d) && n < UNDEF && (d[b] == UNDEF || d[b] < n)
    ensures Bounded(d[b := n]) && Slack(d[b := n]) < Slack(d)
  {
    var last := |d| - 1;
    if b < last {
      assert d[b := n][..last] == d[..last][b := n];
      SlackDrops(d[..last], b, n);
    } else {
      assert d[b := n][..last] == d[..last];
    }
  }

  // ---------------------------------------------------------------- the algorithm

  /** Index y lies above every index in s. */
  ghost predicate AboveAll(d: seq<int>, y: int, s: set<nat>)
    requires Tree(d)
  {
    forall p :: p in s && p < |d| && d[p] != UNDEF ==> Above(d, y, p)
  }

  /** What lies above r is what lies above both j1 and j2. */
  ghost predicate Meets(d: seq<int>, r: int, j1: int, j2: int)
    requires Tree(d) && 0 <= j1 < |d| && 0 <= j2 < |d| && d[j1] != UNDEF && d[j2] != UNDEF
  {
    0 <= r < |d| && d[r] != UNDEF && forall y :: Above(d, y, r) <==> Above(d, y, j1) && Above(d, y, j2)
  }

  /** The two-finger walk that intersects two chains of ancestors. */
  method Intersect(doms: array<int>, j1: nat, j2: nat, ghost top: int) returns (r: nat)
    requires Tree(doms[..]) && j1 < doms.Length && j2 < doms.Length
    requires doms[j1] != UNDEF && doms[j2] != UNDEF && Above(doms[..], top, j1) && Above(doms[..], top, j2)
    ensures Meets(doms[..], r, j1, j2)
  {
    ghost var d := doms[..];
    var i1: nat, i2: nat := j1, j2;
    var i1Init := i1;
    while i1 != i2
      invariant i1 < doms.Length && i2 < doms.Length && d[i1] != UNDEF && d[i2] != UNDEF
      invariant forall y :: Above(d, y, j1) && Above(d, y, j2) <==> Above(d, y, i1) && Above(d, y, i2)
      invariant Above(d, top, i1) && Above(d, top, i2)
      decreases doms.Length - i1 + doms.Length - i2
    {
      AboveBound(d, top, i1);
      AboveBound(d, top, i2);
      if i1 < i2 {
        if i1 == doms[i1] {
          return i1;
        }
        forall y | Above(d, y, i1) && Above(d, y, i2)
          ensures Above(d, y, d[i1])
        {
          AboveBound(d, y, i2);
        }
        i1 := doms[i1];
      } else if i2 < i1 {
        if i2 == doms[i2] {
          return i1Init;
        }
        forall y | Above(d, y, i1) && Above(d, y, i2)
          ensures Above(d, y, d[i2])
        {
          AboveBound(d, y, i1);
        }
        i2 := doms[i2];
      }
    }
    r := i1;
  }

  /** What lies above n is what lies above all of s. */
  ghost predicate MeetOf(d: seq<int>, n: int, s: set<nat>)
    requires Tree(d)
  {
    0 <= n < |d| && d[n] != UNDEF && forall y :: Above(d, y, n) <==> AboveAll(d, y, s)
  }

  lemma MeetOne(d: seq<int>, n: nat)
    requires Tree(d) && n < |d| && d[n] != UNDEF
    ensures MeetOf(d, n, {n})
  {
  }

  lemma MeetStep(d: seq<int>, n: nat, p: nat, r: nat, done: set<nat>)
    requires Tree(d) && MeetOf(d, n, done) && p < |d| && d[p] != UNDEF && Meets(d, r, n, p)
    ensures MeetOf(d, r, done + {p})
  {
    forall y
      ensures Above(d, y, r) <==> AboveAll(d, y, done + {p})
    {
      assert AboveAll(d, y, done + {p}) <==> AboveAll(d, y, done) && Above(d, y, p);
    }
  }

  /** One step of the fold. */
  method IntersectNext(doms: array<int>, n: nat, p: nat, ghost done: set<nat>, ghost top: int) returns (r: nat)
    requires Tree(doms[..]) && MeetOf(doms[..], n, done) && p < doms.Length && doms[p] != UNDEF
    requires Above(doms[..], top, n) && Above(doms[..], top, p)
    ensures MeetOf(doms[..], r, done + {p}) && Above(doms[..], top, r)
  {
    r := Intersect(doms, n, p, top);
    MeetStep(doms[..], n, p, r, done);
  }

  /** Fold the intersection over a set of defined indices. */
  method FoldIntersect(doms: array<int>, all: set<nat>, ghost top: int) returns (n: nat)
    requires Tree(doms[..]) && all != {} && forall p :: p in all ==> p < doms.Length && doms[p] != UNDEF
    requires AboveAll(doms[..], top, all)
    ensures MeetOf(doms[..], n, all)
  {
    ghost var d := doms[..];
    n :| n in all;
    var todo := all - {n};
    MeetOne(d, n);
    assert all - todo == {n};
    while todo != {}
      invariant todo <= all && MeetOf(d, n, all - todo) && Above(d, top, n)
      decreases |todo|
    {
      var p :| p in todo;
      n := IntersectNext(doms, n, p, all - todo, top);
      assert all - (todo - {p}) == all - todo + {p};
      todo := todo - {p};
    }
    assert all - todo == all;
  }

  /** The predecessors of a block have an ancestor in common: the root that lies on every walk to the block. */
  lemma AnchorAbove(g: Graph, d: seq<int>, b: nat)
    requires Flow(g) && OneRoot(g) && Tree(d) && |g.preds| == |d| && Sound(g, d) && b < |d| && b !in g.roots
    ensures Common(g, d, Anchor(g, b), b)
  {
    forall p | p in g.preds[b] && p < |d| && d[p] != UNDEF
      ensures Above(d, Anchor(g, b), p)
    {
      DomOfPred(g, Anchor(g, b), b, p);
    }
  }

  /** The new value of an entry: the meet of the predecessors that are already defined. */
  method NewIdom(g: Graph, doms: array<int>, b: nat) returns (n: nat)
    requires Flow(g) && OneRoot(g) && Tree(doms[..]) && |g.preds| == doms.Length && Sound(g, doms[..])
    requires b < doms.Length && b !in g.roots && doms[Parent(g, b)] != UNDEF
    ensures IsMeet(g, doms[..], b, n)
  {
    AnchorAbove(g, doms[..], b);
    var all := set p | p in g.preds[b] && doms[p] != UNDEF;
    assert Parent(g, b) in all;
    n := FoldIntersect(doms, all, Anchor(g, b));
    MeetIsCommon(g, doms[..], b, n, all);
  }

  lemma MeetIsCommon(g: Graph, d: seq<int>, b: nat, n: nat, all: set<nat>)
    requires Flow(g) && Tree(d) && |g.preds| == |d| && b < |d|
    requires all == set p | p in g.preds[b] && d[p] != UNDEF
    requires MeetOf(d, n, all)
    ensures IsMeet(g, d, b, n)
  {
    forall y
      ensures Above(d, y, n) <==> Common(g, d, y, b)
    {
      assert AboveAll(d, y, all) <==> Common(g, d, y, b);
    }
  }

  /** All entries from idx on lie above their predecessors. */
  ghost predicate SettledFrom(g: Graph, d: seq<int>, idx: int)
    requires Tree(d) && |g.preds| == |d|
  {
    && (forall x :: 0 <= x < |d| && idx <= x ==> d[x] != UNDEF)
    && forall x, p :: idx <= x < |d| && 0 <= x && d[x] != x && p in g.preds[x] && p < |d| && d[p] != UNDEF ==>
      Above(d, d[x], p)
  }

  /** One visit of the sweep. */
  method VisitBlock(g: Graph, doms: array<int>, idx: nat, ghost m: int) returns (changed: bool)
    requires idx < doms.Length && doms[idx] != idx && (m == 0 || m == idx + 1) && Inv(g, doms[..], idx, m)
    modifies doms
    ensures Inv(g, doms[..], idx - 1, if m == 0 then 0 else idx)
    ensures Bounded(old(doms[..])) && Bounded(doms[..])
    ensures if changed then Slack(doms[..]) < Slack(old(doms[..])) else doms[..] == old(doms[..])
    ensures !changed ==> forall p :: p in g.preds[idx] && p < doms.Length && doms[p] != UNDEF ==>
      Above(doms[..], doms[idx], p)
  {
    assert doms[Parent(g, idx)] != UNDEF;
    var n := NewIdom(g, doms, idx);
    ghost var d := doms[..];
    VisitHooks(g, d, idx, m, n);
    VisitKeepsInv(g, d, idx, m, n);
    changed := doms[idx] != n;
    if changed {
      SlackDrops(d, idx, n);
      doms[idx] := n;
      assert doms[..] == d[idx := n];
    } else {
      assert d[idx := n] == d;
    }
  }

  /** What a sweep that has visited the indices from idx on has achieved. */
  ghost predicate Swept(g: Graph, before: seq<int>, d: seq<int>, idx: int, m: int, changed: bool)
  {
    && Inv(g, d, idx - 1, m) && (m == 0 || m == idx)
    && Bounded(d) && Bounded(before)
    && if changed then Slack(d) < Slack(before) else d == before && SettledFrom(g, d, idx)
  }

  /** A root needs no visit. */
  lemma SweptRoot(g: Graph, before: seq<int>, d: seq<int>, idx: nat, m: int, changed: bool)
    requires idx < |d| && Swept(g, before, d, idx + 1, m, changed) && d[idx] == idx
    ensures Swept(g, before, d, idx, if m == 0 then 0 else idx, changed)
  {
  }

  lemma SweptStep(g: Graph, before: seq<int>, d: seq<int>, d': seq<int>, idx: nat, m: int, changed: bool,
      c: bool)
    requires idx < |d| && d[idx] != idx && |d'| == |d| && Swept(g, before, d, idx + 1, m, changed)
    requires Inv(g, d', idx - 1, if m == 0 then 0 else idx) && Bounded(d')
    requires if c then Slack(d') < Slack(d) else d' == d
    requires !c ==> forall p :: p in g.preds[idx] && p < |d| && d'[p] != UNDEF ==> Above(d', d'[idx], p)
    ensures Swept(g, before, d', idx, if m == 0 then 0 else idx, changed || c)
  {
    if !changed && !c {
      assert SettledFrom(g, d, idx + 1);
      assert d'[idx] != UNDEF;
    }
  }

  /** One visit, as seen by the sweep. */
  method SweepVisit(g: Graph, doms: array<int>, idx: nat, ghost before: seq<int>, ghost m: int,
      ghost changed: bool)
    returns (c: bool)
    requires idx < doms.Length && doms[idx] != idx && Swept(g, before, doms[..], idx + 1, m, changed)
    modifies doms
    ensures Swept(g, before, doms[..], idx, if m == 0 then 0 else idx, changed || c)
  {
    ghost var d := doms[..];
    c := VisitBlock(g, doms, idx, m);
    SweptStep(g, before, d, doms[..], idx, m, changed, c);
  }

  /** One sweep over all blocks in reverse post-order. */
  method Sweep(g: Graph, doms: array<int>, ghost m0: int) returns (changed: bool)
    requires Inv(g, doms[..], doms.Length - 1, m0) && (m0 == 0 || m0 == doms.Length)
    modifies doms
    ensures Inv(g, doms[..], -1, 0)
    ensures Bounded(old(doms[..])) && Bounded(doms[..])
    ensures if changed then Slack(doms[..]) < Slack(old(doms[..]))
            else doms[..] == old(doms[..]) && Settled(g, doms[..])
  {
    changed := false;
    ghost var before, m := doms[..], m0;
    for idx := doms.Length downto 0
      invariant Swept(g, before, doms[..], idx, m, changed)
    {
      if doms[idx] == idx {
        SweptRoot(g, before, doms[..], idx, m, changed);
        m := if m == 0 then 0 else idx;
        continue;
      }
      var c := SweepVisit(g, doms, idx, before, m, changed);
      m := if m == 0 then 0 else idx;
      if c {
        changed := true;
      }
    }
  }

  /** The whole iteration; it terminates, and what it returns is the dominator tree. */
  method Iterate(g: Graph, roots: seq<nat>) returns (doms: array<int>)
    requires Flow(g) && OneRoot(g) && forall r :: r in roots <==> r in g.roots
    ensures fresh(doms) && doms.Length == |g.preds| && Tree(doms[..]) && DefinedFrom(doms[..], 0)
    ensures RootsAre(doms[..], g.roots)
    ensures forall y: nat, x: nat {:trigger Dom(g, y, x)} :: x < |g.preds| ==>
      (Above(doms[..], y, x) <==> Dom(g, y, x))
  {
    var length := |g.preds|;
    doms := new int[length](_ => UNDEF);
    for k := 0 to |roots|
      invariant forall x :: 0 <= x < length ==> doms[x] == if x in roots[..k] then x else UNDEF
    {
      assert roots[k] in roots;
      assert roots[..k + 1] == roots[..k] + [roots[k]];
      doms[roots[k]] := roots[k];
    }
    assert roots[..|roots|] == roots;
    InitialInv(g, doms[..]);
    var changed := true;
    ghost var m := length;
    while changed
      invariant Inv(g, doms[..], length - 1, m) && (m == 0 || m == length)
      invariant Bounded(doms[..])
      invariant !changed ==> Settled(g, doms[..])
      decreases Slack(doms[..]), changed
    {
      changed := Sweep(g, doms, m);
      m := 0;
      ReopenSweep(g, doms[..]);
    }
    forall y: nat, x: nat | x < |g.preds|
      ensures Above(doms[..], y, x) <==> Dom(g, y, x)
    {
      SettledIsExact(g, doms[..], y, x);
    }
  }

  /** A finished sweep leaves no broken entry behind, so the next one can start at the top. */
  lemma ReopenSweep(g: Graph, d: seq<int>)
    requires Inv(g, d, -1, 0)
    ensures Inv(g, d, |d| - 1, 0)
  {
  }
}
