/** Control-flow graphs and the depth-first post-order of src/analysis/domtree.rs. */
module PostOrder {
  import opened Sets

  type Block = nat

  /** The predecessor and successor sets of the blocks of a unit. */
  datatype PredTable = PredTable(pred: map<Block, set<Block>>, succ: map<Block, set<Block>>) {

    /** Both directions describe the same edges, all of them between known blocks. */
    ghost predicate Valid() {
      && pred.Keys == succ.Keys
      && (forall b, c :: b in succ && c in succ[b] ==> c in pred && b in pred[c])
      && (forall b, c :: b in pred && c in pred[b] ==> c in succ && b in succ[c])
    }
  }

  /** A path through the control-flow graph. */
  ghost predicate Path(t: PredTable, p: seq<Block>) {
    && 0 < |p|
    && (forall k :: 0 <= k < |p| ==> p[k] in t.succ)
    && forall j, k {:trigger p[j], p[k]} :: 0 <= j < k < |p| && k == j + 1 ==> p[k] in t.succ[p[j]]
  }

  /** A path leads from a to b. */
  ghost predicate Leads(t: PredTable, p: seq<Block>, a: Block, b: Block) {
    Path(t, p) && p[0] == a && p[|p| - 1] == b
  }

  ghost predicate Reaches(t: PredTable, a: Block, b: Block) {
    exists p :: Leads(t, p, a, b)
  }

  ghost predicate FromRoots(t: PredTable, roots: seq<Block>, b: Block) {
    exists r :: r in roots && Reaches(t, r, b)
  }

  lemma ReachesSelf(t: PredTable, a: Block)
    requires a in t.succ
    ensures Reaches(t, a, a)
  {
    assert Leads(t, [a], a, a);
  }

  lemma ReachesStep(t: PredTable, a: Block, b: Block, c: Block)
    requires Reaches(t, a, b) && b in t.succ && c in t.succ[b] && c in t.succ
    ensures Reaches(t, a, c)
  {
    var p :| Leads(t, p, a, b);
    assert Leads(t, p + [c], a, c);
  }

  // ---------------------------------------------------------------- search state

  /** The state of the search.  `marks[k]` tells whether the block at stack
      position k was discovered at that position, `base` how many of the
      roots are still on the stack, and `open[b]` which blocks, b included, were
      discovered but not finished when b was discovered; these are only there
      for the proof. */
  datatype Search = Search(stack: seq<Block>, marks: seq<bool>, base: nat, discovered: set<Block>,
                           finished: set<Block>, order: seq<Block>, open: map<Block, set<Block>>)
  {
    ghost predicate Shape() {
      |marks| == |stack| && base <= |stack|
    }

    /** Stack position k is where block b, still open, was discovered. */
    ghost predicate OpenAt(k: int, b: Block)
      requires Shape()
    {
      0 <= k < |stack| && marks[k] && stack[k] == b
    }
  }

  /** The stack starts with the roots; the roots that are gone have been discovered. */
  ghost predicate RootsBelow(roots: seq<Block>, s: Search) {
    && s.base <= |roots| && s.base <= |s.stack|
    && (forall k :: 0 <= k < s.base ==> s.stack[k] == roots[k])
    && (forall k :: s.base <= k < |roots| ==> roots[k] in s.discovered)
  }

  ghost predicate MarksOk(t: PredTable, s: Search) {
    && (forall b :: b in s.stack ==> b in t.succ)
    && s.finished <= s.discovered <= t.succ.Keys
    && Distinct(s.order)
    && (forall b :: b in s.order <==> b in s.finished)
  }

  /** Only blocks that are reachable from the roots are ever touched. */
  ghost predicate Rooted(t: PredTable, roots: seq<Block>, s: Search) {
    && (forall b :: b in s.stack ==> FromRoots(t, roots, b))
    && (forall b :: b in s.order ==> FromRoots(t, roots, b))
  }

  /** The open blocks, those discovered but not finished, are the marked ones. */
  ghost predicate Open(s: Search)
    requires s.Shape()
  {
    && (forall k :: 0 <= k < |s.stack| && s.marks[k] ==> s.stack[k] in s.discovered && s.stack[k] !in s.finished)
    && (forall k, j :: 0 <= k < j < |s.stack| && s.marks[k] ==> s.stack[j] != s.stack[k])
    && (forall b :: b in s.discovered && b !in s.finished ==> exists k :: s.OpenAt(k, b))
  }

  /** Everything above an open block is reachable from it. */
  ghost predicate Nested(t: PredTable, s: Search)
    requires s.Shape()
  {
    forall k, j :: 0 <= k <= j < |s.stack| && s.marks[k] ==> Reaches(t, s.stack[k], s.stack[j])
  }

  /** Every block above the roots was pushed by an open block below it. */
  ghost predicate AllPushed(t: PredTable, s: Search)
    requires s.Shape()
  {
    forall k :: s.base <= k < |s.stack| ==> Pushed(t, s, k)
  }

  ghost predicate Pushed(t: PredTable, s: Search, k: int)
    requires s.Shape() && k < |s.stack|
  {
    exists j :: PushedBy(t, s, j, k)
  }

  ghost predicate PushedBy(t: PredTable, s: Search, j: int, k: int)
    requires s.Shape() && k < |s.stack|
  {
    0 <= j < k && s.marks[j] && s.stack[j] in t.succ && s.stack[k] in t.succ[s.stack[j]]
  }

  /** The successors of an open block are discovered or wait above it. */
  ghost predicate Covered(t: PredTable, s: Search)
    requires s.Shape()
  {
    forall k, v :: 0 <= k < |s.stack| && s.marks[k] && s.stack[k] in t.succ && v in t.succ[s.stack[k]]
      ==> v in s.discovered || v in s.stack[k + 1..]
  }

  /** Block p has an edge to b and is not among the first ones of the order. */
  ghost predicate LaterPred(t: PredTable, s: Search, i: int, p: Block)
    requires 0 <= i < |s.order|
  {
    p in s.discovered && p in t.succ && s.order[i] in t.succ[p] && p !in s.order[..i + 1]
  }

  /** An edge leads to a block that is listed earlier, or to one that was open when its origin was discovered. */
  ghost predicate AfterSuccs(t: PredTable, order: seq<Block>, open: map<Block, set<Block>>, i: nat)
    requires i < |order|
  {
    order[i] in t.succ && order[i] in open
    && forall v :: v in t.succ[order[i]] ==> v in order[..i] || v in open[order[i]]
  }

  /** Whatever was open when a block was discovered is listed no earlier, and the block is reachable from it. */
  ghost predicate BelowOpen(t: PredTable, order: seq<Block>, open: map<Block, set<Block>>, i: nat)
    requires i < |order|
  {
    order[i] in open && forall x :: x in open[order[i]] ==> x !in order[..i] && Reaches(t, x, order[i])
  }

  ghost predicate OpenUpTo(s: Search, j: int, x: Block)
    requires s.Shape()
  {
    exists k :: k <= j && s.OpenAt(k, x)
  }

  /** What was open when an open block was discovered are the open blocks below it. */
  ghost predicate OpenBelow(s: Search)
    requires s.Shape()
  {
    forall j {:trigger OpenedAbove(s, j)} :: 0 <= j < |s.stack| && s.marks[j] ==> OpenedAbove(s, j)
  }

  ghost predicate OpenedAbove(s: Search, j: nat)
    requires s.Shape() && j < |s.stack|
  {
    s.stack[j] in s.open
    && forall x {:trigger OpenUpTo(s, j, x)} :: x in s.open[s.stack[j]] <==> OpenUpTo(s, j, x)
  }

  /** A block is listed before one of its predecessors, unless it is a root. */
  ghost predicate ParentsLater(t: PredTable, roots: seq<Block>, s: Search) {
    forall i :: 0 <= i < |s.order| ==> s.order[i] in roots || exists p :: LaterPred(t, s, i, p)
  }

  ghost predicate SuccsEarlier(t: PredTable, s: Search) {
    forall i :: 0 <= i < |s.order| ==>
      AfterSuccs(t, s.order, s.open, i) && BelowOpen(t, s.order, s.open, i) && t.succ[s.order[i]] <= s.discovered
  }

  ghost predicate Inv(t: PredTable, roots: seq<Block>, s: Search) {
    && t.Valid() && s.Shape()
    && MarksOk(t, s) && Rooted(t, roots, s) && RootsBelow(roots, s)
    && Open(s) && Nested(t, s) && AllPushed(t, s) && Covered(t, s)
    && ParentsLater(t, roots, s) && SuccsEarlier(t, s) && OpenBelow(s)
  }

  // ---------------------------------------------------------------- discovering a block

  /** Discovering the top of the stack. */
  function Discover(s: Search, pushed: seq<Block>): Search
    requires 0 < |s.stack| == |s.marks|
  {
    var top := |s.stack| - 1;
    s.(stack := s.stack + pushed,
       marks := s.marks[top := true] + seq(|pushed|, _ => false),
       discovered := s.discovered + {s.stack[top]},
       open := s.open[s.stack[top] := s.discovered - s.finished + {s.stack[top]}])
  }

  /** The blocks of s that are not in done, in some order. */
  ghost predicate FreshSuccs(succs: set<Block>, done: set<Block>, s: seq<Block>) {
    forall v :: v in s <==> v in succs && v !in done
  }

  ghost predicate Discovers(t: PredTable, s: Search, pushed: seq<Block>) {
    && s.Shape() && 0 < |s.stack| && t.Valid() && MarksOk(t, s)
    && var next := s.stack[|s.stack| - 1];
    && next !in s.discovered
    && FreshSuccs(t.succ[next], s.discovered + {next}, pushed)
  }

  lemma DiscoverSets(t: PredTable, roots: seq<Block>, s: Search, pushed: seq<Block>)
    requires Discovers(t, s, pushed) && Rooted(t, roots, s) && RootsBelow(roots, s)
    ensures var s' := Discover(s, pushed); MarksOk(t, s') && Rooted(t, roots, s') && RootsBelow(roots, s')
  {
    var next := s.stack[|s.stack| - 1];
    assert FromRoots(t, roots, next);
    var r :| r in roots && Reaches(t, r, next);
    forall v | v in pushed
      ensures v in t.succ && FromRoots(t, roots, v)
    {
      ReachesStep(t, r, next, v);
    }
  }

  lemma DiscoverOpen(t: PredTable, s: Search, pushed: seq<Block>)
    requires Discovers(t, s, pushed) && Open(s)
    ensures Open(Discover(s, pushed))
  {
    var top := |s.stack| - 1;
    var s' := Discover(s, pushed);
    forall b | b in s'.discovered && b !in s'.finished
      ensures exists k :: s'.OpenAt(k, b)
    {
      if b == s.stack[top] {
        assert s'.OpenAt(top, b);
      } else {
        var k :| s.OpenAt(k, b);
        assert s'.OpenAt(k, b);
      }
    }
  }

  lemma DiscoverNested(t: PredTable, s: Search, pushed: seq<Block>)
    requires Discovers(t, s, pushed) && Nested(t, s)
    ensures Nested(t, Discover(s, pushed))
  {
    var top := |s.stack| - 1;
    var next := s.stack[top];
    var s' := Discover(s, pushed);
    ReachesSelf(t, next);
    forall k, j | 0 <= k <= j < |s'.stack| && s'.marks[k]
      ensures Reaches(t, s'.stack[k], s'.stack[j])
    {
      assert Reaches(t, s.stack[k], next);
      if top < j {
        assert s'.stack[j] in pushed;
        ReachesStep(t, s'.stack[k], next, s'.stack[j]);
      }
    }
  }

  lemma DiscoverPushed(t: PredTable, s: Search, pushed: seq<Block>)
    requires Discovers(t, s, pushed) && AllPushed(t, s)
    ensures AllPushed(t, Discover(s, pushed))
  {
    var top := |s.stack| - 1;
    var s' := Discover(s, pushed);
    forall k | s'.base <= k < |s'.stack|
      ensures Pushed(t, s', k)
    {
      if k <= top {
        assert Pushed(t, s, k);
        var j :| PushedBy(t, s, j, k);
        assert PushedBy(t, s', j, k);
      } else {
        assert s'.stack[k] in pushed;
        assert PushedBy(t, s', top, k);
      }
    }
  }

  lemma DiscoverCovered(t: PredTable, s: Search, pushed: seq<Block>)
    requires Discovers(t, s, pushed) && Covered(t, s)
    ensures Covered(t, Discover(s, pushed))
  {
    var top := |s.stack| - 1;
    var s' := Discover(s, pushed);
    forall k, v | 0 <= k < |s'.stack| && s'.marks[k] && s'.stack[k] in t.succ && v in t.succ[s'.stack[k]]
      ensures v in s'.discovered || v in s'.stack[k + 1..]
    {
      assert s'.stack[k + 1..] == s.stack[k + 1..] + pushed;
    }
  }

  lemma DiscoverListed(t: PredTable, roots: seq<Block>, s: Search, pushed: seq<Block>)
    requires Discovers(t, s, pushed) && ParentsLater(t, roots, s) && SuccsEarlier(t, s)
    ensures var s' := Discover(s, pushed); ParentsLater(t, roots, s') && SuccsEarlier(t, s')
  {
    var s' := Discover(s, pushed);
    forall i | 0 <= i < |s.order|
      ensures s'.order[i] in roots || exists p :: LaterPred(t, s', i, p)
    {
      if s.order[i] !in roots {
        var p :| LaterPred(t, s, i, p);
        assert LaterPred(t, s', i, p);
      }
    }
    forall i | 0 <= i < |s.order|
      ensures AfterSuccs(t, s'.order, s'.open, i) && BelowOpen(t, s'.order, s'.open, i)
    {
      assert AfterSuccs(t, s.order, s.open, i) && BelowOpen(t, s.order, s.open, i);
      assert s.order[i] in s.order;
    }
  }

  lemma DiscoverOpenBelow(t: PredTable, s: Search, pushed: seq<Block>)
    requires Discovers(t, s, pushed) && Open(s) && OpenBelow(s)
    ensures OpenBelow(Discover(s, pushed))
  {
    var top := |s.stack| - 1;
    var s' := Discover(s, pushed);
    forall j | 0 <= j < |s'.stack| && s'.marks[j]
      ensures OpenedAbove(s', j)
    {
      if j < top {
        assert s.stack[j] in s.discovered && OpenedAbove(s, j);
        StaysOpened(s, s', j);
      } else {
        forall x
          ensures x in s'.open[s'.stack[j]] <==> OpenUpTo(s', j, x)
        {
          OpenNow(s, pushed, x);
        }
      }
    }
  }

  lemma SameBelow(a: Search, b: Search, j: int, x: Block)
    requires a.Shape() && b.Shape() && 0 <= j < |a.stack| && j < |b.stack|
    requires forall k :: 0 <= k <= j ==> a.stack[k] == b.stack[k] && a.marks[k] == b.marks[k]
    ensures OpenUpTo(a, j, x) <==> OpenUpTo(b, j, x)
  {
    if k :| k <= j && a.OpenAt(k, x) {
      assert b.OpenAt(k, x);
    }
    if k :| k <= j && b.OpenAt(k, x) {
      assert a.OpenAt(k, x);
    }
  }

  lemma StaysOpened(a: Search, b: Search, j: nat)
    requires a.Shape() && b.Shape() && j < |a.stack| && j < |b.stack|
    requires forall k :: 0 <= k <= j ==> a.stack[k] == b.stack[k] && a.marks[k] == b.marks[k]
    requires OpenedAbove(a, j) && b.stack[j] in b.open && b.open[b.stack[j]] == a.open[a.stack[j]]
    ensures OpenedAbove(b, j)
  {
    forall x
      ensures x in b.open[b.stack[j]] <==> OpenUpTo(b, j, x)
    {
      SameBelow(a, b, j, x);
    }
  }

  lemma OpenNow(s: Search, pushed: seq<Block>, x: Block)
    requires s.Shape() && 0 < |s.stack| && Open(s)
    ensures var top, s' := |s.stack| - 1, Discover(s, pushed);
      x in s.discovered - s.finished + {s.stack[top]} <==> OpenUpTo(s', top, x)
  {
    var top, s' := |s.stack| - 1, Discover(s, pushed);
    if x == s.stack[top] {
      assert s'.OpenAt(top, x);
    } else if x in s.discovered && x !in s.finished {
      var k :| s.OpenAt(k, x);
      assert s'.OpenAt(k, x);
    }
    if k :| k <= top && s'.OpenAt(k, x) {
      assert k < top ==> s.OpenAt(k, x);
    }
  }

  lemma DiscoverInv(t: PredTable, roots: seq<Block>, s: Search, pushed: seq<Block>)
    requires Inv(t, roots, s) && Discovers(t, s, pushed)
    ensures Inv(t, roots, Discover(s, pushed))
  {
    DiscoverSets(t, roots, s, pushed);
    DiscoverOpen(t, s, pushed);
    DiscoverNested(t, s, pushed);
    DiscoverPushed(t, s, pushed);
    DiscoverCovered(t, s, pushed);
    DiscoverListed(t, roots, s, pushed);
    DiscoverOpenBelow(t, s, pushed);
  }

  // ---------------------------------------------------------------- popping a block

  /** Popping the top of the stack, which has been discovered before. */
  function Pop(s: Search): Search
    requires 0 < |s.stack| == |s.marks|
  {
    var top := |s.stack| - 1;
    var next := s.stack[top];
    s.(stack := s.stack[..top], marks := s.marks[..top], base := if s.base <= top then s.base else top,
       finished := s.finished + {next},
       order := if next in s.finished then s.order else s.order + [next])
  }

  ghost predicate Pops(t: PredTable, s: Search) {
    && s.Shape() && 0 < |s.stack| && t.Valid() && MarksOk(t, s) && Open(s)
    && s.stack[|s.stack| - 1] in s.discovered
  }

  /** The top of the stack is finished already, or it is open right here. */
  lemma PopKnown(t: PredTable, s: Search)
    requires Pops(t, s)
    ensures var top := |s.stack| - 1; s.stack[top] in s.finished || s.marks[top]
  {
    var top := |s.stack| - 1;
    if s.stack[top] !in s.finished {
      var k :| s.OpenAt(k, s.stack[top]);
    }
  }

  lemma PopOpen(t: PredTable, s: Search)
    requires Pops(t, s)
    ensures Open(Pop(s))
  {
    var s' := Pop(s);
    PopKnown(t, s);
    forall b | b in s'.discovered && b !in s'.finished
      ensures exists k :: s'.OpenAt(k, b)
    {
      var k :| s.OpenAt(k, b);
      assert s'.OpenAt(k, b);
    }
  }

  lemma PopStack(t: PredTable, s: Search)
    requires Pops(t, s) && AllPushed(t, s) && Covered(t, s)
    ensures AllPushed(t, Pop(s)) && Covered(t, Pop(s))
  {
    var top := |s.stack| - 1;
    var s' := Pop(s);
    forall k | s'.base <= k < |s'.stack|
      ensures Pushed(t, s', k)
    {
      assert Pushed(t, s, k);
      var j :| PushedBy(t, s, j, k);
      assert PushedBy(t, s', j, k);
    }
    forall k, v | 0 <= k < |s'.stack| && s'.marks[k] && s'.stack[k] in t.succ && v in t.succ[s'.stack[k]]
      ensures v in s'.discovered || v in s'.stack[k + 1..]
    {
      assert s.stack[k + 1..] == s'.stack[k + 1..] + [s.stack[top]];
    }
  }

  lemma PopParents(t: PredTable, roots: seq<Block>, s: Search)
    requires Pops(t, s) && AllPushed(t, s) && RootsBelow(roots, s) && ParentsLater(t, roots, s)
    ensures ParentsLater(t, roots, Pop(s))
  {
    var top := |s.stack| - 1;
    var s' := Pop(s);
    forall i | 0 <= i < |s'.order| && s'.order[i] !in roots
      ensures exists p :: LaterPred(t, s', i, p)
    {
      if i < |s.order| {
        var p :| LaterPred(t, s, i, p);
        assert s'.order[..i + 1] == s.order[..i + 1];
        assert LaterPred(t, s', i, p);
      } else {
        assert s.base <= top && Pushed(t, s, top);
        var j :| PushedBy(t, s, j, top);
        assert s'.order[..i + 1] == s.order + [s.stack[top]];
        PopKnown(t, s);
        assert LaterPred(t, s', i, s.stack[j]);
      }
    }
  }

  lemma PopSuccs(t: PredTable, s: Search)
    requires Pops(t, s) && Nested(t, s) && Covered(t, s) && SuccsEarlier(t, s) && OpenBelow(s)
    ensures SuccsEarlier(t, Pop(s))
  {
    var top := |s.stack| - 1;
    var next := s.stack[top];
    var s' := Pop(s);
    forall i | 0 <= i < |s'.order|
      ensures AfterSuccs(t, s'.order, s.open, i) && BelowOpen(t, s'.order, s.open, i)
      ensures t.succ[s'.order[i]] <= s'.discovered
    {
      if i < |s.order| {
        assert AfterSuccs(t, s.order, s.open, i) && BelowOpen(t, s.order, s.open, i);
        assert s'.order[..i] == s.order[..i];
      } else {
        assert s'.order[..i] == s.order;
        PopKnown(t, s);
        LastSuccs(t, s);
      }
    }
  }

  /** What the edges of the top block lead to, once it is finished. */
  lemma LastSuccs(t: PredTable, s: Search)
    requires Pops(t, s) && Nested(t, s) && Covered(t, s) && OpenBelow(s) && s.marks[|s.stack| - 1]
    ensures var next := s.stack[|s.stack| - 1];
      next in s.open && (forall v :: v in t.succ[next] ==> v in s.discovered && (v in s.order || v in s.open[next]))
      && forall x :: x in s.open[next] ==> x !in s.order && Reaches(t, x, next)
  {
    var top := |s.stack| - 1;
    var next := s.stack[top];
    assert OpenedAbove(s, top);
    assert OpenUpTo(s, top, next) by {
      assert s.OpenAt(top, next);
    }
    forall v | v in t.succ[next]
      ensures v in s.discovered && (v in s.order || v in s.open[next])
    {
      assert s.stack[top + 1..] == [];
      if v !in s.finished {
        var k :| s.OpenAt(k, v);
        assert OpenUpTo(s, top, v);
      }
    }
    forall x | x in s.open[next]
      ensures x !in s.order && Reaches(t, x, next)
    {
      assert OpenUpTo(s, top, x);
      var k :| k <= top && s.OpenAt(k, x);
    }
  }

  lemma PopOpenBelow(t: PredTable, s: Search)
    requires Pops(t, s) && OpenBelow(s)
    ensures OpenBelow(Pop(s))
  {
    var s' := Pop(s);
    forall j | 0 <= j < |s'.stack| && s'.marks[j]
      ensures OpenedAbove(s', j)
    {
      assert OpenedAbove(s, j);
      StaysOpened(s, s', j);
    }
  }

  lemma PopInv(t: PredTable, roots: seq<Block>, s: Search)
    requires Inv(t, roots, s) && Pops(t, s)
    ensures Inv(t, roots, Pop(s))
  {
    PopOpen(t, s);
    PopStack(t, s);
    PopParents(t, roots, s);
    PopSuccs(t, s);
    PopSets(t, s);
    PopRooted(t, roots, s);
    PopNested(t, s);
    PopOpenBelow(t, s);
  }

  lemma PopSets(t: PredTable, s: Search)
    requires s.Shape() && 0 < |s.stack| && MarksOk(t, s) && s.stack[|s.stack| - 1] in s.discovered
    ensures Pop(s).Shape() && MarksOk(t, Pop(s))
  {
    var s' := Pop(s);
    assert forall b :: b in s'.stack ==> b in s.stack;
  }

  lemma PopRooted(t: PredTable, roots: seq<Block>, s: Search)
    requires s.Shape() && 0 < |s.stack| && s.stack[|s.stack| - 1] in s.discovered
    requires Rooted(t, roots, s) && RootsBelow(roots, s)
    ensures Rooted(t, roots, Pop(s)) && RootsBelow(roots, Pop(s))
  {
    assert forall b :: b in Pop(s).stack ==> b in s.stack;
    assert s.stack[|s.stack| - 1] in s.stack;
  }

  lemma PopNested(t: PredTable, s: Search)
    requires s.Shape() && 0 < |s.stack| && Nested(t, s)
    ensures Nested(t, Pop(s))
  {
  }

  // ---------------------------------------------------------------- the algorithm

  /** The successors to push, in whatever order the set yields them. */
  method UndiscoveredSuccs(succs: set<Block>, discovered: set<Block>) returns (pushed: seq<Block>)
    ensures FreshSuccs(succs, discovered, pushed)
  {
    pushed := [];
    var todo := succs;
    while todo != {}
      invariant todo <= succs && FreshSuccs(succs - todo, discovered, pushed)
      decreases |todo|
    {
      var succ :| succ in todo;
      todo := todo - {succ};
      if succ !in discovered {
        pushed := pushed + [succ];
      }
    }
  }

  /** The blocks without predecessors, in layout order. */
  function Orphans(t: PredTable, blocks: seq<Block>): (r: seq<Block>)
    requires forall b :: b in blocks ==> b in t.pred
    ensures forall b :: b in r <==> b in blocks && t.pred[b] == {}
  {
    if blocks == [] then []
    else (if t.pred[blocks[0]] == {} then [blocks[0]] else []) + Orphans(t, blocks[1..])
  }

  /** Every block but the roots has a predecessor that is listed later. */
  ghost predicate ParentsFollow(t: PredTable, roots: seq<Block>, order: seq<Block>) {
    forall i {:trigger HasLaterPred(t, order, i)} :: 0 <= i < |order| && order[i] !in roots ==>
      HasLaterPred(t, order, i)
  }

  ghost predicate HasLaterPred(t: PredTable, order: seq<Block>, i: nat)
    requires i < |order|
  {
    exists p :: p in order[i + 1..] && p in t.succ && order[i] in t.succ[p]
  }

  /** What the search delivers. */
  ghost predicate IsPostOrder(t: PredTable, roots: seq<Block>, order: seq<Block>) {
    && Distinct(order)
    && (forall b {:trigger b in order} :: b in order <==> b in t.succ && FromRoots(t, roots, b))
    && ParentsFollow(t, roots, order)
  }

  /** Every edge leads to a block that is listed earlier, unless that block was still open when the origin of the edge
      was discovered; and then it is listed no earlier, and the edge closes a cycle. */
  ghost predicate SuccsFirst(t: PredTable, order: seq<Block>, open: map<Block, set<Block>>) {
    forall i {:trigger AfterSuccs(t, order, open, i)} :: 0 <= i < |order| ==>
      AfterSuccs(t, order, open, i) && BelowOpen(t, order, open, i)
  }

  /** Look at the top of the stack: discover it and push its successors, or finish it. */
  method VisitTop(t: PredTable, ghost roots: seq<Block>, s: Search) returns (s': Search)
    requires Inv(t, roots, s) && 0 < |s.stack|
    ensures Inv(t, roots, s')
    ensures s.discovered < s'.discovered || (s'.discovered == s.discovered && |s'.stack| < |s.stack|)
  {
    var next := s.stack[|s.stack| - 1];
    if next !in s.discovered {
      var pushed := UndiscoveredSuccs(t.succ[next], s.discovered + {next});
      DiscoverInv(t, roots, s, pushed);
      s' := Discover(s, pushed);
    } else {
      PopInv(t, roots, s);
      s' := Pop(s);
    }
  }

  /** `open` is what was open when a block was discovered. */
  method ComputeBlocksPostOrder(t: PredTable, entry: Block, blocks: seq<Block>)
      returns (order: seq<Block>, ghost open: map<Block, set<Block>>)
    requires t.Valid() && entry in t.pred
    requires forall b :: b in blocks <==> b in t.pred
    ensures IsPostOrder(t, [entry] + Orphans(t, blocks), order) && SuccsFirst(t, order, open)
  {
    var stack := [entry] + Orphans(t, blocks);
    ghost var roots := stack;
    var s := Search(stack, seq(|stack|, _ => false), |stack|, {}, {}, [], map[]);
    assert forall b :: b in roots ==> b in t.pred.Keys;
    InitialInv(t, roots, s);
    while 0 < |s.stack|
      invariant Inv(t, roots, s)
      decreases t.succ.Keys - s.discovered, |s.stack|
    {
      s := VisitTop(t, roots, s);
    }
    FinalOrder(t, roots, s);
    order, open := s.order, s.open;
  }

  lemma InitialInv(t: PredTable, roots: seq<Block>, s: Search)
    requires t.Valid() && forall b :: b in roots ==> b in t.succ
    requires s == Search(roots, seq(|roots|, _ => false), |roots|, {}, {}, [], map[])
    ensures Inv(t, roots, s)
  {
    InitialRooted(t, roots);
    assert MarksOk(t, s) && RootsBelow(roots, s);
    assert Open(s) && Nested(t, s) && AllPushed(t, s) && Covered(t, s) && OpenBelow(s);
  }

  lemma InitialRooted(t: PredTable, roots: seq<Block>)
    requires forall b :: b in roots ==> b in t.succ
    ensures forall b :: b in roots ==> FromRoots(t, roots, b)
  {
    forall b | b in roots
      ensures FromRoots(t, roots, b)
    {
      ReachesSelf(t, b);
    }
  }

  lemma FinalOrder(t: PredTable, roots: seq<Block>, s: Search)
    requires Inv(t, roots, s) && s.stack == []
    ensures IsPostOrder(t, roots, s.order) && SuccsFirst(t, s.order, s.open)
  {
    AllFinished(t, roots, s);
    FinalParents(t, roots, s);
  }

  lemma AllFinished(t: PredTable, roots: seq<Block>, s: Search)
    requires Inv(t, roots, s) && s.stack == []
    ensures forall b :: b in t.succ && FromRoots(t, roots, b) ==> b in s.order
  {
    forall b | b in t.succ && FromRoots(t, roots, b)
      ensures b in s.order
    {
      var r :| r in roots && Reaches(t, r, b);
      var p :| Leads(t, p, r, b);
      PathFinished(t, roots, s, p);
    }
  }

  lemma FinalParents(t: PredTable, roots: seq<Block>, s: Search)
    requires s.Shape() && MarksOk(t, s) && Open(s) && s.stack == [] && ParentsLater(t, roots, s)
    ensures ParentsFollow(t, roots, s.order)
  {
    forall i | 0 <= i < |s.order| && s.order[i] !in roots
      ensures HasLaterPred(t, s.order, i)
    {
      var p :| LaterPred(t, s, i, p);
      assert s.order == s.order[..i + 1] + s.order[i + 1..];
    }
  }

  lemma {:induction false} PathFinished(t: PredTable, roots: seq<Block>, s: Search, p: seq<Block>)
    requires Inv(t, roots, s) && s.stack == [] && Path(t, p) && p[0] in roots
    ensures p[|p| - 1] in s.order
    decreases |p|
  {
    if |p| == 1 {
      var k :| 0 <= k < |roots| && roots[k] == p[0];
    } else {
      var q := p[..|p| - 1];
      PathFinished(t, roots, s, q);
      var i :| 0 <= i < |s.order| && s.order[i] == q[|q| - 1];
      assert p[|p| - 1] in t.succ[s.order[i]];
    }
  }

  /** On an acyclic graph the post-order is a reverse topological order. */
  lemma AcyclicTopological(t: PredTable, order: seq<Block>, open: map<Block, set<Block>>, i: nat, v: Block)
    requires SuccsFirst(t, order, open)
    requires forall a, b :: a in t.succ && b in t.succ[a] ==> !Reaches(t, b, a)
    requires i < |order| && order[i] in t.succ && v in t.succ[order[i]]
    ensures v in order[..i]
  {
    assert AfterSuccs(t, order, open, i) && BelowOpen(t, order, open, i);
  }
}
