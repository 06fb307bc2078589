/** Doubly linked lists kept in a table (src/ir/layout.rs, and the block lists of
    src/ir/unit.rs), each of which refines a sequence without duplicates. */
module LinkedList {
  import opened Options
  import opened Sets

  datatype Node = Node(prev: Option<nat>, next: Option<nat>)

  /** Neighbours in the sequence are linked to each other. */
  ghost predicate Linked(nodes: map<nat, Node>, s: seq<nat>) {
    && (forall k {:trigger s[k]} :: 0 <= k < |s| ==> s[k] in nodes)
    && (forall j, k {:trigger s[j], s[k]} :: 0 <= j && k == j + 1 < |s| ==>
      nodes[s[j]].next == Some(s[k]) && nodes[s[k]].prev == Some(s[j]))
  }

  /** The ends of the list are the ends of the sequence. */
  ghost predicate Ends(nodes: map<nat, Node>, first: Option<nat>, last: Option<nat>, s: seq<nat>) {
    if s == [] then first.None? && last.None?
    else
      && first == Some(s[0]) && s[0] in nodes && nodes[s[0]].prev.None?
      && last == Some(s[|s| - 1]) && s[|s| - 1] in nodes && nodes[s[|s| - 1]].next.None?
  }

  /** The table and the ends describe the sequence. */
  ghost predicate Describes(nodes: map<nat, Node>, first: Option<nat>, last: Option<nat>, s: seq<nat>) {
    Distinct(s) && (forall x {:trigger x in nodes} :: x in nodes ==> x in s) && Linked(nodes, s)
      && Ends(nodes, first, last, s)
  }

  /** The position of an element. */
  function IndexOf(s: seq<nat>, x: nat): (k: nat)
    requires x in s
    ensures k < |s| && s[k] == x
  {
    if s[0] == x then 0 else IndexOf(s[1..], x) + 1
  }

  function InsertAt(s: seq<nat>, k: nat, x: nat): (r: seq<nat>)
    requires k <= |s|
    ensures |r| == |s| + 1
    ensures forall j {:trigger r[j]} :: 0 <= j < |r| ==> r[j] == if j < k then s[j] else if j == k then x else s[j - 1]
  {
    if k == 0 then [x] + s else [s[0]] + InsertAt(s[1..], k - 1, x)
  }

  function RemoveAt(s: seq<nat>, k: nat): (r: seq<nat>)
    requires k < |s|
    ensures |r| == |s| - 1
    ensures forall j {:trigger r[j]} :: 0 <= j < |r| ==> r[j] == if j < k then s[j] else s[j + 1]
  {
    if k == 0 then s[1..] else [s[0]] + RemoveAt(s[1..], k - 1)
  }

  /** Exchange the elements at two positions. */
  function Exchange(s: seq<nat>, i: nat, j: nat): (r: seq<nat>)
    requires i < |s| && j < |s|
    ensures |r| == |s|
    ensures forall k {:trigger r[k]} :: 0 <= k < |r| ==> r[k] == if k == i then s[j] else if k == j then s[i] else s[k]
  {
    s[i := s[j]][j := s[i]]
  }

  /** The neighbours of a position. */
  lemma {:induction false} Around(nodes: map<nat, Node>, first: Option<nat>, last: Option<nat>, s: seq<nat>, k: nat)
    requires Describes(nodes, first, last, s) && k < |s|
    ensures s[k] in nodes
    ensures nodes[s[k]].prev == (if k == 0 then None else Some(s[k - 1]))
    ensures nodes[s[k]].next == (if k == |s| - 1 then None else Some(s[k + 1]))
  {
    if k > 0 {
      assert nodes[s[k]].prev == Some(s[k - 1]);
    }
    if k < |s| - 1 {
      assert nodes[s[k]].next == Some(s[k + 1]);
    }
  }

  /** The links after x has been put between the elements at k - 1 and k. */
  ghost predicate Inserted(nodes: map<nat, Node>, s: seq<nat>, k: nat, x: nat, nodes': map<nat, Node>)
    requires k <= |s|
  {
    && nodes'.Keys == nodes.Keys + {x} && (forall j {:trigger s[j]} :: 0 <= j < |s| ==> s[j] in nodes)
    && nodes'[x] == Node(if k == 0 then None else Some(s[k - 1]), if k == |s| then None else Some(s[k]))
    && (forall j {:trigger s[j]} :: 0 <= j < |s| ==> nodes'[s[j]].prev == if j == k then Some(x) else nodes[s[j]].prev)
    && (forall j {:trigger s[j]} :: 0 <= j < |s| ==>
      nodes'[s[j]].next == if j + 1 == k then Some(x) else nodes[s[j]].next)
  }

  lemma {:induction false} InsertDistinct(s: seq<nat>, k: nat, x: nat)
    requires Distinct(s) && k <= |s| && x !in s
    ensures Distinct(InsertAt(s, k, x))
  {
    var r := InsertAt(s, k, x);
    forall i, j {:trigger r[i], r[j]} | 0 <= i < j < |r|
      ensures r[i] != r[j]
    {
    }
  }

  lemma {:induction false} InsertMembers(nodes: map<nat, Node>, s: seq<nat>, k: nat, x: nat, nodes': map<nat, Node>)
    requires (forall y {:trigger y in nodes} :: y in nodes ==> y in s) && k <= |s| && nodes'.Keys == nodes.Keys + {x}
    ensures forall y {:trigger y in nodes'} :: y in nodes' ==> y in InsertAt(s, k, x)
  {
    var r := InsertAt(s, k, x);
    forall y | y in nodes'
      ensures y in r
    {
      if y == x {
        assert r[k] == x;
      } else {
        var j := IndexOf(s, y);
        assert r[if j < k then j else j + 1] == y;
      }
    }
  }

  lemma {:induction false} InsertPair(nodes: map<nat, Node>, s: seq<nat>, k: nat, x: nat, nodes': map<nat, Node>,
      r: seq<nat>, i: nat, j: nat)
    requires k <= |s| && Linked(nodes, s) && Inserted(nodes, s, k, x, nodes') && r == InsertAt(s, k, x)
      && j == i + 1 < |r|
    ensures r[i] in nodes' && r[j] in nodes' && nodes'[r[i]].next == Some(r[j]) && nodes'[r[j]].prev == Some(r[i])
  {
    if j < k {
      assert r[i] == s[i] && r[j] == s[j];
    } else if j == k {
      assert r[i] == s[k - 1] && r[j] == x;
    } else if i == k {
      assert r[i] == x && r[j] == s[k];
    } else {
      assert r[i] == s[i - 1] && r[j] == s[i];
    }
  }

  lemma {:induction false} InsertLinked(nodes: map<nat, Node>, s: seq<nat>, k: nat, x: nat, nodes': map<nat, Node>)
    requires k <= |s| && Linked(nodes, s) && Inserted(nodes, s, k, x, nodes')
    ensures Linked(nodes', InsertAt(s, k, x))
  {
    var r := InsertAt(s, k, x);
    forall i {:trigger r[i]} | 0 <= i < |r|
      ensures r[i] in nodes'
    {
    }
    forall i, j {:trigger r[i], r[j]} | 0 <= i && j == i + 1 < |r|
      ensures nodes'[r[i]].next == Some(r[j]) && nodes'[r[j]].prev == Some(r[i])
    {
      InsertPair(nodes, s, k, x, nodes', r, i, j);
    }
  }

  lemma {:induction false} InsertEnds(nodes: map<nat, Node>, first: Option<nat>, last: Option<nat>, s: seq<nat>, k: nat,
      x: nat,
      nodes': map<nat, Node>, first': Option<nat>, last': Option<nat>)
    requires k <= |s| && Ends(nodes, first, last, s) && Inserted(nodes, s, k, x, nodes')
    requires first' == (if k == 0 then Some(x) else first) && last' == (if k == |s| then Some(x) else last)
    ensures Ends(nodes', first', last', InsertAt(s, k, x))
  {
    var r := InsertAt(s, k, x);
    assert r[0] == if k == 0 then x else s[0];
    assert r[|s|] == if k == |s| then x else s[|s| - 1];
  }

  lemma {:induction false} InsertDescribes(nodes: map<nat, Node>, first: Option<nat>, last: Option<nat>, s: seq<nat>,
      k: nat, x: nat,
      nodes': map<nat, Node>, first': Option<nat>, last': Option<nat>)
    requires Describes(nodes, first, last, s) && k <= |s| && x !in nodes && Inserted(nodes, s, k, x, nodes')
    requires first' == (if k == 0 then Some(x) else first) && last' == (if k == |s| then Some(x) else last)
    ensures Describes(nodes', first', last', InsertAt(s, k, x))
  {
    InsertDistinct(s, k, x);
    InsertMembers(nodes, s, k, x, nodes');
    InsertLinked(nodes, s, k, x, nodes');
    InsertEnds(nodes, first, last, s, k, x, nodes', first', last');
  }

  /** Linking x in between the elements at k - 1 and k. */
  function LinkIn(nodes: map<nat, Node>, x: nat, prev: Option<nat>, next: Option<nat>): map<nat, Node>
    requires (prev.Some? ==> prev.value in nodes) && (next.Some? ==> next.value in nodes)
  {
    var a := nodes[x := Node(prev, next)];
    var b := if next.Some? then a[next.value := a[next.value].(prev := Some(x))] else a;
    if prev.Some? then b[prev.value := b[prev.value].(next := Some(x))] else b
  }

  lemma {:induction false} LinkInInserts(nodes: map<nat, Node>, s: seq<nat>, k: nat, x: nat, prev: Option<nat>,
      next: Option<nat>)
    requires Distinct(s) && (forall j {:trigger s[j]} :: 0 <= j < |s| ==> s[j] in nodes) && k <= |s| && x !in nodes
    requires prev == (if k == 0 then None else Some(s[k - 1])) && next == (if k == |s| then None else Some(s[k]))
    ensures Inserted(nodes, s, k, x, LinkIn(nodes, x, prev, next))
  {
  }

  /** The elements before position k and at position k. */
  function Before(s: seq<nat>, k: nat): Option<nat>
    requires k <= |s|
  {
    if k == 0 then None else Some(s[k - 1])
  }

  function Behind(s: seq<nat>, k: nat): Option<nat>
    requires k <= |s|
  {
    if k == |s| then None else Some(s[k])
  }

  lemma {:induction false} LinkInDescribes(nodes: map<nat, Node>, first: Option<nat>, last: Option<nat>, s: seq<nat>,
      k: nat, x: nat,
      nodes': map<nat, Node>, first': Option<nat>, last': Option<nat>)
    requires Describes(nodes, first, last, s) && k <= |s| && x !in nodes
    requires (Before(s, k).Some? ==> Before(s, k).value in nodes)
      && (Behind(s, k).Some? ==> Behind(s, k).value in nodes)
    requires nodes' == LinkIn(nodes, x, Before(s, k), Behind(s, k))
    requires first' == (if k == 0 then Some(x) else first) && last' == (if k == |s| then Some(x) else last)
    ensures Describes(nodes', first', last', InsertAt(s, k, x))
    ensures k == 0 ==> InsertAt(s, k, x) == [x] + s
    ensures k == |s| ==> InsertAt(s, k, x) == s + [x]
  {
    LinkInInserts(nodes, s, k, x, Before(s, k), Behind(s, k));
    InsertDescribes(nodes, first, last, s, k, x, nodes', first', last');
    InsertAtEnds(s, k, x);
  }

  lemma {:induction false} InsertAtEnds(s: seq<nat>, k: nat, x: nat)
    requires k <= |s|
    ensures k == 0 ==> InsertAt(s, k, x) == [x] + s
    ensures k == |s| ==> InsertAt(s, k, x) == s + [x]
    decreases k
  {
    if k > 0 {
      InsertAtEnds(s[1..], k - 1, x);
      assert k == |s| ==> [s[0]] + (s[1..] + [x]) == s + [x];
    }
  }

  /** The links after the element at k has been taken out. */
  ghost predicate Removed(nodes: map<nat, Node>, s: seq<nat>, k: nat, nodes': map<nat, Node>)
    requires k < |s|
  {
    && nodes'.Keys == nodes.Keys - {s[k]} && (forall j {:trigger s[j]} :: 0 <= j < |s| ==>
      s[j] in nodes && (j != k ==> s[j] in nodes'))
    && (forall j {:trigger s[j]} :: 0 <= j < |s| && j != k ==>
      nodes'[s[j]].prev == if j == k + 1 then nodes[s[k]].prev else nodes[s[j]].prev)
    && (forall j {:trigger s[j]} :: 0 <= j < |s| && j != k ==>
      nodes'[s[j]].next == if j + 1 == k then nodes[s[k]].next else nodes[s[j]].next)
  }

  lemma {:induction false} RemoveDistinct(s: seq<nat>, k: nat)
    requires Distinct(s) && k < |s|
    ensures Distinct(RemoveAt(s, k))
  {
    var r := RemoveAt(s, k);
    forall i, j {:trigger r[i], r[j]} | 0 <= i < j < |r|
      ensures r[i] != r[j]
    {
    }
  }

  lemma {:induction false} RemoveMembers(nodes: map<nat, Node>, s: seq<nat>, k: nat, nodes': map<nat, Node>)
    requires (forall y {:trigger y in nodes} :: y in nodes ==> y in s) && k < |s| && nodes'.Keys == nodes.Keys - {s[k]}
    ensures forall y {:trigger y in nodes'} :: y in nodes' ==> y in RemoveAt(s, k)
  {
    var r := RemoveAt(s, k);
    forall y | y in nodes'
      ensures y in r
    {
      var j := IndexOf(s, y);
      assert r[if j < k then j else j - 1] == y;
    }
  }

  lemma {:induction false} RemovePair(nodes: map<nat, Node>, s: seq<nat>, k: nat, nodes': map<nat, Node>, r: seq<nat>,
      i: nat, j: nat)
    requires k < |s| && Linked(nodes, s) && Removed(nodes, s, k, nodes') && r == RemoveAt(s, k) && j == i + 1 < |r|
    ensures r[i] in nodes' && r[j] in nodes' && nodes'[r[i]].next == Some(r[j]) && nodes'[r[j]].prev == Some(r[i])
  {
    if j < k {
      assert r[i] == s[i] && r[j] == s[j];
    } else if j == k {
      assert r[i] == s[k - 1] && r[j] == s[k + 1];
      assert nodes[s[k]].next == Some(s[k + 1]) && nodes[s[k]].prev == Some(s[k - 1]);
    } else {
      assert r[i] == s[i + 1] && r[j] == s[j + 1];
    }
  }

  lemma {:induction false} RemoveLinked(nodes: map<nat, Node>, s: seq<nat>, k: nat, nodes': map<nat, Node>)
    requires k < |s| && Linked(nodes, s) && Removed(nodes, s, k, nodes')
    ensures Linked(nodes', RemoveAt(s, k))
  {
    var r := RemoveAt(s, k);
    forall i {:trigger r[i]} | 0 <= i < |r|
      ensures r[i] in nodes'
    {
      assert r[i] == s[if i < k then i else i + 1];
    }
    forall i, j {:trigger r[i], r[j]} | 0 <= i && j == i + 1 < |r|
      ensures nodes'[r[i]].next == Some(r[j]) && nodes'[r[j]].prev == Some(r[i])
    {
      RemovePair(nodes, s, k, nodes', r, i, j);
    }
  }

  lemma {:induction false} RemoveEnds(nodes: map<nat, Node>, first: Option<nat>, last: Option<nat>, s: seq<nat>, k: nat,
      nodes': map<nat, Node>, first': Option<nat>, last': Option<nat>)
    requires k < |s| && Describes(nodes, first, last, s) && Removed(nodes, s, k, nodes')
    requires first' == (if k == 0 then nodes[s[k]].next else first)
      && last' == (if k == |s| - 1 then nodes[s[k]].prev else last)
    ensures Ends(nodes', first', last', RemoveAt(s, k))
  {
    var r := RemoveAt(s, k);
    Around(nodes, first, last, s, k);
    if r != [] {
      assert r[0] == s[if k == 0 then 1 else 0];
      assert r[|r| - 1] == s[if k == |s| - 1 then k - 1 else |s| - 1];
    }
  }

  lemma {:induction false} RemoveDescribes(nodes: map<nat, Node>, first: Option<nat>, last: Option<nat>, s: seq<nat>,
      k: nat,
      nodes': map<nat, Node>, first': Option<nat>, last': Option<nat>)
    requires Describes(nodes, first, last, s) && k < |s| && Removed(nodes, s, k, nodes')
    requires first' == (if k == 0 then nodes[s[k]].next else first)
      && last' == (if k == |s| - 1 then nodes[s[k]].prev else last)
    ensures Describes(nodes', first', last', RemoveAt(s, k))
  {
    RemoveDistinct(s, k);
    RemoveMembers(nodes, s, k, nodes');
    RemoveLinked(nodes, s, k, nodes');
    RemoveEnds(nodes, first, last, s, k, nodes', first', last');
  }

  /** Linking the neighbours of x to each other. */
  function LinkOut(nodes: map<nat, Node>, x: nat, prev: Option<nat>, next: Option<nat>): map<nat, Node>
    requires (prev.Some? ==> prev.value in nodes && prev.value != x)
      && (next.Some? ==> next.value in nodes && next.value != x)
  {
    var a := nodes - {x};
    var b := if next.Some? then a[next.value := a[next.value].(prev := prev)] else a;
    if prev.Some? then b[prev.value := b[prev.value].(next := next)] else b
  }

  lemma {:induction false} LinkOutRemoves(nodes: map<nat, Node>, s: seq<nat>, k: nat, prev: Option<nat>,
      next: Option<nat>)
    requires Distinct(s) && (forall j {:trigger s[j]} :: 0 <= j < |s| ==> s[j] in nodes) && k < |s|
    requires prev == (if k == 0 then None else Some(s[k - 1]))
      && next == (if k == |s| - 1 then None else Some(s[k + 1]))
    requires nodes[s[k]] == Node(prev, next)
    ensures (prev.Some? ==> prev.value in nodes && prev.value != s[k])
      && (next.Some? ==> next.value in nodes && next.value != s[k])
    ensures Removed(nodes, s, k, LinkOut(nodes, s[k], prev, next))
  {
  }

  lemma {:induction false} LinkOutDescribes(nodes: map<nat, Node>, first: Option<nat>, last: Option<nat>, s: seq<nat>,
      k: nat)
    requires Describes(nodes, first, last, s) && k < |s|
    ensures s[k] in nodes && nodes[s[k]] == Node(Before(s, k), Behind(s, k + 1))
    ensures (Before(s, k).Some? ==> Before(s, k).value in nodes && Before(s, k).value != s[k])
      && (Behind(s, k + 1).Some? ==> Behind(s, k + 1).value in nodes && Behind(s, k + 1).value != s[k])
    ensures Describes(LinkOut(nodes, s[k], Before(s, k), Behind(s, k + 1)), if k == 0 then nodes[s[k]].next
      else first, if k == |s| - 1 then nodes[s[k]].prev else last, RemoveAt(s, k))
    ensures (first == Some(s[k]) <==> k == 0) && (last == Some(s[k]) <==> k == |s| - 1)
  {
    Around(nodes, first, last, s, k);
    LinkOutRemoves(nodes, s, k, Before(s, k), Behind(s, k + 1));
    RemoveDescribes(nodes, first, last, s, k, LinkOut(nodes, s[k], Before(s, k), Behind(s, k + 1)),
      if k == 0 then nodes[s[k]].next else first, if k == |s| - 1 then nodes[s[k]].prev else last);
  }

  // ---------------------------------------------------------------- exchanging two elements

  /** The links at a position are right. */
  ghost predicate LinkedAt(nodes: map<nat, Node>, s: seq<nat>, k: nat) {
    k < |s| && s[k] in nodes && nodes[s[k]] == Node(Before(s, k), Behind(s, k + 1))
  }

  lemma {:induction false} LinkedEverywhere(nodes: map<nat, Node>, s: seq<nat>)
    requires Distinct(s) && (forall x {:trigger x in nodes} :: x in nodes ==> x in s)
    requires forall k: nat {:trigger LinkedAt(nodes, s, k)} :: k < |s| ==> LinkedAt(nodes, s, k)
    ensures Describes(nodes, if s == [] then None else Some(s[0]), if s == [] then None else Some(s[|s| - 1]), s)
  {
    forall k {:trigger s[k]} | 0 <= k < |s|
      ensures s[k] in nodes
    {
      assert LinkedAt(nodes, s, k);
    }
    forall j, k {:trigger s[j], s[k]} | 0 <= j && k == j + 1 < |s|
      ensures nodes[s[j]].next == Some(s[k]) && nodes[s[k]].prev == Some(s[j])
    {
      assert LinkedAt(nodes, s, j) && LinkedAt(nodes, s, k);
    }
    if s != [] {
      assert LinkedAt(nodes, s, 0) && LinkedAt(nodes, s, |s| - 1);
    }
  }

  /** If one is next to the other, it will be next to the other's new position. */
  function Adjusted(link: Option<nat>, other: nat, self: nat): Option<nat> {
    if link == Some(other) then Some(self) else link
  }

  function SetNext(nodes: map<nat, Node>, at: Option<nat>, x: nat): map<nat, Node> {
    if at.Some? && at.value in nodes then nodes[at.value := nodes[at.value].(next := Some(x))] else nodes
  }

  function SetPrev(nodes: map<nat, Node>, at: Option<nat>, x: nat): map<nat, Node> {
    if at.Some? && at.value in nodes then nodes[at.value := nodes[at.value].(prev := Some(x))] else nodes
  }

  /** The links after two elements have been exchanged. */
  function SwapLinks(nodes: map<nat, Node>, a: nat, b: nat): map<nat, Node>
    requires a in nodes && b in nodes
  {
    var aNext, aPrev := Adjusted(nodes[a].next, b, a), Adjusted(nodes[a].prev, b, a);
    var bNext, bPrev := Adjusted(nodes[b].next, a, b), Adjusted(nodes[b].prev, a, b);
    SetNext(SetPrev(SetNext(SetPrev(nodes[a := Node(bPrev, bNext)][b := Node(aPrev, aNext)], aNext, b), aPrev, b),
      bNext, a), bPrev, a)
  }

  lemma {:induction false} SwapAt(nodes: map<nat, Node>, s: seq<nat>, i: nat, j: nat, k: nat)
    requires Distinct(s) && i < |s| && j < |s| && i != j && k < |s|
    requires LinkedAt(nodes, s, i) && LinkedAt(nodes, s, j) && LinkedAt(nodes, s, k)
    requires forall x {:trigger s[x]} :: 0 <= x < |s| ==> s[x] in nodes
    ensures LinkedAt(SwapLinks(nodes, s[i], s[j]), Exchange(s, i, j), k)
  {
  }

  function Swapped(end: Option<nat>, a: nat, b: nat): Option<nat> {
    if end == Some(a) then Some(b) else if end == Some(b) then Some(a) else end
  }

  lemma {:induction false} ExchangeDistinct(s: seq<nat>, i: nat, j: nat)
    requires Distinct(s) && i < |s| && j < |s|
    ensures Distinct(Exchange(s, i, j))
  {
    var r := Exchange(s, i, j);
    forall x, y {:trigger r[x], r[y]} | 0 <= x < y < |r|
      ensures r[x] != r[y]
    {
    }
  }

  lemma {:induction false} ExchangeMembers(nodes: map<nat, Node>, s: seq<nat>, i: nat, j: nat)
    requires (forall y {:trigger y in nodes} :: y in nodes ==> y in s) && i < |s| && j < |s|
    ensures forall y {:trigger y in nodes} :: y in nodes ==> y in Exchange(s, i, j)
  {
    var r := Exchange(s, i, j);
    forall y | y in nodes
      ensures y in r
    {
      var k := IndexOf(s, y);
      assert r[if k == i then j else if k == j then i else k] == y;
    }
  }

  predicate Near(nodes: map<nat, Node>, link: Option<nat>) {
    link.Some? ==> link.value in nodes
  }

  lemma {:induction false} Neighbours(nodes: map<nat, Node>, first: Option<nat>, last: Option<nat>, s: seq<nat>, k: nat)
    requires Describes(nodes, first, last, s) && k < |s|
    ensures LinkedAt(nodes, s, k)
    ensures Near(nodes, nodes[s[k]].prev) && Near(nodes, nodes[s[k]].next)
  {
    Around(nodes, first, last, s, k);
  }

  lemma {:induction false} SwapLinkedAt(nodes: map<nat, Node>, first: Option<nat>, last: Option<nat>, s: seq<nat>,
      i: nat, j: nat, k: nat)
    requires Describes(nodes, first, last, s) && i < |s| && j < |s| && i != j && k < |s| && s[i] in nodes
      && s[j] in nodes
    ensures LinkedAt(SwapLinks(nodes, s[i], s[j]), Exchange(s, i, j), k)
  {
    Neighbours(nodes, first, last, s, i);
    Neighbours(nodes, first, last, s, j);
    Neighbours(nodes, first, last, s, k);
    SwapAt(nodes, s, i, j, k);
  }

  lemma {:induction false} SwapLinkedAll(nodes: map<nat, Node>, first: Option<nat>, last: Option<nat>, s: seq<nat>,
      i: nat, j: nat, r: seq<nat>, nodes': map<nat, Node>)
    requires Describes(nodes, first, last, s) && i < |s| && j < |s| && i != j && s[i] in nodes && s[j] in nodes
    requires r == Exchange(s, i, j) && nodes' == SwapLinks(nodes, s[i], s[j])
    ensures forall k: nat {:trigger LinkedAt(nodes', r, k)} :: k < |s| ==> LinkedAt(nodes', r, k)
  {
    forall k: nat {:trigger LinkedAt(nodes', r, k)} | k < |s|
      ensures LinkedAt(nodes', r, k)
    {
      SwapLinkedAt(nodes, first, last, s, i, j, k);
    }
  }

  lemma {:induction false} SwapKeys(nodes: map<nat, Node>, a: nat, b: nat)
    requires a in nodes && b in nodes
    ensures SwapLinks(nodes, a, b).Keys == nodes.Keys
  {
  }

  lemma {:induction false} SwapDescribes(nodes: map<nat, Node>, first: Option<nat>, last: Option<nat>, s: seq<nat>,
      i: nat, j: nat, r: seq<nat>, nodes': map<nat, Node>)
    requires Describes(nodes, first, last, s) && i < |s| && j < |s| && i != j && s[i] in nodes && s[j] in nodes
    requires r == Exchange(s, i, j) && nodes' == SwapLinks(nodes, s[i], s[j])
    ensures Describes(nodes', Swapped(first, s[i], s[j]), Swapped(last, s[i], s[j]), r)
  {
    SwapLinkedAll(nodes, first, last, s, i, j, r, nodes');
    SwapKeys(nodes, s[i], s[j]);
    ExchangeDistinct(s, i, j);
    ExchangeMembers(nodes, s, i, j);
    LinkedEverywhere(nodes', r);
    SwapEnds(s, i, j);
  }

  lemma {:induction false} SwapEnds(s: seq<nat>, i: nat, j: nat)
    requires Distinct(s) && i < |s| && j < |s| && i != j
    ensures Exchange(s, i, j)[0] == Swapped(Some(s[0]), s[i], s[j]).value
    ensures Exchange(s, i, j)[|s| - 1] == Swapped(Some(s[|s| - 1]), s[i], s[j]).value
  {
  }

  // ---------------------------------------------------------------- following the links

  function Elements(s: seq<nat>): set<nat> {
    if s == [] then {} else {s[0]} + Elements(s[1..])
  }

  /** Following the next links from `at` yields the sequence, and the prev links lead back. */
  ghost predicate Chain(nodes: map<nat, Node>, at: Option<nat>, prev: Option<nat>, last: Option<nat>, s: seq<nat>)
    decreases |s|
  {
    if s == [] then at.None? && last == prev
    else
      && at == Some(s[0]) && s[0] in nodes && nodes[s[0]].prev == prev && s[0] !in s[1..]
      && Chain(nodes, nodes[s[0]].next, Some(s[0]), last, s[1..])
  }

  lemma {:induction false} ElementsIn(s: seq<nat>, x: nat)
    ensures x in Elements(s) <==> x in s
    decreases |s|
  {
    if s == [] {
    } else {
      ElementsIn(s[1..], x);
    }
  }

  lemma {:induction false} ChainLinked(nodes: map<nat, Node>, at: Option<nat>, prev: Option<nat>, last: Option<nat>,
      s: seq<nat>)
    requires Chain(nodes, at, prev, last, s)
    ensures Distinct(s) && Linked(nodes, s)
    ensures s == [] ==> at.None? && last == prev
    ensures s != [] ==>
      at == Some(s[0]) && s[0] in nodes && nodes[s[0]].prev == prev
      && last == Some(s[|s| - 1]) && nodes[s[|s| - 1]].next.None?
    decreases |s|
  {
    if s == [] {
    } else {
      var t := s[1..];
      ChainLinked(nodes, nodes[s[0]].next, Some(s[0]), last, t);
      assert forall k {:trigger s[k]} :: 1 <= k < |s| ==> s[k] == t[k - 1];
      assert forall k {:trigger s[k]} :: 1 <= k < |s| ==> s[k] in t;
      forall j, k {:trigger s[j], s[k]} | 0 <= j && k == j + 1 < |s|
        ensures nodes[s[j]].next == Some(s[k]) && nodes[s[k]].prev == Some(s[j])
      {
        if j > 0 {
          assert s[j] == t[j - 1] && s[k] == t[k - 1];
        } else {
          assert s[k] == t[0];
        }
      }
      if |s| > 1 {
        assert s[|s| - 1] == t[|t| - 1];
      }
    }
  }

  lemma {:induction false} LinkedChain(nodes: map<nat, Node>, at: Option<nat>, prev: Option<nat>, last: Option<nat>,
      s: seq<nat>)
    requires Distinct(s) && Linked(nodes, s)
    requires s == [] ==> at.None? && last == prev
    requires s != [] ==>
      at == Some(s[0]) && s[0] in nodes && nodes[s[0]].prev == prev
      && last == Some(s[|s| - 1]) && nodes[s[|s| - 1]].next.None?
    ensures Chain(nodes, at, prev, last, s)
    decreases |s|
  {
    if s == [] {
    } else {
      var t := s[1..];
      assert forall k {:trigger t[k]} :: 0 <= k < |t| ==> t[k] == s[k + 1];
      if |s| > 1 {
        assert t[0] == s[1] && t[|t| - 1] == s[|s| - 1];
      }
      LinkedChain(nodes, nodes[s[0]].next, Some(s[0]), last, t);
    }
  }

  /** The table and the ends hold the sequence: following the links yields it. */
  ghost predicate Holds(nodes: map<nat, Node>, first: Option<nat>, last: Option<nat>, s: seq<nat>) {
    nodes.Keys == Elements(s) && Chain(nodes, first, None, last, s)
  }

  lemma {:induction false} HoldsDescribes(nodes: map<nat, Node>, first: Option<nat>, last: Option<nat>, s: seq<nat>)
    requires Holds(nodes, first, last, s)
    ensures Describes(nodes, first, last, s)
  {
    ChainLinked(nodes, first, None, last, s);
    forall x | x in nodes
      ensures x in s
    {
      ElementsIn(s, x);
    }
  }

  lemma {:induction false} DescribesHolds(nodes: map<nat, Node>, first: Option<nat>, last: Option<nat>, s: seq<nat>)
    requires Describes(nodes, first, last, s)
    ensures Holds(nodes, first, last, s)
  {
    LinkedChain(nodes, first, None, last, s);
    forall x
      ensures x in nodes.Keys <==> x in Elements(s)
    {
      ElementsIn(s, x);
      if x in s {
        var k := IndexOf(s, x);
        assert s[k] in nodes;
      }
    }
  }

  // ---------------------------------------------------------------- steps on lists that hold a sequence

  lemma {:induction false} InNodes(nodes: map<nat, Node>, first: Option<nat>, last: Option<nat>, s: seq<nat>, x: nat)
    requires Holds(nodes, first, last, s)
    ensures x in nodes <==> x in s
  {
    ElementsIn(s, x);
  }

  /** The links around the place before position k. */
  ghost predicate Place(nodes: map<nat, Node>, first: Option<nat>, last: Option<nat>, s: seq<nat>, k: nat)
    requires k <= |s|
  {
    && Near(nodes, Before(s, k)) && Near(nodes, Behind(s, k))
    && (if k == 0 then first == Behind(s, k) else nodes[s[k - 1]].next == Behind(s, k))
    && (if k == |s| then last == Before(s, k) else nodes[s[k]].prev == Before(s, k))
    && (k < |s| ==> (first == Some(s[k]) <==> k == 0))
    && (k > 0 ==> (last == Some(s[k - 1]) <==> k == |s|))
    && (k < |s| && k > 0 ==> s[k - 1] != s[k])
  }

  lemma {:induction false} PlaceHolds(nodes: map<nat, Node>, first: Option<nat>, last: Option<nat>, s: seq<nat>, k: nat)
    requires Holds(nodes, first, last, s) && k <= |s|
    ensures Place(nodes, first, last, s, k)
  {
    HoldsDescribes(nodes, first, last, s);
    if k < |s| {
      Around(nodes, first, last, s, k);
    }
    if k > 0 {
      Around(nodes, first, last, s, k - 1);
    }
  }

  /** Linking an element in inserts it. */
  lemma {:induction false} InsertHolds(nodes: map<nat, Node>, first: Option<nat>, last: Option<nat>, s: seq<nat>,
      k: nat, x: nat)
    requires Holds(nodes, first, last, s) && k <= |s| && x !in s && Near(nodes, Before(s, k))
      && Near(nodes, Behind(s, k))
    ensures Holds(LinkIn(nodes, x, Before(s, k), Behind(s, k)), if k == 0 then Some(x)
      else first, if k == |s| then Some(x) else last, InsertAt(s, k, x))
    ensures (k == 0 ==> InsertAt(s, k, x) == [x] + s) && (k == |s| ==> InsertAt(s, k, x) == s + [x])
    ensures forall y :: y in InsertAt(s, k, x) <==> y in s || y == x
  {
    InNodes(nodes, first, last, s, x);
    HoldsDescribes(nodes, first, last, s);
    LinkInDescribes(nodes, first, last, s, k, x, LinkIn(nodes, x, Before(s, k), Behind(s, k)), if k == 0 then Some(x)
      else first, if k == |s| then Some(x) else last);
    DescribesHolds(LinkIn(nodes, x, Before(s, k), Behind(s, k)), if k == 0 then Some(x)
      else first, if k == |s| then Some(x) else last, InsertAt(s, k, x));
    forall y
      ensures y in InsertAt(s, k, x) <==> y in s || y == x
    {
      InsertIn(s, k, x, y);
    }
  }

  lemma {:induction false} InsertIn(s: seq<nat>, k: nat, x: nat, y: nat)
    requires k <= |s|
    ensures y in InsertAt(s, k, x) <==> y in s || y == x
    decreases k
  {
    if k > 0 {
      InsertIn(s[1..], k - 1, x, y);
    }
  }

  lemma {:induction false} RemoveIn(s: seq<nat>, k: nat, y: nat)
    requires k < |s| && Distinct(s)
    ensures y in RemoveAt(s, k) <==> y in s && y != s[k]
  {
    var r := RemoveAt(s, k);
    if y in s && y != s[k] {
      var j := IndexOf(s, y);
      assert r[if j < k then j else j - 1] == y;
    }
  }

  lemma {:induction false} RemoveLinks(nodes: map<nat, Node>, first: Option<nat>, last: Option<nat>, s: seq<nat>,
      k: nat)
    requires Holds(nodes, first, last, s) && k < |s|
    ensures s[k] in nodes && nodes[s[k]] == Node(Before(s, k), Behind(s, k + 1))
    ensures (Before(s, k).Some? ==> Before(s, k).value in nodes && Before(s, k).value != s[k])
      && (Behind(s, k + 1).Some? ==> Behind(s, k + 1).value in nodes && Behind(s, k + 1).value != s[k])
    ensures (first == Some(s[k]) <==> k == 0) && (last == Some(s[k]) <==> k == |s| - 1)
    ensures Holds(LinkOut(nodes, s[k], Before(s, k), Behind(s, k + 1)), if k == 0 then nodes[s[k]].next
      else first, if k == |s| - 1 then nodes[s[k]].prev else last, RemoveAt(s, k))
    ensures Distinct(s)
  {
    HoldsDescribes(nodes, first, last, s);
    LinkOutDescribes(nodes, first, last, s, k);
    DescribesHolds(LinkOut(nodes, s[k], Before(s, k), Behind(s, k + 1)), if k == 0 then nodes[s[k]].next
      else first, if k == |s| - 1 then nodes[s[k]].prev else last, RemoveAt(s, k));
  }

  lemma {:induction false} RemovedMembers(s: seq<nat>, k: nat)
    requires k < |s| && Distinct(s)
    ensures forall y :: y in RemoveAt(s, k) <==> y in s && y != s[k]
  {
    forall y
      ensures y in RemoveAt(s, k) <==> y in s && y != s[k]
    {
      RemoveIn(s, k, y);
    }
  }

  /** Linking an element out removes it. */
  lemma {:induction false} RemoveHolds(nodes: map<nat, Node>, first: Option<nat>, last: Option<nat>, s: seq<nat>,
      k: nat)
    requires Holds(nodes, first, last, s) && k < |s|
    ensures s[k] in nodes && nodes[s[k]] == Node(Before(s, k), Behind(s, k + 1))
    ensures (Before(s, k).Some? ==> Before(s, k).value in nodes && Before(s, k).value != s[k])
      && (Behind(s, k + 1).Some? ==> Behind(s, k + 1).value in nodes && Behind(s, k + 1).value != s[k])
    ensures (first == Some(s[k]) <==> k == 0) && (last == Some(s[k]) <==> k == |s| - 1)
    ensures Holds(LinkOut(nodes, s[k], Before(s, k), Behind(s, k + 1)), if k == 0 then nodes[s[k]].next
      else first, if k == |s| - 1 then nodes[s[k]].prev else last, RemoveAt(s, k))
    ensures forall y :: y in RemoveAt(s, k) <==> y in s && y != s[k]
  {
    RemoveLinks(nodes, first, last, s, k);
    RemovedMembers(s, k);
  }

  lemma {:induction false} ExchangeIn(s: seq<nat>, i: nat, j: nat, y: nat)
    requires i < |s| && j < |s|
    ensures y in Exchange(s, i, j) <==> y in s
  {
    var r := Exchange(s, i, j);
    if y in s {
      var k := IndexOf(s, y);
      assert r[if k == i then j else if k == j then i else k] == y;
    }
  }

  /** Linking two elements the other way round exchanges them. */
  lemma {:induction false} ExchangeHolds(nodes: map<nat, Node>, first: Option<nat>, last: Option<nat>, s: seq<nat>,
      i: nat, j: nat)
    requires Holds(nodes, first, last, s) && i < |s| && j < |s| && i != j
    ensures s[i] in nodes && s[j] in nodes
    ensures Near(nodes, nodes[s[i]].prev) && Near(nodes, nodes[s[i]].next) && Near(nodes, nodes[s[j]].prev)
      && Near(nodes, nodes[s[j]].next)
    ensures Holds(SwapLinks(nodes, s[i], s[j]), Swapped(first, s[i], s[j]), Swapped(last, s[i], s[j]),
      Exchange(s, i, j))
  {
    HoldsDescribes(nodes, first, last, s);
    Neighbours(nodes, first, last, s, i);
    Neighbours(nodes, first, last, s, j);
    SwapDescribes(nodes, first, last, s, i, j, Exchange(s, i, j), SwapLinks(nodes, s[i], s[j]));
    DescribesHolds(SwapLinks(nodes, s[i], s[j]), Swapped(first, s[i], s[j]), Swapped(last, s[i], s[j]),
      Exchange(s, i, j));
  }

  /** The neighbours may be told in either order. */
  lemma {:induction false} LinkInEither(nodes: map<nat, Node>, x: nat, prev: Option<nat>, next: nat)
    requires Near(nodes, prev) && next in nodes && x !in nodes && prev != Some(next)
    ensures var a := nodes[x := Node(prev, Some(next))];
      var b := if prev.Some? then a[prev.value := a[prev.value].(next := Some(x))] else a;
      b[next := b[next].(prev := Some(x))] == LinkIn(nodes, x, prev, Some(next))
  {
  }

  lemma HoldsDistinct(nodes: map<nat, Node>, first: Option<nat>, last: Option<nat>, s: seq<nat>)
    requires Holds(nodes, first, last, s)
    ensures Distinct(s)
  {
    HoldsDescribes(nodes, first, last, s);
  }

  lemma FollowNext(s: seq<nat>, rest: seq<nat>)
    ensures rest != [] ==> s + rest == (s + [rest[0]]) + rest[1..]
  {
  }

  class List {
    var nodes: map<nat, Node>
    var first: Option<nat>
    var last: Option<nat>
    ghost var order: seq<nat>

    constructor ()
      ensures Valid() && order == []
    {
      nodes, first, last, order := map[], None, None, [];
    }

    /** Following the links from the first element to the last one yields the order. */
    ghost predicate Valid()
      reads this
    {
      Holds(nodes, first, last, order)
    }

    /** All elements, collected along the next links. */
    method Collect() returns (s: seq<nat>)
      requires Valid()
      ensures s == order && Distinct(s)
    {
      HoldsDistinct(nodes, first, last, order);
      s := [];
      var at := first;
      ghost var prev: Option<nat>, rest := None, order;
      while at.Some?
        invariant Chain(nodes, at, prev, last, rest) && s + rest == order
        decreases |rest|
      {
        FollowNext(s, rest);
        s, prev, rest, at := s + [at.value], at, rest[1..], nodes[at.value].next;
      }
    }

    /** Append to the end. */
    method Append(x: nat)
      requires Valid() && x !in order
      modifies this
      ensures Valid() && order == old(order) + [x]
    {
      ghost var s := order;
      PlaceHolds(nodes, first, last, s, |s|);
      InsertHolds(nodes, first, last, s, |s|, x);
      nodes := nodes[x := Node(last, None)];
      if last.Some? {
        nodes := nodes[last.value := nodes[last.value].(next := Some(x))];
      }
      if first.None? {
        first := Some(x);
      }
      last := Some(x);
      order := s + [x];
    }

    /** Prepend to the beginning. */
    method Prepend(x: nat)
      requires Valid() && x !in order
      modifies this
      ensures Valid() && order == [x] + old(order)
    {
      ghost var s := order;
      PlaceHolds(nodes, first, last, s, 0);
      PlaceHolds(nodes, first, last, s, |s|);
      InsertHolds(nodes, first, last, s, 0, x);
      nodes := nodes[x := Node(None, first)];
      if first.Some? {
        nodes := nodes[first.value := nodes[first.value].(prev := Some(x))];
      }
      if last.None? {
        last := Some(x);
      }
      first := Some(x);
      order := [x] + s;
    }

    /** Insert behind an element. */
    method InsertAfter(x: nat, after: nat)
      requires Valid() && x !in order && after in order
      modifies this
      ensures Valid() && order == InsertAt(old(order), IndexOf(old(order), after) + 1, x)
      ensures forall y :: y in order <==> y in old(order) || y == x
    {
      ghost var s, k := order, IndexOf(order, after);
      PlaceHolds(nodes, first, last, s, k + 1);
      InNodes(nodes, first, last, s, x);
      InsertHolds(nodes, first, last, s, k + 1, x);
      nodes := nodes[x := Node(Some(after), nodes[after].next)];
      if nodes[after].next.Some? {
        var next := nodes[after].next.value;
        nodes := nodes[next := nodes[next].(prev := Some(x))];
      }
      nodes := nodes[after := nodes[after].(next := Some(x))];
      if last == Some(after) {
        last := Some(x);
      }
      order := InsertAt(s, k + 1, x);
    }

    /** Insert before an element. */
    method InsertBefore(x: nat, before: nat)
      requires Valid() && x !in order && before in order
      modifies this
      ensures Valid() && order == InsertAt(old(order), IndexOf(old(order), before), x)
      ensures forall y :: y in order <==> y in old(order) || y == x
    {
      ghost var s, k := order, IndexOf(order, before);
      PlaceHolds(nodes, first, last, s, k);
      InNodes(nodes, first, last, s, x);
      InsertHolds(nodes, first, last, s, k, x);
      nodes := nodes[x := Node(nodes[before].prev, Some(before))];
      if nodes[before].prev.Some? {
        var prev := nodes[before].prev.value;
        nodes := nodes[prev := nodes[prev].(next := Some(x))];
      }
      nodes := nodes[before := nodes[before].(prev := Some(x))];
      if first == Some(before) {
        first := Some(x);
      }
      LinkInEither(old(nodes), x, Before(s, k), before);
      order := InsertAt(s, k, x);
    }

    /** Remove an element. */
    method Remove(x: nat)
      requires Valid() && x in order
      modifies this
      ensures Valid() && order == RemoveAt(old(order), IndexOf(old(order), x))
      ensures forall y :: y in order <==> y in old(order) && y != x
    {
      ghost var s, k := order, IndexOf(order, x);
      RemoveHolds(nodes, first, last, s, k);
      var node := nodes[x];
      nodes := nodes - {x};
      if node.next.Some? {
        nodes := nodes[node.next.value := nodes[node.next.value].(prev := node.prev)];
      }
      if node.prev.Some? {
        nodes := nodes[node.prev.value := nodes[node.prev.value].(next := node.next)];
      }
      if first == Some(x) {
        first := node.next;
      }
      if last == Some(x) {
        last := node.prev;
      }
      order := RemoveAt(s, k);
    }

    /** Let the neighbours of an element link to it. */
    method LinkAround(x: nat, prev: Option<nat>, next: Option<nat>)
      requires Near(nodes, prev) && Near(nodes, next)
      modifies `nodes
      ensures nodes == SetNext(SetPrev(old(nodes), next, x), prev, x) && nodes.Keys == old(nodes).Keys
    {
      if next.Some? {
        nodes := nodes[next.value := nodes[next.value].(prev := Some(x))];
      }
      if prev.Some? {
        nodes := nodes[prev.value := nodes[prev.value].(next := Some(x))];
      }
    }

    /** Link two elements, and what is next to them, the other way round. */
    method Relink(a: nat, b: nat)
      requires a in nodes && b in nodes && a != b
      requires Near(nodes, nodes[a].prev) && Near(nodes, nodes[a].next) && Near(nodes, nodes[b].prev)
        && Near(nodes, nodes[b].next)
      modifies `nodes
      ensures nodes == SwapLinks(old(nodes), a, b)
    {
      var aNext, aPrev, bNext, bPrev := nodes[a].next, nodes[a].prev, nodes[b].next, nodes[b].prev;
      if aNext == Some(b) {
        aNext := Some(a);
      }
      if aPrev == Some(b) {
        aPrev := Some(a);
      }
      if bNext == Some(a) {
        bNext := Some(b);
      }
      if bPrev == Some(a) {
        bPrev := Some(b);
      }
      nodes := nodes[a := Node(bPrev, bNext)];
      nodes := nodes[b := Node(aPrev, aNext)];
      LinkAround(b, aPrev, aNext);
      LinkAround(a, bPrev, bNext);
    }

    /** `swap_blocks`: exchange the positions of two elements. */
    method Swap(a: nat, b: nat)
      requires Valid() && a in order && b in order
      modifies this
      ensures Valid() && order == Exchange(old(order), IndexOf(old(order), a), IndexOf(old(order), b))
      ensures forall y :: y in order <==> y in old(order)
    {
      ghost var s, i, j := order, IndexOf(order, a), IndexOf(order, b);
      forall y
        ensures y in Exchange(s, i, j) <==> y in s
      {
        ExchangeIn(s, i, j, y);
      }
      if a == b {
        assert Exchange(s, i, j) == s;
        return;
      }
      ExchangeHolds(nodes, first, last, s, i, j);
      Relink(a, b);
      if first == Some(a) {
        first := Some(b);
      } else if first == Some(b) {
        first := Some(a);
      }
      if last == Some(a) {
        last := Some(b);
      } else if last == Some(b) {
        last := Some(a);
      }
      order := Exchange(s, i, j);
    }
  }
}
