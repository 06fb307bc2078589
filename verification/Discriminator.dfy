/** Discriminating the values of a phi node by the branch conditions on the way to them
    (src/pass/cfs.rs, `build_discriminator`). */
module Discriminator {

  /** A branch condition that must be 1, or 0. */
  datatype Cond = Pos(value: nat) | Neg(value: nat)

  /** A value, and the conditions under which control arrives with it. */
  datatype Way = Way(value: nat, conds: seq<Cond>)

  /** What is built: a value, or a multiplexer. */
  datatype Expr = Value(value: nat) | Mux(disc: nat, ifZero: Expr, ifOne: Expr)

  function Eval(e: Expr, env: nat -> bool): nat {
    match e
    case Value(v) => v
    case Mux(d, a, b) => if env(d) then Eval(b, env) else Eval(a, env)
  }

  predicate CondHolds(c: Cond, env: nat -> bool) {
    env(c.value) == c.Pos?
  }

  /** Control takes this way. */
  predicate Consistent(w: Way, env: nat -> bool) {
    forall c :: c in w.conds ==> CondHolds(c, env)
  }

  // ---------------------------------------------------------------- splitting

  /** The conditions without one of them. */
  function Without(conds: seq<Cond>, c: Cond): seq<Cond> {
    if conds == [] then []
    else if conds[0] == c then Without(conds[1..], c)
    else [conds[0]] + Without(conds[1..], c)
  }

  lemma {:induction false} WithoutIn(conds: seq<Cond>, c: Cond, d: Cond)
    ensures d in Without(conds, c) <==> d in conds && d != c
    decreases |conds|
  {
    if conds == [] {
    } else {
      WithoutIn(conds[1..], c, d);
    }
  }

  lemma {:induction false} WithoutCommute(conds: seq<Cond>, c: Cond, d: Cond)
    ensures Without(Without(conds, c), d) == Without(Without(conds, d), c)
    decreases |conds|
  {
    if conds == [] {
    } else {
      WithoutCommute(conds[1..], c, d);
      assert conds[0] != c ==> ([conds[0]] + Without(conds[1..], c))[1..] == Without(conds[1..], c);
      assert conds[0] != d ==> ([conds[0]] + Without(conds[1..], d))[1..] == Without(conds[1..], d);
    }
  }

  /** The ways with a condition, without that condition. */
  function Split(ways: seq<Way>, c: Cond): (r: seq<Way>)
    ensures |r| <= |ways|
  {
    if ways == [] then []
    else if c in ways[0].conds then [Way(ways[0].value, Without(ways[0].conds, c))] + Split(ways[1..], c)
    else Split(ways[1..], c)
  }

  lemma {:induction false} SplitCommute(ways: seq<Way>, c: Cond, d: Cond)
    requires c != d
    ensures Split(Split(ways, c), d) == Split(Split(ways, d), c)
    decreases |ways|
  {
    if ways == [] {
    } else {
      var w, rest := ways[0], ways[1..];
      SplitCommute(rest, c, d);
      WithoutIn(w.conds, c, d);
      WithoutIn(w.conds, d, c);
      WithoutCommute(w.conds, c, d);
      var wc, wd := Way(w.value, Without(w.conds, c)), Way(w.value, Without(w.conds, d));
      assert ([wc] + Split(rest, c))[1..] == Split(rest, c);
      assert ([wd] + Split(rest, d))[1..] == Split(rest, d);
    }
  }

  /** A way is among the ways with one of its conditions. */
  lemma {:induction false} SplitHas(ways: seq<Way>, c: Cond, k: nat) returns (j: nat)
    requires k < |ways| && c in ways[k].conds
    ensures j < |Split(ways, c)| && Split(ways, c)[j] == Way(ways[k].value, Without(ways[k].conds, c))
    decreases |ways|
  {
    if k == 0 {
      j := 0;
    } else {
      j := SplitHas(ways[1..], c, k - 1);
      if c in ways[0].conds {
        j := j + 1;
      }
    }
  }

  /** Every way with a condition comes from a way. */
  lemma {:induction false} SplitFrom(ways: seq<Way>, c: Cond, j: nat) returns (k: nat)
    requires j < |Split(ways, c)|
    ensures k < |ways| && c in ways[k].conds && Split(ways, c)[j] == Way(ways[k].value, Without(ways[k].conds, c))
    decreases |ways|
  {
    if c in ways[0].conds {
      if j == 0 {
        k := 0;
      } else {
        k := SplitFrom(ways[1..], c, j - 1);
        k := k + 1;
      }
    } else {
      k := SplitFrom(ways[1..], c, j);
      k := k + 1;
    }
  }

  // ---------------------------------------------------------------- decision trees

  /** A decision tree; leaves may be missing. */
  datatype Tree = Missing | Leaf(value: nat) | Node(cond: nat, ifZero: Tree, ifOne: Tree)

  /** How often a condition occurs. */
  function Occurrences(conds: seq<Cond>, c: Cond): nat {
    if conds == [] then 0 else (if conds[|conds| - 1] == c then 1 else 0) + Occurrences(conds[..|conds| - 1], c)
  }

  /** How often a value is mentioned, one way or the other. */
  function Mentions(conds: seq<Cond>, v: nat): nat {
    Occurrences(conds, Pos(v)) + Occurrences(conds, Neg(v))
  }

  /** The ways are the paths from the root of the tree to its leaves, in any order, each with its conditions in
      any order. */
  ghost predicate WaysOf(t: Tree, ways: seq<Way>)
    decreases t
  {
    match t
    case Missing => ways == []
    case Leaf(v) => ways == [Way(v, [])]
    case Node(x, a, b) =>
      && (forall k :: 0 <= k < |ways| ==> Mentions(ways[k].conds, x) == 1)
      && WaysOf(a, Split(ways, Neg(x))) && WaysOf(b, Split(ways, Pos(x)))
  }

  /** What is left of a tree once a condition is known. */
  function Restrict(t: Tree, c: Cond): Tree {
    match t
    case Missing => Missing
    case Leaf(_) => Missing
    case Node(x, a, b) =>
      if x == c.value then (if c.Pos? then b else a) else Node(x, Restrict(a, c), Restrict(b, c))
  }

  lemma {:induction false} OccurrencesIn(conds: seq<Cond>, c: Cond)
    ensures Occurrences(conds, c) > 0 <==> c in conds
    decreases |conds|
  {
    if conds == [] {
    } else {
      OccurrencesIn(conds[..|conds| - 1], c);
      assert conds == conds[..|conds| - 1] + [conds[|conds| - 1]];
    }
  }

  lemma {:induction false} OccurrencesCons(c: Cond, conds: seq<Cond>, d: Cond)
    ensures Occurrences([c] + conds, d) == (if c == d then 1 else 0) + Occurrences(conds, d)
    decreases |conds|
  {
    if conds == [] {
      assert [c] + conds == [c] && [c][..0] == [];
    } else {
      OccurrencesCons(c, conds[..|conds| - 1], d);
      assert ([c] + conds)[..|conds|] == [c] + conds[..|conds| - 1];
    }
  }

  /** Taking out a condition does not touch the others. */
  lemma {:induction false} OccurrencesWithout(conds: seq<Cond>, c: Cond, d: Cond)
    ensures Occurrences(Without(conds, c), d) == if d == c then 0 else Occurrences(conds, d)
    decreases |conds|
  {
    if conds == [] {
    } else {
      OccurrencesWithout(conds[1..], c, d);
      OccurrencesCons(conds[0], conds[1..], d);
      assert conds == [conds[0]] + conds[1..];
      if conds[0] != c {
        OccurrencesCons(conds[0], Without(conds[1..], c), d);
      }
    }
  }

  /** Splitting the paths of a tree yields the paths of the restricted tree. */
  lemma {:induction false} RestrictWays(t: Tree, ways: seq<Way>, c: Cond)
    requires WaysOf(t, ways)
    ensures WaysOf(Restrict(t, c), Split(ways, c))
    decreases t
  {
    match t
    case Missing =>
    case Leaf(v) => assert ways[1..] == [];
    case Node(x, a, b) =>
      if x != c.value {
        SplitCommute(ways, Neg(x), c);
        SplitCommute(ways, Pos(x), c);
        RestrictWays(a, Split(ways, Neg(x)), c);
        RestrictWays(b, Split(ways, Pos(x)), c);
        forall j | 0 <= j < |Split(ways, c)|
          ensures Mentions(Split(ways, c)[j].conds, x) == 1
        {
          var k := SplitFrom(ways, c, j);
          OccurrencesWithout(ways[k].conds, c, Pos(x));
          OccurrencesWithout(ways[k].conds, c, Neg(x));
        }
      }
  }

  /** No path of a decision tree mentions a value twice. */
  lemma {:induction false} MentionedOnce(t: Tree, ways: seq<Way>, k: nat, v: nat)
    requires WaysOf(t, ways) && k < |ways|
    ensures Mentions(ways[k].conds, v) <= 1
    decreases t
  {
    match t
    case Leaf(_) =>
    case Node(x, a, b) =>
      if v != x {
        OccurrencesIn(ways[k].conds, Pos(x));
        OccurrencesIn(ways[k].conds, Neg(x));
        var c := if Pos(x) in ways[k].conds then Pos(x) else Neg(x);
        var j := SplitHas(ways, c, k);
        MentionedOnce(if c.Pos? then b else a, Split(ways, c), j, v);
        OccurrencesWithout(ways[k].conds, c, Pos(v));
        OccurrencesWithout(ways[k].conds, c, Neg(v));
      }
  }

  // ---------------------------------------------------------------- counting

  function CountWays(ways: seq<Way>, c: Cond): nat {
    if ways == [] then 0 else Occurrences(ways[|ways| - 1].conds, c) + CountWays(ways[..|ways| - 1], c)
  }

  lemma {:induction false} CountCons(w: Way, ways: seq<Way>, c: Cond)
    ensures CountWays([w] + ways, c) == Occurrences(w.conds, c) + CountWays(ways, c)
    decreases |ways|
  {
    if ways == [] {
      assert [w] + ways == [w] && [w][..0] == [];
    } else {
      CountCons(w, ways[..|ways| - 1], c);
      assert ([w] + ways)[..|ways|] == [w] + ways[..|ways| - 1];
    }
  }

  /** If every way has a condition at most once, as many ways have it as it occurs. */
  lemma {:induction false} CountIsSplit(ways: seq<Way>, c: Cond)
    requires forall k :: 0 <= k < |ways| ==> Occurrences(ways[k].conds, c) <= 1
    ensures CountWays(ways, c) == |Split(ways, c)|
    decreases |ways|
  {
    if ways == [] {
    } else {
      OccurrencesIn(ways[0].conds, c);
      CountIsSplit(ways[1..], c);
      CountCons(ways[0], ways[1..], c);
      assert ways == [ways[0]] + ways[1..];
    }
  }

  /** A value that is mentioned as often as there are ways is mentioned on every one of them. */
  lemma {:induction false} MentionedByAll(ways: seq<Way>, v: nat)
    requires forall k :: 0 <= k < |ways| ==> Mentions(ways[k].conds, v) <= 1
    ensures CountWays(ways, Pos(v)) + CountWays(ways, Neg(v)) <= |ways|
    ensures CountWays(ways, Pos(v)) + CountWays(ways, Neg(v)) == |ways| <==> forall k :: 0 <= k < |ways| ==>
      Mentions(ways[k].conds, v) == 1
    decreases |ways|
  {
    if ways == [] {
    } else {
      var n := |ways| - 1;
      MentionedByAll(ways[..n], v);
      assert forall k :: 0 <= k < n ==> ways[..n][k] == ways[k];
    }
  }

  /** A value that all ways mention, and that tells some of them apart. */
  ghost predicate Discriminates(ways: seq<Way>, v: nat) {
    && (forall k :: 0 <= k < |ways| ==> Mentions(ways[k].conds, v) == 1)
    && Split(ways, Neg(v)) != [] && Split(ways, Pos(v)) != []
  }

  lemma {:induction false} SplitSizes(ways: seq<Way>, v: nat)
    requires forall k :: 0 <= k < |ways| ==> Mentions(ways[k].conds, v) == 1
    ensures |Split(ways, Neg(v))| + |Split(ways, Pos(v))| == |ways|
    decreases |ways|
  {
    if ways == [] {
    } else {
      OccurrencesIn(ways[0].conds, Pos(v));
      OccurrencesIn(ways[0].conds, Neg(v));
      SplitSizes(ways[1..], v);
    }
  }

  lemma {:induction false} SplitNonempty(ways: seq<Way>, c: Cond, d: Cond)
    requires Split(Split(ways, c), d) != []
    ensures Split(ways, d) != []
  {
    var j := SplitFrom(Split(ways, c), d, 0);
    var k := SplitFrom(ways, c, j);
    WithoutIn(ways[k].conds, c, d);
    var _ := SplitHas(ways, d, k);
  }

  /** The paths of a decision tree with at least two of them part somewhere. */
  lemma {:induction false} SomethingDiscriminates(t: Tree, ways: seq<Way>) returns (y: nat)
    requires WaysOf(t, ways) && |ways| >= 2
    ensures Discriminates(ways, y)
    decreases t
  {
    var x, a, b := t.cond, t.ifZero, t.ifOne;
    SplitSizes(ways, x);
    if Split(ways, Neg(x)) != [] && Split(ways, Pos(x)) != [] {
      y := x;
    } else {
      var c := if Split(ways, Pos(x)) == [] then Neg(x) else Pos(x);
      y := SomethingDiscriminates(if c.Pos? then b else a, Split(ways, c));
      forall k | 0 <= k < |ways|
        ensures Mentions(ways[k].conds, y) == 1
      {
        OccurrencesIn(ways[k].conds, Pos(x));
        OccurrencesIn(ways[k].conds, Neg(x));
        var d := if Pos(x) in ways[k].conds then Pos(x) else Neg(x);
        var j := SplitHas(ways, d, k);
        OccurrencesWithout(ways[k].conds, c, Pos(y));
        OccurrencesWithout(ways[k].conds, c, Neg(y));
      }
      SplitNonempty(ways, c, Neg(y));
      SplitNonempty(ways, c, Pos(y));
    }
  }

  /** The number of mentions, and the imbalance between the two kinds. */
  function Uses(ways: seq<Way>, v: nat): nat {
    CountWays(ways, Pos(v)) + CountWays(ways, Neg(v))
  }

  function Tick(ways: seq<Way>, v: nat): int {
    CountWays(ways, Pos(v)) - CountWays(ways, Neg(v))
  }

  function Abs(x: int): nat {
    if x < 0 then -x else x
  }

  /** More mentions come first, then less imbalance. */
  predicate AtMost(a: (nat, int), b: (nat, int)) {
    a.0 < b.0 || (a.0 == b.0 && Abs(a.1) >= Abs(b.1))
  }

  /** Whichever value is mentioned most, with the least imbalance among those, discriminates the ways. */
  lemma {:induction false} LargestDiscriminates(t: Tree, ways: seq<Way>, d: nat)
    requires WaysOf(t, ways) && |ways| >= 2
    requires forall v: nat :: Uses(ways, v) > 0 ==>
      AtMost((Uses(ways, v), Tick(ways, v)), (Uses(ways, d), Tick(ways, d)))
    ensures Discriminates(ways, d)
  {
    var y := SomethingDiscriminates(t, ways);
    CountsAre(t, ways, y);
    CountsAre(t, ways, d);
    assert AtMost((Uses(ways, y), Tick(ways, y)), (Uses(ways, d), Tick(ways, d)));
    assert Uses(ways, d) == |ways| && Abs(Tick(ways, d)) < |ways|;
  }

  lemma {:induction false} CountsAre(t: Tree, ways: seq<Way>, v: nat)
    requires WaysOf(t, ways)
    ensures CountWays(ways, Pos(v)) == |Split(ways, Pos(v))| && CountWays(ways, Neg(v)) == |Split(ways, Neg(v))|
    ensures Uses(ways, v) <= |ways|
    ensures Uses(ways, v) == |ways| <==> forall k :: 0 <= k < |ways| ==> Mentions(ways[k].conds, v) == 1
  {
    forall k | 0 <= k < |ways|
      ensures Mentions(ways[k].conds, v) <= 1
    {
      MentionedOnce(t, ways, k, v);
    }
    MentionedByAll(ways, v);
    CountIsSplit(ways, Pos(v));
    CountIsSplit(ways, Neg(v));
  }

  // ---------------------------------------------------------------- building

  type Table = map<nat, (nat, int)>

  ghost predicate CountsOf(table: Table, ways: seq<Way>, conds: seq<Cond>, v: nat) {
    && (v in table <==> Uses(ways, v) + Mentions(conds, v) > 0)
    && (v in table ==> table[v] == (Uses(ways, v) + Mentions(conds, v),
      Tick(ways, v) + Occurrences(conds, Pos(v)) - Occurrences(conds, Neg(v))))
  }

  /** The table holds the counts of the ways, and of some more conditions. */
  ghost predicate Counts(table: Table, ways: seq<Way>, conds: seq<Cond>) {
    forall v: nat {:trigger CountsOf(table, ways, conds, v)} :: CountsOf(table, ways, conds, v)
  }

  /** One more mention. */
  function Bump(table: Table, c: Cond): Table {
    var (n, tick) := if c.value in table then table[c.value] else (0, 0);
    table[c.value := (n + 1, tick + if c.Pos? then 1 else -1)]
  }

  lemma {:induction false} OccurrencesSnoc(conds: seq<Cond>, c: Cond, d: Cond)
    ensures Occurrences(conds + [c], d) == (if c == d then 1 else 0) + Occurrences(conds, d)
  {
    assert (conds + [c])[..|conds|] == conds;
  }

  lemma {:induction false} CountsCondOf(table: Table, ways: seq<Way>, conds: seq<Cond>, c: Cond, v: nat)
    requires CountsOf(table, ways, conds, v)
    ensures CountsOf(Bump(table, c), ways, conds + [c], v)
  {
    OccurrencesSnoc(conds, c, Pos(v));
    OccurrencesSnoc(conds, c, Neg(v));
  }

  lemma {:induction false} CountsCond(table: Table, ways: seq<Way>, conds: seq<Cond>, c: Cond)
    requires Counts(table, ways, conds)
    ensures Counts(Bump(table, c), ways, conds + [c])
  {
    forall v: nat {:trigger CountsOf(Bump(table, c), ways, conds + [c], v)}
      ensures CountsOf(Bump(table, c), ways, conds + [c], v)
    {
      assert CountsOf(table, ways, conds, v);
      CountsCondOf(table, ways, conds, c, v);
    }
  }

  lemma {:induction false} CountsWay(table: Table, ways: seq<Way>, w: Way)
    requires Counts(table, ways, w.conds)
    ensures Counts(table, ways + [w], [])
  {
    forall v: nat {:trigger CountsOf(table, ways + [w], [], v)}
      ensures CountsOf(table, ways + [w], [], v)
    {
      assert CountsOf(table, ways, w.conds, v);
      assert (ways + [w])[..|ways|] == ways;
    }
  }

  /** Count how often each value is mentioned. */
  method CountUses(ways: seq<Way>) returns (table: Table)
    ensures Counts(table, ways, [])
  {
    table := map[];
    for i := 0 to |ways|
      invariant Counts(table, ways[..i], [])
    {
      var conds := ways[i].conds;
      for j := 0 to |conds|
        invariant Counts(table, ways[..i], conds[..j])
      {
        var c := conds[j];
        assert conds[..j + 1] == conds[..j] + [c];
        CountsCond(table, ways[..i], conds[..j], c);
        table := Bump(table, c);
      }
      assert conds[..|conds|] == conds;
      CountsWay(table, ways[..i], ways[i]);
      assert ways[..i + 1] == ways[..i] + [ways[i]];
    }
    assert ways[..|ways|] == ways;
  }

  /** Any of the largest entries, depending on the order in which the hash map yields them. */
  method Largest(table: Table) returns (disc: nat)
    requires table != map[]
    ensures disc in table && forall v :: v in table ==> AtMost(table[v], table[disc])
  {
    disc :| disc in table;
    var rest := table.Keys - {disc};
    while rest != {}
      invariant rest <= table.Keys && disc in table && disc !in rest
      invariant forall v :: v in table && v !in rest ==> AtMost(table[v], table[disc])
      decreases |rest|
    {
      var v :| v in rest;
      rest := rest - {v};
      if AtMost(table[disc], table[v]) {
        disc := v;
      }
    }
  }

  lemma {:induction false} ConsistentSplit(ways: seq<Way>, d: nat, k: nat, env: nat -> bool, c: Cond) returns (j: nat)
    requires k < |ways| && Consistent(ways[k], env) && Mentions(ways[k].conds, d) == 1 && c == if env(d) then Pos(d)
      else Neg(d)
    ensures j < |Split(ways, c)| && Consistent(Split(ways, c)[j], env) && Split(ways, c)[j].value == ways[k].value
  {
    OccurrencesIn(ways[k].conds, Pos(d));
    OccurrencesIn(ways[k].conds, Neg(d));
    assert CondHolds(if c in ways[k].conds then c else if c.Pos? then Neg(d) else Pos(d), env);
    j := SplitHas(ways, c, k);
    forall x | x in Without(ways[k].conds, c)
      ensures CondHolds(x, env)
    {
      WithoutIn(ways[k].conds, c, x);
    }
  }

  /** For every valuation that takes a way, the expression yields that way's value. */
  ghost predicate Right(ways: seq<Way>, e: Expr) {
    forall env: nat -> bool, k: nat {:trigger Consistent(ways[k], env)} :: k < |ways| && Consistent(ways[k], env) ==>
      Eval(e, env) == ways[k].value
  }

  lemma {:induction false} MuxRight(ways: seq<Way>, d: nat, ifZero: Expr, ifOne: Expr)
    requires forall k :: 0 <= k < |ways| ==> Mentions(ways[k].conds, d) == 1
    requires Right(Split(ways, Neg(d)), ifZero) && Right(Split(ways, Pos(d)), ifOne)
    ensures Right(ways, Mux(d, ifZero, ifOne))
  {
    forall env: nat -> bool, k: nat {:trigger Consistent(ways[k], env)} | k < |ways| && Consistent(ways[k], env)
      ensures Eval(Mux(d, ifZero, ifOne), env) == ways[k].value
    {
      assert Mentions(ways[k].conds, d) == 1;
      var c := if env(d) then Pos(d) else Neg(d);
      var j := ConsistentSplit(ways, d, k, env, c);
      assert Consistent(Split(ways, c)[j], env);
    }
  }

  /** `build_discriminator`: for every valuation, the multiplexers yield the value of the way that it takes. */
  method BuildDiscriminator(ways: seq<Way>, ghost t: Tree) returns (e: Expr)
    requires WaysOf(t, ways) && ways != []
    ensures Right(ways, e)
    decreases |ways|
  {
    if |ways| == 1 {
      return Value(ways[0].value);
    }
    var table := CountUses(ways);
    SomethingCounts(t, ways, table);
    var disc := Largest(table);
    forall v: nat | Uses(ways, v) > 0
      ensures AtMost((Uses(ways, v), Tick(ways, v)), (Uses(ways, disc), Tick(ways, disc)))
    {
      assert CountsOf(table, ways, [], v) && CountsOf(table, ways, [], disc);
    }
    LargestDiscriminates(t, ways, disc);
    SplitSizes(ways, disc);
    RestrictWays(t, ways, Neg(disc));
    RestrictWays(t, ways, Pos(disc));
    var ifZero := BuildDiscriminator(Split(ways, Neg(disc)), Restrict(t, Neg(disc)));
    var ifOne := BuildDiscriminator(Split(ways, Pos(disc)), Restrict(t, Pos(disc)));
    e := Mux(disc, ifZero, ifOne);
    MuxRight(ways, disc, ifZero, ifOne);
  }

  /** There is something to discriminate by. */
  lemma {:induction false} SomethingCounts(t: Tree, ways: seq<Way>, table: Table)
    requires WaysOf(t, ways) && |ways| >= 2 && Counts(table, ways, [])
    ensures table != map[]
  {
    var y := SomethingDiscriminates(t, ways);
    MentionedByAll(ways, y);
    assert CountsOf(table, ways, [], y);
  }
}
