/** The data flow graph of a unit with its use tables (src/ir/unit.rs). */
module UseTables {
  import opened Options
  import Sets

  /** An instruction; a phi node has as many blocks as arguments. */
  datatype InstData = InstData(phi: bool, args: seq<nat>, blocks: seq<nat>)

  /** A value is an argument of the unit, or the result of an instruction. */
  datatype ValueData = Arg | Of(inst: nat)

  type Uses = map<nat, set<nat>>

  /** The placeholder for values and blocks that have been deleted. */
  const INVALID: nat := 0

  // ---------------------------------------------------------------- use tables

  /** An instruction has been registered as a user of some ids. */
  ghost predicate Registered(a: Uses, i: nat, xs: seq<nat>, b: Uses) {
    && (forall x {:trigger x in b} :: x in b <==> x in a || x in xs)
    && (forall x {:trigger b[x]} :: x in b ==> b[x] == (if x in a then a[x] else {}) + (if x in xs then {i} else {}))
  }

  lemma RegisteredNone(a: Uses, i: nat, b: Uses)
    requires Registered(a, i, [], b)
    ensures a == b
  {
    assert forall x {:trigger x in b} :: x in b <==> x in a;
    assert forall x {:trigger b[x]} :: x in b ==> b[x] == a[x];
  }

  /** An instruction has been removed as a user of some ids. */
  ghost predicate Unregistered(a: Uses, i: nat, xs: seq<nat>, b: Uses) {
    && (forall x {:trigger x in b} :: x in b <==> x in a)
    && (forall x {:trigger b[x]} :: x in b ==> b[x] == a[x] - (if x in xs then {i} else {}))
  }

  method Register(uses: Uses, i: nat, xs: seq<nat>) returns (r: Uses)
    ensures Registered(uses, i, xs, r)
  {
    r := uses;
    for k := 0 to |xs|
      invariant Registered(uses, i, xs[..k], r)
    {
      assert forall x :: x in xs[..k + 1] <==> x in xs[..k] || x == xs[k];
      r := r[xs[k] := (if xs[k] in r then r[xs[k]] else {}) + {i}];
    }
    assert xs[..|xs|] == xs;
  }

  method Unregister(uses: Uses, i: nat, xs: seq<nat>) returns (r: Uses)
    requires forall x :: x in xs ==> x in uses
    ensures Unregistered(uses, i, xs, r)
  {
    r := uses;
    for k := 0 to |xs|
      invariant Unregistered(uses, i, xs[..k], r)
    {
      assert forall x :: x in xs[..k + 1] <==> x in xs[..k] || x == xs[k];
      assert xs[k] in xs;
      r := r[xs[k] := r[xs[k]] - {i}];
    }
    assert xs[..|xs|] == xs;
  }

  /** Replace one id by another. */
  function Replaced(xs: seq<nat>, from: nat, to: nat): (r: seq<nat>)
    ensures |r| == |xs| && forall k {:trigger r[k]} :: 0 <= k < |xs| ==> r[k] == if xs[k] == from then to else xs[k]
  {
    seq(|xs|, k requires 0 <= k < |xs| => if xs[k] == from then to else xs[k])
  }

  lemma ReplacedIn(xs: seq<nat>, from: nat, to: nat, x: nat)
    ensures x in Replaced(xs, from, to) <==> (x in xs && x != from) || (x == to && from in xs)
  {
    var r := Replaced(xs, from, to);
    if x in xs && x != from {
      var k :| 0 <= k < |xs| && xs[k] == x;
      assert r[k] == x;
    }
    if from in xs {
      var k :| 0 <= k < |xs| && xs[k] == from;
      assert r[k] == to;
    }
  }

  lemma ReplacedSame(xs: seq<nat>, from: nat, to: nat)
    requires from !in xs
    ensures Replaced(xs, from, to) == xs
  {
  }

  /** Every instruction is recorded as a user of everything on its list. */
  ghost predicate Covered(lists: map<nat, seq<nat>>, uses: Uses) {
    forall i, x {:trigger x in lists[i]} :: i in lists && x in lists[i] ==> x in uses && i in uses[x]
  }

  /** Whoever is recorded as a user is one. */
  ghost predicate Minimal(lists: map<nat, seq<nat>>, uses: Uses) {
    forall x, i {:trigger i in uses[x]} :: x in uses && i in uses[x] ==> i in lists && x in lists[i]
  }

  lemma CoveredAdd(lists: map<nat, seq<nat>>, uses: Uses, i: nat, xs: seq<nat>, uses': Uses)
    requires Covered(lists, uses) && i !in lists && Registered(uses, i, xs, uses')
    ensures Covered(lists[i := xs], uses') && (Minimal(lists, uses) ==> Minimal(lists[i := xs], uses'))
  {
  }

  lemma CoveredRemove(lists: map<nat, seq<nat>>, uses: Uses, i: nat, uses': Uses)
    requires Covered(lists, uses) && i in lists && Unregistered(uses, i, lists[i], uses')
    ensures Covered(lists - {i}, uses') && (Minimal(lists, uses) ==> Minimal(lists - {i}, uses'))
  {
  }

  /** An id that nobody lists need not be recorded. */
  lemma CoveredWithout(lists: map<nat, seq<nat>>, uses: Uses, v: nat)
    requires Covered(lists, uses) && forall i :: i in lists ==> v !in lists[i]
    ensures Covered(lists, uses - {v}) && (Minimal(lists, uses) ==> Minimal(lists, uses - {v}))
  {
  }

  /** A new id is not used by anyone. */
  lemma CoveredWith(lists: map<nat, seq<nat>>, uses: Uses, v: nat)
    requires Covered(lists, uses) && forall i :: i in lists ==> v !in lists[i]
    ensures Covered(lists, uses[v := {}]) && (Minimal(lists, uses) ==> Minimal(lists, uses[v := {}]))
  {
  }

  /** An instruction lists another id instead: it is removed as a user of the one, and all of its list is registered. */
  lemma CoveredReplace(lists: map<nat, seq<nat>>, uses: Uses, i: nat, from: nat, to: nat, uses': Uses, uses'': Uses)
    requires Covered(lists, uses) && i in lists
    requires uses' == uses[from := (if from in uses then uses[from] else {}) - {i}]
      && Registered(uses', i, Replaced(lists[i], from, to), uses'')
    ensures Covered(lists[i := Replaced(lists[i], from, to)], uses'')
    ensures Minimal(lists, uses) ==> Minimal(lists[i := Replaced(lists[i], from, to)], uses'')
  {
    forall x
      ensures x in Replaced(lists[i], from, to) <==> (x in lists[i] && x != from) || (x == to && from in lists[i])
    {
      ReplacedIn(lists[i], from, to, x);
    }
  }

  /** Registering what is recorded already changes nothing. */
  lemma RegisterAgain(lists: map<nat, seq<nat>>, uses: Uses, i: nat, uses': Uses)
    requires Covered(lists, uses) && i in lists && Registered(uses, i, lists[i], uses')
    ensures uses' == uses
  {
    assert forall x {:trigger x in uses'} :: x in lists[i] ==> x in uses && i in uses[x];
    assert forall x {:trigger x in uses'} :: x in uses' <==> x in uses;
    assert forall x {:trigger uses'[x]} :: x in uses' ==> uses'[x] == uses[x];
  }

  /** An instruction lists less than before, and all that is left is registered again. */
  lemma CoveredShrink(lists: map<nat, seq<nat>>, uses: Uses, i: nat, xs: seq<nat>, uses': Uses)
    requires Covered(lists, uses) && i in lists && (forall x :: x in xs ==> x in lists[i])
      && Registered(uses, i, xs, uses')
    ensures Covered(lists[i := xs], uses') && uses' == uses
  {
    assert forall x {:trigger x in uses'} :: x in xs ==> x in lists[i] && x in uses && i in uses[x];
    assert forall x {:trigger x in uses'} :: x in uses' <==> x in uses;
    assert forall x {:trigger uses'[x]} :: x in uses' ==> uses'[x] == uses[x];
  }

  /** A block is taken off an instruction's list, or replaced by the placeholder; all that is left is
      registered again. */
  lemma CoveredDrop(lists: map<nat, seq<nat>>, uses: Uses, i: nat, block: nat, xs: seq<nat>, uses': Uses, uses'': Uses)
    requires Covered(lists, uses) && i in lists && (forall x :: x in xs ==> x in lists[i] || x == INVALID)
      && (forall x :: x in lists[i] && x != block ==> x in xs)
    requires uses' == uses[block := (if block in uses then uses[block] else {}) - {i}]
      && Registered(uses', i, xs, uses'')
    ensures Covered(lists[i := xs], uses'') && (Minimal(lists, uses) ==> Minimal(lists[i := xs], uses''))
  {
  }

  /** Every recorded user exists. */
  ghost predicate UsersExist(insts: set<nat>, uses: Uses) {
    forall x, i {:trigger i in uses[x]} :: x in uses && i in uses[x] ==> i in insts
  }

  /** An instruction is recorded only where it is a user. */
  ghost predicate Tight(uses: Uses, i: nat, xs: seq<nat>) {
    forall x {:trigger uses[x]} :: x in uses && i in uses[x] ==> x in xs
  }

  lemma UsersWithout(insts: set<nat>, uses: Uses, uses': Uses, i: nat, xs: seq<nat>)
    requires UsersExist(insts, uses) && (forall x {:trigger x in uses'} :: x in uses' ==>
      x in uses && uses'[x] == uses[x])
    requires forall x {:trigger uses[x]} :: x in uses && x !in uses' ==> uses[x] == {}
    ensures UsersExist(insts, uses') && (Tight(uses', i, xs) <==> Tight(uses, i, xs))
  {
  }

  predicate Used(uses: Uses, v: nat) {
    v in uses && uses[v] != {}
  }

  /** All but some values still have uses, if they had any. */
  ghost predicate KeepsUses(a: Uses, b: Uses, xs: seq<nat>) {
    forall v {:trigger Used(a, v)} {:trigger Used(b, v)} :: Used(a, v) && v !in xs ==> Used(b, v)
  }

  /** Only the arguments of an instruction that is removed as a user can become unused. */
  lemma UnregisterKeeps(a: Uses, mid: Uses, i: nat, xs: seq<nat>, b: Uses)
    requires forall v :: Used(a, v) ==> v in mid && mid[v] == a[v]
    requires Unregistered(mid, i, xs, b)
    ensures KeepsUses(a, b, xs)
  {
  }

  /** Once an instruction is gone, nothing refers to it exactly if it was recorded only where it was a user. */
  lemma GoneExactly(insts: set<nat>, uses: Uses, i: nat, xs: seq<nat>, uses': Uses)
    requires UsersExist(insts, uses) && Unregistered(uses, i, xs, uses')
    ensures UsersExist(insts - {i}, uses') <==> Tight(uses, i, xs)
  {
    if UsersExist(insts - {i}, uses') {
      forall x | x in uses && i in uses[x]
        ensures x in xs
      {
        assert x in uses' && uses'[x] == uses[x] - (if x in xs then {i} else {});
        assert i in uses'[x] ==> i in insts - {i};
      }
    }
  }

  /** The same if a value without uses goes as well. */
  lemma UsersGone(insts: set<nat>, uses: Uses, mid: Uses, i: nat, xs: seq<nat>, uses': Uses)
    requires forall x {:trigger x in mid} :: x in mid ==> x in uses && mid[x] == uses[x]
    requires forall x {:trigger uses[x]} :: x in uses && x !in mid ==> uses[x] == {}
    requires Unregistered(mid, i, xs, uses')
    ensures UsersExist(insts, uses) ==> (UsersExist(insts - {i}, uses') <==> Tight(uses, i, xs))
  {
    if UsersExist(insts, uses) {
      UsersWithout(insts, uses, mid, i, xs);
      GoneExactly(insts, mid, i, xs, uses');
    }
  }

  /** What each instruction has as arguments, and as blocks. */
  ghost function Args(insts: map<nat, InstData>): map<nat, seq<nat>> {
    map i | i in insts :: insts[i].args
  }

  ghost function Blocks(insts: map<nat, InstData>): map<nat, seq<nat>> {
    map i | i in insts :: insts[i].blocks
  }

  lemma ListsAdd(insts: map<nat, InstData>, i: nat, d: InstData)
    ensures Args(insts[i := d]) == Args(insts)[i := d.args] && Blocks(insts[i := d]) == Blocks(insts)[i := d.blocks]
  {
  }

  lemma ListsRemove(insts: map<nat, InstData>, i: nat)
    ensures Args(insts - {i}) == Args(insts) - {i} && Blocks(insts - {i}) == Blocks(insts) - {i}
  {
  }

  /** Arguments exist, unless they have been deleted; results belong to their instructions. */
  ghost predicate Closed(insts: map<nat, InstData>, results: map<nat, nat>, values: map<nat, ValueData>) {
    && (forall i, x {:trigger x in insts[i].args} :: i in insts && x in insts[i].args ==> x == INVALID || x in values)
    && (forall i {:trigger i in results} :: i in results ==>
      i in insts && results[i] in values && values[results[i]] == Of(i))
    && (forall v {:trigger values[v]} :: v in values && values[v].Of? ==>
      values[v].inst in results && results[values[v].inst] == v)
    && INVALID !in values
  }

  function ReplaceArgs(d: InstData, from: nat, to: nat): InstData {
    d.(args := Replaced(d.args, from, to))
  }

  function ReplaceBlocks(d: InstData, from: nat, to: nat): InstData {
    d.(blocks := Replaced(d.blocks, from, to))
  }

  lemma ClosedAdd(insts: map<nat, InstData>, results: map<nat, nat>, values: map<nat, ValueData>, i: nat, d: InstData,
      result: Option<nat>)
    requires Closed(insts, results, values) && i !in insts && i !in results
    requires forall x :: x in d.args ==> x == INVALID || x in values || result == Some(x)
    requires result.Some? ==> result.value !in values && result.value != INVALID
    ensures Closed(insts[i := d], if result.Some? then results[i := result.value]
      else results, if result.Some? then values[result.value := Of(i)] else values)
  {
  }

  lemma ClosedRemove(insts: map<nat, InstData>, results: map<nat, nat>, values: map<nat, ValueData>, i: nat)
    requires Closed(insts, results, values) && i in insts
      && (i in results ==> forall j :: j in insts ==> results[i] !in insts[j].args)
    ensures Closed(insts - {i}, results - {i}, if i in results then values - {results[i]} else values)
  {
  }

  /** What one state of the tables has of the good, the other has as well. */
  ghost predicate Kept(insts: map<nat, InstData>, uses: Uses, blocks: Uses, insts': map<nat, InstData>, uses': Uses,
      blocks': Uses)
  {
    && (Minimal(Args(insts), uses) && Minimal(Blocks(insts), blocks) ==>
      Minimal(Args(insts'), uses') && Minimal(Blocks(insts'), blocks'))
    && (UsersExist(insts.Keys, uses) ==> UsersExist(insts'.Keys, uses'))
    && (forall j {:trigger j in insts'} :: j in insts && j in insts' && Tight(uses, j, insts[j].args) ==>
      Tight(uses', j, insts'[j].args))
  }

  lemma KeptOn(a: map<nat, InstData>, u: Uses, k: Uses, b: map<nat, InstData>, v: Uses, l: Uses, c: map<nat, InstData>,
      w: Uses, m: Uses)
    requires Kept(a, u, k, b, v, l) && Kept(b, v, l, c, w, m) && a.Keys == b.Keys
    ensures Kept(a, u, k, c, w, m)
  {
  }

  lemma KeptSelf(a: map<nat, InstData>, u: Uses, k: Uses)
    ensures Kept(a, u, k, a, u, k)
  {
  }

  // ---------------------------------------------------------------- phi entries

  /** A phi node has an entry with this argument and block. */
  ghost predicate HasEntry(d: InstData, arg: nat, block: nat) {
    exists k :: 0 <= k < |d.args| && k < |d.blocks| && d.args[k] == arg && d.blocks[k] == block
  }

  predicate PhiOk(d: InstData) {
    d.phi ==> |d.args| == |d.blocks|
  }

  /** A block is listed at most once. */
  ghost predicate ListedOnce(d: InstData, block: nat) {
    forall j, k {:trigger d.blocks[j], d.blocks[k]} :: 0 <= j < k < |d.blocks| && d.blocks[j] == block ==>
      d.blocks[k] != block
  }

  function SwapRemove(s: seq<nat>, i: nat): (r: seq<nat>)
    requires i < |s|
    ensures |r| == |s| - 1 && forall k {:trigger r[k]} :: 0 <= k < |r| ==> r[k] == if k == i then s[|s| - 1] else s[k]
  {
    s[i := s[|s| - 1]][..|s| - 1]
  }

  /** What is left of a phi node after entries for a block have been taken out: all other entries, and nothing else. */
  ghost predicate EntriesLeft(d: InstData, block: nat, r: InstData) {
    && PhiOk(r) && r.phi == d.phi
    && (forall a, b {:trigger HasEntry(r, a, b)} :: HasEntry(r, a, b) ==> HasEntry(d, a, b))
    && (forall a, b {:trigger HasEntry(d, a, b)} :: HasEntry(d, a, b) && b != block ==> HasEntry(r, a, b))
  }

  lemma SwapRemoveEntries(d: InstData, block: nat, i: nat, r: InstData)
    requires d.phi && PhiOk(d) && i < |d.blocks| && d.blocks[i] == block
      && r == d.(args := SwapRemove(d.args, i), blocks := SwapRemove(d.blocks, i))
    ensures EntriesLeft(d, block, r)
  {
    forall a, b | HasEntry(r, a, b)
      ensures HasEntry(d, a, b)
    {
      var k :| 0 <= k < |r.args| && k < |r.blocks| && r.args[k] == a && r.blocks[k] == b;
      var j := if k == i then |d.blocks| - 1 else k;
      assert d.args[j] == a && d.blocks[j] == b;
    }
    forall a, b | HasEntry(d, a, b) && b != block
      ensures HasEntry(r, a, b)
    {
      var k :| 0 <= k < |d.args| && k < |d.blocks| && d.args[k] == a && d.blocks[k] == b;
      var j := if k == |d.blocks| - 1 then i else k;
      assert r.args[j] == a && r.blocks[j] == b;
    }
  }

  /** `remove_block`: take the entries for a block out of a phi node, or put the placeholder for it. */
  method RemoveBlock(d: InstData, block: nat) returns (r: InstData)
    requires PhiOk(d)
    ensures !d.phi ==> r == ReplaceBlocks(d, block, INVALID)
    ensures d.phi ==> EntriesLeft(d, block, r) && (ListedOnce(d, block) ==>
      block !in r.blocks) && (block !in d.blocks ==> r == d)
  {
    if !d.phi {
      return ReplaceBlocks(d, block, INVALID);
    }
    r := d;
    for i := 0 to |d.blocks|
      invariant EntriesLeft(d, block, r) && i <= |d.blocks| && |r.blocks| <= |d.blocks|
      invariant block !in d.blocks ==> r == d
      invariant ListedOnce(d, block) ==> ListedOnce(r, block) && forall k :: 0 <= k < i && k < |r.blocks| ==>
        r.blocks[k] != block
    {
      if i >= |r.blocks| {
        break;
      }
      if r.blocks[i] == block {
        var next := r.(args := SwapRemove(r.args, i), blocks := SwapRemove(r.blocks, i));
        SwapRemoveEntries(r, block, i, next);
        OnceRemoved(r, block, i, next);
        r := next;
      }
    }
  }

  lemma OnceRemoved(d: InstData, block: nat, i: nat, r: InstData)
    requires d.phi && PhiOk(d) && i < |d.blocks| && d.blocks[i] == block
      && r == d.(args := SwapRemove(d.args, i), blocks := SwapRemove(d.blocks, i))
    ensures ListedOnce(d, block) ==> block !in r.blocks
  {
    forall k | 0 <= k < |r.blocks| && ListedOnce(d, block)
      ensures r.blocks[k] != block
    {
      assert r.blocks[k] == d.blocks[if k == i then |d.blocks| - 1 else k];
    }
  }

  lemma EntriesArgs(d: InstData, block: nat, r: InstData)
    requires PhiOk(d) && d.phi && EntriesLeft(d, block, r)
    ensures forall x :: x in r.args ==> x in d.args
    ensures forall x :: x in r.blocks ==> x in d.blocks
    ensures forall x :: x in d.blocks && x != block ==> x in r.blocks
  {
    forall k | 0 <= k < |r.args|
      ensures r.args[k] in d.args && r.blocks[k] in d.blocks
    {
      assert HasEntry(r, r.args[k], r.blocks[k]);
      assert HasEntry(d, r.args[k], r.blocks[k]);
    }
    forall x | x in d.blocks && x != block
      ensures x in r.blocks
    {
      var k :| 0 <= k < |d.blocks| && d.blocks[k] == x;
      assert HasEntry(d, d.args[k], x);
      assert HasEntry(r, d.args[k], x);
    }
  }

  /** An instruction after uses of a block have been removed from it. */
  ghost predicate BlockRemoved(d: InstData, block: nat, r: InstData) {
    && (!d.phi ==> r == ReplaceBlocks(d, block, INVALID))
    && (d.phi ==> EntriesLeft(d, block, r) && (ListedOnce(d, block) ==> block !in r.blocks) && (block !in d.blocks ==>
      r == d))
  }

  lemma NotListed(insts: map<nat, InstData>, uses: Uses, users: set<nat>, block: nat)
    requires Covered(Blocks(insts), uses) && users == (if block in uses then uses[block] else {})
      && forall i {:trigger insts[i]} :: i in insts ==> PhiOk(insts[i])
    ensures forall i {:trigger insts[i]} :: i in insts && i !in users ==> BlockRemoved(insts[i], block, insts[i])
  {
    forall i | i in insts && i !in users
      ensures BlockRemoved(insts[i], block, insts[i])
    {
      assert Blocks(insts)[i] == insts[i].blocks;
      ReplacedSame(insts[i].blocks, block, INVALID);
    }
  }

  function Members(s: seq<nat>): set<nat> {
    set m | m in s
  }

  /** The results of some instructions. */
  function Dead(results: map<nat, nat>, members: seq<nat>): set<nat> {
    set m | m in members && m in results :: results[m]
  }

  /** An instruction with the placeholder for some values. */
  function Cleared(d: InstData, dead: set<nat>): InstData {
    d.(args := seq(|d.args|, k requires 0 <= k < |d.args| => if d.args[k] in dead then INVALID else d.args[k]))
  }

  /** What a deleted block leaves of an instruction outside. */
  ghost predicate Survives(d: InstData, block: nat, dead: set<nat>, r: InstData) {
    exists mid {:trigger BlockRemoved(d, block, mid)} :: BlockRemoved(d, block, mid) && r == Cleared(mid, dead)
  }

  /** Neither the block nor the results are mentioned any more. */
  lemma SurvivesWithout(d: InstData, block: nat, dead: set<nat>, r: InstData)
    requires Survives(d, block, dead, r) && INVALID !in dead
    ensures forall x :: x in r.args ==> x !in dead
    ensures block != INVALID && (d.phi ==> ListedOnce(d, block)) ==> block !in r.blocks
  {
    var mid :| BlockRemoved(d, block, mid) && r == Cleared(mid, dead);
    ReplacedIn(d.blocks, block, INVALID, block);
  }

  lemma ClearedNext(d: InstData, results: map<nat, nat>, members: seq<nat>, k: nat)
    requires k < |members|
    ensures Cleared(d, Dead(results, members[..k + 1])) ==
      if members[k] in results then ReplaceArgs(Cleared(d, Dead(results, members[..k])), results[members[k]], INVALID)
      else Cleared(d, Dead(results, members[..k]))
  {
    assert members[..k + 1] == members[..k] + [members[k]];
    if members[k] in results {
      assert Dead(results, members[..k + 1]) == Dead(results, members[..k]) + {results[members[k]]};
    } else {
      assert Dead(results, members[..k + 1]) == Dead(results, members[..k]);
    }
  }

  /** What is left after some instructions have been deleted. */
  ghost predicate Remaining(was: map<nat, InstData>, rs: map<nat, nat>, gone: seq<nat>, insts: map<nat, InstData>,
      results: map<nat, nat>)
  {
    && insts.Keys == was.Keys - Members(gone)
    && results == rs - Members(gone)
    && (forall i {:trigger insts[i]} :: i in insts ==> insts[i] == Cleared(was[i], Dead(rs, gone)))
  }

  lemma RemainingNext(was: map<nat, InstData>, rs: map<nat, nat>, members: seq<nat>, k: nat,
                      mid: map<nat, InstData>, rs': map<nat, nat>, insts: map<nat, InstData>, results: map<nat, nat>)
    requires k < |members| && Remaining(was, rs, members[..k], mid, rs') && members[k] !in members[..k]
    requires insts.Keys == mid.Keys - {members[k]} && results == rs' - {members[k]}
    requires forall i :: i in insts ==> insts[i] == if members[k] in rs' then ReplaceArgs(mid[i], rs'[members[k]],
      INVALID) else mid[i]
    ensures Remaining(was, rs, members[..k + 1], insts, results)
  {
    assert members[..k + 1] == members[..k] + [members[k]];
    assert Members(members[..k + 1]) == Members(members[..k]) + {members[k]};
    forall i | i in insts
      ensures insts[i] == Cleared(was[i], Dead(rs, members[..k + 1]))
    {
      assert mid[i] == Cleared(was[i], Dead(rs, members[..k]));
      ClearedNext(was[i], rs, members, k);
    }
  }

  class DataFlow {
    var insts: map<nat, InstData>
    var results: map<nat, nat>
    var values: map<nat, ValueData>
    var valueUses: Uses
    var blockUses: Uses

    /** The use tables cover all uses, and nothing refers to what does not exist. */
    ghost predicate Valid()
      reads this
    {
      && Covered(Args(insts), valueUses) && Covered(Blocks(insts), blockUses) && Closed(insts, results, values)
      && values.Keys <= valueUses.Keys
    }

    ghost predicate Exact()
      reads this
    {
      Minimal(Args(insts), valueUses) && Minimal(Blocks(insts), blockUses)
    }

    ghost predicate PhisOk()
      reads this
    {
      forall i {:trigger insts[i]} :: i in insts ==> PhiOk(insts[i])
    }

    /** Where an instruction has been deleted, there is an empty one. */
    function Data(i: nat): InstData
      reads this
    {
      if i in insts then insts[i] else InstData(false, [], [])
    }

    predicate HasUses(v: nat)
      reads this
    {
      Used(valueUses, v)
    }

    /** By the cover, a value without recorded uses is no argument. */
    lemma UnusedIsNoArg(v: nat)
      requires Valid() && !HasUses(v)
      ensures forall i :: i in insts ==> v !in insts[i].args
    {
      forall i | i in insts
        ensures v !in insts[i].args
      {
        assert Args(insts)[i] == insts[i].args;
      }
    }

    /** What does not exist is no argument. */
    lemma NewIsNoArg(v: nat)
      requires Valid() && v !in values && v != INVALID
      ensures forall i :: i in Args(insts) ==> v !in Args(insts)[i]
    {
      forall i | i in Args(insts)
        ensures v !in Args(insts)[i]
      {
        assert Args(insts)[i] == insts[i].args;
      }
    }

    /** An empty unit. */
    constructor ()
      ensures Valid() && PhisOk() && Exact() && insts == map[] && values == map[] && results == map[]
    {
      insts, results, values, valueUses, blockUses := map[], map[], map[], map[], map[];
      new;
      assert Args(insts) == map[] && Blocks(insts) == map[];
    }

    /** Add an argument of the unit. */
    method AddArg(v: nat)
      requires Valid() && v !in values && v != INVALID
      modifies `values, `valueUses
      ensures Valid() && values == old(values)[v := Arg] && (old(Exact()) ==> Exact())
    {
      NewIsNoArg(v);
      CoveredWith(Args(insts), valueUses, v);
      values := values[v := Arg];
      valueUses := valueUses[v := {}];
    }

    /** Add an instruction under a fresh id, with its result if it has one. */
    method AddInst(i: nat, data: InstData, result: Option<nat>)
      requires Valid() && i !in insts && i !in results
      requires forall x :: x in data.args ==> x == INVALID || x in values || result == Some(x)
      requires result.Some? ==> result.value !in values && result.value != INVALID
      modifies this
      ensures Valid() && insts == old(insts)[i := data] && (old(PhisOk()) && PhiOk(data) ==> PhisOk())
        && (old(Exact()) ==> Exact())
      ensures results == if result.Some? then old(results)[i := result.value] else old(results)
      ensures values == if result.Some? then old(values)[result.value := Of(i)] else old(values)
    {
      ClosedAdd(insts, results, values, i, data, result);
      if result.Some? {
        NewIsNoArg(result.value);
        CoveredWith(Args(insts), valueUses, result.value);
        values := values[result.value := Of(i)];
        valueUses := valueUses[result.value := {}];
        results := results[i := result.value];
      }
      StoreInst(i, data);
    }

    /** Store an instruction under a fresh id, and register it as a user. */
    method StoreInst(i: nat, data: InstData)
      requires Covered(Args(insts), valueUses) && Covered(Blocks(insts), blockUses) && i !in insts
      modifies `insts, `valueUses, `blockUses
      ensures Covered(Args(insts), valueUses) && Covered(Blocks(insts), blockUses) && insts == old(insts)[i := data]
      ensures old(valueUses).Keys <= valueUses.Keys && (old(Exact()) ==> Exact())
    {
      ghost var v, b := valueUses, blockUses;
      insts := insts[i := data];
      ListsAdd(old(insts), i, data);
      UpdateUses(i);
      CoveredAdd(Args(old(insts)), v, i, data.args, valueUses);
      CoveredAdd(Blocks(old(insts)), b, i, data.blocks, blockUses);
    }

    /** Register an instruction as a user of its arguments and blocks. */
    method UpdateUses(i: nat)
      modifies `valueUses, `blockUses
      ensures Registered(old(valueUses), i, Data(i).args, valueUses)
      ensures Registered(old(blockUses), i, Data(i).blocks, blockUses)
      ensures i !in insts ==> valueUses == old(valueUses) && blockUses == old(blockUses)
    {
      valueUses := Register(valueUses, i, Data(i).args);
      blockUses := Register(blockUses, i, Data(i).blocks);
      if i !in insts {
        RegisteredNone(old(valueUses), i, valueUses);
        RegisteredNone(old(blockUses), i, blockUses);
      }
    }

    /** A record of a deleted instruction as a user can go. */
    lemma StaleRecord(lists: map<nat, seq<nat>>, uses: Uses, x: nat, i: nat)
      requires Covered(lists, uses) && i !in lists
      ensures Covered(lists, uses[x := (if x in uses then uses[x] else {}) - {i}])
      ensures Minimal(lists, uses) ==> Minimal(lists, uses[x := (if x in uses then uses[x] else {}) - {i}])
    {
    }

    /** Remove an instruction whose result, if it has one, is not used; a record of it as a user may be left behind. */
    method RemoveInst(i: nat)
      requires Valid() && i in insts && (i in results ==> !HasUses(results[i]))
      modifies this
      ensures old(UsersExist(insts.Keys, valueUses)) ==>
        (UsersExist(insts.Keys, valueUses) <==> old(Tight(valueUses, i, insts[i].args)))
      ensures forall j, xs :: j != i && old(Tight(valueUses, j, xs)) ==> Tight(valueUses, j, xs)
      ensures Valid() && insts == old(insts) - {i} && results == old(results) - {i} && (old(Exact()) ==> Exact())
      ensures values == if i in old(results) then old(values) - {old(results)[i]} else old(values)
      ensures KeepsUses(old(valueUses), valueUses, old(insts)[i].args)
    {
      var data := insts[i];
      ListsRemove(insts, i);
      if i in results {
        UnusedIsNoArg(results[i]);
        ClosedRemove(insts, results, values, i);
        CoveredWithout(Args(insts), valueUses, results[i]);
        values := values - {results[i]};
        valueUses := valueUses - {results[i]};
      } else {
        ClosedRemove(insts, results, values, i);
      }
      ghost var v, b := valueUses, blockUses;
      assert Args(insts)[i] == data.args && Blocks(insts)[i] == data.blocks;
      insts := insts - {i};
      valueUses := Unregister(valueUses, i, data.args);
      UnregisterKeeps(old(valueUses), v, i, data.args, valueUses);
      assert insts.Keys == old(insts).Keys - {i};
      UsersGone(old(insts).Keys, old(valueUses), v, i, data.args, valueUses);
      blockUses := Unregister(blockUses, i, data.blocks);
      CoveredRemove(Args(old(insts)), v, i, valueUses);
      CoveredRemove(Blocks(old(insts)), b, i, blockUses);
      results := results - {i};
    }

    /** `replace_value_within_inst`; the instruction may have been deleted. */
    method ReplaceValueWithin(i: nat, from: nat, to: nat)
      requires Valid() && (to == INVALID || to in values)
      modifies `insts, `valueUses, `blockUses
      ensures Valid() && insts == if i in old(insts) then old(insts)[i := ReplaceArgs(old(insts)[i], from, to)]
        else old(insts)
      ensures from in old(valueUses) && from != to ==>
        from in valueUses && valueUses[from] == old(valueUses)[from] - {i}
      ensures Kept(old(insts), old(valueUses), old(blockUses), insts, valueUses, blockUses)
    {
      if i in insts {
        ReplaceInLive(i, from, to);
      } else {
        StaleRecord(Args(insts), valueUses, from, i);
        valueUses := valueUses[from := (if from in valueUses then valueUses[from] else {}) - {i}];
        UpdateUses(i);
      }
    }

    method ReplaceInLive(i: nat, from: nat, to: nat)
      requires Valid() && i in insts && (to == INVALID || to in values)
      modifies `insts, `valueUses, `blockUses
      ensures Valid() && insts == old(insts)[i := ReplaceArgs(old(insts)[i], from, to)]
      ensures from in old(valueUses) && from != to ==>
        from in valueUses && valueUses[from] == old(valueUses)[from] - {i}
      ensures Kept(old(insts), old(valueUses), old(blockUses), insts, valueUses, blockUses)
    {
      ghost var lists, blocks, was, bwas := Args(insts), Blocks(insts), valueUses, blockUses;
      var d := insts[i];
      insts := insts[i := ReplaceArgs(d, from, to)];
      ListsAdd(old(insts), i, ReplaceArgs(d, from, to));
      valueUses := valueUses[from := (if from in valueUses then valueUses[from] else {}) - {i}];
      ghost var mid := valueUses;
      UpdateUses(i);
      CoveredReplace(lists, was, i, from, to, mid, valueUses);
      RegisterAgain(blocks, bwas, i, blockUses);
      assert blocks[i := d.blocks] == blocks;
      ClosedReplace(old(insts), results, values, i, from, to);
      ReplaceTight(was, i, d.args, from, to, mid, valueUses);
      assert insts.Keys == old(insts).Keys;
    }

    /** `replace_use`: replace all uses of a value. */
    method ReplaceUse(from: nat, to: nat)
      requires Valid() && (to == INVALID || to in values)
      modifies `insts, `valueUses, `blockUses
      ensures Valid() && Kept(old(insts), old(valueUses), old(blockUses), insts, valueUses, blockUses)
      ensures insts.Keys == old(insts).Keys && forall i :: i in insts ==>
        insts[i] == ReplaceArgs(old(insts)[i], from, to)
      ensures from != to ==> !HasUses(from) && forall i :: i in insts ==> from !in insts[i].args
    {
      var users := if from in valueUses then valueUses[from] else {};
      var rest := users;
      ghost var was, uwas, bwas := insts, valueUses, blockUses;
      KeptSelf(was, uwas, bwas);
      while rest != {}
        invariant from != to && from in uwas ==> from in valueUses && valueUses[from] == rest
        invariant from !in uwas ==> valueUses == uwas
        invariant rest <= users && Valid() && insts.Keys == was.Keys
        invariant Kept(was, uwas, bwas, insts, valueUses, blockUses)
        invariant forall i :: i in insts ==> insts[i] == if i in users && i !in rest then ReplaceArgs(was[i], from, to)
          else was[i]
        decreases |rest|
      {
        var i :| i in rest;
        rest := rest - {i};
        ghost var mid, umid, bmid := insts, valueUses, blockUses;
        ReplaceValueWithin(i, from, to);
        KeptOn(was, uwas, bwas, mid, umid, bmid, insts, valueUses, blockUses);
      }
      AllReplaced(was, uwas, users, from, to);
    }

    /** A record of the instruction as a user of a phi argument may be left behind. */
    method RemoveFromLive(block: nat, i: nat)
      requires Valid() && PhisOk() && i in insts
      modifies `insts, `valueUses, `blockUses
      ensures Valid() && PhisOk() && valueUses == old(valueUses)
      ensures insts.Keys == old(insts).Keys && insts == old(insts)[i := insts[i]]
      ensures BlockRemoved(old(insts)[i], block, insts[i])
      ensures old(Minimal(Blocks(insts), blockUses)) ==> Minimal(Blocks(insts), blockUses)
      ensures old(Tight(valueUses, i, insts[i].args)) ==>
        (Tight(valueUses, i, insts[i].args) <==> forall x :: x in old(insts)[i].args ==> x in insts[i].args)
    {
      ghost var args, blocks, was, bwas := Args(insts), Blocks(insts), valueUses, blockUses;
      var d := insts[i];
      var r := RemoveBlock(d, block);
      if d.phi {
        EntriesArgs(d, block, r);
      } else {
        forall x
          ensures x in r.blocks <==> (x in d.blocks && x != block) || (x == INVALID && block in d.blocks)
        {
          ReplacedIn(d.blocks, block, INVALID, x);
        }
      }
      insts := insts[i := r];
      ListsAdd(old(insts), i, r);
      assert args[i] == d.args && blocks[i] == d.blocks;
      blockUses := blockUses[block := (if block in blockUses then blockUses[block] else {}) - {i}];
      ghost var mid := blockUses;
      UpdateUses(i);
      CoveredShrink(args, was, i, r.args, valueUses);
      CoveredDrop(blocks, bwas, i, block, r.blocks, mid, blockUses);
      ClosedShrink(old(insts), results, values, i, r);
      TightShrink(args, was, i, r.args);
    }

    /** `remove_block_from_inst`; the instruction may have been deleted. */
    method RemoveBlockFromInst(block: nat, i: nat)
      requires Valid() && PhisOk()
      modifies `insts, `valueUses, `blockUses
      ensures Valid() && PhisOk() && valueUses == old(valueUses)
      ensures insts.Keys == old(insts).Keys && forall j {:trigger insts[j]} :: j in insts && j != i ==>
        insts[j] == old(insts)[j]
      ensures i in insts ==> BlockRemoved(old(insts)[i], block, insts[i])
      ensures old(Minimal(Blocks(insts), blockUses)) ==> Minimal(Blocks(insts), blockUses)
    {
      if i in insts {
        RemoveFromLive(block, i);
      } else {
        StaleRecord(Blocks(insts), blockUses, block, i);
        blockUses := blockUses[block := (if block in blockUses then blockUses[block] else {}) - {i}];
        UpdateUses(i);
      }
    }

    /** `remove_block_use`: remove all uses of a block. */
    method RemoveBlockUse(block: nat)
      requires Valid() && PhisOk()
      modifies `insts, `valueUses, `blockUses
      ensures Valid() && PhisOk() && valueUses == old(valueUses) && insts.Keys == old(insts).Keys
      ensures forall i {:trigger insts[i]} :: i in insts ==> BlockRemoved(old(insts)[i], block, insts[i])
    {
      var users := if block in blockUses then blockUses[block] else {};
      var rest := users;
      ghost var was := insts;
      while rest != {}
        invariant rest <= users && Valid() && PhisOk() && insts.Keys == was.Keys && valueUses == old(valueUses)
        invariant forall i {:trigger insts[i]} :: i in insts ==>
          if i in users && i !in rest then BlockRemoved(was[i], block, insts[i]) else insts[i] == was[i]
        decreases |rest|
      {
        var i :| i in rest;
        rest := rest - {i};
        RemoveBlockFromInst(block, i);
      }
      NotListed(was, old(blockUses), users, block);
    }

    /** `replace_block_use`: replace all uses of a block. */
    method ReplaceBlockUse(from: nat, to: nat)
      requires Valid()
      modifies `insts, `valueUses, `blockUses
      ensures Valid() && valueUses == old(valueUses)
      ensures insts.Keys == old(insts).Keys && forall i :: i in insts ==>
        insts[i] == ReplaceBlocks(old(insts)[i], from, to)
      ensures from != to ==> forall i :: i in insts ==> from !in insts[i].blocks
      ensures old(Minimal(Blocks(insts), blockUses)) ==> Minimal(Blocks(insts), blockUses)
    {
      var users := if from in blockUses then blockUses[from] else {};
      var rest := users;
      ghost var was := insts;
      while rest != {}
        invariant rest <= users && Valid() && insts.Keys == was.Keys && valueUses == old(valueUses)
        invariant old(Minimal(Blocks(insts), blockUses)) ==> Minimal(Blocks(insts), blockUses)
        invariant forall i :: i in insts ==> insts[i] == if i in users
          && i !in rest then ReplaceBlocks(was[i], from, to) else was[i]
        decreases |rest|
      {
        var i :| i in rest;
        rest := rest - {i};
        ReplaceBlockWithin(i, from, to);
      }
      AllBlocksReplaced(was, old(blockUses), users, from, to);
    }

    /** `replace_block_within_inst`; the instruction may have been deleted. */
    method ReplaceBlockWithin(i: nat, from: nat, to: nat)
      requires Valid()
      modifies `insts, `valueUses, `blockUses
      ensures Valid() && valueUses == old(valueUses)
      ensures insts == if i in old(insts) then old(insts)[i := ReplaceBlocks(old(insts)[i], from, to)] else old(insts)
      ensures old(Minimal(Blocks(insts), blockUses)) ==> Minimal(Blocks(insts), blockUses)
    {
      if i in insts {
        ReplaceBlockInLive(i, from, to);
      } else {
        StaleRecord(Blocks(insts), blockUses, from, i);
        blockUses := blockUses[from := (if from in blockUses then blockUses[from] else {}) - {i}];
        UpdateUses(i);
      }
    }

    method ReplaceBlockInLive(i: nat, from: nat, to: nat)
      requires Valid() && i in insts
      modifies `insts, `valueUses, `blockUses
      ensures Valid() && insts == old(insts)[i := ReplaceBlocks(old(insts)[i], from, to)] && valueUses == old(valueUses)
      ensures old(Minimal(Blocks(insts), blockUses)) ==> Minimal(Blocks(insts), blockUses)
    {
      ghost var args, blocks, was, bwas := Args(insts), Blocks(insts), valueUses, blockUses;
      var d := insts[i];
      insts := insts[i := ReplaceBlocks(d, from, to)];
      ListsAdd(old(insts), i, ReplaceBlocks(d, from, to));
      blockUses := blockUses[from := (if from in blockUses then blockUses[from] else {}) - {i}];
      ghost var mid := blockUses;
      UpdateUses(i);
      RegisterAgain(args, was, i, valueUses);
      assert args[i := d.args] == args;
      CoveredReplace(blocks, bwas, i, from, to, mid, blockUses);
      ClosedShrink(old(insts), results, values, i, ReplaceBlocks(d, from, to));
      assert insts.Keys == old(insts).Keys;
    }

    /** An instruction can go without leaving a record of it behind. */
    ghost predicate CanGo(i: nat)
      reads this
    {
      i in insts && Tight(valueUses, i, insts[i].args)
    }

    /** Delete one instruction of a deleted block: its uses are replaced by the placeholder first. */
    method DeleteMember(m: nat)
      requires Valid() && m in insts
      modifies this
      ensures Valid() && insts.Keys == old(insts).Keys - {m} && results == old(results) - {m}
      ensures forall i :: i in insts ==>
        insts[i] == if m in old(results) then ReplaceArgs(old(insts)[i], old(results)[m], INVALID) else old(insts)[i]
      ensures old(UsersExist(insts.Keys, valueUses) && CanGo(m)) ==> UsersExist(insts.Keys, valueUses)
      ensures forall i :: i in insts && old(CanGo(i)) ==> CanGo(i)
    {
      if m in results {
        ReplaceUse(results[m], INVALID);
      }
      label L:
      RemoveInst(m);
      forall i | i in insts && old(CanGo(i))
        ensures CanGo(i)
      {
        assert old@L(Tight(valueUses, i, insts[i].args));
      }
    }

    /** Delete all instructions of a block. */
    method DeleteMembers(members: seq<nat>)
      requires Valid() && PhisOk()
      requires forall j, k {:trigger members[j], members[k]} :: 0 <= j < k < |members| ==> members[j] != members[k]
      requires forall k :: 0 <= k < |members| ==> members[k] in insts
      modifies this
      ensures Valid() && PhisOk() && insts.Keys == old(insts).Keys - Members(members)
      ensures forall i {:trigger insts[i]} :: i in insts ==>
        insts[i] == Cleared(old(insts)[i], Dead(old(results), members))
    {
      ghost var was, rs := insts, results;
      for k := 0 to |members|
        invariant Valid() && Remaining(was, rs, members[..k], insts, results)
        invariant forall j :: k <= j < |members| ==> members[j] in insts
      {
        ghost var before, rs' := insts, results;
        DeleteMember(members[k]);
        RemainingNext(was, rs, members, k, before, rs', insts, results);
      }
      assert members[..|members|] == members;
    }

    /** `delete_block`: remove all uses of a block, and delete its instructions.  What is left has
        lost its entries for the block, and has the placeholder for all results that are gone. */
    method DeleteBlock(block: nat, members: seq<nat>)
      requires Valid() && PhisOk()
      requires forall j, k {:trigger members[j], members[k]} :: 0 <= j < k < |members| ==> members[j] != members[k]
      requires forall k :: 0 <= k < |members| ==> members[k] in insts
      modifies this
      ensures Valid() && PhisOk() && insts.Keys == old(insts).Keys - Members(members)
      ensures forall i {:trigger insts[i]} :: i in insts ==>
        Survives(old(insts)[i], block, Dead(old(results), members), insts[i])
    {
      RemoveBlockUse(block);
      ghost var mid := insts;
      DeleteMembers(members);
      forall i | i in insts
        ensures Survives(old(insts)[i], block, Dead(old(results), members), insts[i])
      {
        assert BlockRemoved(old(insts)[i], block, mid[i]);
      }
    }

    /** No instruction has the placeholder as an argument. */
    ghost predicate NoPlaceholders()
      reads this
    {
      forall i, x {:trigger x in insts[i].args} :: i in insts && x in insts[i].args ==> x != INVALID
    }

    /** The instructions that produce some values. */
    function Producers(vs: seq<nat>): (r: seq<nat>)
      requires forall v :: v in vs ==> v in values
      reads this
    {
      if vs == [] then []
      else (if values[vs[0]].Of? then [values[vs[0]].inst] else []) + Producers(vs[1..])
    }

    /** The producers of all arguments that have one. */
    lemma ProducersHave(vs: seq<nat>)
      requires Valid() && forall x :: x in vs ==> x in values
      ensures forall j :: j in results && results[j] in vs ==> j in Producers(vs)
      decreases |vs|
    {
      if vs == [] {
      } else {
        ProducersHave(vs[1..]);
      }
    }

    ghost function Now(): Tables
      reads this
    {
      Tables(insts, results, valueUses)
    }

    /** `prune_if_unused`: delete an instruction whose result is not used, and then whatever is not used any more. */
    method PruneIfUnused(i: nat) returns (pruned: bool)
      requires Valid() && NoPlaceholders()
      modifies this
      ensures Valid() && NoPlaceholders() && (old(Exact()) ==> Exact())
      ensures pruned <==> old(Now()).Unused(i)
      ensures pruned ==> i !in insts
      ensures !pruned ==> Now() == old(Now())
      ensures Cut(old(Now()), Now()) && LeftUnused(old(Now()), Now(), [])
      decreases |insts.Keys|, 0
    {
      if i in results && !HasUses(results[i]) {
        ghost var was := Now();
        var producers := Producers(insts[i].args);
        ProducersHave(insts[i].args);
        Sets.Fewer(insts.Keys - {i}, insts.Keys);
        RemoveInst(i);
        assert insts.Keys == old(insts).Keys - {i};
        CutOne(was, Now(), i, producers);
        ghost var mid := Now();
        PruneProducers(producers);
        CutOn(was, mid, Now(), producers);
        pruned := true;
      } else {
        pruned := false;
      }
    }

    method PruneProducers(producers: seq<nat>)
      requires Valid() && NoPlaceholders()
      modifies this
      ensures Valid() && NoPlaceholders() && (old(Exact()) ==> Exact())
      ensures Cut(old(Now()), Now()) && LeftUnused(old(Now()), Now(), [])
      ensures NoneUnused(Now(), producers, |producers|)
      decreases |insts.Keys|, 1
    {
      for k := 0 to |producers|
        invariant Valid() && NoPlaceholders() && (old(Exact()) ==> Exact())
        invariant Cut(old(Now()), Now()) && LeftUnused(old(Now()), Now(), [])
        invariant NoneUnused(Now(), producers, k)
      {
        ghost var mid := Now();
        if insts.Keys != old(insts).Keys {
          Sets.Fewer(insts.Keys, old(insts).Keys);
        }
        var pruned := PruneIfUnused(producers[k]);
        CutNext(old(Now()), mid, Now(), producers, k, pruned);
      }
    }
  }

  /** What pruning looks at. */
  datatype Tables = Tables(insts: map<nat, InstData>, results: map<nat, nat>, uses: Uses) {
    /** An instruction with a result that is not used. */
    predicate Unused(j: nat) {
      j in insts && j in results && !Used(uses, results[j])
    }
  }

  /** Some instructions with results are gone, and nothing else has changed. */
  ghost predicate Cut(a: Tables, b: Tables) {
    && b.insts.Keys <= a.insts.Keys && (forall j {:trigger b.insts[j]} :: j in b.insts ==> b.insts[j] == a.insts[j])
    && (forall j {:trigger j in b.insts} :: j in a.insts && j !in b.insts ==> j in a.results)
    && (forall j {:trigger j in b.results} :: j in b.results ==> j in a.results && b.results[j] == a.results[j])
  }

  /** Among what is left, nothing but these has become unused. */
  ghost predicate LeftUnused(a: Tables, b: Tables, among: seq<nat>) {
    forall j {:trigger b.Unused(j)} :: b.Unused(j) ==> a.Unused(j) || j in among
  }

  lemma CutOne(a: Tables, b: Tables, i: nat, producers: seq<nat>)
    requires i in a.insts && i in a.results && b.insts == a.insts - {i} && b.results == a.results - {i}
    requires KeepsUses(a.uses, b.uses, a.insts[i].args)
    requires forall j :: j in a.results && a.results[j] in a.insts[i].args ==> j in producers
    ensures Cut(a, b) && LeftUnused(a, b, producers)
  {
    forall j | b.Unused(j)
      ensures a.Unused(j) || j in producers
    {
      assert b.results[j] == a.results[j];
    }
  }

  lemma CutOn(a: Tables, mid: Tables, b: Tables, producers: seq<nat>)
    requires Cut(a, mid) && LeftUnused(a, mid, producers) && Cut(mid, b) && LeftUnused(mid, b, [])
    requires NoneUnused(b, producers, |producers|)
    ensures Cut(a, b) && LeftUnused(a, b, [])
  {
  }

  ghost predicate NoneUnused(t: Tables, producers: seq<nat>, k: nat)
    requires k <= |producers|
  {
    forall n {:trigger producers[n]} :: 0 <= n < k ==> !t.Unused(producers[n])
  }

  lemma CutNext(a: Tables, mid: Tables, b: Tables, producers: seq<nat>, k: nat, pruned: bool)
    requires Cut(a, mid) && LeftUnused(a, mid, []) && Cut(mid, b) && LeftUnused(mid, b, [])
    requires k < |producers| && NoneUnused(mid, producers, k) && (pruned <==> mid.Unused(producers[k]))
    requires if pruned then producers[k] !in b.insts else b == mid
    ensures Cut(a, b) && LeftUnused(a, b, []) && NoneUnused(b, producers, k + 1)
  {
    CutOn(a, mid, b, []);
  }

  lemma ClosedShrink(insts: map<nat, InstData>, results: map<nat, nat>, values: map<nat, ValueData>, i: nat,
      r: InstData)
    requires Closed(insts, results, values) && i in insts && forall x :: x in r.args ==> x in insts[i].args
    ensures Closed(insts[i := r], results, values)
  {
  }

  lemma TightShrink(lists: map<nat, seq<nat>>, uses: Uses, i: nat, xs: seq<nat>)
    requires Covered(lists, uses) && i in lists
    ensures Tight(uses, i, lists[i]) ==> (Tight(uses, i, xs) <==> forall x :: x in lists[i] ==> x in xs)
  {
    if Tight(uses, i, xs) {
      forall x | x in lists[i]
        ensures x in xs
      {
        assert x in uses && i in uses[x];
      }
    }
  }

  lemma AllBlocksReplaced(was: map<nat, InstData>, uses: Uses, users: set<nat>, from: nat, to: nat)
    requires Covered(Blocks(was), uses) && users == if from in uses then uses[from] else {}
    ensures forall i {:trigger was[i]} :: i in was ==>
      (i !in users ==> was[i] == ReplaceBlocks(was[i], from, to))
      && (from != to ==> from !in ReplaceBlocks(was[i], from, to).blocks)
  {
    forall i | i in was
      ensures (i !in users ==> was[i] == ReplaceBlocks(was[i], from, to))
        && (from != to ==> from !in ReplaceBlocks(was[i], from, to).blocks)
    {
      if i !in users {
        assert Blocks(was)[i] == was[i].blocks;
        ReplacedSame(was[i].blocks, from, to);
      }
      ReplacedIn(was[i].blocks, from, to, from);
    }
  }

  lemma AllReplaced(was: map<nat, InstData>, uses: Uses, users: set<nat>, from: nat, to: nat)
    requires Covered(Args(was), uses) && users == if from in uses then uses[from] else {}
    ensures forall i {:trigger was[i]} :: i in was ==>
      (i !in users ==> was[i] == ReplaceArgs(was[i], from, to))
      && (from != to ==> from !in ReplaceArgs(was[i], from, to).args)
  {
    forall i | i in was
      ensures (i !in users ==> was[i] == ReplaceArgs(was[i], from, to))
        && (from != to ==> from !in ReplaceArgs(was[i], from, to).args)
    {
      if i !in users {
        assert Args(was)[i] == was[i].args;
        ReplacedSame(was[i].args, from, to);
      }
      ReplacedIn(was[i].args, from, to, from);
    }
  }

  lemma ClosedReplace(insts: map<nat, InstData>, results: map<nat, nat>, values: map<nat, ValueData>, i: nat, from: nat,
      to: nat)
    requires Closed(insts, results, values) && i in insts && (to == INVALID || to in values)
    ensures Closed(insts[i := ReplaceArgs(insts[i], from, to)], results, values)
  {
    forall x
      ensures x in Replaced(insts[i].args, from, to) <==>
        (x in insts[i].args && x != from) || (x == to && from in insts[i].args)
    {
      ReplacedIn(insts[i].args, from, to, x);
    }
  }

  lemma ReplaceTight(uses: Uses, i: nat, xs: seq<nat>, from: nat, to: nat, uses': Uses, uses'': Uses)
    requires uses' == uses[from := (if from in uses then uses[from] else {}) - {i}]
      && Registered(uses', i, Replaced(xs, from, to), uses'')
    ensures Tight(uses, i, xs) ==> Tight(uses'', i, Replaced(xs, from, to))
    ensures forall j, ys :: j != i && Tight(uses, j, ys) ==> Tight(uses'', j, ys)
    ensures forall insts :: i in insts && UsersExist(insts, uses) ==> UsersExist(insts, uses'')
  {
    forall x
      ensures x in Replaced(xs, from, to) <==> (x in xs && x != from) || (x == to && from in xs)
    {
      ReplacedIn(xs, from, to, x);
    }
    forall insts | i in insts && UsersExist(insts, uses)
      ensures UsersExist(insts, uses'')
    {
    }
  }
}
