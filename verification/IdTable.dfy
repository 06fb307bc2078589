/** The table that hands out ids: src/table.rs.

    Ids are handed out anew after a removal.  What a caller can observe depends on
    the live entries alone, so a table that is written out and read back behaves
    as before although it has another capacity and other free ids. */
module IdTable {

  // ---------------------------------------------------------------- the least id that is not live

  function LeastFrom(keys: set<nat>, k: nat): nat {
    if k in keys then LeastFrom(keys - {k}, k + 1) else k
  }

  lemma {:induction false} LeastFromBound(keys: set<nat>, k: nat)
    ensures LeastFrom(keys, k) !in keys && k <= LeastFrom(keys, k)
    ensures forall j :: k <= j < LeastFrom(keys, k) ==> j in keys
    decreases keys
  {
    if k in keys {
      LeastFromBound(keys - {k}, k + 1);
      forall j | k <= j < LeastFrom(keys, k)
        ensures j in keys
      {
        assert j == k || j in keys - {k};
      }
    }
  }

  /** The id that a table with these live ids hands out next. */
  function LeastAbsent(keys: set<nat>): nat {
    LeastFrom(keys, 0)
  }

  /** It is the only id that is not live although all below it are. */
  lemma LeastAbsentUnique(keys: set<nat>, id: nat)
    ensures id == LeastAbsent(keys) <==> id !in keys && forall j: nat :: j < id ==> j in keys
  {
    LeastFromBound(keys, 0);
    var least := LeastAbsent(keys);
    if id !in keys && forall j: nat :: j < id ==> j in keys {
      assert !(least < id);
      assert !(id < least);
    }
  }

  lemma SmallestExists(s: set<nat>) returns (id: nat)
    requires s != {}
    ensures id in s && forall j :: j in s ==> id <= j
  {
    var some :| some in s;
    id := some;
    var rest := s - {some};
    if rest != {} {
      var m := SmallestExists(rest);
      if m < some {
        id := m;
      }
    }
    assert forall j :: j in s ==> j == some || j in rest;
  }

  // ---------------------------------------------------------------- entries as a list

  /** The entries with an id below n, in order. */
  function Listing<V>(entries: map<nat, V>, n: nat): seq<(nat, V)> {
    if n == 0 then [] else Listing(entries, n - 1) + (if n - 1 in entries then [(n - 1, entries[n - 1])] else [])
  }

  /** The map that a list of entries denotes: the last entry for an id wins. */
  function MapOf<V>(list: seq<(nat, V)>): map<nat, V> {
    if list == [] then map[] else MapOf(list[..|list| - 1])[list[|list| - 1].0 := list[|list| - 1].1]
  }

  /** One more than the largest id. */
  function Reach<V>(list: seq<(nat, V)>): nat {
    if list == [] then 0 else
    var r, k := Reach(list[..|list| - 1]), list[|list| - 1].0;
    if k >= r then k + 1 else r
  }

  predicate NoRepeats<V>(list: seq<(nat, V)>) {
    list == [] || (NoRepeats(list[..|list| - 1]) && list[|list| - 1].0 !in MapOf(list[..|list| - 1]))
  }

  lemma {:induction false} MapReach<V>(list: seq<(nat, V)>)
    ensures forall k :: k in MapOf(list) ==> k < Reach(list)
  {
    if list == [] {
    } else {
      MapReach(list[..|list| - 1]);
    }
  }

  /** There are as many live ids as entries exactly when no id is repeated. */
  lemma {:induction false} CountExact<V>(list: seq<(nat, V)>)
    ensures |MapOf(list).Keys| <= |list| && (|MapOf(list).Keys| == |list| <==> NoRepeats(list))
  {
    if list == [] {
    } else {
      var init, k := list[..|list| - 1], list[|list| - 1].0;
      CountExact(init);
      assert MapOf(list).Keys == MapOf(init).Keys + {k};
      if k in MapOf(init) {
        assert MapOf(init).Keys + {k} == MapOf(init).Keys;
      }
    }
  }

  /** Reading back what was listed yields the entries, each once. */
  lemma {:induction false} ListingRoundTrip<V>(entries: map<nat, V>, n: nat)
    ensures MapOf(Listing(entries, n)) == (map k | k in entries && k < n :: entries[k])
    ensures NoRepeats(Listing(entries, n))
  {
    if n > 0 {
      ListingRoundTrip(entries, n - 1);
      var init, list := Listing(entries, n - 1), Listing(entries, n);
      if n - 1 in entries {
        assert list[..|list| - 1] == init && list[|list| - 1] == (n - 1, entries[n - 1]);
      } else {
        assert list == init;
      }
    }
  }

  // ---------------------------------------------------------------- what callers observe

  datatype Operation<V> = Add(value: V) | Remove(key: nat)

  datatype Outcome<V> = Added(id: nat) | Removed(value: V) | Panicked

  function Apply<V>(entries: map<nat, V>, op: Operation<V>): (map<nat, V>, Outcome<V>) {
    match op
    case Add(v) => var id := LeastAbsent(entries.Keys); (entries[id := v], Added(id))
    case Remove(k) => if k in entries then (entries - {k}, Removed(entries[k])) else (entries, Panicked)
  }

  /** The outcomes of operations up to the first that panics. */
  function Outcomes<V>(entries: map<nat, V>, ops: seq<Operation<V>>): seq<Outcome<V>>
    decreases |ops|
  {
    if ops == [] then [] else
    var (e, out) := Apply(entries, ops[0]);
    if out.Panicked? then [out] else [out] + Outcomes(e, ops[1..])
  }

  // ---------------------------------------------------------------- the table

  function EntriesOf<V>(storage: seq<V>, used: set<nat>): map<nat, V>
    requires forall k :: k in used ==> k < |storage|
  {
    map k | k in used :: storage[k]
  }

  lemma EntriesAdd<V>(storage: seq<V>, used: set<nat>, id: nat, value: V, next: seq<V>)
    requires (forall k :: k in used ==> k < |storage| && k < |next|) && id < |next| && id !in used
    requires next[id] == value && forall k :: k in used ==> next[k] == storage[k]
    ensures EntriesOf(next, used + {id}) == EntriesOf(storage, used)[id := value]
  {
  }

  class PrimaryTable<V> {
    var storage: seq<V>
    var count: nat
    var used: set<nat>
    var free: set<nat>
    const empty: V

    /** Used and free ids partition the storage. */
    ghost predicate Partitioned()
      reads this
    {
      && (forall k :: k in used ==> k < |storage| && k !in free)
      && (forall k :: k in free ==> k < |storage|)
      && (forall k: nat {:trigger k in used} {:trigger k in free} :: k < |storage| ==> k in used || k in free)
    }

    ghost predicate Valid()
      reads this
    {
      Partitioned() && count == |used|
    }

    /** The live entries. */
    function Entries(): map<nat, V>
      requires Partitioned()
      reads this
    {
      EntriesOf(storage, used)
    }

    constructor (empty: V)
      ensures Valid() && Entries() == map[] && storage == [] && free == {} && this.empty == empty
    {
      this.empty := empty;
      storage, count, used, free := [], 0, {}, {};
    }

    /** The least free id is the least that is not live. */
    lemma FreeIsLeast(id: nat)
      requires Partitioned() && (if free == {} then id == |storage| else id in free && forall j :: j in free ==>
        id <= j)
      ensures id == LeastAbsent(Entries().Keys) && id !in used
    {
      assert Entries().Keys == used;
      LeastAbsentUnique(used, id);
    }

    /** The first of the free ids, which are kept in order. */
    method FirstFree() returns (found: bool, id: nat)
      ensures found <==> free != {}
      ensures found ==> id in free && forall j :: j in free ==> id <= j
    {
      found, id := free != {}, 0;
      if found {
        ghost var least := SmallestExists(free);
        id :| id in free && forall j :: j in free ==> id <= j;
      }
    }

    /** Add an entry under the least id that is not live. */
    method Add(value: V) returns (id: nat)
      requires Valid()
      modifies this
      ensures Valid()
      ensures id == LeastAbsent(old(Entries()).Keys)
      ensures Entries() == old(Entries())[id := value]
    {
      var found, first := FirstFree();
      FreeIsLeast(if found then first else |storage|);
      count := count + 1;
      if found {
        id := first;
        EntriesAdd(storage, used, id, value, storage[id := value]);
        used := used + {id};
        free := free - {id};
        storage := storage[id := value];
      } else {
        id := |storage|;
        EntriesAdd(storage, used, id, value, storage + [value]);
        used := used + {id};
        storage := storage + [value];
      }
    }

    /** Remove an entry. */
    method Remove(key: nat) returns (value: V)
      requires Valid() && key in used
      modifies this
      ensures Valid()
      ensures value == old(Entries())[key] && Entries() == old(Entries()) - {key}
    {
      count := count - 1;
      used := used - {key};
      free := free + {key};
      value := storage[key];
      storage := storage[key := empty];
    }

    /** Run operations, up to the first that panics: what they yield is determined by the live entries. */
    method Run(ops: seq<Operation<V>>) returns (outcomes: seq<Outcome<V>>)
      requires Valid()
      modifies this
      ensures Valid() && outcomes == Outcomes(old(Entries()), ops)
    {
      outcomes := [];
      var i := 0;
      while i < |ops|
        invariant 0 <= i <= |ops| && Valid()
        invariant outcomes + Outcomes(Entries(), ops[i..]) == Outcomes(old(Entries()), ops)
      {
        ghost var before := Entries();
        assert ops[i..][0] == ops[i] && ops[i..][1..] == ops[i + 1..];
        var out: Outcome<V>;
        match ops[i] {
          case Add(v) =>
            var id := Add(v);
            out := Added(id);
          case Remove(k) =>
            if k !in used {
              outcomes := outcomes + [Panicked];
              return;
            }
            var v := Remove(k);
            out := Removed(v);
        }
        assert Apply(before, ops[i]) == (Entries(), out);
        assert outcomes + ([out] + Outcomes(Entries(), ops[i + 1..]))
          == outcomes + [out] + Outcomes(Entries(), ops[i + 1..]);
        outcomes := outcomes + [out];
        i := i + 1;
      }
    }

    /** The used ids hold these entries, in storage of this size. */
    ghost predicate Holds(entries: map<nat, V>, size: nat)
      reads this
    {
      && |storage| == size
      && used == entries.Keys
      && (forall k :: k in used ==> k < |storage| && storage[k] == entries[k])
    }

    /** Store an entry that was read. */
    method Put(ghost entries: map<nat, V>, key: nat, value: V)
      requires Holds(entries, |storage|)
      modifies this
      ensures Holds(entries[key := value], if key >= old(|storage|) then key + 1 else old(|storage|))
      ensures free == old(free) && count == old(count) + 1
    {
      if key >= |storage| {
        storage := storage + seq(key + 1 - |storage|, _ => empty);
      }
      storage := storage[key := value];
      used := used + {key};
      count := count + 1;
    }

    /** All ids that are not used become free. */
    method CollectFree(ghost entries: map<nat, V>)
      requires free == {} && Holds(entries, |storage|)
      modifies this
      ensures Partitioned() && Entries() == entries
      ensures |storage| == old(|storage|) && count == old(count) && used == old(used)
    {
      for i := 0 to |storage|
        invariant Holds(entries, |storage|) && |storage| == old(|storage|) && count == old(count) && used == old(used)
        invariant forall k: nat :: k in free <==> k < i && k !in used
      {
        if i !in used {
          free := free + {i};
        }
      }
    }

    /** Write the entries out in the order of their ids. */
    method Serialize() returns (list: seq<(nat, V)>)
      requires Valid()
      ensures list == Listing(Entries(), |storage|)
    {
      list := [];
      for i := 0 to |storage|
        invariant list == Listing(Entries(), i)
      {
        if i in used {
          list := list + [(i, storage[i])];
        }
      }
    }
  }

  lemma HoldsNext<V>(list: seq<(nat, V)>, n: nat)
    requires n < |list|
    ensures MapOf(list[..n + 1]) == MapOf(list[..n])[list[n].0 := list[n].1]
    ensures Reach(list[..n + 1]) == if list[n].0 >= Reach(list[..n]) then list[n].0 + 1 else Reach(list[..n])
  {
    assert list[..n + 1][..n] == list[..n] && list[..n + 1][n] == list[n];
  }

  /** Read entries back.  The count is that of the entries, so it is the number of live ids
      exactly when no id is repeated. */
  method Deserialize<V>(list: seq<(nat, V)>, empty: V) returns (table: PrimaryTable<V>)
    ensures fresh(table) && table.Partitioned() && table.Entries() == MapOf(list)
    ensures |table.storage| == Reach(list) && table.count == |list|
    ensures table.Valid() <==> NoRepeats(list)
  {
    table := new PrimaryTable(empty);
    for n := 0 to |list|
      invariant fresh(table) && table.free == {} && table.count == n
      invariant table.Holds(MapOf(list[..n]), Reach(list[..n]))
    {
      HoldsNext(list, n);
      table.Put(MapOf(list[..n]), list[n].0, list[n].1);
    }
    assert list[..|list|] == list;
    table.CollectFree(MapOf(list));
    CountExact(list);
  }

  /** A table that is written out and read back has the same entries, and yields the same
      outcomes under all later operations. */
  method WriteAndRead<V>(table: PrimaryTable<V>, ops: seq<Operation<V>>)
      returns (here: seq<Outcome<V>>, there: seq<Outcome<V>>, copy: PrimaryTable<V>)
    requires table.Valid()
    modifies table
    ensures here == there == Outcomes(old(table.Entries()), ops)
  {
    var list := table.Serialize();
    copy := Deserialize(list, table.empty);
    ListingRoundTrip(table.Entries(), |table.storage|);
    assert copy.Entries() == table.Entries();
    there := copy.Run(ops);
    here := table.Run(ops);
  }
}
