/** The order of blocks, and of the instructions in each block (src/ir/layout.rs and
    src/ir/unit.rs). */
module Layout {
  import opened LinkedList
  import opened Sets

  /** The first of the remaining instructions is not among the others. */
  lemma NextElement(insts: seq<nat>, k: nat)
    requires Distinct(insts) && k < |insts|
    ensures insts[k] in Elements(insts[k..]) && Elements(insts[k..]) - {insts[k]} == Elements(insts[k + 1..])
    ensures Elements(insts[k..]) == Elements(insts[k + 1..]) + {insts[k]}
  {
    assert insts[k..][1..] == insts[k + 1..] && insts[k..][0] == insts[k];
    ElementsIn(insts[k + 1..], insts[k]);
  }

  class FunctionLayout {
    const bbs: List
    /** The instructions of each block. */
    var layouts: map<nat, List>
    /** The block that contains an instruction. */
    var instMap: map<nat, nat>

    constructor ()
      ensures Valid() && Blocks() == [] && fresh(bbs)
    {
      bbs := new List();
      layouts, instMap := map[], map[];
    }

    /** All lists are valid and separate. */
    ghost predicate ListsValid()
      reads this, bbs, layouts.Values
    {
      && bbs.Valid()
      && (forall b {:trigger layouts[b]} :: b in layouts ==> layouts[b].Valid() && layouts[b] != bbs)
      && (forall b, c {:trigger layouts[b], layouts[c]} :: b in layouts && c in layouts && b != c ==>
        layouts[b] != layouts[c])
      && (forall b {:trigger b in layouts} :: b in layouts <==> b in bbs.order)
    }

    /** The map names exactly the block whose list holds an instruction. */
    ghost predicate MapExact()
      reads this, layouts.Values
    {
      && (forall i {:trigger i in instMap} :: i in instMap ==> instMap[i] in layouts && i in layouts[instMap[i]].order)
      && (forall b, i {:trigger i in layouts[b].order} :: b in layouts && i in layouts[b].order ==>
        i in instMap && instMap[i] == b)
    }

    ghost predicate Valid()
      reads this, bbs, layouts.Values
    {
      ListsValid() && MapExact()
    }

    /** The blocks in order. */
    ghost function Blocks(): seq<nat>
      reads bbs
    {
      bbs.order
    }

    /** The instructions of a block in order. */
    ghost function Insts(b: nat): seq<nat>
      requires b in layouts
      reads this, layouts[b]
    {
      layouts[b].order
    }

    // -------------------------------------------------------------- blocks

    method AppendBlock(bb: nat)
      requires Valid() && bb !in bbs.order
      modifies this`layouts, bbs
      ensures Valid() && Blocks() == old(Blocks()) + [bb]
      ensures layouts.Keys == old(layouts).Keys + {bb} && Insts(bb) == [] && forall b :: b in old(layouts) ==>
        layouts[b] == old(layouts)[b]
    {
      bbs.Append(bb);
      AddLayout(bb);
    }

    method PrependBlock(bb: nat)
      requires Valid() && bb !in bbs.order
      modifies this`layouts, bbs
      ensures Valid() && Blocks() == [bb] + old(Blocks())
      ensures layouts.Keys == old(layouts).Keys + {bb} && Insts(bb) == [] && forall b :: b in old(layouts) ==>
        layouts[b] == old(layouts)[b]
    {
      bbs.Prepend(bb);
      AddLayout(bb);
    }

    method InsertBlockAfter(bb: nat, after: nat)
      requires Valid() && bb !in bbs.order && after in bbs.order
      modifies this`layouts, bbs
      ensures Valid() && Blocks() == InsertAt(old(Blocks()), IndexOf(old(Blocks()), after) + 1, bb)
      ensures layouts.Keys == old(layouts).Keys + {bb} && Insts(bb) == [] && forall b :: b in old(layouts) ==>
        layouts[b] == old(layouts)[b]
    {
      bbs.InsertAfter(bb, after);
      AddLayout(bb);
    }

    method InsertBlockBefore(bb: nat, before: nat)
      requires Valid() && bb !in bbs.order && before in bbs.order
      modifies this`layouts, bbs
      ensures Valid() && Blocks() == InsertAt(old(Blocks()), IndexOf(old(Blocks()), before), bb)
      ensures layouts.Keys == old(layouts).Keys + {bb} && Insts(bb) == [] && forall b :: b in old(layouts) ==>
        layouts[b] == old(layouts)[b]
    {
      bbs.InsertBefore(bb, before);
      AddLayout(bb);
    }

    /** A new block has no instructions. */
    method AddLayout(bb: nat)
      requires bb !in layouts && bbs.Valid() && (forall b :: b in bbs.order <==> b in layouts || b == bb) && MapExact()
      requires forall b {:trigger layouts[b]} :: b in layouts ==> layouts[b].Valid() && layouts[b] != bbs
      requires forall b, c {:trigger layouts[b], layouts[c]} :: b in layouts && c in layouts && b != c ==>
        layouts[b] != layouts[c]
      modifies this`layouts
      ensures Valid() && bb in layouts && layouts.Keys == old(layouts).Keys + {bb} && fresh(layouts[bb])
        && Insts(bb) == []
      ensures forall b :: b in old(layouts) ==> layouts[b] == old(layouts)[b]
    {
      var list := new List();
      layouts := layouts[bb := list];
    }

    method SwapBlocks(bb0: nat, bb1: nat)
      requires Valid() && bb0 in bbs.order && bb1 in bbs.order
      modifies bbs
      ensures Valid() && Blocks() == Exchange(old(Blocks()), IndexOf(old(Blocks()), bb0), IndexOf(old(Blocks()), bb1))
    {
      bbs.Swap(bb0, bb1);
    }

    // -------------------------------------------------------------- instructions

    /** The map is exact, but for an instruction that has just been put into a block. */
    ghost predicate MapLacks(inst: nat, bb: nat)
      reads this, layouts.Values
    {
      && (forall i {:trigger i in instMap} :: i in instMap ==> instMap[i] in layouts && i in layouts[instMap[i]].order)
      && (forall b, i {:trigger i in layouts[b].order} :: b in layouts && i in layouts[b].order ==>
        (i == inst && b == bb) || (i in instMap && instMap[i] == b))
      && inst !in instMap && bb in layouts && inst in layouts[bb].order
    }

    /** Add a mapping from an instruction to the block that contains it. */
    method MapInst(inst: nat, bb: nat)
      requires ListsValid() && MapLacks(inst, bb)
      modifies this`instMap
      ensures Valid() && instMap == old(instMap)[inst := bb]
    {
      instMap := instMap[inst := bb];
    }

    /** The map is exact, but for instructions that have just been taken out of a block. */
    ghost predicate MapBeyond(gone: set<nat>)
      reads this, layouts.Values
    {
      && (forall i {:trigger i in instMap} :: i in instMap && i !in gone ==>
        instMap[i] in layouts && i in layouts[instMap[i]].order)
      && (forall b, i {:trigger i in layouts[b].order} :: b in layouts && i in layouts[b].order ==>
        i !in gone && i in instMap && instMap[i] == b)
      && gone <= instMap.Keys
    }

    /** Remove a mapping from an instruction to the block that contained it. */
    method UnmapInst(inst: nat, ghost gone: set<nat>)
      requires ListsValid() && MapBeyond(gone) && inst in gone
      modifies this`instMap
      ensures ListsValid() && MapBeyond(gone - {inst}) && instMap == old(instMap) - {inst}
    {
      instMap := instMap - {inst};
    }

    /** The lists stay separate when one of them changes. */
    twostate lemma OtherLists(bb: nat)
      requires old(ListsValid()) && bb in layouts && layouts == old(layouts) && unchanged(bbs) && layouts[bb].Valid()
      requires forall b :: b in layouts && b != bb ==> unchanged(layouts[b])
      ensures ListsValid() && OthersKept(bb)
    {
    }

    /** Every other block keeps its instructions. */
    twostate predicate OthersKept(bb: nat)
      reads this, layouts.Values
    {
      forall b :: b in layouts && b in old(layouts) && b != bb ==>
        layouts[b] == old(layouts[b]) && layouts[b].order == old(layouts[b].order)
    }

    /** Put an instruction at the end of a block's list, and leave the map for later. */
    method LinkLast(inst: nat, bb: nat)
      requires Valid() && bb in layouts && inst !in instMap
      modifies layouts[bb]
      ensures ListsValid() && MapLacks(inst, bb) && OthersKept(bb)
      ensures layouts[bb].order == old(layouts[bb].order) + [inst]
    {
      layouts[bb].Append(inst);
      OtherLists(bb);
    }

    method LinkFirst(inst: nat, bb: nat)
      requires Valid() && bb in layouts && inst !in instMap
      modifies layouts[bb]
      ensures ListsValid() && MapLacks(inst, bb) && OthersKept(bb)
      ensures layouts[bb].order == [inst] + old(layouts[bb].order)
    {
      layouts[bb].Prepend(inst);
      OtherLists(bb);
    }

    method LinkAfter(inst: nat, after: nat, bb: nat)
      requires Valid() && bb in layouts && after in layouts[bb].order && inst !in instMap
      modifies layouts[bb]
      ensures ListsValid() && MapLacks(inst, bb) && OthersKept(bb)
      ensures layouts[bb].order == InsertAt(old(layouts[bb].order), IndexOf(old(layouts[bb].order), after) + 1, inst)
    {
      layouts[bb].InsertAfter(inst, after);
      OtherLists(bb);
    }

    method LinkBefore(inst: nat, before: nat, bb: nat)
      requires Valid() && bb in layouts && before in layouts[bb].order && inst !in instMap
      modifies layouts[bb]
      ensures ListsValid() && MapLacks(inst, bb) && OthersKept(bb)
      ensures layouts[bb].order == InsertAt(old(layouts[bb].order), IndexOf(old(layouts[bb].order), before), inst)
    {
      layouts[bb].InsertBefore(inst, before);
      OtherLists(bb);
    }

    /** Take an instruction out of a block's list, and leave the map for later. */
    method Unlink(inst: nat, bb: nat)
      requires Valid() && bb in layouts && inst in layouts[bb].order
      modifies layouts[bb]
      ensures ListsValid() && MapBeyond({inst}) && OthersKept(bb)
      ensures layouts[bb].order == RemoveAt(old(layouts[bb].order), IndexOf(old(layouts[bb].order), inst))
    {
      layouts[bb].Remove(inst);
      OtherLists(bb);
    }

    method AppendInst(inst: nat, bb: nat)
      requires Valid() && bb in layouts && inst !in instMap
      modifies this`instMap, layouts[bb]
      ensures Valid() && layouts == old(layouts) && Insts(bb) == old(Insts(bb)) + [inst] && OthersKept(bb)
      ensures instMap == old(instMap)[inst := bb]
    {
      LinkLast(inst, bb);
      MapInst(inst, bb);
    }

    method PrependInst(inst: nat, bb: nat)
      requires Valid() && bb in layouts && inst !in instMap
      modifies this`instMap, layouts[bb]
      ensures Valid() && layouts == old(layouts) && Insts(bb) == [inst] + old(Insts(bb)) && OthersKept(bb)
      ensures instMap == old(instMap)[inst := bb]
    {
      LinkFirst(inst, bb);
      MapInst(inst, bb);
    }

    method InsertInstAfter(inst: nat, after: nat)
      requires Valid() && after in instMap && inst !in instMap
      modifies this`instMap, if after in instMap && instMap[after] in layouts then {layouts[instMap[after]]} else {}
      ensures Valid() && layouts == old(layouts) && instMap == old(instMap)[inst := old(instMap)[after]]
      ensures OthersKept(old(instMap)[after])
      ensures Insts(old(instMap)[after])
        == InsertAt(old(Insts(instMap[after])), IndexOf(old(Insts(instMap[after])), after) + 1, inst)
    {
      var bb := instMap[after];
      LinkAfter(inst, after, bb);
      MapInst(inst, bb);
    }

    method InsertInstBefore(inst: nat, before: nat)
      requires Valid() && before in instMap && inst !in instMap
      modifies this`instMap, if before in instMap && instMap[before] in layouts then {layouts[instMap[before]]} else {}
      ensures Valid() && layouts == old(layouts) && instMap == old(instMap)[inst := old(instMap)[before]]
      ensures OthersKept(old(instMap)[before])
      ensures Insts(old(instMap)[before])
        == InsertAt(old(Insts(instMap[before])), IndexOf(old(Insts(instMap[before])), before), inst)
    {
      var bb := instMap[before];
      LinkBefore(inst, before, bb);
      MapInst(inst, bb);
    }

    method RemoveInst(inst: nat)
      requires Valid() && inst in instMap
      modifies this`instMap, if inst in instMap && instMap[inst] in layouts then {layouts[instMap[inst]]} else {}
      ensures Valid() && layouts == old(layouts) && instMap == old(instMap) - {inst}
      ensures OthersKept(old(instMap)[inst])
      ensures Insts(old(instMap)[inst])
        == RemoveAt(old(Insts(instMap[inst])), IndexOf(old(Insts(instMap[inst])), inst))
    {
      Unlink(inst, instMap[inst]);
      UnmapInst(inst, {inst});
    }

    // -------------------------------------------------------------- deleting blocks

    /** Remove a block, and its list of instructions with it; the map still names these. */
    method RemoveBlock(bb: nat)
      requires Valid() && bb in layouts
      modifies this`layouts, bbs
      ensures ListsValid() && MapBeyond(Elements(old(Insts(bb))))
      ensures Blocks() == RemoveAt(old(Blocks()), IndexOf(old(Blocks()), bb)) && layouts == old(layouts) - {bb}
    {
      ghost var was := Insts(bb);
      bbs.Remove(bb);
      layouts := layouts - {bb};
      forall i
        ensures i in Elements(was) <==> i in was
      {
        ElementsIn(was, i);
      }
    }

    /** Take instructions out of the map that are in no list. */
    method UnmapInsts(insts: seq<nat>)
      requires ListsValid() && MapBeyond(Elements(insts)) && Distinct(insts)
      modifies this`instMap
      ensures Valid() && instMap == old(instMap) - Elements(insts)
    {
      assert insts[0..] == insts;
      ghost var done: set<nat> := {};
      for k := 0 to |insts|
        invariant ListsValid() && MapBeyond(Elements(insts[k..]))
        invariant instMap == old(instMap) - done && done + Elements(insts[k..]) == Elements(insts)
      {
        NextElement(insts, k);
        UnmapInst(insts[k], Elements(insts[k..]));
        done := done + {insts[k]};
      }
      assert Elements(insts[|insts|..]) == {};
    }

    /** Delete a block: collect its instructions, remove it, and take each of them out of the map. */
    method DeleteBlock(bb: nat)
      requires Valid() && bb in layouts
      modifies this`layouts, this`instMap, bbs
      ensures Valid() && Blocks() == RemoveAt(old(Blocks()), IndexOf(old(Blocks()), bb))
      ensures layouts == old(layouts) - {bb} && instMap == old(instMap) - Elements(old(Insts(bb)))
      ensures forall b :: b in layouts ==> Insts(b) == old(Insts(b))
    {
      var insts := layouts[bb].Collect();
      RemoveBlock(bb);
      UnmapInsts(insts);
    }
  }
}
