# LLHD: simulator kernel, transformations and analyses

LLHD is an intermediate representation for hardware with an event-driven simulator of its own. This project models
the parts of it that are hardest to get right, in the form in which they are written, and proves what they are for.

- **Analyses.** Depth-first post-order (`PostOrder`), the iterative dominator algorithm on an array (`DomTree`), and
  the tables and queries built on it (`Dominators`).
- **Simulator values and pointers.** Arbitrary-width integers as bits (`IntValues`), values and nested selections
  (`Values`), pointers as lists of slices (`Pointers`), reading and writing through them (`PointerAccess`, `PointerOps`,
  `PointerFields`, `PointerWrites`, with the generic laws in `Lenses`), and which pointers reach a common cell (`Cells`,
  `Overlap`).
- **Simulator kernel.** Time (`SimTime`), queues and instances (`Kernel`), steps and runs (`Engine`), their independence
  of any order (`StepOrder`, `SignalOrder`, `Determinism`), the incremental evaluation of entities (`EntityEval`,
  with the simulator's own operations in `EntityPointers`), and whole runs of entities among processes (`Entities`).
- **Transformations.** Desequentialization (`Dnf`, `Triggers`, `Deseq`), branch threading and pruning (`Threading`,
  `ThreadingRewrite`, `ThreadingRuns`), discriminators for phis (`Discriminator`), drive coalescing (`Coalesce`), and
  constant folding (`IntArith`, `Folding`, `SliceFolding`).
- **Storage and text.** Linked block and instruction lists (`LinkedList`, `Layout`), use tables (`UseTables`), the id
  table and its serialized form (`IdTable`), and printing and parsing of times (`TimeText`).

What updates state step by step is a class or a method with loops, and its contract ties the new state to a function of
the old one; what is promised about that function is stated in lemmas. Calls into code outside the model are parameters:
what an instance of the simulator computes until it suspends itself, what pure instructions of an entity compute, what
blocks of code do with the values of a unit.

In a few places the code does less than its design asks for. There the model follows the code, and the project proves
exactly when the design is met:

- Threading branches changes the meaning of a phi if a replaced predecessor takes the name of the one that control comes
  from (`ThreadingRuns.ThreadingExactly`, `ThreadingRuns.DeadArmsDiffer`).
- Coalescing drives changes the schedule if a drive with another operand for the same delay lies between two drives that
  are merged (`Coalesce.KeptExactly`, `Coalesce.EqualDelaysClash`).
- Desequentialization compares wider values as if they were bits. A drive that is accepted keeps its meaning if and only
  if the sampled bits settle its condition, unless that compares two constants. They do if no comparisons form a cycle;
  with a cycle a drive can be lost (`Deseq.DeseqProcess`, `Triggers.FaithfulExactly`, `Deseq.DriveIsLost`).
- The folder takes zero minus a value for that value (`Folding.FoldBinaryCorrect`).
- Events that are due at one time and reach a common cell depend on the order of a hash map (`Overlap.CommuteExactly`).
- A pointer with two slices on one target loses what is written to the earlier one (`Overlap.ReadsBackExactly`).
- Shifting pointers by more than the width of the base yields a pointer of another width (`Pointers.ShiftExactly`), and
  extracting an element behind a slice of width 0 one of another type (`PointerFields.ExtField`).
- If a block is reached from two roots by separate ways, no tree below the roots tells its dominators
  (`Dominators.ExactlyWithOneRoot`).
- Use tables keep stale records once a phi has lost an entry (`UseTables.DataFlow.RemoveInst`). They still cover all uses.

## Model

| member | source | states |
|---|---|---|
| PostOrder.ComputeBlocksPostOrder | src/analysis/domtree.rs:155-181 | The search lists each block that is reachable from the roots exactly once and no other; every block but the roots comes before one of its predecessors; every edge leads to a block that is listed earlier, unless that block was still open when the origin of the edge was discovered, and then it is listed no earlier and the edge closes a cycle. |
| PostOrder.AcyclicTopological | src/analysis/domtree.rs:155-181 | On a graph without cycles the post-order is a reverse topological order. |
| DomTree.Intersect | src/analysis/domtree.rs:80-96 | The two-finger walk ends at the nearest common ancestor of two blocks of the tree. |
| DomTree.Sweep | src/analysis/domtree.rs:64-103 | One sweep keeps the invariant between tree and true dominators, and either changes nothing, and then every block is settled, or makes progress by a bounded measure. |
| DomTree.Iterate | src/analysis/domtree.rs:40-105 | The fixpoint terminates, for any number of roots: if some root lies on all walks to each block, ancestry in the resulting trees is exactly dominance, that is, every walk from a root passes the block. |
| Dominators.DominatesIsDom | src/analysis/domtree.rs:40-75 | Dominance by post-order numbers is dominance in the control-flow graph, from all roots. |
| Dominators.DominatorTree.constructor | src/analysis/domtree.rs:40-153 | The tree and both dominator tables say exactly which blocks lie on every path from a root, the roots being the entry and the blocks without predecessors, if all blocks are reachable and each has a root on all paths to it. |
| Dominators.DominatorTree.BlockDominatesBlock | src/analysis/domtree.rs:217-228 | The query answers true if and only if every path from a root to the child passes the parent. |
| Dominators.ExactlyWithOneRoot | src/analysis/domtree.rs:40-75 | No trees below the roots answer dominance exactly unless each block has a root on all paths to it. |
| Dominators.SingleEntry | src/analysis/domtree.rs:60-75 | A unit in which only the entry lacks predecessors meets that condition. |
| IntValues.InsertBits | src/bin/llhd-sim/value.rs:226-235 | Inserting by masks changes exactly the bits of the slice. |
| Values.ReadWrite | src/bin/llhd-sim/engine.rs:1099-1132 | Reading through a path of nested field and slice selections yields what was written through it. |
| Values.WriteRead | src/bin/llhd-sim/engine.rs:1099-1132 | Writing back what was read through a path changes nothing. |
| Values.WriteWrite | src/bin/llhd-sim/engine.rs:1099-1132 | Of two writes through the same path the second one wins. |
| PointerOps.ReadPointer | src/bin/llhd-sim/engine.rs:799-856 | The loops read the concatenation of what the slices select. |
| Pointers.ExtSliceContents | src/bin/llhd-sim/engine.rs:1001-1022 | Extracting a slice of a pointer selects the window of the concatenated contents, whatever the slices read. |
| PointerOps.ExtSliceReads | src/bin/llhd-sim/engine.rs:1001-1022 | Reading through an extracted slice is reading through the pointer and then extracting, on typed integers and arrays. |
| PointerFields.ExtField | src/bin/llhd-sim/engine.rs:964-996 | Extracting a field of any typed pointer: the result has the type of the field exactly if no slice of width 0 stands in front of it, and then reading through it is reading through the pointer and taking the field. |
| Pointers.ShiftExactly | src/bin/llhd-sim/engine.rs:877-947 | Shifting two pointers into each other selects the documented window of both if and only if the amount, cut to the width of the hidden pointer, is at most the width of the base. |
| PointerOps.ShiftReads | src/bin/llhd-sim/engine.rs:877-947 | The shifted pointer has the type of the base if and only if the cut amount is at most its width, and then reading through it yields exactly the value whose parts are that window. |
| PointerWrites.WritePointer | src/bin/llhd-sim/engine.rs:1065-1087 | The loop over the slices writes to each target the part of the value that belongs to its slice. |
| PointerWrites.StoreBack | src/bin/llhd-sim/engine.rs:80-107 | Storing the modified copies back in turn leaves the last copy of each target; the reported targets are exactly those some copy of which was modified, among them all that differ. |
| PointerWrites.ApplyWrite | src/bin/llhd-sim/engine.rs:80-107 | Applying an event is the write through its pointer, for pointers with any targets; the reported signals are exactly those some slice of which did not hold its part already, and, if no target comes twice, exactly those whose values differ. |
| PointerAccess.ReadAfterWrite | src/bin/llhd-sim/engine.rs:1065-1132 | What is read through a pointer with distinct targets after a write is what was written. |
| Overlap.ReadsBackExactly | src/bin/llhd-sim/engine.rs:1065-1132 | Whatever is written is read back if and only if no slice with anything in it has a target that comes again in the pointer. |
| PointerAccess.WriteBack | src/bin/llhd-sim/engine.rs:1065-1132 | Writing back through a pointer what was read through it leaves all signals and variables as they are. |
| PointerAccess.SecondWriteWins | src/bin/llhd-sim/engine.rs:1065-1132 | A second write through a pointer hides the first, also if targets come twice. |
| PointerAccess.DisjointUntouched | src/bin/llhd-sim/engine.rs:1065-1132 | What is read through a pointer does not depend on writes through one that is apart from it. |
| PointerAccess.DisjointWritesCommute | src/bin/llhd-sim/engine.rs:1065-1132 | Writes through pointers that are apart commute. |
| Overlap.CommuteExactly | src/bin/llhd-sim/engine.rs:80-107 | Two writes commute for all values if and only if no cell (bit or time) is reached by the last slices on its target of both pointers. |
| Overlap.PartClashes | src/bin/llhd-sim/engine.rs:80-107 | An event for a signal and one for a proper part of it do not commute. |
| EntityEval.Instance.StepEntity | src/bin/llhd-sim/engine.rs:289-377 | The worklist terminates, and leaves exactly the table that evaluating every instruction anew yields; each drive that ran last saw the final table. |
| EntityEval.SettledIsFullEval | src/bin/llhd-sim/engine.rs:289-377 | A table in which every slot is what its instruction computes is the one that full evaluation yields. |
| EntityEval.FullEvalSettles | src/bin/llhd-sim/engine.rs:289-377 | Executing all instructions in order settles all slots, for every well-formed unit and all signals. |
| EntityPointers.SimulatorWellBehaved | src/bin/llhd-sim/engine.rs:799-1025 | The pointer operations and probes of the simulator meet what the evaluation of entities relies on: no operation introduces a target, and a probe depends on its targets only. |
| EntityPointers.ReadThroughReads | src/bin/llhd-sim/engine.rs:799-856 | The probe of that semantics reads what the pointer points to, for all types. |
| EntityPointers.Probe | src/bin/llhd-sim/engine.rs:799-856 | The loops that read a pointer compute what that semantics probes. |
| EntityPointers.ProbesHoldSignals | src/bin/llhd-sim/engine.rs:289-377 | In an evaluated entity each probe holds the current value behind its signal or pointer. |
| Entities.RunEntity | src/bin/llhd-sim/engine.rs:289-377 | Running an entity yields its fully evaluated table, a wait for its signals, and the events of its drives. |
| Entities.StepSettles | src/bin/llhd-sim/engine.rs:60-195 | In a step of a simulation with entities and processes, if every entity is up to date before, or it is the first step, every entity is up to date afterwards, whether it woke or not. |
| Entities.RunsSettle | src/bin/llhd-sim/engine.rs:45-195 | Over a whole run from ready instances, after each step the table of every entity is what full evaluation yields on the signals. |
| Entities.Simulate | src/bin/llhd-sim/engine.rs:45-57 | A simulation that is run from its beginning passes such states, and ends in one. |
| Entities.ProbesFollow | src/bin/llhd-sim/engine.rs:289-377 | Between steps each typed probe of each entity holds what its signal or pointer holds. |
| Entities.SomeMachineRuns | src/bin/llhd-sim/engine.rs:199-213 | For every semantics there is a machine whose entities run in this way. |
| SimTime.AfterAdvances | src/bin/llhd-sim/engine.rs:775-791 | A delay advances time, unless it is zero, and then time stays. |
| SimTime.AfterAssociative | src/bin/llhd-sim/engine.rs:775-791 | One delay after the other is the same as both delays together. |
| SimTime.AfterMonotone | src/bin/llhd-sim/engine.rs:775-791 | Later starts and longer delays end no earlier. |
| Kernel.State.ScheduleEvents | src/bin/llhd-sim/state.rs:122-151 | Events are added to the queue, later ones replacing earlier ones for the same pointer and time, and all others stay. |
| Kernel.State.NextTime | src/bin/llhd-sim/state.rs:190-198 | The least queued time, if anything is queued. |
| Engine.Simulation.Step | src/bin/llhd-sim/engine.rs:60-195 | One step applies the due events, runs exactly those who are ready, due or sensitive to a change, queues what they ask for, and goes on to the least queued time; nothing in the queues is overdue, nobody is left ready, and whoever waits for a time is queued for it. |
| Engine.Simulation.Run | src/bin/llhd-sim/engine.rs:45-57 | Over a whole run time never goes back, and always advances if no delay is zero; the run ends at the step limit or when nothing is left to do. |
| Engine.NeverOverdue | src/bin/llhd-sim/engine.rs:60-195 | Between steps no wait is overdue. |
| Engine.RunsWhenDue | src/bin/llhd-sim/engine.rs:109-141 | Whoever waits for the current time runs in this step. |
| Engine.ExactlyQueuedAfter | src/bin/llhd-sim/engine.rs:109-185 | If no wait is for both a time and signals, an instance wakes by time exactly when its own wait has run out. |
| StepOrder.EventOrderIrrelevant | src/bin/llhd-sim/engine.rs:80-107 | Due events that do not interfere yield the same signals and changes in any order. |
| StepOrder.InstanceOrderIrrelevant | src/bin/llhd-sim/engine.rs:133-169 | Running the ready instances in any order, and joining their events in any grouping, yields the instances and the list of events of the sequential order. |
| SignalOrder.UnsharedIndependent | src/bin/llhd-sim/engine.rs:80-107 | Events whose pointers pairwise reach no common cell do not interfere. |
| SignalOrder.ApartIndependent | src/bin/llhd-sim/engine.rs:80-107 | Events whose pointers part ways, slice by slice, do not interfere. |
| SignalOrder.DisjointEventsInAnyOrder | src/bin/llhd-sim/engine.rs:80-107 | Such events may be applied in any order: the same signals, and the same set of changed signals. |
| Determinism.StepDeterministic | src/bin/llhd-sim/engine.rs:60-195 | Two steps from the same state end in the same state, whatever the order of the due events, if these do not interfere. |
| Determinism.RunDeterministic | src/bin/llhd-sim/engine.rs:45-195 | Two runs from the same state go through the same states. |
| Dnf.AndDnf | src/pass/deseq.rs:298-325 | The loops compute the conjunction of two normal forms, without the contradictory conjunctions. |
| Dnf.ConjunctionHolds | src/pass/deseq.rs:298-325 | That conjunction holds exactly when both sides do. |
| Triggers.CanonMeans | src/pass/deseq.rs:191-244 | The normal form of a condition, or of its negation, means the same as the condition, if compared wider values can be taken for bits that are equal exactly where the values are. |
| Triggers.DetectTermTriggers | src/pass/deseq.rs:397-478 | A conjunction is refused exactly if it has a term that is no signal, a sample before the wait without its inverse behind it, or two edges; otherwise the trigger fires exactly when the conjunction holds. |
| Triggers.DetectTriggers | src/pass/deseq.rs:378-395 | Triggers are found exactly if no conjunction is refused, and then some trigger fires exactly when the normal form holds. |
| Triggers.AcyclicFaithful | src/pass/deseq.rs:191-395 | If triggers are detected and no comparisons of wider values form a cycle, the normal form holds exactly when the condition is 1. |
| Triggers.FaithfulExactly | src/pass/deseq.rs:191-395 | If triggers are detected and no two constants are compared, the normal form holds exactly when the condition is 1 if and only if the value of the condition is settled by the sampled bits, whatever the wider signals are. |
| Triggers.WideComparisonsGoWrong | src/pass/deseq.rs:191-244 | Three probed words that are all compared with each other: the condition can be 1, but its normal form is empty. |
| Deseq.Migrator.MigrateValue | src/pass/deseq.rs:641-713 | A value is moved exactly if it depends on no unknown probe before the wait, and the moved value equals the original one under everything that is known. |
| Deseq.Migrator.MigrateDrive | src/pass/deseq.rs:530-639 | A drive is moved exactly if its target and its value under each trigger are, and every storage trigger stands for the trigger it was made from. |
| Deseq.DeseqProcess | src/pass/deseq.rs:35-162 | A process is replaced if and only if each drive is conditional, no conjunction of its condition is refused, and its target and its value under each trigger can be moved. Whatever a new storage element stores is the driven value; it stores at the right times if and only if the normal form is faithful. Acyclic comparisons of wider values suffice for that; unless two constants are compared, it is so exactly if the sampled bits settle the condition. |
| Deseq.DriveIsLost | src/pass/deseq.rs:35-162 | For the three words, the drive is accepted and never fires again. |
| Threading.Analysis.CheckBranchTrivial | src/pass/dce.rs:130-173 | If a terminator is given a target, control reaches that block from it through empty blocks without phis, on any graph; memoised answers never change. |
| Threading.Analysis.CheckBlockRetargetable | src/pass/dce.rs:175-203 | A block is given a target exactly if it has no phis, itself if it has a body, and control reaches the target from it. |
| ThreadingRewrite.ThreadBranches | src/pass/dce.rs:38-74 | The terminators after the rewriting are the original ones with the trivial branches replaced by the analysed targets and all successors renamed in the order of the replacements; the phi lists and the entry are renamed in the same order; the order replaces exactly the blocks that the analysis found retargetable. |
| ThreadingRewrite.EntriesKeptExactly | src/pass/dce.rs:55-74 | The phis keep their meaning if and only if no replacement captures the entry of another predecessor. |
| ThreadingRuns.ThreadingKeepsRuns | src/pass/dce.rs:38-74 | If the phis that a run executes keep their values, the original unit and the rewritten one, each entered at its entry, have the same runs. |
| ThreadingRuns.ThreadingExactly | src/pass/dce.rs:38-74 | The rewritten unit has the runs of the original one from its entry, for all machines, if and only if on no edge that control can take from the entry a phi list captures the entry of the predecessor. |
| ThreadingRuns.ArrivalKeptExactly | src/pass/dce.rs:55-74 | A phi that is executed keeps its value if and only if no other entry captures that of the predecessor that control comes from. |
| ThreadingRuns.RunLost | src/pass/dce.rs:38-74 | If an executed phi changes its value, a run of the original unit can be named that the rewritten one does not have. |
| ThreadingRuns.DeadArmsDiffer | src/pass/dce.rs:38-74 | A unit with a dead constant arm into a block with phis, on which the rewriting changes a run. |
| ThreadingRuns.WithoutDeadArms | src/pass/dce.rs:38-74 | Without such arms phis keep their entries on all edges, in particular on those that control can take. |
| ThreadingRuns.LiveBlocks | src/pass/dce.rs:205-218 | The worklist finds exactly the blocks that control can reach. |
| ThreadingRuns.PruningKeepsRuns | src/pass/dce.rs:205-231 | Deleting all other blocks, and their entries in the phis that are left, keeps all runs. |
| ThreadingRuns.ThreadAndPrune | src/pass/dce.rs:38-81 | Rewriting and then pruning a unit: what is left are the reachable blocks with the threaded terminators. |
| ThreadingRuns.ThreadingAndPruningKeepRuns | src/pass/dce.rs:38-81 | The rewritten and pruned unit has exactly the runs of the original one, if the phis that are executed keep their values. |
| LinkedList.List.Append | src/ir/unit.rs:1133-1153 | Appending to the links is appending to the sequence they describe. |
| LinkedList.List.InsertAfter | src/ir/unit.rs:1175-1193 | Linking in behind a block inserts it behind that block in the sequence. |
| LinkedList.List.Remove | src/ir/unit.rs:1215-1231 | Linking out removes exactly that block from the sequence. |
| LinkedList.List.Swap | src/ir/unit.rs:1233-1318 | Swapping two blocks exchanges their positions in the sequence, also if they are neighbours in either order, have a common neighbour, or are at an end. |
| LinkedList.List.Collect | src/ir/layout.rs:161-163 | Following the links lists the sequence. |
| Layout.FunctionLayout.AppendInst | src/ir/layout.rs:72-88 | Appending an instruction appends to the sequence of that block, changes no other block, and the map names its block. |
| Layout.FunctionLayout.InsertInstAfter | src/ir/layout.rs:108-124 | Inserting behind an instruction inserts into the sequence of its block, and into no other. |
| Layout.FunctionLayout.RemoveInst | src/ir/layout.rs:144-158 | Removing takes the instruction out of the sequence of its block and out of the map. |
| Layout.FunctionLayout.RemoveBlock | src/ir/unit.rs:1215-1231 | Any block goes from the sequence of blocks, and its layout with it; the map still names exactly the instructions that it held in addition to the others. |
| Layout.FunctionLayout.DeleteBlock | src/ir/unit.rs:791-805 | Deleting a block with its instructions: the sequence of blocks loses it, the map loses exactly its instructions, and all other blocks keep theirs. |
| UseTables.DataFlow.AddInst | src/ir/unit.rs:918-936 | A new instruction keeps the use tables covering all uses. |
| UseTables.DataFlow.ReplaceUse | src/ir/unit.rs:1015-1047 | In every state, replacing a value leaves no user of it, changes nothing else, and the tables still cover all uses; records of deleted users do no harm. |
| UseTables.DataFlow.ReplaceBlockUse | src/ir/unit.rs:1049-1084 | In every state, replacing a block leaves no instruction that names it. |
| UseTables.DataFlow.RemoveBlockUse | src/ir/unit.rs:1086-1118 | In every state, removing a block takes it from every phi as the loop over the list does, and invalidates it elsewhere. |
| UseTables.DataFlow.RemoveInst | src/ir/unit.rs:938-980 | Deleting an instruction without users leaves no dangling argument; all recorded users still exist if and only if the tables held no stale record of it. |
| UseTables.GoneExactly | src/ir/unit.rs:938-968 | When a stale record stays behind. |
| UseTables.DataFlow.PruneIfUnused | src/ir/unit.rs:844-860 | The recursion terminates; the instruction goes if and only if its result is unused. Only instructions with results go, none of the others changes, and no instruction is left whose result became unused on the way. |
| UseTables.DataFlow.DeleteBlock | src/ir/unit.rs:791-805 | Deleting a block deletes exactly its members; the tables cover all uses, and every other instruction keeps everything but the block and the dead values. |
| UseTables.SurvivesWithout | src/ir/inst.rs:1029-1045 | What is left names no dead value, and does not name the block unless a phi listed it twice. |
| IdTable.PrimaryTable.Add | src/table.rs:285-299 | Adding returns the least id that is not in use, and disturbs no entry. |
| IdTable.PrimaryTable.Remove | src/table.rs:302-309 | Removing takes out exactly one entry. |
| IdTable.PrimaryTable.Run | src/table.rs:281-309 | Every sequence of operations behaves like the one on a plain map with least absent ids. |
| IdTable.CountExact | src/table.rs:382-423 | The count of entries read is right if and only if no key was read twice. |
| IdTable.Deserialize | src/table.rs:382-423 | What is read is a partition of ids into used and free ones, and a valid table if and only if no key repeats. |
| IdTable.ListingRoundTrip | src/table.rs:362-380 | The entries listed for writing are those of the table, each once. |
| IdTable.WriteAndRead | src/table.rs:362-423 | A table that was written and read again behaves like the original under every later sequence of operations. |
| Discriminator.BuildDiscriminator | src/pass/cfs.rs:184-240 | For the paths of any decision tree the recursion terminates without failing, and for every valuation that is consistent with a path the multiplexers yield the value of that path. |
| Discriminator.LargestDiscriminates | src/pass/cfs.rs:196-213 | Whichever variable is used most, and among those most evenly, it splits the paths into two smaller sets. |
| Coalesce.CoalesceDrives | src/pass/tcm.rs:410-478 | The loops over groups and runs yield the block in which each run of drives is replaced by one drive at its end. |
| Coalesce.KeptExactly | src/pass/tcm.rs:410-484 | The schedule is kept for all conditions and values if and only if no drive with another operand for the same delay and target lies between two drives of a coalesced run. |
| Coalesce.DistinctDelaysKeep | src/pass/tcm.rs:410-484 | If different delay operands are different delays, the last enabled drive for each delay and target is the same before and after. |
| Coalesce.EqualDelaysClash | src/pass/tcm.rs:410-484 | Two operands for one delay: a block of three drives whose schedule changes. |
| Folding.FoldBinaryCorrect | src/pass/cf.rs:109-164 | A rule of the folder is right for all values of the operands, except a subtraction from zero, which is right for no width above 1. |
| Folding.FoldBinaryValue | src/pass/cf.rs:109-164 | For given values: the folded operand has the value of the operation if and only if it is not zero minus something that is neither zero nor the least signed value. |
| Folding.PanicsOnlyOnZero | src/pass/cf.rs:109-164 | Folding panics if and only if a constant is divided by a constant zero. |
| IntArith.SignedRoundTrip | src/value/int.rs:50-75 | Every value is the conversion of its signed reading. |
| IntArith.ToFromSigned | src/value/int.rs:50-75 | A number survives the conversion if and only if it is in the signed range of the width. |
| IntArith.SubUndoesAdd | src/value/int.rs:155-180 | Subtraction undoes addition, modulo the width. |
| IntArith.UnsignedDivision | src/value/int.rs:202-215 | Unsigned quotient times divisor plus remainder is the dividend, and the remainder is below the divisor. |
| IntArith.SignedDivision | src/value/int.rs:217-240 | Quotient times divisor plus remainder is the dividend, modulo the width. |
| IntArith.SignedDivisionExact | src/value/int.rs:217-240 | The remainder is the truncated one; the quotient is the truncated one if and only if the least value is not divided by -1. |
| IntArith.SmodIsFloor | src/value/int.rs:227-236 | The signed modulus is the one of floored division. |
| IntArith.BitwisePerBit | src/value/int.rs:155-195 | Bitwise operations work on each bit. |
| SliceFolding.FoldSound | src/pass/cf.rs:240-286 | Every slice fold has the type and the value of what it replaces. |
| SliceFolding.FoldShiftIsWindow | src/pass/cf.rs:167-237 | A folded shift is the documented window of base and hidden value, for every amount. |
| SliceFolding.FolderMatchesSimulator | src/pass/cf.rs:167-237 | Folder and simulator agree on a shift if and only if the amount, cut to the hidden width, is at most the width of the base. |
| TimeText.WriteRatioAsSi | src/value/time.rs:86-119 | The loop prints the scaled number, its decimal point and its unit. |
| TimeText.ParseTimeTriple | src/assembly/reader.rs:465-534 | Parsing yields the number that the text denotes as a decimal with exponent and unit, and the steps. |
| TimeText.PrintParse | src/value/time.rs:86-119 | A printed time can be parsed, and differs from the original by at most half a unit of the last printed place, or not at all if the scaling stopped at an integer. |
| TimeText.SurvivesPrinting | src/value/time.rs:86-119 | A time survives printing and parsing if and only if it is a multiple of the finest unit that is printed for it. |
| TimeText.StepsSurvive | src/assembly/reader.rs:465-534 | Delta and epsilon steps survive printing and parsing. |

## Left out

- DeseqProcess: for conditions that compare two constants with each other, only `Triggers.Faithful` itself is exact, because the normal form takes every constant but 1 for zero.
- DeseqProcess: the delay of a drive is not compared, because `reg` in the new entity has none.
- DeseqProcess: which regions lie before and behind the wait is given, because finding them is the business of the temporal region graph.
- StepEntity: pure operations are a parameter, because the model only needs that they are functions of their operands.
- StepEntity: each signal has one local value, as in units that the simulator builds.
- Step: what a process does until it suspends itself is a parameter; `reg`, `con`, `del`, `call`, `phi` and conditional `drv` are not supported by the simulator.
- Run: a run without a step limit, because it need not end; `Engine.Trace`, and what is proved about it, covers any number of steps.
- RunsSettle: that due events drive signals and fit them is a condition on the run, because processes may schedule any event.
- ExactlyQueuedAfter: a wait for a time and for signals at once leaves its old deadline in the queue, which wakes the instance again; only waits of one kind are claimed to be exact.
- ReadAfterWrite: pointers with two slices on one target, because each slice is written to a copy of its own; `Overlap.ReadsBackExactly` says when it holds for them.
- DominatorTree.constructor: blocks that no root reaches, for which the program has no index; and units in which some block has no root on all paths to it, where the order of the predecessor sets decides what the tree looks like, and no tree below the roots is right (`Dominators.ExactlyWithOneRoot`).
- ThreadBranches: merging a block into its only predecessor, because the predecessor table ignores edges of waits.
- ThreadingAndPruningKeepRuns: deleting unused instructions, which follows in the same pass.
- RemoveBlockUse: a phi that lists a block twice can keep one of the entries, as the loop skips what it swaps in; `UseTables.SurvivesWithout` asks for one entry.
- FoldBinaryCorrect: folding of multiplexers and of field extraction, which only look up an operand.
- SmodIsFloor: the signed operations of the simulator's own copy of the integers, whose signed conversion differs from that of the library.
- ParseTimeTriple: the tokens that the lexer does not produce, and separators within numbers.
- WriteRatioAsSi: times are reals here, and rationals in the program.
- Add: ids are unbounded here, and 32 bits wide in the program.
- Names, hints and locations of the IR, the insert position of the builder, and formatting other than that of times.
- The readers and writers of the text format, tracers, logging, and the command line tools.
- Variable-to-phi promotion, common subexpression elimination, early code motion, and pushing drives into other regions.
