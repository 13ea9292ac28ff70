# OpenREIL in Dafny

OpenREIL lifts machine code to a small intermediate representation, builds control flow and data flow graphs from it,
optimises it, executes it symbolically and emulates it; the VEX library below it disassembles guest code into
superblocks and carries the bit-exact helpers of the emulated processors. This project models the parts in which errors
would change what a program means and proves what these parts promise, for all programs, all inputs and all runs.
`dafny verify dfyconfig.toml` checks everything.

Five groups of modules:

* **The IR and its graphs** (`Ir`, `Vm`, `Code`, `Graphs`, `Storage`, `Cfg`, `Successors`, `Dfg`, `DfgBuilder`,
  `UsesCorrect`, `DeadCode`, `DeadCodeCorrect`, `DeadCodeLimits`, `Optimizer`, `Renumbering`, `Gaps`,
  `RenumberingCorrect`, `Store`, `StoreCorrect`, `Removal`, `StoredRuns`, `Marks`, `OptimizerCorrect`, `StoreLimits`,
  `OrdinaryCode`, `StaleMarks`). Code is a map from IR addresses to instructions. The graph builders are the source's
  worklists over mutable graphs, proved to find exactly the reachable blocks and exactly the value flows; what follows
  what, and what an instruction uses and defines, is proved to be what the emulator `Vm` shows on some machine. Dead
  code elimination on the graph so built is proved to preserve runs of the emulator. Renumbering is proved to preserve
  the runs of code with gaps, and removing the eliminated instructions is a stuttering simulation; together they say
  when the program finally stored runs like the original.
* **Symbolic execution** (`Symbolic`, `SymbolicCorrect`) of straight code over registers and memory, against the same
  emulator.
* **The superblock builder** (`SuperBlock`, `SelfChecks`), a loop around an arbitrary disassembler that keeps the
  contract of `guest_generic_bb_to_IR.h`.
* **Floating point** (`Bits`, `Floats`, `X87`, `Fxtract`, `FpuState`): 64-bit and 80-bit numbers as IEEE 754-2008
  section 3.4 lays them out, the byte-wise conversions, and saving and restoring the whole unit.
* **Processor helpers** (`CarryLess`, `AesTables`, `AesField`, `Aes`, `Words`, `Amd64Flags`, `Amd64Rflags`,
  `Amd64Specialise`, `ArmFlags`, `ArmSpecialise`, `Rotate`, `Utf8`): carry-less multiplication, the AES instructions
  (FIPS 197), lazy flags and the specialisers that replace them by expressions, rotation through carry, and the Unicode
  conversions of the s390 (section 4 of RFC 3629).

What is imperative in the source is imperative here: graphs, storage, symbolic state, extents and guest registers are
classes whose methods are proved against specification functions; the lemmas are about those functions.

Results that a reader of the source may not expect:

* Dead code elimination looks at the first destination of an instruction only, and a conditional jump to a computed
  address is no function end for the data flow graph. Either way a register can lose its value (`DeadCodeLimits`).
* If the entry block sets no register, the data flow search stops behind it; elimination stays correct, because it can
  then delete less.
* A jump to an eliminated instruction is not redirected when the function is stored and can skip instructions
  (`StoreLimits.JumpSkips`); the exact condition is `RenumberingCorrect.JumpKept`.
* An elimination marks the instructions it deletes in the storage, even when it fails or nothing is to be stored, and
  the next optimisation drops what is marked although it keeps it (`StaleMarks.KeptFlagIsLost`,
  `StaleMarks.FailureMarks`); `StaleMarks.MarkedIsLost` is the exact condition.
* A second optimisation of the same function loses machine instructions that the first left as no-ops
  (`StoreLimits.LeavesExactly`), a redirected jump target that becomes the first IR instruction loses the temporaries
  (`StoreLimits.TempsKept`), and the data flow search fails on an unknown instruction that has destinations but no
  source list (`DfgBuilder.DFGraphBuilder.Traverse`).
* Symbolic execution does not know that the emulator sets the instruction pointer register
  (`SymbolicCorrect.PointerReadAgrees`), a load does not look for what was stored before
  (`SymbolicCorrect.LoadFollows`), and a difference counts as equal to its opposite
  (`SymbolicCorrect.OppositeIsOverwritten`).
* A list executed symbolically from a given state always fails, because states have `clone` and no `copy`.
* The assertions in front of a self check hold for every block exactly if the instruction limit is at most 49, though
  limits up to 100 are accepted (`SelfChecks`).
* Narrowing to 64 bits truncates instead of rounding up when the low 24 result bits are ones, and rounds ties up below
  the normal range (`Floats`).
* The specialised overflow of a 64-bit subtraction shifts by 64 instead of 63 (`Amd64Specialise.OverflowIsLost`).
* The specialised overflow of an arm subtraction with carry takes the lowest bit instead of the highest
  (`ArmSpecialise.OverflowIsWrong`), and a condition word recognised as unconditional need not be
  (`ArmSpecialise.AlwaysMeans`).
* CU41 encodes low surrogates, which strict CU14 then refuses (`Utf8.DecodeEncoded`).

## Model

| member | source | states |
|---|---|---|
| `Code.BlockShape` | pyopenreil/REIL.py:1428-1478 | A basic block asked for at an address starts at that address and is one straight run of stored instructions of which exactly the last ends the block; unless that one also ends its machine instruction, the next instruction is stored too |
| `Storage.CodeStorageMem.GetInsn` | pyopenreil/REIL.py:2418-2443 | Collecting the IR of a machine instruction stops at its end flag; a missing instruction is an error |
| `Graphs.Graph.AddEdge` | pyopenreil/REIL.py:1278-1291 | Adding an edge twice keeps one; the edge sets at both end nodes stay the edge set of the graph seen from its ends |
| `Graphs.Graph.DelNode` | pyopenreil/REIL.py:1262-1276 | Deleting a node removes exactly the edges that touch it, a loop once, and the node only if asked |
| `Cfg.CFGraphBuilder.GetBb` | pyopenreil/REIL.py:1428-1478 | The search for the end of a block is the specification function for blocks, on every address and with the same missing-instruction errors |
| `Cfg.CFGraphBuilder.Traverse` | pyopenreil/REIL.py:1480-1532 | The traversal ends; on success its nodes are exactly the blocks reachable from the entry, its edges exactly the successor relation between them, and no end of an edge is missing; it fails only if a reachable block is not stored. `Successors.SuccessorsAreSteps` ties the successor relation to the emulator |
| `Cfg.WalkStep` | pyopenreil/REIL.py:1500-1527 | One turn of the worklist keeps: visited blocks are reachable and explored, and every successor is visited or pending - although the fall-through successor is pushed again when already visited |
| `Cfg.PushedWeight` | pyopenreil/REIL.py:1521-1527 | A second visit to a block lowers the weight of the stack: the fall-through chain from it gets shorter |
| `Cfg.FirstVisitShrinks` | pyopenreil/REIL.py:1502-1508 | A first visit lowers the number of addresses not yet visited |
| `Cfg.NextIsLater` | pyopenreil/REIL.py:527-554 | Without a jump control moves to a later address, so fall-through chains end |
| `Cfg.ClosedHoldsReachable` | pyopenreil/REIL.py:1480-1532 | A set that holds the entry and is closed under successors holds every reachable block |
| `Successors.SuccessorsAreSteps` | pyopenreil/REIL.py:527-554 | Against the emulator: a place follows a block in the graph exactly if some machine, registers and memory make the step from the last instruction of the block go there, or the place is the target of a call or of a jump that is never taken, or stands behind a jump that is always taken through a forced successor or a condition that is no constant |
| `Successors.AnyStep` | pyopenreil/VM.py:606-643 | A step to a place on any machine at all is one on a machine of integers, whose arithmetic and memory make no difference to where control can go |
| `Dfg.LocalIsLastWriter` | pyopenreil/REIL.py:2148-2152 | What a piece of code defines is named by the last instruction of it that writes the variable |
| `Dfg.EdgeSplits` | pyopenreil/REIL.py:2110-2162 | Every edge of a block entered in a state comes from a definition of the block itself or from one the state carries in |
| `Dfg.EdgeJoins` | pyopenreil/REIL.py:2110-2162 | Conversely each definition carried in and not redefined in front of a use has its edge |
| `Dfg.SoundStep` | pyopenreil/REIL.py:2110-2207 | Each turn adds edges of real value flows only: some walk from the entry carries the value there without redefinition |
| `Dfg.CompleteStep` | pyopenreil/REIL.py:2085-2207 | Each turn keeps: a definition that reached a block has its edges, and its successors wait whenever anything new was recorded |
| `Dfg.AllFlowsFound` | pyopenreil/REIL.py:2179-2209 | When nothing waits, every value flow of the function is an edge |
| `Dfg.NewShrinks` | pyopenreil/REIL.py:2085-2108 | Recording something new lowers the number of (block, variable, definition) triples not yet recorded; this is why the worklist ends |
| `DfgBuilder.DFGraphBuilder.ProcessState` | pyopenreil/REIL.py:2085-2108 | A state is merged into the record of its block, and the answer is whether any pair of it was new |
| `DfgBuilder.DFGraphBuilder.ProcessBb` | pyopenreil/REIL.py:2110-2162 | The edges added for a block are exactly those from last writers to uses and, at a function end, to the exit |
| `DfgBuilder.DFGraphBuilder.Turn` | pyopenreil/REIL.py:2189-2207 | One turn of the worklist keeps the state of the search and comes closer to its end |
| `UsesCorrect.UsesMatter` | pyopenreil/REIL.py:455-475 | The variables an instruction uses are exactly those for which some machine and two register files that differ there alone give different effects, but for operands not looked at, instructions that write nothing, and jumps that are never taken |
| `UsesCorrect.DefsChange` | pyopenreil/REIL.py:436-453 | The variables it defines are exactly those that it changes on some machine, but for a call that is never made |
| `UsesCorrect.RemovableExactly` | pyopenreil/REIL.py:2044-2064 | What elimination may delete are exactly the instructions that on no machine touch memory or control, but for those that do nothing anyway |
| `DfgBuilder.DFGraphBuilder.Traverse` | pyopenreil/REIL.py:2179-2209 | The finished graph is the data flow graph: every edge is a flow; if the entry block sets a register, every instruction of the function is a node and every flow from an instruction to a use or to a function end is an edge; if it sets none, only the entry block is searched. It fails with a lookup error only if a reachable block is not stored, and, all of them stored, exactly if some instruction the search looks at is an unknown one with destinations but without a source list. What a use and a definition are is settled by `UsesCorrect.UsesMatter` and `UsesCorrect.DefsChange` |
| `DeadCode.EliminateDeadCode` | pyopenreil/REIL.py:2023-2071 | Whatever the order of the nodes, exactly the nodes outside the greatest self-sustaining set are eliminated and nothing removable is left; it fails exactly if no self-sustaining set holds the entry node. In the storage the graph was read from, exactly the deleted instructions are marked, also when it fails |
| `DeadCode.DropAtExit` | pyopenreil/REIL.py:2029-2042 | Exactly the exit edges whose instruction has a droppable first destination are removed |
| `DeadCode.DeletableGrows` | pyopenreil/REIL.py:2044-2064 | Deleting a removable node without outgoing edges keeps: what is deleted is removable, feeds only deleted nodes, and stands in no self-sustaining set |
| `DeadCode.UnderwayMore` | pyopenreil/REIL.py:555-586 | Deleting a node that feeds nobody keeps graph and storage in step: edges gone, node a no-op, stored instruction marked and otherwise as it was |
| `DeadCodeCorrect.OnlyFlagsAreDropped` | pyopenreil/REIL.py:2029-2042 | On both architectures no general register and no instruction pointer is ever dropped at the exit, every status flag is unless flags are kept, and so are temporaries |
| `DeadCodeCorrect.NamedFlagsAreDropped` | pyopenreil/arch/x86.py:15 | The nine flag names of both architectures are dropped exactly if flags are not kept |
| `DeadCodeCorrect.NamedGeneralRegisters` | pyopenreil/arch/arm.py:18-20 | The general registers of both architectures, by their names: what a called function may read and write |
| `DeadCodeCorrect.ExecuteAgree` | pyopenreil/VM.py:499-596 | An instruction that finds equal values in all the variables it uses has the same effect |
| `DeadCodeCorrect.DeletedFlowIsEdge` | pyopenreil/REIL.py:2179-2209 | A flow out of a deleted node is an edge of the graph, whether or not the search got past the entry block |
| `DeadCodeCorrect.StepSim` | pyopenreil/VM.py:606-643 | One step of the original and of the optimised program keeps both at the same instruction with registers that agree on everything not deleted |
| `DeadCodeCorrect.EliminationPreservesRuns` | pyopenreil/REIL.py:2023-2071 | For every machine, all registers, all memory and any number of steps: original and optimised program are at the same place with the same memory, and after leaving the function at a clean exit agree on every register no deleted instruction with a droppable first destination writes |
| `DeadCodeCorrect.UnmixedKeepsRegisters` | pyopenreil/REIL.py:2029-2042 | Without instructions that mix droppable and kept destinations every kept register - flags too, if asked - has its value at the end |
| `DeadCodeCorrect.OnlyUnknownMixes` | pyopenreil/REIL.py:436-453 | Only unknown instructions can mix, since all others have one destination |
| `DeadCodeCorrect.GeneralRegistersKept` | pyopenreil/REIL.py:2023-2071 | At a clean exit of code that does not mix destinations every general register has the value the original gives it, whether flags are kept or not; if they are, every register has |
| `DeadCodeLimits.MixedDestinationIsLost` | pyopenreil/REIL.py:2032-2042 | The filter looks at the first destination only: a program whose unknown instruction writes a flag and then EAX ends without the value of EAX, whatever the machine |
| `DeadCodeLimits.ComputedBranchLosesValue` | pyopenreil/REIL.py:2154-2160 | A conditional jump to a computed address is not seen as a function end: the run that leaves there has lost a value |
| `Optimizer.EliminateFunction` | pyopenreil/REIL.py:2023-2071 | Graph construction and elimination chained: on success the dead instructions become no-ops in the graph, the program with these no-ops runs like the original on every machine, and the stored instructions are as before but for the elimination mark, set on exactly the deleted ones; if the entry node has lost its edges it fails, and marked is a removable set that holds everything the entry node feeds; the errors are exactly those of the lookup, of a missing source list and of the entry node |
| `Optimizer.OptimizeFunction` | pyopenreil/REIL.py:1664-1741 | Elimination, then storing: the storage gets the surviving instructions of the graph renumbered, with a no-op for each machine instruction that lost all of them; if the search fails the storage stays as it was, if the elimination fails the instructions deleted until then stay marked, and if a node behind an eliminated instruction is missing the machine instructions of the graph stay deleted |
| `Store.StoreGraph` | pyopenreil/REIL.py:1664-1741 | Deleting, writing back, renumbering, putting in stand-ins and renumbering again leaves exactly the renumbering of survivors and stand-ins, and a graph without instructions changes nothing; it fails exactly if the node behind an eliminated instruction is missing, and then only the deletions have happened |
| `StoreCorrect.OneRenumbering` | pyopenreil/REIL.py:1664-1741 | Renumbering, filling in no-ops and renumbering again is one renumbering of the survivors with the no-ops |
| `StoredRuns.FunctionIsDomain` | pyopenreil/REIL.py:1480-1532 | Control inside a function stays among its instructions until it meets code that is not stored |
| `StoredRuns.KeptIsThinned` | pyopenreil/REIL.py:1664-1741 | Before renumbering, what is stored is the program with no-ops minus instructions that do nothing but fall through, and every machine instruction keeps some |
| `Removal.KeptRunFollows` | pyopenreil/REIL.py:1664-1741 | Removing such instructions: every moment of the full run is mirrored by one of the run over the gaps, no later (stuttering) |
| `Removal.FullRunFollows` | pyopenreil/REIL.py:1664-1741 | And every moment of the run over the gaps is mirrored by one of the full run, because a machine instruction gets through its no-ops |
| `OptimizerCorrect.StoredRunsLikeOriginal` | pyopenreil/REIL.py:1664-1741 | The stored program runs like the original: for every machine there is one answering at the new places, such that from all registers and memory every moment of the original run is shown by one of the stored run and conversely, with the same memory and the registers elimination keeps - if the graph covers its machine instructions, what is eliminated falls through, each machine instruction keeps something, and what the renumbering does not redirect still names the right instruction |
| `Marks.MarkedRuns` | pyopenreil/REIL.py:586 | A mark left by an elimination shows in no run of the stored code |
| `Marks.MarkedIsWellFormed` | pyopenreil/REIL.py:586 | Marked code is fit for building its graphs as before |
| `Optimizer.StoringUnmarks` | pyopenreil/REIL.py:1664-1741 | Storing the graph of an elimination deletes everything that elimination marked: the outcome is that on the code before it |
| `OrdinaryCode.OptimizedRunsLikeOriginal` | pyopenreil/REIL.py:1664-1741 | From the call to the runs, with conditions on the code alone: if the entry block sets a variable, jumps name starts, no instruction is marked or has a forced successor, only instructions that stay return, and the IR of a machine instruction has one length, then the program a successful optimisation stores runs like the original on every machine, both ways |
| `OrdinaryCode.OrdinaryStores` | pyopenreil/REIL.py:1664-1741 | And for such code storing does not fail |
| `StaleMarks.MarkedIsLost` | pyopenreil/REIL.py:1710-1716 | Of the instructions an elimination keeps, the storage loses exactly those that carried a mark before |
| `StaleMarks.DropsIdleExactly` | pyopenreil/REIL.py:1710-1716 | What is dropped does nothing exactly if every kept instruction that was marked does nothing and no deleted one returns or has a forced successor; this is one of the conditions for storing |
| `StaleMarks.KeptFlagIsLost` | pyopenreil/REIL.py:2023-2071 | An elimination without storing that drops flags, then an optimisation that keeps them: the second one deletes nothing, and yet the function it stores ends without the flag, on every machine |
| `StaleMarks.FailureMarks` | pyopenreil/REIL.py:2044-2064 | A loop that sets a temporary makes the elimination fail, whether flags are kept or not, and its instruction is marked in the storage |
| `StoreLimits.EntryDefinesCovers` | pyopenreil/REIL.py:2179-2209 | The graph covers its machine instructions whenever the entry block sets a variable |
| `StoreLimits.StorableIsWhole` | pyopenreil/REIL.py:1664-1741 | Under these conditions storing does not fail |
| `StoreLimits.LeavesExactly` | pyopenreil/REIL.py:1664-1741 | A machine instruction is still there afterwards exactly if something of it survived or was deleted just now: a no-op left by an earlier optimisation is lost by the next |
| `StoreLimits.OrdinaryIsSteady` | pyopenreil/REIL.py:2505-2553 | Code whose jumps name starts or stored instructions and whose instructions have no forced successor keeps its meaning under renumbering |
| `StoreLimits.TempsKept` | pyopenreil/REIL.py:2541-2553 | Moving a jump target loses temporaries exactly if the target becomes the first IR instruction of its machine instruction and there are temporaries |
| `StoreLimits.JumpSkips` | pyopenreil/REIL.py:2541-2553 | A jump to an eliminated instruction is not redirected: with instructions 0, 2, 4 and 5 left and a jump to 3, every result jumps past what was instruction 4 |
| `Storage.CodeStorageMem.FixInumsAndFlags` | pyopenreil/REIL.py:2505-2553 | The code afterwards is the renumbering of the code before: each instruction at its new place with its end flag, each redirected jump at the new place of its target, nothing else |
| `Renumbering.PlaceKeepsOrder` | pyopenreil/REIL.py:2510-2535 | New places keep the order of the code and no two instructions share one |
| `Renumbering.PlacesAreContiguous` | pyopenreil/REIL.py:2510-2535 | The numbers of a machine instruction run from zero without a gap |
| `Renumbering.WhatChanges` | pyopenreil/REIL.py:2505-2553 | The pass leaves alone every operand but a stored location that an instruction jumps to without calling or returning, which becomes the new place of the target, and every flag but an end flag missing at the last instruction of all but the highest machine instruction |
| `Renumbering.RenumberedIsSettled` | pyopenreil/REIL.py:2505-2553 | After the pass every machine instruction but the highest-addressed ends with the end flag, and every instruction is at its own place |
| `Renumbering.SettledStays` | pyopenreil/REIL.py:2505-2553 | Settled code is its own renumbering, and no other code is |
| `Renumbering.RenumberingIsIdempotent` | pyopenreil/REIL.py:2505-2553 | A second call changes nothing |
| `Renumbering.UpdatesStep` | pyopenreil/REIL.py:2510-2535 | One key of the scan: the list of updates holds exactly the end flags and new places decided so far |
| `Renumbering.CommitMoves` | pyopenreil/REIL.py:2537-2539 | Deleting the old places and writing the updates moves every instruction, even where old and new places overlap |
| `Gaps.GapRunIsRun` | pyopenreil/VM.py:606-643 | A run that takes missing instructions for no-ops is the ordinary run wherever nothing is missing |
| `RenumberingCorrect.FollowingKept` | pyopenreil/REIL.py:527-554 | What follows an instruction - the next stored one, over gaps and missing end flags - still follows it |
| `RenumberingCorrect.NextKept` | pyopenreil/REIL.py:527-554 | What comes next is kept exactly if no attribute names it or the next stored instruction gets the number it names, whether or not that place is stored |
| `RenumberingCorrect.JumpKept` | pyopenreil/REIL.py:2541-2553 | A jump keeps its meaning exactly if the pass redirects it and its target is stored, or if the next surviving instruction at or behind its target gets the number the jump names |
| `RenumberingCorrect.FollowerExists` | pyopenreil/REIL.py:2505-2553 | For every machine there is one that answers unknown instructions and calls at the new places as the first did at the old ones |
| `RenumberingCorrect.RenumberingPreservesRuns` | pyopenreil/REIL.py:2505-2553 | From the same registers and memory, after any number of steps the renumbered code is at the new place of where the code with gaps is, with the same registers and memory; missing instructions do nothing and missing end flags are no obstacle. Required is only that what the pass does not redirect still names the right instruction and what it redirects loses no temporaries |
| `RenumberingCorrect.StartAlike` | pyopenreil/REIL.py:2505-2553 | From an address of stored code both runs are alike at once, so the theorem on runs applies from the start |
| `RenumberingCorrect.RenumberedIsWellFormedCode` | pyopenreil/REIL.py:2505-2553 | Renumbered code is fit for building its graphs exactly if the machine instructions end in order and every fixed target is found |
| `Symbolic.MatchesOn` | pyopenreil/symbolic.py:140-311 | The equality of expressions - sizes ignored, some operators in either order - is transitive |
| `Symbolic.LookupUpdated` | pyopenreil/symbolic.py:355-376 | The list of entries behaves as a map whose keys are compared by that equality |
| `SymbolicCorrect.MatchingIsEqual` | pyopenreil/symbolic.py:272-311 | Expressions of one width without comparisons and differences that match have the same value on every machine whose sums and bitwise operations do not depend on the order |
| `SymbolicCorrect.SwappedMatches` | pyopenreil/symbolic.py:272-311 | An operation matches itself with the operands exchanged exactly for addition, subtraction and the three bitwise operations, or if the operands match |
| `SymbolicCorrect.OppositeIsOverwritten` | pyopenreil/symbolic.py:274-305 | A difference matches its opposite, so of two stores at a - b and b - a the state keeps the second only, under both addresses |
| `Symbolic.SymState.Update` | pyopenreil/symbolic.py:366-376 | Writing a value replaces the first matching entry in place or adds one at the end, and no two keys match |
| `Symbolic.SymState.RemoveTempRegs` | pyopenreil/symbolic.py:460-466 | Clearing temporaries while walking over a copy of the keys removes exactly the temporaries |
| `Symbolic.SymState.Clone` | pyopenreil/symbolic.py:456-458 | A clone is a new state with the same entries |
| `Symbolic.LookupLasting` | pyopenreil/symbolic.py:460-466 | Everything but the temporaries is found as before |
| `Symbolic.ToSymbolic` | pyopenreil/REIL.py:477-525 | Symbolic execution of one instruction works on a copy and is the specified update of the state, or one of its errors; what the updates mean is said by `SymbolicCorrect.ComputeStep`, `SymbolicCorrect.StoreStep` and `SymbolicCorrect.LoadStep` |
| `Symbolic.ListToSymbolic` | pyopenreil/REIL.py:838-848 | A list is executed from the empty state; a given state always fails, as does removing temporaries after an empty list |
| `SymbolicCorrect.ComputeStep` | pyopenreil/VM.py:532-536 | One computing instruction, executed both ways, keeps every live variable equal to its expression |
| `SymbolicCorrect.StoreStep` | pyopenreil/VM.py:520-524 | A store, executed both ways: the entry written is a pointer whose inner expression has the address that the emulator stores to, with the size it stores, and an expression that has the stored value |
| `SymbolicCorrect.LoadStep` | pyopenreil/VM.py:526-530 | A load gives its destination a pointer to the address that the emulator loads from, with the size it loads |
| `SymbolicCorrect.PlainStep` | pyopenreil/REIL.py:838-848 | One instruction of straight code without jumps keeps registers, memory and both kinds of entries in agreement |
| `SymbolicCorrect.TargetAgrees` | pyopenreil/REIL.py:498-520 | The expression of a jump target names the place the emulator jumps to |
| `SymbolicCorrect.HeldIsWritten` | pyopenreil/REIL.py:477-525 | A register has an expression exactly if some instruction wrote it |
| `SymbolicCorrect.SymbolicAgrees` | pyopenreil/REIL.py:838-848 | For straight code that loads before it stores, with an optional jump at its end, any initial registers and memory, any arithmetic and any memory: the expression of every register, and that of the instruction pointer, evaluates to what the emulator ends with; the memory is what the recorded stores, evaluated on the start, make of it, and the entries for memory are the last store to each address; with and without temporaries. The code may read the instruction pointer register where it has not written it and where the register held the address of the machine instruction before |
| `SymbolicCorrect.LoadFollows` | pyopenreil/symbolic.py:448-454 | From whatever memory a load finds, the expression of its destination is right exactly if the load gives what the memory before the code would have given: earlier stores are not looked up |
| `SymbolicCorrect.StoredIsNotLoaded` | pyopenreil/symbolic.py:448-454 | Storing 5 and loading it back ends with 5 in the register and with an expression that has the value which stood in memory before |
| `SymbolicCorrect.PointerReadAgrees` | pyopenreil/VM.py:606-643 | Code that copies the instruction pointer register has the right expression exactly if the register held the address of the machine instruction before: the emulator sets it and symbolic execution does not |
| `SymbolicCorrect.UnwrittenTargetIsLost` | pyopenreil/REIL.py:498-520 | A jump through a register the code did not write fails if conditional, and leaves the instruction pointer without an expression if not |
| `SuperBlock.IpIsEndOfExtent` | VEX/priv/guest_generic_bb_to_IR.c:420-482 | The current address is always base plus length of the last extent, modulo the address space |
| `SuperBlock.ExtentsCoverInsns` | VEX/priv/guest_generic_bb_to_IR.c:420-482 | The extents laid end to end are exactly the bytes of the disassembled instructions in order |
| `SuperBlock.MarksAreInsns` | VEX/priv/guest_generic_bb_to_IR.c:307-390 | The marks of a block, read in order, have the addresses and lengths of the instructions in the order they were disassembled, and cover the same bytes; on ARM their addresses are even and the deltas hold the lowest bit |
| `SuperBlock.EagerChases` | VEX/priv/guest_generic_bb_to_IR.c:286-330 | A disassembler that chases whenever it may chases before each instruction below the threshold, twice at most, and both times conditionally |
| `SuperBlock.RunIsBounded` | VEX/priv/guest_generic_bb_to_IR.c:286-484 | For every lawful disassembler: at most three extents, at most two conditional chases, no chase by the last allowed instruction, and no extent longer than twenty bytes per instruction |
| `SuperBlock.StepBuilds` | VEX/priv/guest_generic_bb_to_IR.c:286-484 | One turn of the loop: the next answer is lawful, no assertion on it can fail, and the builder's variables follow the run |
| `SuperBlock.GuestExtents.Lengthen` | VEX/priv/guest_generic_bb_to_IR.c:421-428 | Lengthening the last extent changes no other; its 16-bit length does not overflow within the limits |
| `SuperBlock.BbToIR` | VEX/priv/guest_generic_bb_to_IR.c:180-484 | For every disassembler that keeps its contract the builder stops within the instruction limit; block, statements and extents are those of the complete run, and no assertion fails |
| `SelfChecks.CheckableIff` | VEX/priv/guest_generic_bb_to_IR.c:559-575 | The assertions before a self check hold exactly for code that does not wrap around and ends at most 992 bytes after the start of its first word |
| `SelfChecks.WordsOverlapCode` | VEX/priv/guest_generic_bb_to_IR.c:566-575 | The words summed are exactly the aligned words that hold a byte of the code |
| `SelfChecks.SelfChecksFit` | VEX/priv/guest_generic_bb_to_IR.c:559-575 | With at most 49 instructions in a block every check can be built |
| `SelfChecks.SelfChecksFail` | VEX/priv/guest_generic_bb_to_IR.c:559-575 | With a limit of 50 or more a lawful disassembler makes a block whose check fails an assertion |
| `SelfChecks.NoneBeyond` | VEX/priv/guest_generic_bb_to_IR.c:542-544 | The shifted mask is zero exactly if every bit of it names an existing extent |
| `SelfChecks.AddSelfChecks` | VEX/priv/guest_generic_bb_to_IR.c:533-720 | The slots of exactly the extents that need it are filled, everything behind them stays, and the count of checks is right; it fails exactly if the mask names an extent that does not exist or a wanted extent is not checkable |
| `SelfChecks.Translate` | VEX/priv/guest_generic_bb_to_IR.c:180-720 | Block and checks together; with at most 49 instructions and no wrap-around it fails only for a mask that names extents that do not exist |
| `Floats.ExtendIsExact` | VEX/priv/guest_generic_x87.c:105-220 | Widening a finite double keeps its value exactly, denormals included |
| `Floats.ExtendThenNarrow` | VEX/priv/guest_generic_x87.c:105-426 | Widening and narrowing gives back every finite double, both zeros and both infinities; a NaN becomes the canonical NaN of its sign and quietness |
| `Floats.SpecialsAreKept` | VEX/priv/guest_generic_x87.c:105-370 | Both conversions keep the sign, zeros, infinities, NaNs, and whether a NaN is quiet |
| `Floats.UnnormalIsIndefinite` | VEX/priv/guest_generic_x87.c:246-370 | An extended number without its integer bit becomes the indefinite NaN |
| `Floats.CanonicalStays` | VEX/priv/guest_generic_x87.c:105-426 | A second round trip changes nothing |
| `Floats.NormalRounds` | VEX/priv/guest_generic_x87.c:373-425 | In the normal range the result is nearest with ties to even exactly unless it would be rounded up across a lost carry out of 24 ones, where it truncates; the error is under one unit |
| `Floats.DenormalRounds` | VEX/priv/guest_generic_x87.c:343-371 | Below the normal range the result is nearest-even exactly unless the carry is lost or a tie above an even number goes up |
| `Floats.NarrowIsMonotone` | VEX/priv/guest_generic_x87.c:246-426 | Narrowing keeps the order of numbers of one sign through denormals, normals and overflow |
| `X87.ConvertF64ToF80` | VEX/priv/guest_generic_x87.c:105-220 | The byte-wise conversion is the widening function on the fields |
| `X87.ConvertF80ToF64` | VEX/priv/guest_generic_x87.c:246-426 | The byte-wise conversion with its bit loops and rounding carry is the narrowing function on the fields, for every ten bytes |
| `X87.CopyUp` | VEX/priv/guest_generic_x87.c:152-158 | The bit loop moves the fraction of a denormal to the top of the significand |
| `X87.CopyDown` | VEX/priv/guest_generic_x87.c:353-365 | The bit loop leaves the significand shifted down, cut to the fraction |
| `X87.RoundUp` | VEX/priv/guest_generic_x87.c:406-424 | The rounding carry is made within the lowest three bytes only |
| `Bits.ValueOfWriteBit` | VEX/priv/guest_generic_x87.c:88-100 | Writing a bit of the array replaces that bit of the number the array stands for |
| `Bits.ReadBitOfValue` | VEX/priv/guest_generic_x87.c:81-86 | Reading a bit of the array reads that bit of the number |
| `Fxtract.FXTRACT` | VEX/priv/guest_generic_x87.c:434-535 | For every finite double but zero, denormals included, significand and exponent satisfy 1 <= |s| < 2 and s * 2^e == argument, and the exponent is an exactly represented integer; zeros, infinities and NaNs give the special results |
| `Fxtract.SpecialNumbers` | VEX/priv/guest_generic_x87.c:434-470 | By their bit patterns: infinities are their own significands with plus infinity as the exponent, zeros are their own with minus infinity, and NaNs become quiet with their sign |
| `FpuState.DumpStack` | VEX/priv/guest_amd64_helpers.c:1888-1903 | The registers are written in stack order for every rotation of the stack top, and the tag word marks exactly the empty ones |
| `FpuState.GetX87` | VEX/priv/guest_amd64_helpers.c:1867-1904 | FNSAVE writes the environment words and the converted registers |
| `FpuState.PutState` | VEX/priv/guest_amd64_helpers.c:1806-1861 | Loading sets stack top, condition codes, rounding mode and tags, fills registers that are not empty and zeroes empty ones |
| `FpuState.PutX87` | VEX/priv/guest_amd64_helpers.c:1806-1861 | FRSTOR and, leaving the registers alone, FLDENV |
| `FpuState.FSTENV` | VEX/priv/guest_amd64_helpers.c:2192-2226 | FSTENV writes the environment of the state |
| `FpuState.FNSAVES` | VEX/priv/guest_amd64_helpers.c:2244-2280 | The 16-bit format holds the same words at other places |
| `FpuState.FRSTORS` | VEX/priv/guest_amd64_helpers.c:2298-2350 | Loading the 16-bit format |
| `FpuState.FXSAVE` | VEX/priv/guest_amd64_helpers.c:1910-1995 | The fast format holds a one-bit summary of the tags and the SSE rounding mode |
| `FpuState.FXRSTOR` | VEX/priv/guest_amd64_helpers.c:2000-2059 | Loading the fast format expands the summary; an x87 warning goes before an SSE one |
| `FpuState.ControlWordNotes` | VEX/priv/guest_amd64_helpers.c:2144-2166 | Bit by bit of the control word: a warning about exceptions exactly if one of the bits 0 to 5 is clear, one about the precision exactly if they are set and bits 8 and 9 are not both, and the rounding from bits 10 and 11 |
| `FpuState.MxcsrNotes` | VEX/priv/guest_amd64_helpers.c:2100-2127 | The same for the SSE control word: bits 7 to 12 for exceptions, then bit 15 and bit 6, and the rounding from bits 13 and 14 |
| `FpuState.CreatedBits` | VEX/priv/guest_amd64_helpers.c:2132-2175 | The control words created mask all exceptions, ask for the longest precision, and hold the rounding at its bits, all others clear |
| `FpuState.StatusBits` | VEX/priv/guest_amd64_helpers.c:1867-1887 | The status word holds the stack pointer at bits 11 to 13 and the condition codes at bits 8 to 10 and 14, all others clear |
| `FpuState.EnvironmentBits` | VEX/priv/guest_amd64_helpers.c:2192-2226 | The environment saved holds control, status and tag word at bytes 0, 4 and 8, bit by bit, and ones or zeros in every other place |
| `FpuState.ShortEnvironmentBits` | VEX/priv/guest_amd64_helpers.c:2244-2280 | The 16-bit environment holds them at bytes 0, 2 and 4, and zeros behind |
| `FpuState.FxBits` | VEX/priv/guest_amd64_helpers.c:1910-1975 | The fast format holds control and status word, one bit for each full register, and the SSE control word, each at its place |
| `FpuState.StackOrder` | VEX/priv/guest_amd64_helpers.c:1888-1903 | Place i of the saved stack holds the register that stands i behind the top |
| `FpuState.StackLoaded` | VEX/priv/guest_amd64_helpers.c:1823-1846 | And is where that register is filled from, unless it is empty and becomes zero |
| `FpuState.FrstorUndoesFnsave` | VEX/priv/guest_amd64_helpers.c:1806-1904 | FRSTOR after FNSAVE, into any state: stack top, condition codes, rounding mode, tags and registers are those saved - NaNs canonical, empty registers zero - and no warning is raised |
| `FpuState.FrstorsUndoesFnsaves` | VEX/priv/guest_amd64_helpers.c:2244-2350 | The same for the 16-bit format |
| `FpuState.FldenvUndoesFstenv` | VEX/priv/guest_amd64_helpers.c:2181-2226 | FLDENV after FSTENV restores everything but the registers, which it leaves alone |
| `FpuState.FxrstorUndoesFxsave` | VEX/priv/guest_amd64_helpers.c:1910-2059 | FXRSTOR after FXSAVE restores the SSE rounding mode too, without any warning |
| `FpuState.SettledStates` | VEX/priv/guest_amd64_helpers.c:1806-2059 | The round trip is the identity exactly on states whose fields hold no more than is saved, whose empty registers are zero and whose NaNs are canonical |
| `FpuState.SettledOnce` | VEX/priv/guest_amd64_helpers.c:1806-2059 | A second round trip changes nothing |
| `CarryLess.Pclmul` | VEX/priv/guest_amd64_helpers.c:3009-3049 | The windowed multiplication with its sixteen-entry table, byte steps and seven repairs returns exactly the requested half of the 128-bit product, for all operands |
| `CarryLess.ProductIsConvolution` | VEX/priv/guest_amd64_helpers.c:3009-3049 | The product meant is the polynomial one: each coefficient is the sum of the products of coefficients whose places add up to its own |
| `CarryLess.HalvesAreConvolution` | VEX/priv/guest_amd64_helpers.c:3009-3049 | Bit k of the two halves is coefficient k |
| `CarryLess.RepairIsHigh` | VEX/priv/guest_amd64_helpers.c:3038-3046 | The seven repair terms are what the table loses of the product with a byte |
| `CarryLess.ByteStep` | VEX/priv/guest_amd64_helpers.c:3022-3036 | One byte step keeps the lower half right and the upper half right up to the repairs |
| `AesTables.InvSboxUndoesSbox` | VEX/priv/guest_amd64_helpers.c:3562-3648 | The second table of substitutions undoes the first, for all bytes |
| `AesField.FfMulIsProduct` | VEX/priv/guest_amd64_helpers.c:3671-3757 | Multiplication by tables of exponents is multiplication of polynomials modulo x^8 + x^4 + x^3 + x + 1, for all pairs of bytes |
| `AesField.SboxIsAffineInverse` | VEX/priv/guest_amd64_helpers.c:3562-3605 | Each entry of the table of substitutions is the affine map of section 5.1.1 of FIPS 197 applied to the inverse of the byte in the field |
| `Aes.MixColumns` | VEX/priv/guest_amd64_helpers.c:3759-3776 | The loop mixes every column: each byte is the same combination of its column, turned |
| `Aes.RowsTurn` | VEX/priv/guest_amd64_helpers.c:3649-3668 | Byte r of column c comes from column c + r, and from column c - r in the inverse, as in sections 5.1.2 and 5.3.1 of FIPS 197 |
| `Aes.ColumnsMultiply` | VEX/priv/guest_amd64_helpers.c:3759-3796 | Mixing multiplies every column with the polynomial of section 5.1.3 of FIPS 197 modulo x^4 + 1, and the inverse with that of section 5.3.3 |
| `Aes.LastRoundBytes` | VEX/priv/guest_amd64_helpers.c:3807-3816 | Byte by byte, AESENCLAST substitutes the byte of the turned row and adds that of the key |
| `Aes.InvLastRoundBytes` | VEX/priv/guest_amd64_helpers.c:3826-3833 | The same for AESDECLAST with the inverse table and the other direction |
| `Aes.RoundBytes` | VEX/priv/guest_amd64_helpers.c:3813-3822 | AESENC adds to the key the product of the turned and substituted column with the polynomial |
| `Aes.InvRoundBytes` | VEX/priv/guest_amd64_helpers.c:3800-3841 | The same for AESDEC, and AESIMC is the product with the inverse polynomial alone |
| `Aes.UnmixedMixed` | VEX/priv/guest_amd64_helpers.c:3759-3796 | The inverse mixing of columns undoes the mixing, for all blocks |
| `Aes.Guest.Execute` | VEX/priv/guest_amd64_helpers.c:3800-3841 | The instructions as steps on a copy of the operand; operands may be the same register, other opcodes change nothing; byte by byte and by the numbers of the opcodes in the four lemmas behind `Aes.ColumnsMultiply` |
| `Aes.LastRoundUndone` | VEX/priv/guest_amd64_helpers.c:3813-3833 | AESDECLAST undoes AESENCLAST |
| `Aes.RoundBack` | VEX/priv/guest_amd64_helpers.c:3813-3838 | AESDEC with a key from AESIMC takes back a round of AESENC inside the equivalent inverse cipher |
| `Aes.DecryptEncrypted` | VEX/priv/guest_amd64_helpers.c:3800-3841 | Decryption by AESIMC, AESDEC and AESDECLAST undoes encryption by AESENC and AESENCLAST, for any block, any keys and any number of rounds |
| `Amd64Flags.MullTruth` | VEX/priv/guest_amd64_helpers.c:80-112 | Schoolbook multiplication on halves gives the exact high word of the product, signed and unsigned |
| `Amd64Flags.UnsignedMullFits` | VEX/priv/guest_amd64_helpers.c:97-112 | No intermediate value of the unsigned version leaves 64 bits |
| `Amd64Flags.MullFits` | VEX/priv/guest_amd64_helpers.c:80-95 | No intermediate value of the signed version leaves 64 bits |
| `Amd64Flags.AddFlags` | VEX/priv/guest_amd64_helpers.c:190-255 | After an addition with or without carry, at every width: carry is the carry out, overflow the signed overflow, zero and sign those of the result; with carry the hidden operand is recovered |
| `Amd64Flags.SubFlags` | VEX/priv/guest_amd64_helpers.c:211-280 | After a subtraction with or without borrow: carry is the borrow, overflow the signed overflow |
| `Amd64Flags.StepFlags` | VEX/priv/guest_amd64_helpers.c:298-336 | Increment and decrement overflow exactly at the ends of the signed range and keep the old carry |
| `Amd64Flags.AuxiliaryFlag` | VEX/priv/guest_amd64_helpers.c:190-336 | The auxiliary flag is the carry or borrow between the two lowest hexadecimal digits, for additions, subtractions and steps |
| `Amd64Flags.ShiftLeftFlags` | VEX/priv/guest_amd64_helpers.c:339-355 | After a left shift carry is the bit that the last step lost, and overflow tells whether that step doubled the number out of the signed range |
| `Amd64Flags.ShiftRightFlags` | VEX/priv/guest_amd64_helpers.c:357-373 | After a right shift carry is the bit lost last, and overflow is the old sign for a logical and clear for an arithmetic shift |
| `Amd64Flags.UnsignedMulFlags` | VEX/priv/guest_amd64_helpers.c:409-477 | Carry and overflow are set exactly if the unsigned product needs more than the width |
| `Amd64Flags.SignedMulFlags` | VEX/priv/guest_amd64_helpers.c:435-493 | Carry and overflow are set exactly if the signed product does not fit the width |
| `Amd64Flags.ProductFlags` | VEX/priv/guest_amd64_helpers.c:409-493 | Both multiplications take zero and sign from the low word of the product |
| `Amd64Flags.ConditionsAfterSub` | VEX/priv/guest_amd64_helpers.c:814-888 | After a subtraction the conditions B, BE, L, LE, Z and their negations are the unsigned and signed comparisons of the operands |
| `Amd64Rflags.RflagsAreFlags` | VEX/priv/guest_amd64_helpers.c:115-493 | The word put together by each macro with its table of parities, shifts and masks holds every flag at its place and nothing else, at all widths and for all operands |
| `Amd64Rflags.OverflowPart` | VEX/priv/guest_amd64_helpers.c:150-207 | Shifting by twelve minus the width and masking picks the top bit of the mixed operands |
| `Amd64Rflags.ParityPart` | VEX/priv/guest_amd64_helpers.c:115-148 | The table of parities says whether a byte has an even number of ones |
| `Amd64Rflags.ConditionsOfWord` | VEX/priv/guest_amd64_helpers.c:814-888 | The condition helper, which shifts flags of the word to the lowest place, combines them with everything above them and cuts at the end, gives the condition of the flags for all sixteen codes, and the carry helper the carry |
| `Amd64Rflags.CodesAfterSub` | VEX/priv/guest_amd64_helpers.c:814-888 | All sixteen condition codes, by number, asked of the flags word after a subtraction, are the comparisons of the operands |
| `Amd64Specialise.SpecialisedCondition` | VEX/priv/guest_amd64_helpers.c:975-1652 | An expression the specialiser returns has the value of the condition helper, for all operands, operations, widths, conditions and operand values - except that the overflow of a 64-bit subtraction is right exactly if there is none |
| `Amd64Specialise.OverflowIsLost` | VEX/priv/guest_amd64_helpers.c:1025-1040 | The 64-bit overflow entry shifts by 64: the least number minus one overflows and the expression says zero |
| `Amd64Specialise.SpecialisedCarry` | VEX/priv/guest_amd64_helpers.c:1655-1696 | A specialised carry is the helper's carry exactly if, after an increment or decrement, the old carry handed over is one bit |
| `Amd64Specialise.SubOverflowBit` | VEX/priv/guest_amd64_helpers.c:1081-1102 | The mixed bits of a difference hold the overflow at the highest place of the width |
| `ArmFlags.AddTells` | VEX/priv/guest_arm_helpers.c:111-430 | On arm and arm64, after an addition with or without carry: carry out, signed overflow, zero and sign are those of the exact sum |
| `ArmFlags.SubTells` | VEX/priv/guest_arm_helpers.c:111-430 | After a subtraction with or without carry the carry is clear exactly if there is a borrow, and overflow, zero and sign are those of the exact difference |
| `ArmFlags.LongMultiplicationTells` | VEX/priv/guest_arm_helpers.c:111-270 | After a long multiplication N and Z are sign and zero of the whole 64-bit product held in two words |
| `ArmFlags.SignedMultiplicationTells` | VEX/priv/guest_arm_helpers.c:111-270 | Of signed factors: N exactly if the signs differ and neither is zero, Z exactly if one is zero |
| `ArmFlags.MultiplicationTells` | VEX/priv/guest_arm_helpers.c:111-270 | After a multiplication N and Z are those of the low word of the product |
| `ArmFlags.MultiplicationsKeep` | VEX/priv/guest_arm_helpers.c:280-430 | Both multiplications keep carry and overflow, which the thunk holds as a number of two bits |
| `ArmFlags.LogicTells` | VEX/priv/guest_arm_helpers.c:111-430 | After a logical operation N and Z are those of the result; carry and overflow are those of the thunk on arm and clear on arm64 |
| `ArmFlags.ConditionsAfterSub` | VEX/priv/guest_arm64_helpers.c:605-677 | After a subtraction fourteen conditions are the comparisons of the operands, and the remaining ones with a meaning always hold |
| `ArmFlags.NzcvBits` | VEX/priv/guest_arm64_helpers.c:572-590 | The status word has the four flags at bits 31 to 28 and zeroes elsewhere |
| `ArmFlags.CopyKeepsFlags` | VEX/priv/guest_arm64_helpers.c:572-677 | Reading the flags back from the status word changes no flag and no condition |
| `ArmSpecialise.SpecialisedCondition` | VEX/priv/guest_arm_helpers.c:577-711 | Every expression the arm and arm64 specialisers return for a condition has the value of the helper, whenever the helper returns |
| `ArmSpecialise.SpecialisedCarry` | VEX/priv/guest_arm_helpers.c:761-808 | So has every expression for the carry on arm |
| `ArmSpecialise.SpecialisedOverflow` | VEX/priv/guest_arm_helpers.c:811-875 | The expressions for the overflow after logic and subtraction are right; after a subtraction with carry it is right exactly if the lowest bits of the operands and the old carry happen to tell the overflow, since the entry takes bit 0 where the overflow is in bit 31 |
| `ArmSpecialise.OverflowIsWrong` | VEX/priv/guest_arm_helpers.c:853-875 | One minus zero with a borrow is said to overflow, and the least number minus two is not |
| `ArmSpecialise.FindAlways` | VEX/priv/guest_arm_helpers.c:741-759 | The search finds the definition exactly if it is among the sixteen statements in front |
| `ArmSpecialise.AlwaysMeans` | VEX/priv/guest_arm_helpers.c:713-759 | A condition word found by the search stands for the condition that always holds exactly if its other part has no bit that changes the condition; otherwise the helper returns nothing where the replacement is one |
| `Rotate.CalculateRCR` | VEX/priv/guest_amd64_helpers.c:2872-2937 | RCR is the rotation right of the word carry:operand by the masked count modulo size plus one; asked for flags it replaces carry and overflow only |
| `Rotate.CalculateRCL` | VEX/priv/guest_amd64_helpers.c:2939-3004 | RCL is the rotation left, its overflow taken after the rotation |
| `Rotate.RightsRotate` | VEX/priv/guest_amd64_helpers.c:2872-2937 | Rotating right by k moves every bit down k places around the end of the joined word |
| `Rotate.LeftsRotate` | VEX/priv/guest_amd64_helpers.c:2939-3004 | Rotating left moves every bit up |
| `Rotate.FullTurn` | VEX/priv/guest_amd64_helpers.c:2872-2937 | Reducing the count modulo size plus one changes nothing |
| `Rotate.LowBitsCount` | VEX/priv/guest_amd64_helpers.c:2872-3004 | How far operand and carry are rotated is the number that the low five bits of the count make, or six for a 64-bit operand |
| `Rotate.RcrOverflow` | VEX/priv/guest_amd64_helpers.c:2872-2937 | After RCR by one, overflow tells that the two highest bits of the result differ |
| `Rotate.RclUndoesRcr` | VEX/priv/guest_amd64_helpers.c:2872-3004 | RCL with the same amount and the carry RCR produced restores operand and carry |
| `Rotate.FlagsKept` | VEX/priv/guest_amd64_helpers.c:2926-2937 | Every other flag bit keeps its value |
| `Utf8.CUxy` | VEX/priv/guest_s390_helpers.c:375-388 | The lowest bytes are stored left to right and nothing else changes |
| `Utf8.DecodeEncoded` | VEX/priv/guest_s390_helpers.c:593-828 | Every character CU41 accepts is read back by CU14 without the strict check; with it exactly the Unicode scalar values are - low surrogates, which CU41 accepts, are refused |
| `Utf8.StrictIsRfc3629` | VEX/priv/guest_s390_helpers.c:663-828 | A group of bytes passes the strict check exactly if section 4 of RFC 3629 allows it, and exactly if it is the encoding of some scalar value |
| `Utf8.DecodeAllEncoded` | VEX/priv/guest_s390_toIR.c:13642-13865 | A whole string of scalar values comes back and every byte is consumed |
| `Utf8.EncodeAllDecoded` | VEX/priv/guest_s390_toIR.c:13765-13887 | What the strict reading of any bytes yields encodes back to exactly the bytes consumed |
| `Utf8.Cu21ThroughUtf32` | VEX/priv/guest_s390_helpers.c:406-528 | CU21 is CU24 followed by CU41, for every pair of units, the surrogate error included |
| `Utf8.Cu24UndoesCu42` | VEX/priv/guest_s390_helpers.c:502-575 | A character written as UTF-16 is read back |
| `Utf8.Refusals` | VEX/priv/guest_s390_helpers.c:406-635 | A pair is refused exactly if its first unit is a high surrogate and its second is no low one, and a character exactly if it is a high surrogate or above the last one |
| `Utf8.LeadingOnes` | VEX/priv/guest_s390_helpers.c:663-690 | Without the strict check the number of leading ones of the first byte tells the length |
| `Utf8.Cu12ThroughUtf32` | VEX/priv/guest_s390_helpers.c:698-844 | CU12 is CU14 followed by CU42 exactly for characters UTF-16 can hold that are not overlong |
| `Utf8.StrictCu12ThroughUtf32` | VEX/priv/guest_s390_helpers.c:663-844 | With the strict check that is every character |

## Left out

- `DFGraph.constant_folding` and `DFGraph.eliminate_subexpressions`: the first never folds anything, the second renames registers without looking at the uses in between.
- OptimizerCorrect.StoredRunsLikeOriginal: a sufficient condition for whole runs; for single instructions the conditions are exact (`NextKept`, `JumpKept`, `LeavesExactly`, `TempsKept`, `MarkedIsLost`).
- Store.StoreGraph: the binary and assembly attributes copied to the survivors are not modelled, only the lookup for them that can fail.
- Arithmetic and memory in `Vm`: total functions of a machine that the theorems quantify over, as are unknown instructions and called functions over the registers they list; faults of the emulator's memory are not modelled.
- The emulator remembers a size for each register object; the model cuts values to the size of the operand that reads them, and `SymbolicCorrect` asks for one size per name.
- SymbolicCorrect.SymbolicAgrees: loads behind stores are left to `SymbolicCorrect.LoadFollows`, which says exactly when their expressions are right; other reads of the instruction pointer register can come out wrong, as `SymbolicCorrect.PointerReadAgrees` shows.
- `SymState.arg_in`, `arg_out`, `slice` and `Sym.parse`: reporting on finished states.
- Jumps through a register leave the function in `Vm`; where they lead inside it is unknown to the graphs.
- The Thumb branch of `_get_bb` that deletes flags of stored instructions (pyopenreil/REIL.py:1443-1455), the initial state argument of the data flow search (always empty here), and the list of deleted nodes a graph keeps.
- DeadCodeCorrect.EliminationPreservesRuns: registers at exits that the graph does not see as function ends are left open; `DeadCodeLimits.ComputedBranchLosesValue` shows that they can be wrong.
- Names of temporaries are pairs of a name and a machine address; the registers that are neither general nor flags nor the instruction pointer are any names.
- `IATTR_NEXT` is an optional successor that must be a later address.
- The order in which Python iterates over dictionaries and sets is arbitrary in every method that does so.
- Checksum functions of self checks, 32-bit hosts, and debugging output of the superblock builder; which extents need a check is a parameter of `SelfChecks.AddSelfChecks`.
- The guest floating point registers are eight values of eight bytes and the image in memory is environment words and ten-byte slots, not one run of bytes; the zero padding of slots in the fast format is not modelled. Words are little-endian.
- Thunk operations for rotates and the bit manipulation extensions (ROL, ROR, ANDN, BLSI, BLSMSK, BLSR).
- Shifts by 64 in specialised expressions count as mathematical shifts; the IR leaves them open.
- ArmSpecialise.SpecialisedCondition: condition words are pairs of a condition and an operation; only the search for the condition that always holds works on the word itself.
- AESKEYGENASSIST (VEX/priv/guest_amd64_helpers.c:3843-3886): the key schedule; `Aes.DecryptEncrypted` holds for any keys. A register is a block of sixteen bytes, not a place in the guest state.
- pext, pdep, crc, string comparison, CPUID and time stamps, transcendental classification (FXAM), and the PPC, MIPS and other s390 helpers.
- Destination lengths of the Unicode instructions: the strings of `Utf8` have room for every result; the two condition codes for exhausted operands are one.
- Readers, translator bindings, logging, JSON and database storage, function objects, drawing and tests.
