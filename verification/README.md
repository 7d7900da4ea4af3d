# Model of the SSA middle end and the register allocator

This project models the part of the compiler between the generated IR and the assembly text, and proves what each pass
keeps. A function is a sequence of blocks; block `i` has id `i`, holds phis, instructions and one terminator, and block 0
is the entry. Names are strings, values are 32-bit integers with explicit wrap-around. `IR.dfy` gives a function its
meaning: a run goes from block to block, and `load`, `store`, `getelementptr`, `alloca` and calls append an event to a
history, from which an arbitrary world answers them. Two functions are compared by their runs: same blocks or a matching
block, same events in the same order with the same arguments, same returned value. All theorems about runs are for every
world, every start and every number of steps, as long as the original run is defined.

| file | part of the compiler |
|---|---|
| `Graphs`, `DfsTree`, `DominatorTree` | paths and dominance; Lengauer-Tarjan with path compression |
| `Liveness`, `BitSet` | the worklist for IN and OUT, and the bit sets under it |
| `Frontier`, `SlotLiveness`, `SsaForm`, `Mem2regRuns`, `SsaProperties`, `PromotedForm`, `Mem2reg` | dominance frontiers, phi placement, renaming, mem2reg |
| `SccpLattice`, `FoldingLaws`, `SccpPrecision`, `SccpPropagation`, `SccpRewrite` | sparse conditional constant propagation |
| `CriticalEdges`, `EmptyBlocks` | splitting critical edges; jump threading around empty blocks |
| `PhiTopo`, `PhiEliminator`, `PhiSimulation` | parallel copies as move sequences; replacing phis by moves |
| `InterferenceGraph`, `RegAlloc`, `CallCrossing`, `DroppedEdge` | interference, coalescing, colouring, and two ways in which the allocation goes wrong |
| `CallerSave` | lazy saving of argument registers and the return address |
| `Inlining`, `InliningRuns`, `InliningSimulation`, `InliningInvariants`, `FunctionInliner` | the function inliner |

Where the code computes step by step, the model has a class or a method with the same loops and fields, proved against a
declarative specification; the theorems about runs are about those specifications.

Three properties do not hold of the code for every input. Each has a concrete input and its exact condition:

- Constant folding of `not` complements all 32 bits, while the generated code flips the lowest bit of an `i1`
  (`SccpLattice.ExecSoundExactly`, `SccpRewrite.FoldExact`, `SccpPropagation.FoldNotExample`).
- Coalescing does not extend the set of variables that are live across calls, so one of them can end up in t5
  (`InterferenceGraphs.T5Exactly`, `InterferenceGraphs.LastResort`, `CallCrossing.AllocateExample`).
- The removal of "spurious" interference edges before coalescing does not see uses by instructions that define nothing,
  such as calls without a result, so two variables that are needed at once can share a register
  (`RegisterAllocation.DropsExactly`, `RegisterAllocation.DropsSafeOnPaths`, `RegisterAllocation.NeededAfterUser`,
  `DroppedEdges.AllocateCounting`).

## Model

| member | source | states |
|---|---|---|
| DominatorTrees.DominatorTreeSolver.DFS | src/liveness_analysis/dominator_tree.cpp:41-51 | The search numbers the vertices not seen before in preorder, closes under successors, and records a parent that makes the numbers a depth-first spanning tree. |
| DominatorTrees.DominatorTreeSolver.Find | src/liveness_analysis/dominator_tree.cpp:53-63 | Path compression returns the root of the tree of `x` in the linked forest and keeps, for every vertex, `mn` the vertex with the least semidominator on its compressed path; entries numbered above `x` are untouched. |
| DominatorTrees.DominatorTreeSolver.LeastCandidate | src/liveness_analysis/dominator_tree.cpp:66-83 | The minimum over the in-edges of a vertex is its semidominator in the declarative sense: the least start of a path whose inner vertices all have greater numbers. |
| DominatorTrees.DominatorTreeSolver.Tarjan | src/liveness_analysis/dominator_tree.cpp:65-103 | For every graph with converse edge lists, `idm[v]` of every vertex reachable from the source, other than the source, strictly dominates `v`, and every strict dominator of `v` dominates it; entries of other vertices do not change. |
| Liveness.LivenessSolver.CalcInOut | src/liveness_analysis/CFG.cpp:93-172 | Over bit sets that start empty, with the words resized, united, cleared, set and compared as in the code, IN of every reachable block contains exactly the variables for which some path from the block reaches a use with no definition before it, and the data-flow equations hold; sets of unreachable blocks never claim too much. |
| BitSets.BitSet.Set | src/include/common/bit_set.h:26-28 | The set of numbers represented by the words gains exactly `idx`. |
| BitSets.BitSet.ClearBit | src/include/common/bit_set.h:30-32 | The set represented by the words loses exactly `idx`. |
| BitSets.BitSet.Equals | src/include/common/bit_set.h:44-46 | For sets of the same size, comparing the words is comparing the contents. |
| BitSets.BitSet.Union | src/include/common/bit_set.h:52-57 | Everything of the other set that fits is added and nothing else. |
| BitSets.BitSet.CopyAndNot | src/include/common/bit_set.h:59-64 | The set becomes the difference of the other two, as far as it fits. |
| BitSets.BitSet.ForEach | src/include/common/bit_set.h:71-82 | The loop that clears the lowest bit again and again hands over exactly the contents, each number once and in increasing order. |
| DominanceFrontiers.CFG.CalcDominatorTree | src/liveness_analysis/CFG.cpp:174-197 | The shift of the solver's vertices by one is undone: every reachable block other than the entry gets its immediate dominator, and the children lists are the converse. |
| DominanceFrontiers.CFG.CalcFrontier | src/liveness_analysis/CFG.cpp:199-232 | `x` is in the frontier of a reachable block `v` just when `v` dominates a reachable predecessor of `x` but does not strictly dominate `x`, and in that of an unreachable block just when `x` is one of its successors. |
| DominanceFrontiers.CFG.AddPhi | src/liveness_analysis/CFG.cpp:234-259 | The blocks that get a phi are the least set that contains the live frontier blocks of the definitions and of the blocks in the set itself. |
| SlotLivenessAnalysis.CFGBuilder.VisitBlock | src/liveness_analysis/CFG_builder.cpp:152-175 | The sets gathered for a block are exactly the slots loaded before any store of the block and the slots stored in it. |
| SlotLivenessAnalysis.CalcSlotLiveness | src/liveness_analysis/CFG_builder.cpp:152-197 | The set of a reachable block contains a slot if and only if some path from the block reaches a load of the slot with no store to it before. |
| Mem2regPass.ReplaceValue | src/liveness_analysis/CFG.cpp:261-272 | Replacement chains are acyclic, so following them ends, at an operand that is no longer replaced and stands for the same value. |
| Mem2regPass.Renamer.BatchedDFSRecursive | src/liveness_analysis/CFG.cpp:350-416 | Renaming a block handles every block it dominates, records for each load the definition that reaches it, fills the phi operands of successors, and leaves the value stacks as they were. |
| PromotionRuns.PromotionKeepsRuns | src/liveness_analysis/CFG.cpp:424-515 | At every step of every run the function with phis is at the same block with the same events, every operand has the value its final replacement has, and the top definition of every live slot has the value in the slot. |
| PromotedForms.ResultsUnique | src/liveness_analysis/CFG.cpp:424-515 | In the blocks of the result that a path leads to, no name is the result of two phis or instructions, and no parameter is a result. |
| PromotedForms.UsesAreDominated | src/liveness_analysis/CFG.cpp:424-515 | There every operand of an instruction or terminator is a constant, a parameter, or defined earlier in the block or in a strictly dominating block; every phi operand comes from a reachable predecessor at whose end it is available; and no promoted slot is left as a result or an operand. |
| PromotedForms.PhisAreNamed | src/liveness_analysis/CFG.cpp:350-416 | The phis of the result are those that were placed, and each has an operand for every predecessor that a path leads to. |
| Mem2regPass.Mem2reg | src/mem2reg/mem2reg.cpp:10-75 | Exactly the promotable allocas are promoted. The result has the same edges and, apart from operands, the same instructions without the accesses to promoted slots; no promoted name is left; each name has one definition, which dominates its uses; the phis of a slot stand exactly at the least set closed under the dominance frontiers, where the slot is live, of the blocks that store to it, and none lacks an operand. Every run of the input with those slots as private cells is a run of the result with the same events and result. |
| FoldingLaws.SignedDivisionLaw | src/IR_visitor/sccp/sccp.cpp:102-124 | Unless the divisor is 0 or it is INT_MIN by -1, folded signed quotient `q` and remainder `r` of `a` by `b` satisfy `a == b * q + r` and `abs(r) < abs(b)`, and `r` is 0 or has the sign of `a`; only one pair does. |
| FoldingLaws.TruncationUnique | src/IR_visitor/sccp/sccp.cpp:102-124 | The law of signed division determines quotient and remainder. |
| FoldingLaws.ZeroDivisorLaw | src/IR_visitor/sccp/sccp.cpp:102-124 | Division by zero folds to the dividend, with remainder 0. |
| FoldingLaws.UnsignedDivisionLaw | src/IR_visitor/sccp/sccp.cpp:102-124 | The unsigned readings of folded quotient and remainder satisfy the law of division, with a remainder below the divisor. |
| FoldingLaws.RingLaws | src/IR_visitor/sccp/sccp.cpp:102-124 | Folded sum, difference and product are the one 32-bit value that agrees with the integer result in the low 32 bits. |
| FoldingLaws.ShiftAmount | src/IR_visitor/sccp/sccp.cpp:102-124 | Only the low five bits of a shift amount count. |
| FoldingLaws.UnshiftedLaw | src/IR_visitor/sccp/sccp.cpp:102-124 | A shift by nothing changes nothing. |
| FoldingLaws.LeftShiftLaw | src/IR_visitor/sccp/sccp.cpp:102-124 | Shifting left by one more position doubles in the low 32 bits. |
| FoldingLaws.RightShiftLaw | src/IR_visitor/sccp/sccp.cpp:102-124 | Shifting right by one more position halves, rounding down, the signed value or its unsigned reading. |
| FoldingLaws.BitLaws | src/IR_visitor/sccp/sccp.cpp:102-124 | The bit vector of a folded and, or and exclusive or is the operation on the bit vectors of the operands. |
| FoldingLaws.OrderLaws | src/IR_visitor/sccp/sccp.cpp:126-142 | Signed and unsigned order agree on values of one sign, a negative value being the larger one when read as unsigned, and the ten comparisons are related as their names say. |
| FoldingLaws.NegationLaws | src/IR_visitor/sccp/sccp.cpp:407-421 | A folded minus added to its operand gives 0 in the low 32 bits, and a folded `not` gives -1, whatever its width. |
| FoldingLaws.FlipLaw | src/IR_visitor/assembly_generator/assembly_generator.cpp:417-426 | The `not` of a truth value in the generated code changes the lowest bit and no other. |
| FoldingLaws.MeetIsGreatest | src/IR_visitor/sccp/sccp.cpp:57-69 | The meet of two cells is the greatest cell at or below both. |
| FoldingLaws.TransferExactly | src/IR_visitor/sccp/sccp.cpp:387-531 | The result of an operation is unknown if and only if some operand is, and a constant if and only if all operands are. |
| FoldingLaws.TransferComputes | src/IR_visitor/sccp/sccp.cpp:387-531 | The constant is what the operation computes from the operands, where that is defined, unless it is a `not` on i1. |
| SccpLattice.ExecSoundExactly | src/IR_visitor/sccp/sccp.cpp:387-531 | Executing an instruction whose cell is at its transfer value keeps every cell right if and only if the instruction is not a `not` on i1 with a constant operand. |
| SccpPrecision.TransferMonotone | src/IR_visitor/sccp/sccp.cpp:366-531 | Lower operand cells never give a higher result cell, which is what makes re-evaluation converge. |
| SccpPropagation.SCCPer.Fixpoint | src/IR_visitor/sccp/sccp.cpp:534-564 | The two-worklist loop terminates, by a measure over cells, executable flags and both queues, and ends in a solution: the entry is executable, executability follows the terminators, and every cell of an executable block is settled. In SSA form, as mem2reg leaves it, the solution is the most precise one: every other solution makes at least the same blocks executable and has all cells at or below, and every executable block other than the entry is let through by the terminator of an executable one under the final cells. |
| SccpRewrite.NothingLeftToFold | src/IR_visitor/sccp/sccp.cpp:570-817 | After the rewriting the blocks that are not executable are empty, and no executable block has an operand with a known value, an operation or a branch on constants alone, or a phi operand from a block that is not executable. |
| SccpRewrite.RewriteKeepsRuns | src/IR_visitor/sccp/sccp.cpp:570-817 | If no executable `not` on i1 is folded, a defined run of the function and the run after steps A to D go through the same executable blocks with the same events, values and result. |
| SccpRewrite.FoldExact | src/IR_visitor/sccp/sccp.cpp:727-780 | Folding an instruction with constant operands gives its value, wherever that is defined, if and only if it is not a `not` on i1. |
| SccpPropagation.RunOnFunction | src/IR_visitor/sccp/sccp.cpp:320-817 | The pass ends in a solution, in SSA form the most precise one, and its rewriting, in which nothing known is left to fold, and every run with the parameters as input has the same outcome, provided no executable `not` on i1 has a constant operand. |
| SccpPropagation.FoldNotExample | src/IR_visitor/sccp/sccp.cpp:407-421 | Applied to a function that branches on `not` of a constant comparison, the pass changes what the function returns, for every world. |
| CriticalEdges.EdgeSplitter.EliminateCriticalEdge | src/liveness_analysis/CFG.cpp:517-573 | Afterwards no edge leads from a block with two successors to one with two predecessors, each phi still has one operand per predecessor, the entry still has none, and every run is matched by a run that passes through the new blocks. Exactly the critical edges are split: there are as many new blocks as critical edges, each jumps where its edge led, every other edge and all code stay, and a function without critical edges is unchanged. |
| EmptyBlocks.EmptyBlockEliminator.ThreadJumps | src/IR_visitor/empty_block_eliminator/empty_block_eliminator.cpp:274-356 | Taking out jump-only blocks, with predecessor lists that may be stale, terminates, keeps what a run does from every block on, and leaves no block other than the entry with nothing but a jump, unless it jumps to itself. |
| EmptyBlocks.EmptyBlockEliminator.RedirectAroundEmpty | src/IR_visitor/empty_block_eliminator/empty_block_eliminator.cpp:358-441 | No jump or branch leads to an empty block any more, unless from there only empty blocks can follow, and what a run does from every block on is kept. |
| EmptyBlocks.EliminationKeepsRuns | src/IR_visitor/empty_block_eliminator/empty_block_eliminator.cpp:274-441 | Every run of the function is matched by a run of the emitted result with the same state, events and result, reading an emptied block as its last removed jump. |
| EmptyBlocks.EmptyBlockEliminator.ThreadAndRedirect | src/IR_visitor/empty_block_eliminator/empty_block_eliminator.cpp:274-441 | The two passes together leave the entry and all targets at blocks with code or where nothing can follow; a block other than the entry that only jumps to another one afterwards was an empty branch whose targets have become one; and every number of steps of a run before is matched by a run afterwards. |
| ParallelCopies.PhiTopo.BreakCycle | src/codegen/phi_topo.cpp:50-71 | Once nothing can be peeled, the pending copies are disjoint cycles; walking one with a save and a restore performs all its copies and comes back to its start, so the error branch is unreachable. |
| ParallelCopies.PhiTopo.Solve | src/codegen/phi_topo.cpp:19-74 | For copies with distinct targets the emitted list of moves has the effect of the simultaneous copy in every environment: each target gets the original value of its source and nothing else changes but the temporary. |
| PhiElimination.ReplacePhiWithMoves | src/IR_visitor/phi_eliminator/phi_eliminator.cpp:11-87 | Every block keeps its instructions and terminator, loses its phis, and gets at its end, for each successor in turn, moves that realise the parallel copy of that successor's phis with fresh temporaries. |
| PhiSimulation.ReplacingPhisKeepsRuns | src/IR_visitor/phi_eliminator/phi_eliminator.cpp:11-87 | Without critical edges, every run is matched block by block, with the same events and the same value of every name that may still be read, although a branch block executes the moves of both successors. |
| InterferenceGraphs.InterferenceGraph.RemoveEdge | src/reg_alloc/interference_graph.cpp:19-25 | Both directions of the one edge go and all other adjacencies and nodes stay. |
| InterferenceGraphs.InterferenceGraph.Coalesce | src/reg_alloc/interference_graph.cpp:217-265 | The graph and the map of merged nodes are those of merging the move pairs in order where the size and register tests allow it, and every original edge is an edge between the representatives of its ends. A move is merged if and only if at its turn both ends are there and unmerged, not adjacent and with fewer than k neighbours together, no end that joins a fixed register is live across a call, and fixed registers are the same; a node with a fixed register survives. A node that is left has the uses and definitions of all nodes it stands for. |
| InterferenceGraphs.MergeKeepsColourable | src/reg_alloc/interference_graph.cpp:244-263 | Whenever the size test allows a merge, a k-colourable graph stays k-colourable. |
| InterferenceGraphs.InterferenceGraph.Color | src/reg_alloc/interference_graph.cpp:78-209 | Variables adjacent before coalescing that both have registers have different ones; merged nodes carry their representative's register, precoloured nodes keep theirs; nodes with few neighbours are removed first and the colours are those of choosing in reverse order; a node chosen for spilling is the least used of those still there, and among equals one with the most neighbours without fixed registers; with nothing restricting the colours only nodes with at least k neighbours left are spilled. |
| InterferenceGraphs.LastResort | src/reg_alloc/interference_graph.cpp:170-206 | With t5 in the last place of the pool, as in the pool of functions with calls, a node that is not live across calls gets t5 if and only if it is not spilled and its neighbours have all other registers of the pool when its turn comes. |
| InterferenceGraphs.SpareNotT5 | src/reg_alloc/interference_graph.cpp:170-206 | A node with fewer neighbours than the pool has registers before t5 never gets t5, whatever the order of removal. |
| InterferenceGraphs.T5Exactly | src/reg_alloc/interference_graph.cpp:170-206 | Ranging over all pools of the given size and all orders of removal, none puts a variable that is live across a call in t5 if and only if every such variable is represented by one that is live across a call or has a fixed register. |
| RegisterAllocation.BlockUseDef | src/liveness_analysis/CFG_builder.cpp:7-19 | A block's use set holds exactly the variables used before any definition in the block, and its definition set those defined in it. |
| RegisterAllocation.LiveAtPoint | src/reg_alloc/reg_alloc.cpp:129-173 | The reverse scan over the solver's OUT sets finds a tracked variable live before an item of a reachable block just when some path from that item reaches a use of it with no definition before. |
| RegisterAllocation.ScanBlock | src/reg_alloc/reg_alloc.cpp:136-227 | Scanning a block adds exactly the edges from each promotable definition to what is live before the item, move sources excepted, the moves in reverse order, and returns exactly the variables live across a call. |
| RegisterAllocation.BuildGraph | src/reg_alloc/reg_alloc.cpp:129-227 | Over all blocks the graph has exactly the edges and moves of their items, uses and definitions of every promotable variable are counted item by item, and the variables live across calls are exactly those live across some call. |
| RegisterAllocation.DropEdges | src/reg_alloc/reg_alloc.cpp:229-268 | Exactly those edges are taken out whose ends are the source and the target of a move of a block in which the last instruction that defines something and uses the target has the source as its result. |
| RegisterAllocation.DropsExactly | src/reg_alloc/reg_alloc.cpp:229-268 | The graph that is coloured still has an edge between every variable that is written and every variable needed afterwards if and only if no edge taken out lies between two such variables. |
| RegisterAllocation.DropsSafeOnPaths | src/reg_alloc/reg_alloc.cpp:229-268 | In terms of the text of the function: the edges taken out are safe if and only if from no definition of one end, other than a move from the other end, a path reaches a use of the other end with no definition of it before. |
| RegisterAllocation.NeededAfterUser | src/reg_alloc/reg_alloc.cpp:241-251 | After the last instruction of a block that defines something and uses a variable, its value is still needed if and only if it reaches a later item that defines nothing and uses it, or the end of a block where it is live. |
| RegisterAllocation.NeededBeforeMove | src/reg_alloc/reg_alloc.cpp:241-251 | Between the last defining user of a variable and the move to it, the old value is still needed just when some instruction that defines nothing uses it. |
| RegisterAllocation.AllocationKeepsRuns | src/reg_alloc/reg_alloc.cpp:303-320 | In runs that lose t5 at every call, each live coloured variable's value is in its register at every block of every defined run, although dead variables and the ends of moves share registers, and events and result are the same. |
| RegisterAllocation.Visit | src/reg_alloc/reg_alloc.cpp:73-320 | The whole pass numbers, tracks, connects, drops, coalesces and colours as specified for any pool, keeps parameters in their registers, and keeps every run if each variable that is live across a call is represented by one that is, by a parameter, or by one with fewer neighbours than the pool has registers before t5, and the edges taken out are safe. |
| RegisterAllocation.ArgumentsInPlace | src/reg_alloc/reg_alloc.cpp:97-113 | For every choice of argument values there is a start of the allocated function with each argument in its own register or slot, so the theorem about runs applies to it. |
| CallCrossing.AllocateExample | src/reg_alloc/reg_alloc.cpp:270-282 | Applied to a function with nineteen variables kept across a call and one move, the allocator with the pool of functions with calls puts a variable that is live across the call in t5, and the allocated function does not do what the function does, for every world. |
| DroppedEdges.AllocateCounting | src/reg_alloc/reg_alloc.cpp:229-282 | Applied to a function that increments a counter and then prints the old value, the allocator enters the edge between old and new value, takes it out, gives both one register, and the allocated function prints the wrong number, for every world. |
| CallerSave.AssemblyGenerator.SaveRegister | src/IR_visitor/assembly_generator/assembly_generator.cpp:137-153 | The emitted code leaves every argument register in use saved with its logical value and the return address in its slot; it stores exactly the registers whose value is in the hardware, and the return address only when it is not saved yet. |
| CallerSave.AssemblyGenerator.EnsureARegValid | src/IR_visitor/assembly_generator/assembly_generator.cpp:155-169 | The emitted code brings one argument register back with its logical value, by one load if it is not in the hardware and nothing otherwise, and changes no other. |
| CallerSave.AssemblyGenerator.FlushSavedRegisters | src/IR_visitor/assembly_generator/assembly_generator.cpp:177-199 | From any state of the flags the emitted code makes every register in use and the return address valid again, reloading exactly those that are not. |
| CallerSave.AssemblyGenerator.VisitCall | src/IR_visitor/assembly_generator/assembly_generator.cpp:944-1024 | The code for a call implements a call with everything saved before and restored after: every argument arrives with its value from before the call, whichever registers the others overwrite, and only t5 and the result change; nothing is reloaded after the call. |
| CallerSave.AssemblyGenerator.VisitFunction | src/IR_visitor/assembly_generator/assembly_generator.cpp:1038-1087 | The emitted code is the concatenation of one piece per block, and each piece takes the clean state of the flags to the clean state and does what the block does. |
| CallerSave.LazySavingKeepsRuns | src/IR_visitor/assembly_generator/assembly_generator.cpp:127-199 | Over whole runs the generated code goes through the same blocks with the same variables as saving and restoring everything around each call, and returns with the return address it was called with and the result in a0. |
| InliningSimulation.StepMatched | src/IR_visitor/function_inliner/function_inliner.cpp:158-374 | Every defined step of a program, in any of its frames, is matched by one or more steps of the program with one call inlined, keeping the frames, slots and values related. |
| InliningSimulation.InliningKeepsRuns | src/IR_visitor/function_inliner/function_inliner.cpp:158-374 | For every function started and every number of steps, a defined run of the program stands in relation to a run of the program with one call inlined: same history, same result, same frames up to the renaming. |
| InliningInvariants.SafeKept | src/IR_visitor/function_inliner/function_inliner.cpp:158-374 | After one call is inlined, everything that inlining the next call relies on holds again: parameters not redefined, every variable defined, slots private, results returned. |
| InliningInvariants.AllocasStayFirst | src/IR_visitor/function_inliner/function_inliner.cpp:271-276 | Copied allocas are moved to the front of the entry, so allocas still stand only there. |
| InliningInvariants.MentionOrigin | src/IR_visitor/function_inliner/function_inliner.cpp:173-228 | Every name in the caller afterwards was there before or is one of the new names. |
| FunctionInlining.FunctionInliner.InlineCall | src/IR_visitor/function_inliner/function_inliner.cpp:158-374 | The split block, the renamed copy, the rewritten returns and the hoisted allocas are exactly the inlined program, with ids still dense and names fresh, and every defined run is kept. |
| FunctionInlining.FunctionInliner.InlineCallsInFunction | src/IR_visitor/function_inliner/function_inliner.cpp:378-438 | The scan that starts over after each inlining ends with nothing left to inline in the function, keeps every run, and changes no other function. A log accounts for every callee tried: its call is replaced if and only if the callee then has at most 50 instructions and terminators, the argument counts match, and it has a body or its result is not used; otherwise nothing changes. |
| FunctionInlining.TriedOnce | src/IR_visitor/function_inliner/function_inliner.cpp:412-415 | No callee is tried twice in one caller. |
| FunctionInlining.FewerPairs | src/IR_visitor/function_inliner/function_inliner.cpp:387-437 | The number of pairs of caller and callee not tried yet never grows and drops with each inlining. |
| FunctionInlining.FunctionInliner.Run | src/IR_visitor/function_inliner/function_inliner.cpp:442-465 | The pass terminates on every call graph, mutual recursion included, keeps every run of the program, and leaves every function that is not built in with nothing to inline: the replacements in its log lead from the input to the result, and each call that is left is one of the function itself or of a callee in the log for that caller, replaced there or refused as too large or not matching. |

## Left out

Restrictions of the theorems:

- AllocationKeepsRuns: is about the renaming of variables to registers at the level of the IR; that a multi-instruction expansion in the assembly reads its operands before it writes its result is not part of the model.
- Visit: the pool of registers is a parameter; how the pool of leaf functions is chosen from the parameters (reg_alloc.cpp 32-46) is not modelled. That the conditions on merges and drops are needed is shown by examples; that they are exact is shown for the registers and the graph, not for runs.
- T5Exactly: ranges over all pools and orders. For the code's own pool and orders the condition is exact for each colouring (`LastResort`); whether some order reaches t5 there depends on which neighbours can be coloured differently, for which no simpler condition is given.
- Mem2reg: is claimed for functions that store to each promotable slot before every load on every path, because a load met with an empty stack is kept although its alloca is removed; for input in SSA form without phis and without names that start with `%phi.`.
- Fixpoint: finds the most precise solution in SSA form; in other functions a branch can be evaluated before its condition, and then enters both targets.
- RunOnFunction: is claimed for functions without critical edges, because a constant branch into a block that is already executable does not evaluate its phis again, and with one definition per variable.
- ReplacingPhisKeepsRuns: is claimed for functions without critical edges, with one terminator per block and one operand per predecessor.
- EliminateCriticalEdge: is claimed for branches with two different targets.
- InliningKeepsRuns: is claimed for programs without phis, since the inliner runs first and the generator makes none; called functions have only slots that do not escape, because an escaping slot would need a byte memory; parameters are never redefined, every variable is defined, a function called for a result has a returning block with a value, and no input name starts with `%inline.`.
- CalcInOut: starts from cleared sets, as its callers provide them; its own comment says that it clears them, but it only resizes them.
- Tarjan: says nothing about unreachable vertices. Mem2reg says where phis stand and that the result is in SSA form for the blocks that a path leads to; the liveness of slots in other blocks is whatever the solver recorded there. `Init` keeps a stale prefix of `idm`, which is why entries of unreachable vertices are only said not to change.
- LazySavingKeepsRuns: is about scalar variables; a frame variable has an address above the save area in functions with calls and any address in functions without.

Modelled differently:

- Operands are a datatype of names and constants where the code has strings that start with `%` or a digit. `std::vector` fields that the code changes in place are fields of sequence type that the methods reassign.
- Division and remainder by zero and INT_MIN by -1 are undefined in the meaning of a program; `FoldArithmetic` gives a wrapped value for the latter, where the C++ expression is undefined.
- `not` has a flag for its width: on i32 it complements, on i1 it flips the lowest bit, as the generated code does.
- An undefined value may be moved and may pass through a phi; any other use of it stops the run.
- A promoted or private slot is a cell named by its alloca; all other memory is behind the oracle, which answers from the whole history.
- The bit sets of a block belong to the solver and use and definition sets are sets of numbers. Numbers of variables come from a map, as in the CFG's variable table; numbers of slots and of variables are kept apart.
- The fixpoint of SCCP has one method for phis, one for instructions and one for terminators where the code has two lambdas, and its class fields are the variables those lambdas capture. The reference counts in its use map, whose test never fails, are left out.
- An emptied block has the terminator `Missing` and is read as its last removed jump.
- The parallel-copy graph is keyed by operands instead of their printed form, and cycle temporaries have no type.
- A variable kept in a register is the name `x` followed by the register's number. The callee overwrites t5; argument registers are kept by the code of `CallerSave`, and s-registers by the callee.
- The first function with the called name is the one that is called; calls of builtin functions are answered by the oracle.

Not modelled:

- The lexer, parser, checkers and IR generator; common subexpression elimination, GEP folding and parameter demotion.
- Passes 1 and 2 of the empty-block eliminator (jump-to-phi and single-move threading); pass 1 removes a merge branch as soon as one predecessor was threaded.
- The mask of dead argument registers (reg_alloc.cpp 284-301), which the code for calls reads without effect, and the mask of live argument registers per block.
- Frame layout and the order of addresses; saving and restoring s-registers in prologue and epilogue.
- Assembly text, labels, long jumps, immediate forms, the constant cache, compare fusion and copies of aggregates between memory locations.
- `HasRecursiveCall`, which nothing calls, and the jump that the inliner adds when a continuation is empty, which cannot happen because blocks end with a terminator.
