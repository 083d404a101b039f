# Verified models of the deko-nak back end

deko-nak compiles shaders for NVIDIA GPUs from SSA form to machine code. This project models those of
its passes in which a mistake would silently change what a shader computes, and proves that it does not
change. Each pass is modelled in the form it has in the code: tables, worklists and allocators that are
updated in place are classes, arrays and loops; what they promise is stated about functions of their
contents and about runs of programs.

The models and what they are mainly about:

- **Parallel copies** (`Machine`, `LowerParCopies`, `LowerCopySwap`): a parallel copy becomes moves and
  swaps, and swaps become exclusive ors. Run in sequence they perform the parallel copy.
- **Register allocation** (`RegAllocation`, `VecRegAllocation`, `InstrAllocation`, `DstAllocation`,
  `AllocatedCode`, `AllocatedBlocks`, `EdgeCopies`, `AssignRegs`, `AssignFunction`, `LoweredFunction`,
  `CoalescedCopies`): from one register file and one instruction to the whole function, and on to the
  machine operations that its parallel copies become. On every path through the result every instruction
  reads the words that it reads in the SSA program.
- **SSA repair** (`SsaRuns`, `SsaTables`, `PrunePhis`, `RepairSsa`): any function in which uses are
  covered by definitions becomes one in SSA form that does the same.
- **Dataflow** (`Dataflow`, `Flow`, `SimpleLiveness`, `NextUse`, `MaxLive`): the worklist solver terminates
  in a solution for every problem that obeys its laws; liveness, next-use distances and register demand are
  exact.
- **Instruction dependencies** (`TexQueue`, `Scoreboard`, `BarrierAllocation`, `Delays`): texture
  barriers, scoreboard barriers and static delays separate all hazards on every execution.
- **Control flow** (`DepthFirstSearch`, `Dominance`, `CfgOrder`, `CfgLoops`, `CfgReachable`, `ControlFlow`):
  order, dominance and loops of a graph built from blocks and edges are exact.
- **Scheduling** (`ReorderedRuns`, `PostpassGraph`, `PostpassOrders`, `PostpassSched`, `PrepassGraph`,
  `Pressure`, `PrepassSched`): the new order computes the same, keeps latencies, and stays within the
  register limit.
- **Peephole passes** (`LogicOps`, `Operands`, `OptLop`, `OptPrmt`): merging of logic operations and of
  byte permutes keeps results and terminates.
- **Bit sets** (`WordBits`, `AlignedSearch`): the search for aligned runs by carries finds the least one.

Three properties that one might expect of the code do not hold of it as it stands; each has its
counterexample and its exact condition:

- The post-pass scheduler has no edge from a guard's read to a later write of the guard. `GuardOverwritten`
  is a block that it reorders wrongly, and `ReadsKeptIff` says exactly when all orders are harmless.
- The delays forget a read that its own instruction overwrites. `PairElapsed` says exactly how long two
  instructions are kept apart; on Maxwell nothing is lost (`MaxwellKeepsLatencies`).
- The pre-pass scheduler bounds both high points of the register pressure, and the measure used elsewhere
  can be higher than both. `JointNeedsMore` says exactly when, `JointPeakCanBeHigher` gives a block.

In addition, building a control-flow graph fails exactly where `FromBlocksEdges` says. The comment on the
search for aligned runs (bitset.rs:817) limits alignments to 16; the code handles larger ones, and the
model follows the code.

Dafny 4.11 verifies everything with `dafny verify dfyconfig.toml`.

## Model

Paths are relative to the root of the repository; `crates/deko-nak/src/` and
`crates/deko-compiler-utils/src/` hold the modelled files.

| member | source | states |
|---|---|---|
| LowerParCopies.LowerParCopy | crates/deko-nak/src/lower_par_copies.rs:93-252 | the emitted copies and swaps, run one after the other from every state, give every destination the word its source had at the start and change nothing else but the temporaries; lowering gives up only without the temporaries that some copy or cycle needs, and every emitted copy can be lowered further when no cycle crosses register files |
| LowerParCopies.OnlyCyclesRemain | crates/deko-nak/src/lower_par_copies.rs:167-191 | once every node with a pending copy is read by someone, the pending copies form disjoint cycles: the argument that the source spells out as a comment |
| LowerParCopies.IsolatedNodesAreUnread | crates/deko-nak/src/lower_par_copies.rs:192-196 | off those cycles no node is read (the assertion of the last loop) |
| LowerParCopies.DrainReady | crates/deko-nak/src/lower_par_copies.rs:144-165 | copies whose destination nobody waits for are emitted until only cycles are left; what is still pending still finds its value |
| LowerParCopies.TracksSwap | crates/deko-nak/src/lower_par_copies.rs:199-215 | one swap settles one register of a cycle and leaves a cycle that is shorter by one for the same values |
| LowerParCopies.RotateBySwaps | crates/deko-nak/src/lower_par_copies.rs:199-215 | swapping round a cycle settles all of it and no other pending copy |
| LowerParCopies.RotateByTmp | crates/deko-nak/src/lower_par_copies.rs:216-248 | rotating a cycle through a temporary settles all of it; barrier and memory registers go through a second temporary |
| LowerParCopies.BuildGraph | crates/deko-nak/src/lower_par_copies.rs:94-140 | in-degree at most one, read counts equal to the number of readers, one node for each register that occurs |
| LowerParCopies.CopyGraph.AddEdge | crates/deko-nak/src/lower_par_copies.rs:46-54 | keeps the read counts exact and makes the copy pending |
| LowerParCopies.CopyGraph.DelEdge | crates/deko-nak/src/lower_par_copies.rs:56-61 | keeps the read counts exact, ends the pending copy, and says whether the source has lost its last reader |
| LowerCopySwap.SwapIsSwapped | crates/deko-nak/src/lower_copy_swap.rs:225-253 | a lowered swap, three exclusive ors or one predicate operation with two tables, exchanges the two registers and changes no other, also when they are the same register |
| LowerCopySwap.LowerParCopy | crates/deko-nak/src/lower_copy_swap.rs:225-253 | from a parallel copy down to machine operations: from every state their sequence performs the parallel copy |
| LogicOps.EvalBit | crates/deko-nak/src/ir.rs:1815-1848 | every bit of the result is the table entry for the three source bits |
| LogicOps.NewLutEvaluates | crates/deko-nak/src/ir.rs:1773-1781 | the table made by running a bitwise function on the three masks evaluates to that function on all words |
| LogicOps.SrcUsedExact | crates/deko-nak/src/ir.rs:1789-1793 | a source counts as used exactly if flipping its bit can flip the result |
| LogicOps.OnlyUsedMatter | crates/deko-nak/src/ir.rs:1789-1793 | operands that agree on the used sources give the same result |
| LogicOps.FixSrcEval | crates/deko-nak/src/ir.rs:1795-1805 | fixing a source at the constant it holds keeps the result |
| LogicOps.FixSrcUsed | crates/deko-nak/src/ir.rs:1795-1805 | a fixed source is used no longer and no other source becomes used |
| LogicOps.InvertSrcEval | crates/deko-nak/src/ir.rs:1807-1813 | inverting a source in the table and in the operand together keeps the result |
| OptLop.Run | crates/deko-nak/src/opt_lop.rs:254-264 | after the pass every instruction still defines the same values, with the words they had, for any words of the SSA values that satisfy the block |
| OptLop.OptLop3 | crates/deko-nak/src/opt_lop.rs:184-216 | one instruction: same result, and what is recorded about it is true |
| OptLop.OptPLop3 | crates/deko-nak/src/opt_lop.rs:218-252 | one instruction with two tables: both results stay, with negations absorbed into the tables |
| OptLop.TryPropToSrc | crates/deko-nak/src/opt_lop.rs:88-182 | replacing a source by the operation that defined it, again and again, ends, keeps all results and every table free of constant sources, and stops only at a source with several used operands of its own or no entry |
| OptLop.PropagationKeepsResult | crates/deko-nak/src/opt_lop.rs:113-181 | the composed table on the rearranged sources computes what the two operations computed, also when a slot is shared or reused |
| OptLop.DedupSrcs | crates/deko-nak/src/opt_lop.rs:72-86 | equal sources: the later one is no longer used and the result is the same |
| OptLop.SimplifySrc | crates/deko-nak/src/opt_lop.rs:187-206 | constants are folded, unused sources cleared, and constants with the high bit set complemented in the table |
| OptPrmt.Run | crates/deko-nak/src/opt_prmt.rs:267-275 | after the pass every permute still produces the word it produced |
| OptPrmt.OptimizePrmt | crates/deko-nak/src/opt_prmt.rs:249-265 | rewriting one permute ends, keeps its result, and stops where neither looking through a source nor packing changes anything |
| OptPrmt.ThroughValue | crates/deko-nak/src/opt_prmt.rs:129-172 | a selector byte that looks through a defining permute selects the same byte, sign replication included |
| OptPrmt.TryOptPrmtSrc | crates/deko-nak/src/opt_prmt.rs:129-172 | succeeds exactly if the bytes it needs come from at most one source of the defining permute; the result stays |
| OptPrmt.TryOptPrmt4 | crates/deko-nak/src/opt_prmt.rs:176-247 | repacking all four bytes into two sources keeps the result and makes progress in a well-founded order |
| OptPrmt.PackedIsNormal | crates/deko-nak/src/opt_prmt.rs:176-247 | packing a packed permute again gives the same permute |
| OptPrmt.PrmtSrcs.TryAddImmU8 | crates/deko-nak/src/opt_prmt.rs:44-76 | bytes of constants share one immediate with at most four bytes; fails exactly if there is no room |
| OptPrmt.GetNew | crates/deko-nak/src/ir.rs:4908-4965 | a selector gives back the bytes it was made from |
| Dataflow.SolveBackward | crates/deko-compiler-utils/src/dataflow.rs:79-111 | for any transfer and join that obey the monotonicity laws the worklist terminates, and the result is a solution: every block is a fixed point and every edge is covered |
| Dataflow.SolveForward | crates/deko-compiler-utils/src/dataflow.rs:152-184 | the same in the direction of control flow |
| Dataflow.Drain | crates/deko-compiler-utils/src/dataflow.rs:79-111 | the loop on the worklist: empties it and leaves a solution |
| Dataflow.JoinNeighbours | crates/deko-compiler-utils/src/dataflow.rs:74-111 | joining into the neighbours covers those edges, keeps the others covered, queues whoever changed, and descends in the well-founded rank otherwise |
| Dataflow.FifoSet.PushBack | crates/deko-compiler-utils/src/dataflow.rs:25-29 | first in, first out, and nothing twice |
| Dataflow.FifoSet.PopFront | crates/deko-compiler-utils/src/dataflow.rs:31-38 | takes the oldest |
| SimpleLiveness.ForFunction | crates/deko-nak/src/liveness.rs:286-340 | a value is live into a block exactly if some path from its start reaches a use before any definition, and live out exactly if it is live into some successor |
| SimpleLiveness.SolvedIsComplete | crates/deko-nak/src/liveness.rs:309-340 | no solution of the dataflow problem misses a reachable use |
| SimpleLiveness.QueryIsExact | crates/deko-nak/src/liveness.rs:260-269 | the query about a value at an instruction is exact: after it, a use can be reached before a definition |
| SimpleLiveness.LiveSteps | crates/deko-nak/src/liveness.rs:260-269 | from one instruction to the next: live before is live after, less what is defined, plus what is used |
| SimpleLiveness.LiveAcrossEdge | crates/deko-nak/src/liveness.rs:309-340 | what is live into a block is live out of each block before it |
| NextUse.ForFunction | crates/deko-nak/src/liveness.rs:537-605 | all recorded distances are exact: the next use of a value, counted in instructions over all paths, is at the least recorded distance |
| NextUse.NextUseAfterOrAtIp | crates/deko-nak/src/liveness.rs:474-490 | returns the least distance at which the value is used at or after an instruction, or nothing exactly if it is never used again |
| NextUse.PartitionPoint | crates/deko-nak/src/liveness.rs:474-490 | the binary search returns how many uses lie before the instruction |
| NextUse.TransferSettles | crates/deko-nak/src/liveness.rs:389-414 | recording the same uses of a successor again changes nothing, so the solver comes to rest |
| TexQueue.InsertTextureBarriers | crates/deko-nak/src/calc_instr_deps.rs:599-643 | on every path through the function, however fast the hardware queue drains, no instruction touches a register of a fetch in flight and the queue never overflows; without the barriers the code is what it was |
| TexQueue.PathIsSafe | crates/deko-nak/src/calc_instr_deps.rs:599-643 | along a path each block is entered with a queue that its simulated state bounds |
| TexQueue.VisitIsSafe | crates/deko-nak/src/calc_instr_deps.rs:524-555 | one instruction and its barrier are safe for every queue that the simulation stands for, and the simulation stands for the queue afterwards |
| TexQueue.SoundFlushAll | crates/deko-nak/src/calc_instr_deps.rs:497-509 | one barrier at the least level frees all operands of an instruction |
| TexQueue.SoundPush | crates/deko-nak/src/calc_instr_deps.rs:465-495 | a new fetch moves all others back by one |
| TexQueue.SoundFlushAfter | crates/deko-nak/src/calc_instr_deps.rs:460-463 | waiting until at most n fetches are left forgets all positions from n on |
| Scoreboard.CollectDeps | crates/deko-nak/src/calc_instr_deps.rs:645-701 | every conflict with a scoreboarded instruction is recorded as a wait of the later instruction or of one before it, branches wait for everything outstanding, and only signalled dependencies are waited for |
| Scoreboard.VisitInstr | crates/deko-nak/src/calc_instr_deps.rs:657-698 | the effect of an instruction on every register's pending accesses, and exactly which of them it waits for |
| Scoreboard.AddedSettles | crates/deko-nak/src/calc_instr_deps.rs:180-222 | after a wait has been added the dependency is settled, by itself or through the write of the same instruction |
| Scoreboard.DepGraph.AddWaits | crates/deko-nak/src/calc_instr_deps.rs:180-222 | the whole new state: covered reads are dropped, every outstanding dependency gets its first wait, and the waits are sorted |
| BarrierAllocation.AssignBarriers | crates/deko-nak/src/calc_instr_deps.rs:645-745 | with six barriers: every hazard between a scoreboarded instruction and a later one is waited for, and no barrier is signalled again before the signal it carries has been waited for |
| BarrierAllocation.EveryExecutionWaits | crates/deko-nak/src/calc_instr_deps.rs:645-745 | the same for every execution, jumps and loops included: between the two accesses some executed instruction waits on the barrier that the first one signalled |
| BarrierAllocation.AssignBars | crates/deko-nak/src/calc_instr_deps.rs:703-745 | the second pass frees, reuses and steals barriers without losing a dependency |
| BarrierAllocation.FindBar | crates/deko-nak/src/calc_instr_deps.rs:725-730 | taking the oldest barrier when none is free waits for its dependency first |
| BarrierAllocation.OldestIsEarlier | crates/deko-nak/src/calc_instr_deps.rs:292-302 | the stolen barrier is never one that the same instruction has just taken |
| BarrierAllocation.Arm | crates/deko-nak/src/calc_instr_deps.rs:724-742 | a dependency is signalled exactly if something waits for it later |
| BarrierAllocation.BarAlloc.OldestBar | crates/deko-nak/src/calc_instr_deps.rs:292-302 | the barrier with the least dependency number |
| Delays.CalcDelays | crates/deko-nak/src/calc_instr_deps.rs:917-1057 | the emitted delays are those of a solved analysis of the whole function; it fails only if an instruction would have to wait longer than a byte can say |
| Delays.LatenciesKept | crates/deko-nak/src/calc_instr_deps.rs:781-1057 | on every path, loops included, two conflicting accesses to a register are at least the latency apart that the shader model asks for, when no write comes between them; a read that its own instruction overwrites needs one of that instruction's writes, or its own issue time, to ask for as much |
| Delays.MaxwellKeepsLatencies | crates/deko-nak/src/sm50.rs:20-48 | for the tables of the shader model that the program accepts this holds without the condition, because a write there asks for at least as much as any read |
| Delays.PairElapsed | crates/deko-nak/src/calc_instr_deps.rs:808-1057 | for two instructions the time between them is computed exactly, so that a latency is kept if and only if it is at most that time: the exact extent of the gap for reads that their own instruction overwrites |
| Delays.PairCycles | crates/deko-nak/src/calc_instr_deps.rs:808-914 | the first of two instructions starts exactly as much earlier as the longest of the requirements asks for |
| Delays.TakesItsTime | crates/deko-nak/src/calc_instr_deps.rs:808-1057 | an instruction delays everything behind it by its execution latency and by the least delay |
| Delays.FirstAccessKept | crates/deko-nak/src/calc_instr_deps.rs:781-1057 | an access that its own instruction does not overwrite is kept for every shader model |
| Delays.FirstAccessKnown | crates/deko-nak/src/calc_instr_deps.rs:938-1005 | the analysis knows the next access along every path, and never believes it farther away than it is |
| Delays.SignalBeforeWait | crates/deko-nak/src/calc_instr_deps.rs:814-820 | two cycles lie between signalling a barrier and the next wait on it |
| Delays.BlockDelayScheduler.ProcessInstr | crates/deko-nak/src/calc_instr_deps.rs:808-914 | the method does what the specification of one step says, for any order in which the recorded accesses are visited |
| Delays.ScheduleBlock | crates/deko-nak/src/calc_instr_deps.rs:938-992 | scheduling a block in place, from its last instruction to its first, and ageing what it has met computes the transfer function that the solver works with |
| Delays.EmittedShape | crates/deko-nak/src/calc_instr_deps.rs:1008-1057 | every instruction of every block gets its delays |
| Delays.IsTransferOk | crates/deko-nak/src/calc_instr_deps.rs:938-992 | the transfer function of a block obeys the laws of the dataflow solver, although the analysis starts optimistic |
| Delays.Descending | crates/deko-nak/src/calc_instr_deps.rs:808-812 | counted from the end of the block no instruction starts later than the one after it: the subtraction of start cycles never goes below zero |
| Delays.EmitInstr | crates/deko-nak/src/calc_instr_deps.rs:1030-1057 | a delay beyond the maximum is spread over no-ops that add up to it, none of them longer than the maximum |
| DepthFirstSearch.EdgeFallsOrGoesBack | crates/deko-compiler-utils/src/depth_first_search.rs:33-78 | along every edge the leaving times fall, except for edges back to a node that is still open |
| DepthFirstSearch.EnteredIffReachable | crates/deko-compiler-utils/src/depth_first_search.rs:33-78 | exactly the reachable nodes are entered |
| DepthFirstSearch.EnclosingReaches | crates/deko-compiler-utils/src/depth_first_search.rs:33-78 | a node that is open while another is entered reaches it |
| DepthFirstSearch.Dfs | crates/deko-compiler-utils/src/depth_first_search.rs:33-78 | the explicit stack of child iterators ends with every visited node entered and left once, properly nested |
| Dominance.CalcDominance | crates/deko-compiler-utils/src/cfg.rs:220-264 | the interval query holds exactly if every path from the entry to the child passes through the parent; the parents form a tree with that meaning |
| Dominance.CalcParents | crates/deko-compiler-utils/src/cfg.rs:220-245 | the iteration terminates with each node's ancestors exactly its dominators |
| Dominance.ExactAtFixedPoint | crates/deko-compiler-utils/src/cfg.rs:220-241 | at a fixed point ancestors are dominators and dominators ancestors |
| Dominance.FindCommonDom | crates/deko-compiler-utils/src/cfg.rs:182-196 | the common ancestors of two nodes are the ancestors of the result |
| Dominance.Pass | crates/deko-compiler-utils/src/cfg.rs:223-236 | a pass that changes something moves parents up in a well-founded order; one that does not has found the fixed point |
| Dominance.AncestorIffEncloses | crates/deko-compiler-utils/src/cfg.rs:198-264 | in the numbered tree ancestry is enclosure of intervals |
| CfgOrder.RevPostOrderSort | crates/deko-compiler-utils/src/cfg.rs:82-121 | the reachable nodes are renumbered one to one, the entry first, all edges are renamed with them, and edges that go backwards close cycles |
| CfgOrder.PathRenamed | crates/deko-compiler-utils/src/cfg.rs:82-121 | paths are renamed along with the nodes |
| CfgOrder.PostOrder | crates/deko-compiler-utils/src/cfg.rs:37-80 | numbers exactly the reachable nodes, in the order in which the search leaves them |
| CfgLoops.DetectLoops | crates/deko-compiler-utils/src/cfg.rs:339-385 | a loop is reported exactly if there is a cycle, and each node gets the nearest strict dominator that heads a loop it belongs to, or nothing exactly if there is none |
| CfgLoops.HasLoopIffCycle | crates/deko-compiler-utils/src/cfg.rs:339-343 | there is a back edge exactly if the graph has a cycle |
| CfgLoops.CyclesUseBackEdges | crates/deko-compiler-utils/src/cfg.rs:266-302 | every reachable cycle contains a back edge |
| CfgLoops.BackEdgeClosesCycle | crates/deko-compiler-utils/src/cfg.rs:266-302 | every back edge closes a reachable cycle |
| CfgLoops.ReachesEdge | crates/deko-compiler-utils/src/cfg.rs:304-337 | exactly the nodes from which the source of the back edge can be reached without passing through its target |
| CfgLoops.NearestHeader | crates/deko-compiler-utils/src/cfg.rs:361-381 | the first header on the way up the dominator tree |
| CfgLoops.FindBackEdges | crates/deko-compiler-utils/src/cfg.rs:293-302 | exactly the edges to nodes still open when the edge is visited; every reachable cycle contains one of them |
| ControlFlow.FromBlocksEdges | crates/deko-compiler-utils/src/cfg.rs:398-431 | from blocks and edges to the finished graph, sorted or in the given order: the dominance query is dominance in the given graph, a loop is reported exactly if a reachable cycle was given, and loop headers are right; construction fails exactly if the first listed predecessor of some arranged block does not come earlier |
| ControlFlow.FirstRound | crates/deko-compiler-utils/src/cfg.rs:220-241 | where the first round of the dominator iteration reads a parent that is not set yet |
| ControlFlow.DominanceRenamed | crates/deko-compiler-utils/src/cfg.rs:82-121 | sorting does not change which reachable block dominates which |
| ControlFlow.CyclesRenamed | crates/deko-compiler-utils/src/cfg.rs:82-121 | nor whether there is a cycle |
| ControlFlow.OriginalPath | crates/deko-compiler-utils/src/cfg.rs:82-121 | every path between sorted blocks comes from a path of the given graph |
| ControlFlow.AddEdges | crates/deko-compiler-utils/src/cfg.rs:399-417 | each block lists its predecessors and successors in the order in which the edges are given |
| CfgReachable.RemoveUnreachable | crates/deko-compiler-utils/src/cfg.rs:137-180 | exactly the reachable nodes are kept, in their order, and all edges between them are renamed |
| CfgReachable.KeptIsOrdered | crates/deko-compiler-utils/src/cfg.rs:137-180 | predecessors that came earlier still come earlier |
| MaxLive.CalcMaxLive | crates/deko-nak/src/liveness.rs:192-234 | in each register file exactly the greatest number of values live at a time while some instruction is executed, over all instructions of all blocks |
| MaxLive.StepIs | crates/deko-nak/src/liveness.rs:57-107 | walking down over an instruction gives what the liveness analysis says, in every block |
| MaxLive.EnoughEverywhere | crates/deko-nak/src/liveness.rs:192-234 | a file with that many registers has one for every live value before and behind every instruction |
| RegAllocation.RegAllocator.AssignReg | crates/deko-nak/src/assign_regs.rs:338-351 | the new value gets the register; the map of values stays one to one |
| RegAllocation.RegAllocator.FreeSsa | crates/deko-nak/src/assign_regs.rs:327-336 | the register is neither used nor pinned any more |
| RegAllocation.RegAllocator.TryGetVecReg | crates/deko-nak/src/assign_regs.rs:309-325 | a register is returned exactly if all components lie next to each other from an aligned register on |
| RegAllocation.TryFindUnset | crates/deko-nak/src/assign_regs.rs:367-403 | the least aligned run of free registers within the file |
| RegAllocation.RegAllocator.AllocScalar | crates/deko-nak/src/assign_regs.rs:405-486 | a free register, whatever the hints, and none exactly if all are in use |
| VecRegAllocation.VecRegAllocator.CollectVector | crates/deko-nak/src/assign_regs.rs:641-685 | the components end up next to each other, aligned and pinned; every other value is where it was, or copied, or waiting, and all copies form one parallel copy |
| VecRegAllocation.VecRegAllocator.AllocVector | crates/deko-nak/src/assign_regs.rs:687-704 | a new vector gets consecutive registers; whoever was there is waiting for another one |
| VecRegAllocation.VecRegAllocator.MoveSsaToReg | crates/deko-nak/src/assign_regs.rs:574-604 | the value arrives by one copy from where it was at the start |
| VecRegAllocation.VecRegAllocator.EvictRegIfUsed | crates/deko-nak/src/assign_regs.rs:565-572 | the value is recorded with the register it had, and no value is lost |
| VecRegAllocation.VecRegAllocator.Finish | crates/deko-nak/src/assign_regs.rs:606-635 | everything evicted finds a register that no source of the instruction needs |
| InstrAllocation.RemapSrcs | crates/deko-nak/src/assign_regs.rs:721-747 | all sources and the guard are in pinned registers at the same time |
| InstrAllocation.PlanVecDsts | crates/deko-nak/src/assign_regs.rs:836-862 | vector destinations, the longest first, take over dying vectors that are long enough, each at most once, or disjoint free ranges |
| DstAllocation.InstrAssignRegsFile | crates/deko-nak/src/assign_regs.rs:767-917 | one instruction, one register file: after the parallel copy the sources are where the instruction reads them, destinations do not overlap each other or what lives on, dead values are gone, and every survivor has arrived |
| DstAllocation.AssignOverKilled | crates/deko-nak/src/assign_regs.rs:864-884 | the case in which destinations take over the registers of dying vectors |
| DstAllocation.AssignIntoFreeRegs | crates/deko-nak/src/assign_regs.rs:885-898 | the case in which destinations are placed first, in free registers |
| DstAllocation.AssignMakingRoom | crates/deko-nak/src/assign_regs.rs:899-916 | the general case: room is made by eviction |
| AllocatedCode.InstrKeepsValues | crates/deko-nak/src/assign_regs.rs:767-917 | what the clauses about one instruction are good for: parallel copy and instruction, run on registers that hold the values, leave registers that hold the values |
| AllocatedCode.AssignRegsInstr | crates/deko-nak/src/assign_regs.rs:1264-1278 | the files one after the other, in one parallel copy |
| AllocatedBlocks.FirstPass | crates/deko-nak/src/assign_regs.rs:1310-1373 | a whole block: from registers that hold exactly the values live into it, every instruction is allocated, and exactly the live values are tracked all the way |
| AllocatedBlocks.SrcsKilled | crates/deko-nak/src/assign_regs.rs:1315-1328 | exactly the sources and the guard that are not live afterwards, each once |
| AllocatedBlocks.BlockKeepsValues | crates/deko-nak/src/assign_regs.rs:1310-1373 | every run of the allocated block follows the run of the SSA block |
| AllocatedBlocks.StepReads | crates/deko-nak/src/assign_regs.rs:1264-1278 | every instruction reads from its registers the words that it reads in the SSA program |
| EdgeCopies.StartBlock | crates/deko-nak/src/assign_regs.rs:1282-1308 | a block starts with the live-in values where the first predecessor left them, pins included |
| EdgeCopies.SecondPass | crates/deko-nak/src/assign_regs.rs:1388-1418 | the copies at the end of a block bring every expected value and phi into its register, all at once; there are none if everything stays |
| EdgeCopies.EdgeKeepsValues | crates/deko-nak/src/assign_regs.rs:1388-1418 | after the copies the registers of the next block hold its values, phis included |
| EdgeCopies.PathKeepsValues | crates/deko-nak/src/assign_regs.rs:1282-1418 | over any sequence of blocks connected by such edges |
| AssignRegs.AssignBlock | crates/deko-nak/src/assign_regs.rs:1531-1548 | one block of the function, from liveness and the first predecessor's registers, with nothing assumed about either beyond what the analysis and the earlier blocks establish |
| AssignRegs.InstrIsLiveStep | crates/deko-nak/src/liveness.rs:260-269 | the liveness analysis provides what the first pass needs at every instruction |
| AssignRegs.LiveOnEdge | crates/deko-nak/src/liveness.rs:309-340 | and at every edge |
| AssignRegs.PlacePhis | crates/deko-nak/src/assign_regs.rs:1043-1060 | every phi has a register of its own that no live-in value has |
| AssignFunction.Assign | crates/deko-nak/src/assign_regs.rs:1521-1555 | the whole function: liveness, the first pass over all blocks, the copies for every successor of every block; if no instruction runs out of registers each block and each edge is right |
| AssignFunction.AllocationKeepsMeaning | crates/deko-nak/src/assign_regs.rs:1421-1555 | on every path through the function, and for every meaning of the instructions, the registers hold the values at each block and every instruction reads the words that it reads in the SSA program |
| AssignFunction.ExitsCross | crates/deko-nak/src/assign_regs.rs:1550-1555 | the copies for all successors run before the branch; whichever is taken, they amount to the copy for that one |
| AssignFunction.NothingMoves | crates/deko-nak/src/assign_regs.rs:1388-1418 | because there are no critical edges a block with several successors needs no copies at all |
| AssignFunction.EdgeAvailable | crates/deko-nak/src/assign_regs.rs:1388-1400 | everything that a successor expects is known at the end of the block |
| LoweredFunction.AssignAndLower | crates/deko-nak/src/assign_regs.rs:1421-1555 | register assignment and the lowering of every parallel copy it leaves behind, down to moves and exclusive ors; with the temporaries behind the last register that is given out |
| LoweredFunction.LoweringKeepsMeaning | crates/deko-nak/src/lower_copy_swap.rs:225-253 | the whole way: on every path through the lowered function, run operation by operation, every instruction reads the words that it reads in the SSA program, and the registers hold the live values at the start of every block |
| LoweredFunction.LowerFunction | crates/deko-nak/src/lower_par_copies.rs:254-274 | all parallel copies of the allocated function can be lowered; only copies to barriers or memory can lack temporaries |
| LoweredFunction.StepIsApart | crates/deko-nak/src/assign_regs.rs:997-1007 | no parallel copy of the allocator reads or writes a temporary |
| LoweredFunction.OperandsAt | crates/deko-nak/src/assign_regs.rs:997-1007 | all operands of an allocated instruction are registers that the allocator gives out, hence no temporaries |
| LoweredFunction.MaskedCopy | crates/deko-nak/src/lower_par_copies.rs:93-252 | what a lowered copy leaves in the temporaries does not matter |
| CoalescedCopies.AssignParCopy | crates/deko-nak/src/assign_regs.rs:1201-1239 | a parallel copy of the program: destinations take over registers of dying sources where they can, and the rest is copied |
| CoalescedCopies.CoalescingKeepsValues | crates/deko-nak/src/assign_regs.rs:977-995 | with as many copies left out as there are, the registers hold the values afterwards |
| CoalescedCopies.Coalesce | crates/deko-nak/src/assign_regs.rs:977-995 | each destination that is taken out of the copy has the register of its source to itself |
| SsaRuns.RunsAgree | crates/deko-nak/src/repair_ssa.rs:143-160 | two programs whose versions track the original values make the same run on every path, to the last effect |
| SsaRuns.EdgeAgrees | crates/deko-nak/src/repair_ssa.rs:143-160 | the phis of an edge hand over exactly the versions that the next block starts with |
| SsaTables.AddPhi | crates/deko-nak/src/repair_ssa.rs:82-106 | a new phi keeps the tables right, with the sources of back edges still due |
| SsaTables.AddSource | crates/deko-nak/src/repair_ssa.rs:226-256 | filling in a source pays one debt |
| SsaTables.AddInstr | crates/deko-nak/src/repair_ssa.rs:200-222 | an instruction with renamed operands and results keeps them right |
| SsaTables.UseFromOutside | crates/deko-nak/src/repair_ssa.rs:147-152 | a use without a definition before it in its block is covered by definitions on every path into the block |
| PrunePhis.RemoveRedundantPhis | crates/deko-nak/src/repair_ssa.rs:258-295 | ends with no phi left whose sources are all one version or itself, and all remaining names still track the same values |
| PrunePhis.PruneTracks | crates/deko-nak/src/repair_ssa.rs:267-291 | putting the one source for a phi keeps track of all versions |
| PrunePhis.NotCircular | crates/deko-nak/src/repair_ssa.rs:283-285 | a phi always has a source other than itself: the panic cannot happen |
| PrunePhis.DefinedOnPath | crates/deko-nak/src/repair_ssa.rs:147-152 | the version at the end of a path is defined on the path |
| RepairSsa.RepairSsa | crates/deko-nak/src/repair_ssa.rs:160-345 | the result is in SSA form (every value defined once, each phi with exactly one source per predecessor), and it tracks the original function |
| RepairSsa.SameMeaning | crates/deko-nak/src/repair_ssa.rs:143-160 | the repaired function does the same on every path, for every meaning of the instructions and from every state |
| RepairSsa.DefTracker.GetSsaOrPhi | crates/deko-nak/src/repair_ssa.rs:27-112 | the search through the predecessors ends with a version of the value for the block it was asked for, and nothing settled before changes |
| RepairSsa.DefTracker.RewriteBlocks | crates/deko-nak/src/repair_ssa.rs:188-223 | the first pass keeps the tables right for every block |
| RepairSsa.DefTracker.FillSources | crates/deko-nak/src/repair_ssa.rs:225-256 | afterwards no source is due; the search never needs a new phi where one exists |
| RepairSsa.IsInSsaForm | crates/deko-nak/src/repair_ssa.rs:143-160 | right tables without debts are SSA form |
| RepairSsa.AlreadyInSsaForm | crates/deko-nak/src/repair_ssa.rs:161-182 | a function without repeated definitions is left as it is |
| RepairSsa.CountDefs | crates/deko-nak/src/repair_ssa.rs:161-178 | the counts of definitions are exact |
| RepairSsa.TwoDefs | crates/deko-nak/src/repair_ssa.rs:161-178 | two definitions of a value count twice |
| ReorderedRuns.Reordered | crates/deko-nak/src/opt_instr_sched_postpass.rs:203-219 | an order that keeps the order of all conflicting instructions computes the same registers and effects |
| ReorderedRuns.ReadsSame | crates/deko-nak/src/opt_instr_sched_postpass.rs:203-219 | and every instruction finds the operands it found |
| ReorderedRuns.Commute | crates/deko-nak/src/opt_instr_sched_postpass.rs:203-219 | two instructions without a conflict can change places |
| PostpassGraph.GenerateDepGraph | crates/deko-nak/src/opt_instr_sched_postpass.rs:35-138 | exactly the edges that effects, results and sources ask for, each with exactly its latency |
| PostpassGraph.NodeIsOk | crates/deko-nak/src/opt_instr_sched_postpass.rs:35-138 | those edges lead to the next write and to the reads until then of every register written, and to the next write of every source |
| PostpassGraph.BeforeWrite | crates/deko-nak/src/opt_instr_sched_postpass.rs:70-109 | in every order that respects the graph, writes and source reads stay before all later writes of the register |
| PostpassGraph.BeforeRead | crates/deko-nak/src/opt_instr_sched_postpass.rs:70-98 | and writes before all later reads |
| PostpassGraph.BeforeEffect | crates/deko-nak/src/opt_instr_sched_postpass.rs:49-68 | and everything before a later barrier, memory accesses before later ones |
| PostpassGraph.OrderKeepsMeaning | crates/deko-nak/src/opt_instr_sched_postpass.rs:35-138 | every such order has the same meaning if each guard is joined by edges to the next write of its register |
| PostpassOrders.ReadsKeptIff | crates/deko-nak/src/opt_instr_sched_postpass.rs:35-138 | all orders that the graph allows make every instruction read the same under every meaning if and only if each guard is joined by a chain of edges to the next write of its register |
| PostpassOrders.GuardReadsLater | crates/deko-nak/src/opt_instr_sched_postpass.rs:99-120 | where that chain is missing, an order that the graph allows makes the guard read the overwritten register |
| PostpassSched.SchedBuffer | crates/deko-nak/src/opt_instr_sched_postpass.rs:203-219 | the new order has each instruction once and respects the graph; it can be issued one instruction after the other in the returned number of cycles with the latency of every edge kept and all results there at the end |
| PostpassSched.ResultsInTime | crates/deko-nak/src/opt_instr_sched_postpass.rs:140-201 | in that schedule no instruction starts before what it reads is there |
| PostpassSched.WritesInTime | crates/deko-nak/src/opt_instr_sched_postpass.rs:140-201 | nor does a write reach a register before the value there has been read or written |
| PostpassSched.GuardOverwritten | crates/deko-nak/src/opt_instr_sched_postpass.rs:35-138 | the gap is real: for a guarded instruction followed by a write of its guard the scheduler emits the write first, and the result changes |
| PostpassSched.CalcStatistics | crates/deko-nak/src/opt_instr_sched_common.rs:363-384 | the distance of every node to the end is the greatest latency over its edges plus the distance there, and exactly the nodes without edges can come first |
| PostpassSched.Reverse | crates/deko-nak/src/opt_instr_sched_common.rs:51-63 | the same edges in the other direction |
| PostpassSched.AllScheduled | crates/deko-nak/src/opt_instr_sched_postpass.rs:152-200 | when both lists are empty everything has been scheduled |
| PrepassGraph.SsaOrderKeepsMeaning | crates/deko-nak/src/opt_instr_sched_prepass.rs:68-149 | in SSA form every order that respects the graph computes the same |
| PrepassGraph.GenerateDepGraph | crates/deko-nak/src/opt_instr_sched_prepass.rs:68-149 | edges from every definition to its uses and along effects, all forward |
| Pressure.InsertInstrTopDown | crates/deko-nak/src/liveness.rs:57-107 | the two high points of the register pressure within an instruction, in every file |
| Pressure.LiveBefore | crates/deko-nak/src/opt_instr_sched_prepass.rs:151-264 | what is live before the scheduled instructions depends on which they are, not on their order |
| Pressure.NetIsExact | crates/deko-nak/src/opt_instr_sched_prepass.rs:151-264 | the incrementally maintained changes are what counting live values from scratch gives, at both high points and after the instruction |
| Pressure.NetLive.Remove | crates/deko-nak/src/opt_instr_sched_prepass.rs:241-254 | when a value becomes live every other user stops counting it |
| PrepassSched.SchedBuffer | crates/deko-nak/src/opt_instr_sched_prepass.rs:619-640 | an order that respects the graph and needs no more registers than the threshold at either high point of any instruction, with the same values live before the block; no order only if some instruction that could come next would have needed more |
| PrepassSched.Predictions | crates/deko-nak/src/opt_instr_sched_prepass.rs:390-409 | the registers predicted for a candidate are those measured after it has been taken |
| PrepassSched.LiveInAgrees | crates/deko-nak/src/opt_instr_sched_prepass.rs:627-636 | the final assertion about live-in counts cannot fail |
| PrepassSched.UsedMonotone | crates/deko-nak/src/opt_instr_sched_prepass.rs:270-295 | spilling between files is monotone: more live values never need fewer registers |
| PrepassSched.JointNeedsMore | crates/deko-nak/src/opt_instr_sched_prepass.rs:280-295 | the maximum of both high points in each file separately never needs fewer registers than either; exactly when it needs as many as the greater of them |
| PrepassSched.ForwardWithinThreshold | crates/deko-nak/src/opt_instr_sched_prepass.rs:619-640 | the forward measure keeps to the threshold as well, as long as no file other than the general registers exceeds its own limit |
| PrepassSched.JointPeakCanBeHigher | crates/deko-nak/src/opt_instr_sched_prepass.rs:619-640 | and otherwise it can exceed it: a block that is scheduled within a threshold of two and measures three |
| WordBits.EveryNthBit | crates/deko-compiler-utils/src/bitset.rs:263-267 | the quotient computed is the word in which every n-th bit is set |
| WordBits.SumIsSum | crates/deko-compiler-utils/src/bitset.rs:285-294 | addition bit by bit with carries is addition |
| AlignedSearch.FindAlignedSetRange | crates/deko-compiler-utils/src/bitset.rs:812-834 | the least element at the given position or later, with the given remainder, at which a run of that length begins; nothing exactly if there is none |
| AlignedSearch.FindAlignedUnsetRange | crates/deko-compiler-utils/src/bitset.rs:836-864 | the least gap; there always is one |
| AlignedSearch.OneLeastGap | crates/deko-compiler-utils/src/bitset.rs:1499-1545 | the fast search and the naive one find the same |
| AlignedSearch.FindSmallAlignedSetRange | crates/deko-compiler-utils/src/bitset.rs:270-306 | one addition per word finds the least run that does not cross its block |
| AlignedSearch.LowestFound | crates/deko-compiler-utils/src/bitset.rs:285-301 | the lowest bit that the carry trick leaves is no false hit, and no run is missed |
| AlignedSearch.RunCarries | crates/deko-compiler-utils/src/bitset.rs:285-301 | a run of ones carries all the way through |
| AlignedSearch.CarryFromBelow | crates/deko-compiler-utils/src/bitset.rs:285-301 | a carry that comes from below means that the whole block below is full |
| AlignedSearch.FindLargeAlignedSetRange | crates/deko-compiler-utils/src/bitset.rs:309-350 | alignments of several words: skipping ahead to the word that failed misses no run |
| AlignedSearch.FindAcrossBlocks | crates/deko-compiler-utils/src/bitset.rs:379-423 | runs longer than their alignment |
| AlignedSearch.SlowFindAlignedUnsetRange | crates/deko-compiler-utils/src/bitset.rs:1499-1518 | the naive search finds the least gap |

## Left out

- Spilling, conversion to conventional SSA form, and the choice of register limits: `Assign` takes the limits and a function in which no edge is critical. The SSA program may have phis; it need not be in conventional form.
- Panics for want of registers: the allocator's methods return `false` there. That the limits always suffice is not proved.
- AssignFunction.Assign: gives every instruction the generic treatment. Undefined values, `Break`/`BSSy`, `Pin`/`Unpin`, `RegOut` and copies with a vector constant-buffer source take no part; parallel copies of the program with coalescing are proved by themselves (`CoalescedCopies`) and are not called from the first pass.
- AssignFunction.AllocationKeepsMeaning: instructions are taken to write all of their destinations; a guarded instruction that leaves the old word in a new register has no counterpart in SSA form and is not modelled.
- Delays.LatenciesKept: a read that its own instruction overwrites is promised only where a write of that instruction, or its issue time, asks for as much (`IsKept`). For two instructions `PairElapsed` says exactly when the latency is kept. On Maxwell the condition always holds (`MaxwellKeepsLatencies`), so the gap is open only for a shader model whose reads take longer than its writes.
- PostpassGraph.OrderKeepsMeaning: needs guards to be joined to the next write of their register, because the code adds no edge from a guard's read to a later write (opt_instr_sched_postpass.rs:99-109 looks only at sources). `PostpassOrders.ReadsKeptIff` shows that this is exactly what keeps all reads; for equality of the final state it is only sufficient, since a misread need not show there.
- PrepassSched.SchedBuffer: keeps each high point within the threshold. The code's forward measure takes the maximum of both per file and can come out higher (`JointPeakCanBeHigher`, exact condition in `JointNeedsMore`).
- ControlFlow.FromBlocksEdges: the code indexes with an unset parent where the first listed predecessor of a sorted block is not earlier, and stops there. Sorting does not exclude this; the model reports it as failure. Without sorting, it asks for an earlier predecessor of every reachable block but the first: otherwise the iteration goes through parents that come later, and may end in an assertion or go on for ever.
- `loop_depth` (cfg.rs:526-541) is left out. It counts headers up the dominator tree and would not end if the entry block headed a loop.
- Heuristics are arbitrary choices or hints: scores, tie-breaks of heaps, which ready instruction is taken, phi webs, occupancy thresholds, block weights. What is proved holds for all of them. In the pre-pass all candidates are ready at once; there the cycles matter to nothing that is proved.
- Opcodes, their effects and latency tables are parameters, except for the latencies of sm50.rs used in `MaxwellKeepsLatencies`. The instruction encoders are not modelled.
- OptLop.Run: speaks of one assignment of words to the SSA values that satisfies all of their definitions; blocks are one list of instructions in order of dominance. OptPrmt.Run is stated in the same way.
- Scoreboard.CollectDeps: instructions are numbered in layout order, branches are not scoreboarded, and the destination registers of an instruction are distinct. Registers of the barrier file are not tracked, and the yield bit is left out.
- TexQueue.InsertTextureBarriers: positions are kept by register and not in buckets of four.
- DstAllocation.InstrAssignRegsFile: sorting is replaced by repeated selection of the longest, with the same order of ties; ranges of free registers come from a naive least search, while `AlignedSearch` proves the fast one of bitset.rs to be a least search too.
- AlignedSearch.FindAlignedSetRange: words are lists of 32 bits, with addition carried out bit by bit. Other operations on bit sets are left out.
- RepairSsa.RepairSsa: the register file of a value is dropped, and the union-find structure is a map of representatives.
- MaxLive.CalcMaxLive: does not add the registers that `RegOut` hands over.
- Delays.CalcDelays: cycle counts are unbounded, as are counters elsewhere that the code keeps in 32 or 8 bits.
- Kepler's rule about memory barriers and predicates appears as guards of the instruction. Copies to and from scratch memory are plain moves, without offsets.
- Copy propagation, dead-code removal, legalization, the other passes of the compiler, the front end, and the shader container formats.
