# A shader back end, its verifier and its wire formats, in Dafny

The repository compiles shaders for Maxwell-class GPUs and hands them, with the
images and submissions they use, to a driver that trusts none of it.  This
project models the parts where a mistake is easy to make and hard to see, and
proves what they are for.

- **Register allocation repair, down to machine moves.**  `Legalize` makes vector
  operands identical or disjoint; `AssignRegs` and `AssignInstr` move values about
  so that an instruction's operands and results of one register file sit in
  consecutive aligned registers; `InstrMeaning` joins the moves of all files into
  one simultaneous copy; `AssignBlock` does the same on the edges between blocks;
  `LowerParCopies` turns a simultaneous copy into copies and swaps, and
  `LowerCopySwap` those into machine instructions (three exclusive-ors for a swap,
  words of local memory for `Mem` registers).  The theorems chain:
  `InstrMeaning.InstrToMachine` allocates an instruction whose operands, guard and
  results are in whatever files and lowers its copy, and for every machine state
  the code and then the instruction keep registers and local memory in step with
  the program's values; `Legalize.LegalMeansSame` puts legalization in front, and
  `AssignBlock.EdgeToMachine` is the counterpart for an edge.  Allocation cannot
  fail but for a stated lack of registers.
- **The control-flow verifier.**  `ProveControl` models the worklist check of
  reconvergence stacks against the predicated machine it is about.  It accepts a
  program if and only if every run is safe and meets each instruction with one
  stack; its errors come with runs that show them, its result is the greatest depth
  any run attains.  So the verdict cannot depend on the order of the worklist.
- **Hazards.**  `AssignBarriers` assigns six reusable scoreboard barriers and is
  proved against a model of the scoreboard; `TexQueue` simulates the texture queue
  and is proved against a queue that retires fetches whenever it likes, on every
  path; `InstrSched` is the list scheduler, and `BlockOrder` the theory of the orders
  its edges allow: when all of them have the same effect, and what the others may
  do; `Delays` computes and splits static delays;
  `DeadCode` removes what nobody can see, to a least closed set.
- **Images.**  `ImageLayout`: planning never overflows on an admitted descriptor,
  no two bytes of an image share an address, and transfers and subresources
  determine each other.
- **Submissions.**  `SubmitWire`: a canonical encoding, and a decoder that accepts
  exactly what the encoder produces.
- **64-bit arithmetic.**  `Builder64`: the 32-bit instruction sequences compute
  64-bit shifts, sums and comparisons; for sums the exact condition is given.

`Ir` holds what the allocator and the copy passes share; `Finite` and `Powers` are
lemmas on finite sets, maps and powers of two; `Wrappers` is `Option` and `Result`.

Code that edits state in place is a class or a loop here too (`CopyGraph`,
`LowerCopySwap`, `RegAllocator`, `VecRegAllocator`, `DepGraph`, `BarAlloc`,
`TexQueueSimulation`, `BlockDelayScheduler`, `DeadCodePass`, `SsaBuilder`, the
encoder's buffer, the verifier's table of states), and every method is proved
against a specification over values.  `dafny verify dfyconfig.toml` checks the whole
project.

Rust's `assert!` and `expect` are preconditions, except where a theorem says that
they cannot fail (every overflow check in `plan`, the last size check of `layout`,
the eviction of a pinned register, "instruction scheduled twice").  Latencies, `op_needs_scoreboard` and the operations
themselves (as uninterpreted functions of their operands) are parameters.

## Where code and comments part

- `calc_instr_deps.rs` speaks of 64 texture fetches in flight; `MAX_TEXTURES_LEFT`
  is 62, so the queue holds at most 63, and that is what is proved.
- The scheduler records no edge from an instruction to a later write of its guard.
  `BlockOrder.OrdersKeep`: the orders its edges allow all keep conflicting
  instructions in program order if and only if a chain of edges leads from each
  guarded instruction to every later write of its guard (`GuardsOrdered`), which can
  be read off the graph before scheduling.  Under it `BlockOrder.ScheduleSound`
  keeps the block's effect; for every pair without a chain `BlockOrder.GuardsBroken`
  gives an allowed order, operations and a state in which the guard tests the other
  way, with another outcome if the instruction leaves any trace.
  `InstrSched.EmitsMoved` is a two-instruction block for which the scheduler itself
  emits such an order.
- `iadd64` loses a carry when negated operands with zero low words add up to more
  carries than its predicates hold: `Builder64.NegatedZeros` is minus zero minus
  zero, which comes out as -2^32, as does a third minus zero from SM70 on.
  `Builder64.SsaBuilder.Iadd64` has the exact condition on the words and, for a
  caller who knows only the operands, the exact condition on those; one negated
  operand is always exact (`Builder64.OneNegatedExact`).
- `assign_regs` reserves one GPR for parallel copies unless it spills barriers or
  GPRs, but breaking a cycle in barrier registers takes two.
  `AssignBlock.EdgeLowers` says that this is the only assertion of the lowering pass
  an edge copy can fail, `AssignBlock.BarrierSwapStops` is a copy that does: two phis
  that exchange barrier registers.
- A `SrcBar` whose delay is too long for one instruction is not turned into a `Nop`
  as its shorter kind is (`Delays.SplitDelay`).
- The size check at the end of `layout` in the submit format cannot fail once the
  counts are within their limits (`SubmitWire.LayoutFits`).

## Model

| member | source | states |
|---|---|---|
| `Legalize.LegalizeVectors` | shared/sgfx-nak/src/legalize.rs:556-591 | afterwards any two vector operands are identical or share nothing and none repeats a component; each component is the old one or a copy of it; there are copies if and only if the operands were not legal already |
| `Legalize.CopyVector` | shared/sgfx-nak/src/legalize.rs:558-590 | one operand: what it becomes shares nothing with what other vectors became |
| `Legalize.CopyOfValues` | shared/sgfx-nak/src/legalize.rs:572-589 | after the copies run, the new vector holds the values of the old one |
| `Legalize.LegalReads` | shared/sgfx-nak/src/legalize.rs:556-591 | behind the copies the legal instruction reads, in every register file and for its guard, the values the instruction would have read; its operands are legal in each file |
| `Legalize.LegalMeansSame` | shared/sgfx-nak/src/legalize.rs:556-591 | so its results are the same and every value that outlives it is what it was |
| `AssignRegs.RegAllocator.TryGetSsa` | shared/sgfx-nak/src/assign_regs.rs:297-307 | register to value inverts value to register |
| `AssignRegs.RegAllocator.TryGetVecReg` | shared/sgfx-nak/src/assign_regs.rs:309-325 | found if and only if the components already sit in consecutive, suitably aligned registers |
| `AssignRegs.LeastPower` | shared/sgfx-nak/src/assign_regs.rs:644 | the alignment of a vector is a power of two, and the least that is not below its size |
| `AssignRegs.RegAllocator.AssignReg` | shared/sgfx-nak/src/assign_regs.rs:338-351 | the used set and the two maps stay mutual inverses; exactly one placement is added |
| `AssignRegs.RegAllocator.FreeSsa` | shared/sgfx-nak/src/assign_regs.rs:327-336 | the same for the removal of one placement, pins included |
| `AssignRegs.RegAllocator.TryFindUnset` | shared/sgfx-nak/src/assign_regs.rs:358-403 | the lowest aligned place clear of a set, and none only if none exists |
| `AssignRegs.EvictSound` | shared/sgfx-nak/src/assign_regs.rs:554-567 | evicting an unpinned register keeps the repair sound and loses no value |
| `AssignRegs.MoveSound` | shared/sgfx-nak/src/assign_regs.rs:569-599 | moving one value records a copy from where it was before the instruction; destinations stay distinct and pinned |
| `AssignRegs.MoveKeeps` | shared/sgfx-nak/src/assign_regs.rs:569-599 | a move leaves pinned values alone, and every other value where it is or evicted |
| `AssignRegs.VecRegAllocator.FindPlace` | shared/sgfx-nak/src/assign_regs.rs:643-672 | an aligned unpinned place; none only if there is none; the lowest unused one, failing that the one that lets the first possible component stay, failing that the lowest unpinned one |
| `AssignRegs.VecRegAllocator.CollectVector` | shared/sgfx-nak/src/assign_regs.rs:636-680 | the vector ends in consecutive aligned pinned registers, where it was if it was in place, nothing pinned has moved, the repair stays sound; fails only with no place left |
| `AssignRegs.VecRegAllocator.AllocVector` | shared/sgfx-nak/src/assign_regs.rs:682-699 | a result's registers, with the same guarantees: the lowest unused place, and only without one the lowest unpinned one, evicting what is in the way |
| `AssignRegs.VecRegAllocator.FreeKilled` | shared/sgfx-nak/src/assign_regs.rs:701-707 | exactly the dying values leave their registers; pins and copies stay |
| `AssignRegs.VecRegAllocator.Finish` | shared/sgfx-nak/src/assign_regs.rs:601-630 | every evicted value gets a register nobody uses or pins, by one copy more; fails only when all are used or pinned |
| `AssignRegs.GrownDelivers` | shared/sgfx-nak/src/assign_regs.rs:601-630 | a copy that only grows at unpinned registers goes on delivering what it delivered |
| `AssignRegs.NextCollectable` | shared/sgfx-nak/src/assign_regs.rs:716-726 | legal vector operands never meet a register another operand pinned, unless they are the same vector in place |
| `AssignRegs.FullIsCrowded` | shared/sgfx-nak/src/assign_regs.rs:358-387 | if no aligned place of a size is left, at least as many values are pinned as the file has blocks of that size |
| `AssignRegs.RemapSrcs` | shared/sgfx-nak/src/assign_regs.rs:716-742 | all operands in place and pinned at once; no pinned register is ever moved; fails only if the operands themselves crowd the file |
| `AssignInstr.KilledVectors` | shared/sgfx-nak/src/assign_regs.rs:809-832 | vectors all of whose values die here, sharing nothing, in order of size; every other such vector shares a value with one of them |
| `AssignInstr.PlanVectors` | shared/sgfx-nak/src/assign_regs.rs:834-857 | each result paired with a dying vector of its own that is long enough, and with unused aligned registers of its own; the longest result that misses one misses it because no dying vector that is long enough, or no unused place behind the longer ones', is left |
| `AssignInstr.PlaceOverKilled` | shared/sgfx-nak/src/assign_regs.rs:859-877 | operands ready, each result over its dying vector |
| `AssignInstr.PlaceUnused` | shared/sgfx-nak/src/assign_regs.rs:880-891 | operands ready, each result in registers that were unused |
| `AssignInstr.PlaceByEviction` | shared/sgfx-nak/src/assign_regs.rs:893-908 | operands ready, each result where evictions made room |
| `AssignInstr.PlaceOperands` | shared/sgfx-nak/src/assign_regs.rs:859-911 | over dying vectors if each result has one, else in unused registers if there are such for each, else by eviction; each result over the vector it was paired with, or in the registers it was given |
| `AssignInstr.AllocScalar` | shared/sgfx-nak/src/assign_regs.rs:405-480 | a scalar gets the register the heuristics prefer if it is free, else the lowest free one; fails only when all are used |
| `AssignInstr.AssignFile` | shared/sgfx-nak/src/assign_regs.rs:762-912 | one file's pairs bring every operand to its aligned registers and every value that lives on to its new one, destinations distinct; results have registers of their own; scalars alone move nothing; fails only if pinned values may crowd the file or values outnumber registers |
| `AssignInstr.Finished` | shared/sgfx-nak/src/assign_regs.rs:601-630 | what was placed before `finish` is still delivered after it |
| `AssignInstr.NoneLeft` | shared/sgfx-nak/src/assign_regs.rs:601-630 | if an evicted value finds no register, the values before the instruction and its vector results outnumber the registers |
| `InstrMeaning.JoinedDistinct` | shared/sgfx-nak/src/assign_regs.rs:1260-1270 | the pairs of all files form one copy with distinct destinations |
| `InstrMeaning.JoinedBrings` | shared/sgfx-nak/src/assign_regs.rs:1260-1270 | the joined copy brings each file's operands and surviving values where that file's own pairs would |
| `InstrMeaning.AssignFiles` | shared/sgfx-nak/src/assign_regs.rs:1260-1270 | the loop over the files: every file placed, its pairs appended to the one copy; fails only where one file runs out of registers |
| `InstrMeaning.ReadsAll` | shared/sgfx-nak/src/assign_regs.rs:762-912 | behind the joined copy the instruction finds the values of its operands and its guard, in whatever files they are |
| `InstrMeaning.InstrRefines` | shared/sgfx-nak/src/assign_regs.rs:1259-1272 | the one copy, then the instruction on the registers of all files, refine the instruction on values |
| `InstrMeaning.StaysSeparate` | shared/sgfx-nak/src/assign_regs.rs:1259-1272 | afterwards no value is in two files |
| `InstrMeaning.DeadFreed` | shared/sgfx-nak/src/assign_regs.rs:1271 | freeing results nobody uses forgets those and nothing else |
| `InstrMeaning.RepairLowers` | shared/sgfx-nak/src/assign_regs.rs:992-1003 | the joined copy with a single temporary GPR meets every assertion of the pass that lowers it, and every move is one the next pass accepts |
| `InstrMeaning.AssignRegsInstr` | shared/sgfx-nak/src/assign_regs.rs:1259-1273 | one instruction placed in all files, with a copy the next passes accept; the new state of every allocator |
| `InstrMeaning.InstrOnMachine` | shared/sgfx-nak/src/assign_regs.rs:1336-1362 | machine code for the copy, then the instruction: registers of all files and local memory stay in step with the program's values |
| `InstrMeaning.InstrToMachine` | shared/sgfx-nak/src/assign_regs.rs:1336-1362 | allocation and both lowering passes run one after the other: unless some file runs out of registers, the emitted code is right for all values and every machine state, and made of operations the GPU generation has |
| `AssignBlock.PopulateLiveIn` | shared/sgfx-nak/src/assign_regs.rs:1284-1301 | a block starts with exactly its live values where its first predecessor left them, pins included |
| `AssignBlock.TogetherApart` | shared/sgfx-nak/src/assign_regs.rs:1284-1301 | what is live in, gathered over all files, names no register twice |
| `AssignBlock.PopulateFiles` | shared/sgfx-nak/src/assign_regs.rs:1284-1301 | every file of the block starts from the same file of its first predecessor |
| `AssignBlock.BlockLiveIn` | shared/sgfx-nak/src/assign_regs.rs:1284-1301 | inherited values, then phis: no two values live into the block share a register |
| `AssignBlock.AllocPhis` | shared/sgfx-nak/src/assign_regs.rs:1038-1051 | each phi gets a register of its file nothing live into the block has; fails only when a file is full |
| `AssignBlock.SecondPass` | shared/sgfx-nak/src/assign_regs.rs:1383-1413 | one pair per live-in value that is not where the successor expects it; destinations distinct |
| `AssignBlock.EdgeDelivers` | shared/sgfx-nak/src/assign_regs.rs:1383-1413 | after the edge copy every live-in value and phi of the successor is in its register and is what it was before |
| `AssignBlock.EdgeLowers` | shared/sgfx-nak/src/assign_regs.rs:1383-1413 | the edge copy with its temporary meets every assertion of the pass that lowers it if and only if there are two temporaries for its cycles in barrier and memory registers; its moves are then ones the next pass accepts |
| `AssignBlock.BarrierSwapStops` | shared/sgfx-nak/src/lower_par_copies.rs:224-247 | two phis exchanging barrier registers, with the one temporary reserved by default, fail that assertion |
| `AssignBlock.EdgeOnMachine` | shared/sgfx-nak/src/assign_regs.rs:1383-1413 | behind the machine code of the edge every value is where the successor expects it, local memory included |
| `AssignBlock.EdgeToMachine` | shared/sgfx-nak/src/assign_regs.rs:1383-1413 | the edge copy built and lowered: right for every machine state |
| `AssignBlock.InheritedEdgeEmpty` | shared/sgfx-nak/src/assign_regs.rs:1284-1301 | on the edge from the predecessor a phi-less block inherited from, nothing is copied |
| `LowerParCopies.LinkWellFormed` | shared/sgfx-nak/src/lower_par_copies.rs:46-54 | adding an edge keeps every read count the number of its readers |
| `LowerParCopies.UnlinkWellFormed` | shared/sgfx-nak/src/lower_par_copies.rs:56-62 | so does deleting one |
| `LowerParCopies.BuildGraph` | shared/sgfx-nak/src/lower_par_copies.rs:94-140 | the graph says of each destination which register holds its final value |
| `LowerParCopies.FillKeepsMeaning` | shared/sgfx-nak/src/lower_par_copies.rs:150-165 | writing a register nobody reads any more settles its node |
| `LowerParCopies.TmpWhenNeeded` | shared/sgfx-nak/src/lower_par_copies.rs:64-72 | a copy goes through the temporary exactly if no single instruction does it and two do, barriers filled from memory or a constant excepted |
| `LowerParCopies.DrainReady` | shared/sgfx-nak/src/lower_par_copies.rs:144-165 | the ready loop ends, with only cycles left |
| `LowerParCopies.OnlyCyclesLeft` | shared/sgfx-nak/src/lower_par_copies.rs:167-191 | the counting argument of the comment: when every node with an edge is read, edges form a permutation |
| `LowerParCopies.LeftoverIsOnCycle` | shared/sgfx-nak/src/lower_par_copies.rs:167-191 | every node that keeps an edge is on a cycle of the copy itself |
| `LowerParCopies.SwapKeepsPending` | shared/sgfx-nak/src/lower_par_copies.rs:200-215 | one swap settles a node and shortens the cycle, meaning kept |
| `LowerParCopies.SwapCycle` | shared/sgfx-nak/src/lower_par_copies.rs:199-215 | the swap loop ends with the cycle gone |
| `LowerParCopies.OpenPendingStep` | shared/sgfx-nak/src/lower_par_copies.rs:224-247 | one step round an opened cycle, meaning kept with the temporary standing for its start |
| `LowerParCopies.TmpCycle` | shared/sgfx-nak/src/lower_par_copies.rs:216-248 | breaking a cycle through the temporary ends with the cycle gone |
| `LowerParCopies.BreakCycles` | shared/sgfx-nak/src/lower_par_copies.rs:192-249 | nothing is left pending |
| `LowerParCopies.LowerParCopy` | shared/sgfx-nak/src/lower_par_copies.rs:93-252 | for distinct scalar destinations, same-file cycles and a temporary outside, each destination ends with its source's old value and nothing else changes but the temporary; every move emitted is one the next pass accepts; with a temporary at hand GPRs are never swapped, barrier and memory registers never at all |
| `LowerParCopies.ImplementsParallel` | shared/sgfx-nak/src/lower_par_copies.rs:93-252 | for every initial state the sequence is the simultaneous copy |
| `LowerParCopies.ParallelOnMachine` | shared/sgfx-nak/src/lower_copy_swap.rs:255-299 | and still is after copies and swaps have become machine instructions |
| `LowerCopySwap.XorSwap` | shared/sgfx-nak/src/lower_copy_swap.rs:225-253 | three exclusive-ors exchange two distinct registers and touch nothing else |
| `LowerCopySwap.LowerCopySwap.LowerSwap` | shared/sgfx-nak/src/lower_copy_swap.rs:225-253 | the instructions of a swap do the swap, one register with itself included; predicates take the two-result logic operation from SM70 on, all else exclusive-ors |
| `LowerCopySwap.LowerCopySwap.LowerCopy` | shared/sgfx-nak/src/lower_copy_swap.rs:24-192 | the instruction of a copy does the copy and exists on the generation for those files, `Mem` registers being words of local memory; exactly the words it uses are reserved |
| `LowerCopySwap.LowerCopySwap.Lower` | shared/sgfx-nak/src/lower_copy_swap.rs:255-299 | the whole pass simulates the moves with operations of the generation, inside the local memory it reserves, which is the least that holds every `Mem` register named |
| `ProveControl.BranchLands` | shared/maxwell-program-wire/src/verify.rs:138-152 | a branch is accepted if and only if it leads to the address of an instruction, and then to that instruction |
| `ProveControl.AddressTarget` | shared/maxwell-program-wire/src/verify.rs:143-146 | aligned and no scheduling word means an instruction's address, and the index formula inverts addressing |
| `ProveControl.ByteOf` | shared/maxwell-program-wire/src/lib.rs:331-333 | byte `k` of a word counts 256 to the `k`: the bytes are its digits, least first |
| `ProveControl.WordBound` | shared/maxwell-program-wire/src/lib.rs:331-333 | and there is nothing above them |
| `ProveControl.GuardByte` | shared/maxwell-program-wire/src/verify.rs:357-371 | so the guard is the low half of the third byte of the instruction |
| `ProveControl.GuardTests` | shared/maxwell-program-wire/src/verify.rs:369-376 | the two tests of the guard field say whether the instruction may be skipped and whether it may execute |
| `ProveControl.ViewInjective` | shared/maxwell-program-wire/src/verify.rs:27-36 | popped entries being cleared, comparing the arrays compares the stacks |
| `ProveControl.PushEntry` | shared/maxwell-program-wire/src/verify.rs:385-393 | pushes one packed entry |
| `ProveControl.PopTo` | shared/maxwell-program-wire/src/verify.rs:395-412 | pops to the topmost entry of the kind over entries it may cross; an error if and only if there is no such entry |
| `ProveControl.Propagate` | shared/maxwell-program-wire/src/verify.rs:418-434 | records a stack once; its errors are runs that fall off the end, or two stacks at one instruction |
| `ProveControl.Successor` | shared/maxwell-program-wire/src/verify.rs:377-413 | the only configuration execution leads to, or a fault of the run |
| `ProveControl.Visit` | shared/maxwell-program-wire/src/verify.rs:367-414 | one turn explores its instruction, keeps the invariant and makes progress |
| `ProveControl.RunRecorded` | shared/maxwell-program-wire/src/verify.rs:360-416 | in every run every configuration is the one on record for its instruction |
| `ProveControl.ProveControl` | shared/maxwell-program-wire/src/verify.rs:360-416 | accepted if and only if no run falls off, overflows or mis-pops and each instruction is met with one stack; the result is the greatest depth attained, at most 16; each error is witnessed by runs |
| `AssignBarriers.DepGraph.AddInstr` | shared/sgfx-nak/src/calc_instr_deps.rs:160-174 | two dependencies, the write's naming the read's |
| `AssignBarriers.DepGraph.AddWaits` | shared/sgfx-nak/src/calc_instr_deps.rs:180-222 | what is still active gets its first wait here, the rest is dropped; a wait on a write covers the read |
| `AssignBarriers.DepGraph.AddBarrier` | shared/sgfx-nak/src/calc_instr_deps.rs:224-228 | a branch waits on all that is active |
| `AssignBarriers.AccessResolves` | shared/sgfx-nak/src/calc_instr_deps.rs:657-698 | the accesses of an instruction put every hazard with an earlier one among its waits |
| `AssignBarriers.FindWaits` | shared/sgfx-nak/src/calc_instr_deps.rs:645-701 | for every hazard with an earlier variable-latency instruction, the dependency has its first wait no later; by a branch everything before it has been waited on; no other instruction records a wait without such a hazard |
| `AssignBarriers.BarAlloc.TryFindFreeBar` | shared/sgfx-nak/src/calc_instr_deps.rs:288-290 | the first free barrier, if any |
| `AssignBarriers.BarAlloc.FreeSomeBar` | shared/sgfx-nak/src/calc_instr_deps.rs:292-302 | frees the barrier of the oldest dependency |
| `AssignBarriers.BarAlloc.GetBarForDep` | shared/sgfx-nak/src/calc_instr_deps.rs:304-306 | the barrier that stands for a dependency, if one does |
| `AssignBarriers.OldestIsOld` | shared/sgfx-nak/src/calc_instr_deps.rs:734-741 | an instruction never steals the barrier it has just given its own read |
| `AssignBarriers.ClearedKeeps` | shared/sgfx-nak/src/calc_instr_deps.rs:726-730 | stealing a barrier after waiting on it loses no access |
| `AssignBarriers.PastWaits` | shared/sgfx-nak/src/calc_instr_deps.rs:705-714 | behind its wait mask an instruction finds every access it must follow over |
| `AssignBarriers.PastBranch` | shared/sgfx-nak/src/calc_instr_deps.rs:651-652 | behind a branch's wait mask no barrier stands for anything |
| `AssignBarriers.WaitedHazard` | shared/sgfx-nak/src/calc_instr_deps.rs:705-714 | an instruction other than a branch has a barrier in its wait mask only if the barrier stands for an access it must follow |
| `AssignBarriers.BusyStolen` | shared/sgfx-nak/src/calc_instr_deps.rs:724-743 | or if it takes the barrier itself, every barrier being busy but the one it took for its operands |
| `AssignBarriers.AssignBarriers` | shared/sgfx-nak/src/calc_instr_deps.rs:645-745 | on the scoreboard, every RAW, WAW and WAR hazard with an earlier variable-latency instruction is waited for in time, a branch waits until everything before it is over, no barrier ever stands for two outstanding accesses, and no instruction waits without a hazard or a barrier to steal |
| `TexQueue.FlushAllOnce` | shared/sgfx-nak/src/calc_instr_deps.rs:524-540 | flushing for all operands is flushing once, to the least position any of them may have |
| `TexQueue.OneBarrier` | shared/sgfx-nak/src/calc_instr_deps.rs:541-555 | flush and push never both ask for a barrier |
| `TexQueue.VisitSound` | shared/sgfx-nak/src/calc_instr_deps.rs:524-555 | behind the barrier no register of the instruction is in flight, and the abstract queue still covers the real one, at most 63 long |
| `TexQueue.BarrierNeeded` | shared/sgfx-nak/src/calc_instr_deps.rs:524-555 | no barrier is stronger than it has to be: with one fetch more allowed, or no barrier, a queue the state covers lets the instruction meet its own register, or overflows |
| `TexQueue.VisitTight` | shared/sgfx-nak/src/calc_instr_deps.rs:460-495 | behind the instruction every entry of the state is where some queue has it, and some queue is as long: with `VisitSound`, the state is the best there is |
| `TexQueue.MergeCovers` | shared/sgfx-nak/src/calc_instr_deps.rs:511-521 | a join covers the queues of both paths |
| `TexQueue.MergeLeast` | shared/sgfx-nak/src/calc_instr_deps.rs:511-521 | and is the least state that does |
| `TexQueue.TexQueueSimulation.MinQueuePosition` | shared/sgfx-nak/src/calc_instr_deps.rs:443-449 | the least position any register of the range may have |
| `TexQueue.TexQueueSimulation.FlushQueue` | shared/sgfx-nak/src/calc_instr_deps.rs:460-463 | the buckets and the length after a flush |
| `TexQueue.TexQueueSimulation.PushTex` | shared/sgfx-nak/src/calc_instr_deps.rs:465-495 | the state after a push, with room made if the queue may be full |
| `TexQueue.TexQueueSimulation.FlushReg` | shared/sgfx-nak/src/calc_instr_deps.rs:497-509 | the barrier level an operand needs and the state behind it |
| `TexQueue.TexQueueSimulation.MergeWith` | shared/sgfx-nak/src/calc_instr_deps.rs:511-521 | the buckets of two paths joined, least positions and greatest length |
| `TexQueue.TexQueueSimulation.VisitInstr` | shared/sgfx-nak/src/calc_instr_deps.rs:524-555 | the bucketed simulation is the simulation on positions |
| `TexQueue.Transfer` | shared/sgfx-nak/src/calc_instr_deps.rs:612-626 | the transfer function of the data flow |
| `TexQueue.InsertBarriers` | shared/sgfx-nak/src/calc_instr_deps.rs:633-642 | each instruction behind the barrier it needs |
| `TexQueue.RunCovered` | shared/sgfx-nak/src/calc_instr_deps.rs:599-643 | along every path, joins included, the state covers the queue |
| `TexQueue.NoRegisterInFlight` | shared/sgfx-nak/src/calc_instr_deps.rs:599-643 | on every path no instruction finds a register of its own in flight, and the queue never exceeds 63 |
| `BlockOrder.Commute` | shared/sgfx-nak/src/opt_instr_sched_postpass.rs:35-138 | instructions without conflict may change places |
| `BlockOrder.SameEffect` | shared/sgfx-nak/src/opt_instr_sched_postpass.rs:203-219 | two orders that keep conflicting pairs in program order have the same effect |
| `BlockOrder.ConflictOrdered` | shared/sgfx-nak/src/opt_instr_sched_postpass.rs:46-120 | the recorded edges, few as they are, order every conflicting pair, if they order guards and their later writes |
| `BlockOrder.ConflictChain` | shared/sgfx-nak/src/opt_instr_sched_postpass.rs:46-120 | under that condition a chain of edges leads from each instruction to every later one it conflicts with |
| `BlockOrder.KeepingRespects` | shared/sgfx-nak/src/opt_instr_sched_postpass.rs:46-120 | and no edge asks for more than that |
| `BlockOrder.ScheduleSound` | shared/sgfx-nak/src/opt_instr_sched_postpass.rs:203-219 | any order the edges allow leaves the same registers and the same order of memory operations and barriers, if chains of edges lead from guarded instructions to later writes of their guards |
| `BlockOrder.OrdersKeep` | shared/sgfx-nak/src/opt_instr_sched_postpass.rs:70-120 | every order the edges allow keeps conflicting instructions in program order if and only if that condition holds |
| `BlockOrder.GuardsKept` | shared/sgfx-nak/src/opt_instr_sched_postpass.rs:203-219 | under it each instruction finds, in any allowed order, its guard and its operands as in program order, and gives the same results |
| `BlockOrder.GuardsBroken` | shared/sgfx-nak/src/opt_instr_sched_postpass.rs:111-120 | where it fails, for whatever pair, an allowed order, operations and a state with which the guarded instruction runs when it should not or the reverse, and the outcome differs if it leaves a result or acts on memory |
| `BlockOrder.GuardMayMove` | shared/sgfx-nak/src/opt_instr_sched_postpass.rs:111-120 | a block whose meaning an allowed order changes |
| `InstrSched.EmitsMoved` | shared/sgfx-nak/src/opt_instr_sched_postpass.rs:140-201 | and an order the scheduler does emit for it, on a target whose second instruction should begin early |
| `InstrSched.GenerateDepGraph` | shared/sgfx-nak/src/opt_instr_sched_postpass.rs:35-138 | the edges of each instruction are exactly its dependencies, each with the latency of its hazard on the target, none for effects; the labels as initialized |
| `InstrSched.EdgesAreDepends` | shared/sgfx-nak/src/opt_instr_sched_postpass.rs:46-120 | an instruction has an edge to another if and only if it depends on it |
| `InstrSched.CalcStatistics` | shared/sgfx-nak/src/opt_instr_sched_common.rs:364-385 | critical path lengths are the longest latency sums; uses count outgoing edges, the ready list is the nodes with none |
| `InstrSched.BestReady` | shared/sgfx-nak/src/opt_instr_sched_common.rs:387-410 | of the ready instructions the one with the longest way to the top, then the last in program order |
| `InstrSched.FirstFuture` | shared/sgfx-nak/src/opt_instr_sched_common.rs:412-430 | of those not ready yet the one that can end first |
| `InstrSched.Reverse` | shared/sgfx-nak/src/opt_instr_sched_postpass.rs:210 | every edge turned round |
| `InstrSched.Release` | shared/sgfx-nak/src/opt_instr_sched_postpass.rs:186-197 | uses fall by the edges into a node, its ready cycle is the greatest of the old one and current cycle plus latency, and exactly the nodes without uses left become ready |
| `InstrSched.AllScheduled` | shared/sgfx-nak/src/opt_instr_sched_postpass.rs:166-180 | with both heaps empty, everything is scheduled |
| `InstrSched.GenerateOrder` | shared/sgfx-nak/src/opt_instr_sched_postpass.rs:140-201 | each instruction once, behind all that depends on it, no latency cut short; the assertion that time moves forward holds |
| `InstrSched.SchedBuffer` | shared/sgfx-nak/src/opt_instr_sched_postpass.rs:203-219 | the block's instructions, each once, in an order that respects every dependency; each begins as close to the next one as issue time and the latencies of its dependencies allow, further away only if no other instruction fits; of those that fit it is the one with the longest way to the top, the later one of two equals; the cycles reported are where the first begins |
| `InstrSched.TimingMeets` | shared/sgfx-nak/src/opt_instr_sched_postpass.rs:140-201 | such a schedule cuts no latency of the target short |
| `InstrSched.TimingBounds` | shared/sgfx-nak/src/opt_instr_sched_postpass.rs:140-201 | and every instruction begins within the cycles reported |
| `InstrSched.ScheduleUnique` | shared/sgfx-nak/src/opt_instr_sched_postpass.rs:140-201 | those properties leave no choice: two schedules of a block that have them are the same, order and cycles |
| `DeadCode.RunAgrees` | shared/sgfx-nak/src/opt_dce.rs:126-155 | removing what is outside a closed set keeps the path, the sequence of effects and every live value, for any number of blocks |
| `DeadCode.DeadCodePass.MarkInstr` | shared/sgfx-nak/src/opt_dce.rs:78-124 | marks nothing that is not needed; when nothing is new the instruction is closed |
| `DeadCode.DeadCodePass.Sweep` | shared/sgfx-nak/src/opt_dce.rs:159-166 | a sweep that finds nothing new leaves a closed set |
| `DeadCode.DeadCodePass.Run` | shared/sgfx-nak/src/opt_dce.rs:157-176 | the loop ends; the live set is the least closed one; something is removed if and only if something is dead; what is left is the function with exactly the dead instructions, phis and copies gone, in order, nothing dead and no empty phi or copy among it |
| `DeadCode.MapPrunes` | shared/sgfx-nak/src/opt_dce.rs:126-155 | each instruction, phi and copy is kept if and only if it is live, and the kept ones keep their order |
| `DeadCode.PrunedLive` | shared/sgfx-nak/src/opt_dce.rs:126-155 | so nothing dead is left |
| `DeadCode.PassSound` | shared/sgfx-nak/src/opt_dce.rs:157-176 | the pass keeps everything observable and every live value |
| `DeadCode.NothingDead` | shared/sgfx-nak/src/opt_dce.rs:173-175 | when nothing is dead there was nothing to remove |
| `DeadCode.DstMatters` | shared/sgfx-nak/src/opt_dce.rs:41-54 | a destination counts as live exactly if not writing it can be noticed in a live value |
| `DeadCode.LiveMatters` | shared/sgfx-nak/src/opt_dce.rs:60-76 | an instruction counts as live exactly if leaving it out can be noticed: by its effect or by a live value |
| `Delays.LatestOver` | shared/sgfx-nak/src/calc_instr_deps.rs:822-847 | the maximum of the bounds |
| `Delays.UsesNext` | shared/sgfx-nak/src/calc_instr_deps.rs:849-887 | the tracker knows exactly the next write and the reads up to it |
| `Delays.StartForResult` | shared/sgfx-nak/src/calc_instr_deps.rs:822-847 | a result is far enough ahead of whatever reads or overwrites it |
| `Delays.StartForOperand` | shared/sgfx-nak/src/calc_instr_deps.rs:868-878 | an operand is far enough ahead of whatever overwrites it, unless the reader does so itself |
| `Delays.BlockDelayScheduler.BarStart` | shared/sgfx-nak/src/calc_instr_deps.rs:814-820 | two cycles between a signal and the wait on it |
| `Delays.WaitCycleIs` | shared/sgfx-nak/src/calc_instr_deps.rs:905-910 | for each barrier the pass knows where the first wait behind an instruction begins |
| `Delays.BlockDelayScheduler.MinStart` | shared/sgfx-nak/src/calc_instr_deps.rs:808-890 | as early as length, barriers and hazards ask, and no earlier |
| `Delays.BlockDelayScheduler.ProcessInstr` | shared/sgfx-nak/src/calc_instr_deps.rs:808-914 | one instruction more has its start; barriers and uses follow |
| `Delays.ScheduleBlock` | shared/sgfx-nak/src/calc_instr_deps.rs:940-959 | every start meets every latency and lies two cycles ahead of the next wait on a barrier signalled, and each has a reason not to be later |
| `Delays.BarriersApart` | shared/sgfx-nak/src/calc_instr_deps.rs:814-820 | an instruction issues at least two cycles before any wait on a barrier it signals |
| `Delays.ToDelays` | shared/sgfx-nak/src/calc_instr_deps.rs:1007-1014 | distances, at least one cycle; an overflow if and only if one does not fit a byte |
| `Delays.SplitDelay` | shared/sgfx-nak/src/calc_instr_deps.rs:1031-1057 | the instruction, then only `Nop`s, each within the maximum, and the whole delay between them |
| `Delays.CalcDelays` | shared/sgfx-nak/src/calc_instr_deps.rs:805-1057 | in the emitted code the delays between two instructions with a hazard add up to its latency at least, and those between a signal and any wait on it to two, split or not |
| `ImageLayout.AlignRounds` | shared/maxwell-image-layout/src/lib.rs:80-85 | adding and clearing the low bits rounds up to an alignment that is a power of two |
| `Powers.AndNotLow` | shared/maxwell-image-layout/src/lib.rs:80-85 | clearing the bits below a power of two, bit by bit, rounds down to a multiple of it |
| `ImageLayout.TileYLeastAdequate` | shared/maxwell-image-layout/src/lib.rs:88-92 | the least block height that covers the rows, capped |
| `ImageLayout.TileYIs` | shared/maxwell-image-layout/src/lib.rs:149-162 | blocks have the base height, cut down only where that is asked for and then to the least that covers the rows |
| `ImageLayout.LastLevel` | shared/maxwell-image-layout/src/lib.rs:118-120 | levels are admitted up to the first of one texel |
| `ImageLayout.ExtentHalves` | shared/maxwell-image-layout/src/lib.rs:146-148 | each level is half the one before, rounded down, until one is left |
| `ImageLayout.RowsBound` | shared/maxwell-image-layout/src/lib.rs:149-171 | the clamped tile height divides the halved maximum, so rounding up rows stays below it |
| `ImageLayout.LevelFits` | shared/maxwell-image-layout/src/lib.rs:146-182 | no check in the planning of a level fails |
| `ImageLayout.Plan` | shared/maxwell-image-layout/src/lib.rs:109-199 | a layout if and only if the descriptor is admitted: no overflow branch is reachable; levels are least, packed and aligned |
| `ImageLayout.BlockLinearInverse` | shared/maxwell-image-layout/src/lib.rs:306-321 | column and row are read back off the offset, which stays inside the whole tiles |
| `ImageLayout.BlockLinearOnto` | shared/maxwell-image-layout/src/lib.rs:306-321 | every offset inside the whole tiles is that of a byte: with the inverse, a bijection |
| `ImageLayout.LevelsInLayer` | shared/maxwell-image-layout/src/lib.rs:145-197 | the levels of a layer are apart and inside the stride |
| `ImageLayout.SubresourceExists` | shared/maxwell-image-layout/src/lib.rs:202-217 | a subresource for exactly the mips and layers of the image, at its place |
| `ImageLayout.ByteOffsetInLevel` | shared/maxwell-image-layout/src/lib.rs:287-304 | every byte has an address inside its level's bytes and the image |
| `ImageLayout.ByteOffsetInjective` | shared/maxwell-image-layout/src/lib.rs:287-304 | no two bytes of all layers and mips share an address |
| `ImageLayout.TransferValue` | shared/maxwell-image-layout/src/lib.rs:219-250 | a transfer for exactly the rectangles inside the level, and which |
| `ImageLayout.ResolveInverts` | shared/maxwell-image-layout/src/lib.rs:255-284 | a transfer resolves to exactly the subresource it was built for |
| `ImageLayout.ResolveSound` | shared/maxwell-image-layout/src/lib.rs:255-284 | an accepted transfer is the one built for what it resolves to |
| `ImageLayout.TransfersDiffer` | shared/maxwell-image-layout/src/lib.rs:219-284 | no two subresources share a transfer |
| `SubmitWire.NumberOfBytes` | shared/maxwell-submit-wire/src/lib.rs:211-247 | little-endian bytes read back |
| `SubmitWire.BytesOfNumber` | shared/maxwell-submit-wire/src/lib.rs:211-247 | and every byte string is written back |
| `SubmitWire.LayoutFits` | shared/maxwell-submit-wire/src/lib.rs:157-199 | counts within their limits always fit; the tables lie back to back |
| `SubmitWire.AccessValues` | shared/maxwell-submit-wire/src/lib.rs:249-255 | the mask admits read, write and both |
| `SubmitWire.ValidMeans` | shared/maxwell-submit-wire/src/lib.rs:257-325 | a submission is valid exactly if every resource has a token and a range that ends within 64 bits, and every relocation stays inside the authorized range and access of its resource, or is the canonical shader's, over zero words of its own |
| `SubmitWire.RelocationErrors` | shared/maxwell-submit-wire/src/lib.rs:271-322 | which error a relocation is refused with, case by case |
| `SubmitWire.RelocationsApart` | shared/maxwell-submit-wire/src/lib.rs:271-322 | accepted relocations are sorted, apart and inside the command table |
| `SubmitWire.RelocationsZero` | shared/maxwell-submit-wire/src/lib.rs:100-103 | and the words they will overwrite are zero |
| `SubmitWire.Validate` | shared/maxwell-submit-wire/src/lib.rs:336-345 | passes exactly the tables that are right, and names the first check that fails |
| `SubmitWire.Encode` | shared/maxwell-submit-wire/src/lib.rs:327-386 | succeeds on exactly the submissions authorized, with a buffer of the right size, fills it with the encoding, and on failure leaves it alone |
| `SubmitWire.EncodingIs` | shared/maxwell-submit-wire/src/lib.rs:347-386 | a payload is the encoding of a submission if and only if each field read from it is the submission's and all that is reserved is zero |
| `SubmitWire.Decode` | shared/maxwell-submit-wire/src/lib.rs:459-571 | accepts exactly the payloads that carry an authorized submission, and hands that back |
| `SubmitWire.CheckedIsCarried` | shared/maxwell-submit-wire/src/lib.rs:459-571 | the checks on a payload pass if and only if it carries an authorized submission |
| `SubmitWire.AcceptedIsEncoding` | shared/maxwell-submit-wire/src/lib.rs:459-571 | whatever is accepted is the encoding of the valid submission it carries |
| `SubmitWire.EncodingIsAccepted` | shared/maxwell-submit-wire/src/lib.rs:459-571 | every encoding is accepted and carries its submission back, field for field |
| `SubmitWire.OneDecoding` | shared/maxwell-submit-wire/src/lib.rs:390-456 | a payload carries one submission only |
| `SubmitWire.EncodeDecode` | shared/maxwell-submit-wire/src/lib.rs:327-571 | what is encoded is decoded back |
| `SubmitWire.ReencodesSame` | shared/maxwell-submit-wire/src/lib.rs:327-571 | re-encoding an accepted minor-1 payload gives the same bytes; a minor-0 one differs in the minor version alone |
| `Builder64.ShiftLeft` | shared/sgfx-nak/src/builder.rs:147-189 | two high words of funnel shifts, the lower over zeros, make the 64-bit shift |
| `Builder64.ShiftRight` | shared/sgfx-nak/src/builder.rs:216-242 | the high word of a right shift does not depend on the low word |
| `Builder64.CompareHalves` | shared/sgfx-nak/src/builder.rs:552-635 | how two 64-bit numbers compare follows from their halves, signed or not |
| `Builder64.CountedOrLost` | shared/sgfx-nak/src/builder.rs:410-450 | the carries emitted hold what the low words carry, exactly outside one family of operands |
| `Builder64.RunKeeps` | shared/sgfx-nak/src/builder.rs:119-121 | emitted code defines only fresh values |
| `Builder64.ResultStays` | shared/sgfx-nak/src/builder.rs:119-121 | so what one helper computed is still there after whatever is emitted next |
| `Builder64.SsaBuilder.Shl64` | shared/sgfx-nak/src/builder.rs:147-189 | multiplication by a power of two modulo 2^64, the amount modulo 64, before SM70 and after |
| `Builder64.SsaBuilder.Shr64` | shared/sgfx-nak/src/builder.rs:216-242 | division rounding down, signed or unsigned, the amount modulo 64 |
| `Builder64.SsaBuilder.Iadd64` | shared/sgfx-nak/src/builder.rs:393-452 | the sum modulo 2^64 of up to three operands, negated or not, if and only if no carry is lost; right for all values if and only if at most one operand negates a pair, or two of three from SM70 on |
| `Builder64.ExactOperands` | shared/sgfx-nak/src/builder.rs:410-450 | the condition on the operands: no state loses a carry if and only if it holds |
| `Builder64.OneNegatedExact` | shared/sgfx-nak/src/builder.rs:410-450 | with one negated operand no carry is ever lost |
| `Builder64.NegatedZeros` | shared/sgfx-nak/src/builder.rs:410-450 | minus zero minus zero, and a third minus zero from SM70 on, comes out as -2^32 |
| `Builder64.SsaBuilder.Ineg64` | shared/sgfx-nak/src/builder.rs:527-529 | the negative modulo 2^64, always |
| `Builder64.SsaBuilder.Isetp64` | shared/sgfx-nak/src/builder.rs:552-635 | the six comparisons of 64-bit numbers, signed and unsigned |
| `Builder64.PermuteAt` | shared/sgfx-nak/src/ir.rs:5130-5151 | byte `i` of a permutation is what selector `i` picks |
| `Builder64.SsaBuilder.Prmt` | shared/sgfx-nak/src/builder.rs:85-104 | the same of the emitted instruction or copy |
| `Builder64.SsaBuilder.Prmt4` | shared/sgfx-nak/src/builder.rs:787-824 | any four bytes of four words, in at most three permutations |

## Left out

- `opcodes.rs`, the encodings `decode` accepts besides branches, pushes and pops, and the rest of `validate`: finite tables and field checks.
- `draw.rs`, `wire.rs`, `descriptor.rs`, the header packing of `maxwell-program-wire`, the modifiers of `maxwell-image-layout`: fixed-field checks.
- `scripts/`, `tools/`, drivers, plugins and firmware: input, output and foreign calls.
- Floating point, and what instructions compute: an operation is an uninterpreted function of its operands, except the integer operations of `Builder64`.
- The `compiler` crate is not part of this model: the data-flow solver enters as the condition that its answer is settled (`TexQueue.Settled`), liveness as the sets it hands over.
- ProveControl.ProveControl: flows and code are given as decoded (`Decoded`), the 16-bit packing of an entry is modelled without its size bound because the code size limit implies it.
- AssignBarriers.AssignBarriers: the function is one stream of instructions, blocks in program order, which is how the source numbers dependencies; the order of the wait list is not modelled, and the sentinel `usize::MAX` is an `Option`.
- AssignInstr.AssignFile: vector results are listed in order of size, where the source keeps their indices and allocates by eviction in operand order.
- InstrMeaning.AssignRegsInstr: the default case; `OpPin` and the special cases (parallel copies, phis, swaps, undefined values) are not modelled.
- InstrMeaning.InstrRefines: operands are grouped by register file, in their order within each, and the instruction is a function of operand and guard values; that a false guard leaves old contents in result registers, which in SSA form are undefined then, is not modelled.
- InstrMeaning.RepairLowers: instructions are taken to have only scalar operands and results in barrier, memory and carry registers.
- AssignBlock.BlockLiveIn: sorting the live-in list, and freeing phis nobody uses, are left out.
- AssignBlock.EdgeLowers: a value live across an edge is taken to be in a register of its own file, or a constant that file takes.
- AssignInstr.AllocScalar: phi webs and vector biasing are a hint that is free to name any register.
- TexQueue.TexQueueSimulation.VisitInstr: as in the source a register is its index alone, whatever its file.
- InstrSched.SchedBuffer: a latency is a function of the kind of hazard, the register and the two instructions, not of operand slots: two reads of one register by one instruction share one; block weights and cycle estimates over blocks are left out.
- Delays.CalcDelays: a block with no successor, so nothing is accumulated across blocks; the rule for `MemBar` on Kepler A and 32-bit overflow of cycles are left out, and a guard overwritten later is, as in the source, no hazard.
- DeadCode.PassSound: annotations, which the source drops when dead like anything else, have no form of their own.
- ImageLayout.ResolveSound: sums wrap at 2^64 as in a release build.
- LowerCopySwap.LowerCopySwap.LowerCopy: the moves between uniform and other registers follow the files the source accepts; its panics on the others are preconditions.
- Builder64.SsaBuilder.Shl64: integer types of 8 and 16 bits are left out; no helper modelled uses them.
- Builder64.SsaBuilder.Iadd64: constant operands are refused by the source and have no form here.
