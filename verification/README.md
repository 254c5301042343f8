# A verified model of the GPGPU-Sim execution core

The project models the functional half of GPGPU-Sim as it is built into gem5-gpu: how a warp of lanes runs in lock step
on a reconvergence stack, where its reconvergence points come from, how warps share barriers, how streams share the GPU,
what memory holds, which memory accesses a warp makes, and how code is laid out. One small tool of gem5, the pipeline
viewer's streaming sort, is modelled too. Code that works by changing things in place is modelled by classes and loops,
each proved against a function on values; what the code promises is proved about those functions, mostly over whole runs.

| file | models |
|---|---|
| `SimtStack.dfy` | `simt_stack`: launch and update, the loop that groups lanes and its closed form |
| `WarpInvariants.dfy` | what every update keeps, with calls and returns |
| `LaminarDepth.dfy` | masks form a laminar family, which bounds the depth |
| `PostDominators.dfy` | the data-flow computation of post-dominators and immediate post-dominators |
| `BlockLinks.dfy` | the links between basic blocks and the table made from them |
| `Kernels.dfy` | kernels: code in basic blocks and its reconvergence table |
| `KernelRuns.dfy` | what every issue of a kernel keeps: the table is good enough for the stack |
| `WarpRuns.dfy` | whole runs of a warp |
| `StaleBottom.dfy` | exactly which kernels without calls never issue a finished lane |
| `Programs.dfy` | programs: a kernel and the functions it calls; one thread with its call stack |
| `ProgramRuns.dfy` | what every issue of a program keeps, frame by frame |
| `StaleCaller.dfy` | a program with a call that issues finished lanes |
| `LockStepRefinement.dfy` | lock-step execution refines independent threads |
| `BarrierScheduler.dfy` | the round robin over the warps of a thread block and its barrier |
| `StreamManager.dfy`, `StreamTick.dfy` | streams and the stream manager; the tick event that drives it |
| `PagedMemory.dfy`, `KernelParams.dfy`, `SharedAtomics.dfy` | paged memory; parameter layout and shared-memory atomics on it |
| `Coalescing.dfy`, `AtomicCoalescing.dfy`, `BankConflicts.dfy` | the memory accesses of a warp |
| `PtxAssembly.dfy`, `AddressWindows.dfy` | code assembly; the generic address space |
| `WarpVote.dfy` | `vote.any`, `vote.all`, `vote.uni`, `vote.ballot` |
| `PipeView.dfy` | the pipeline viewer's queue |
| `Arithmetic.dfy`, `Options.dfy` | facts about quotients; values that may be missing |

## Main results

- **Lock step refines independent threads** (`LockStepRefinesThreads`). For every program, a kernel and functions that
  call each other, with correct layouts and reconvergence tables that meets the condition below (`Sound`), every
  instruction set whose threads own their control state and obey the code, every launch mask and every number of steps:
  the machine computes what a schedule of independent unfinished threads computes, and while a thread lives it can
  take another step, so its asserts do not fire and it stops only when every thread has finished. The schedule is known:
  it goes step by step through the lanes of the top entry, the lowest first. An instruction sees its
  own thread and the shared state, not which other lanes are active, and acts when its lane's turn comes. So `vote` is not
  among them, nor are atomics, which act for all lanes after the loop over them (gpgpu-sim/cuda-sim/cuda-sim.cc:2020).
  The reconvergence table is not taken on trust: `MakeTable` goes from the ends of the basic blocks through their links
  and the two data-flow passes to the table, and it is the table of all the ways that lanes take, although the code misses
  some links (`ExtendsSame`). For arbitrary instructions, `RunsRefineThreads` gives the same for every run whose
  reconvergence PCs are good and whose lanes finish alone.
- **The stack over every run** (`LaunchRunsInLockStep`, `LaunchRunsBounded`, `ResurfacesUnchanged`). With calls and
  returns: every live lane is at the PC of the topmost entry that holds it, no lane is lost, every entry reconverges into
  a lower one that waits for it, masks are laminar, and there are at most 2n - 1 entries besides those of calls. The last
  two need nothing of the next PCs.
- **When finished lanes are issued.**
  - Without calls: all runs of a kernel from its entry issue only live lanes if, and only if, after no split that lanes
    may come to and whose lanes reconverge only at the exit a path leads to the PC that stands for "after the kernel",
    which is 0 (`ReturnPcExactly`, for warps of three lanes or more). For the kernels that fail this,
    `FinishedLaneIssued` constructs from the graph alone a run from the entry with a finished lane in the top entry;
    `LoopKernelLeadsBack` is such a kernel.
  - With calls: no run of a program from its entry issues a finished lane, if its kernel meets that condition, and the
    functions called have no exit instruction and never divide their lanes where these reconverge only at the exit
    (`ProgramRunsInLockStep`). Without the last condition it fails (`FinishedCallersIssued`).
  - For arbitrary instructions, with calls and returns: no stack of a run holds a finished lane if, and only if, in every
    step lanes finish alone, and none in a call or return (`CleanRunExactly`, `CleanStepExactly`).
- **Barriers** (`RoundKeepsGood`, `Sweep`, `Execute`): no warp passes a barrier that a live one has not reached, and
  barriers never stall a thread block: every round in which a warp lives executes something, so warps whose courses are
  finite finish. Each round is one instruction of every warp that was free to go at its start, in the order of the warps.
- **Streams** (`StreamsAreFifo`, `ListedAsAdded`, `StreamZeroExcludes`, `IndexIsExact`, `IssuedWithinTwo`) over all
  interleavings: what a stream hands out is a beginning of what was pushed to it. With the
  tick event: exactly when gem5's event queue stops the simulation (`AssertsExactly`), exactly when the GPU panics
  (`PanicsExactly`), and that otherwise no wake-up is lost (`NoLostWakeup`). Neither happens while only kernels and
  transfers are pushed, and only to stream 0 (`StreamZeroGoesOn`). The CUDA calls of this repository do no more than
  that: those that create streams or record events are not implemented (gem5-gpu/src/api/cuda_syscalls.cc:928-985).
- **Paged memory is flat memory** (`Store`, `Read`), with 64-bit addresses that wrap around, except at the top of the
  address space; the exceptions are stated exactly.
- **Coalescing is exact and minimal** (`Coalesce`, `CoalesceWarp`, `AllServed`): one access for each 128 bytes that a
  sub-warp touches, or each 64 or 32 for accesses of 2 bytes or of one (`AccessesCounted`). **Atomic coalescing is
  conflict-free and optimal** (`FirstFitIsPlace`, `ListIsMinimal`).
- **Bank conflicts** in both modes: different banks cost one access (`NoConflict`, `ConsecutiveWords`), different words of
  one bank one for each lane (`AllConflict`, `BankStride`).
- **Atomics take turns** in lane order (`DoAtomic`), for every operation.
- **The pipeline viewer's bound** is enough for order (`PrintedInOrder`) and tight for all thresholds (`BoundIsTight`).

## What the proofs found

- In a kernel the call stack holds a blank entry, so the return PC is 0 (gpgpu-sim/cuda-sim/ptx_sim.h:173-182), and a split whose
  post-dominator is the exit reconverges at PC 0. The bottom entry of the stack is then stale. If code leads back to PC 0
  from there, lanes that have finished are issued again.
- A call whose lanes divide and reconverge only at the exit of the function called leaves finished lanes behind. The CALL
  entry is sent to the return PC and stays a CALL entry after its lanes have returned one by one. When they finish it is
  popped, the caller's entry surfaces with finished lanes while another lane lives, and the assertion on finished threads
  fails (gpgpu-sim/cuda-sim/cuda-sim.cc:1320-1324). `FinishedCallersIssued` is such a run, from the entry of a program.
- The return PC that such lanes get for reconvergence is that of the first live lane of the warp, active or not
  (gpgpu-sim/abstract_hardware_model.cc:796-803; `RpcOk`). That lane need not be in the same call.
- `connect_basic_blocks` looks for what follows a guarded exit or return one position on in a table with one position for
  each byte, and so misses that link. Post-dominators are the same without it.
- The assertions on immediate post-dominators do not notice that blocks do not reach the exit, with one exception: exactly
  one block does not, and two of the others post-dominate no third one. `AssertionsByExample` has a graph of either kind.
- A tick that issues an event while something else may be issued after it schedules its own event twice, and the event
  queue's assertion stops the simulation. An event and a transfer pushed to stream 0 are enough.
- The stream manager lets streams other than stream 0 overlap, but the GPU panics when a kernel or transfer is started
  while another is in flight. A transfer pushed to each of two streams is enough (`TwoStreamsPanic`).
- A read that ends inside the last block of the address space throws, although the bytes are there: the end of that block
  wraps around to 0 in the test. A write there is stored. An access that starts lower and runs over the top takes the fast
  route and stops at an assertion; a read does so only if its first block exists, and returns zeros otherwise.
- A watchpoint is missed by writes of four kinds, all at the ends of the address space, and hit by an empty write that
  starts inside the bytes after it (`WatchExact`).
- Coalescing an atomic stops at an assertion exactly if some address does not fit 32 bits.
- `ready` is false with work queued and nothing in flight in exactly one case: the service flag of stream 0 was left set.
  The tick event makes up for it.
- Padding a PC by PC % 8 aligns it only if it is a multiple of four; instruction sizes of 4 and 8 keep it one.
- A guarded vote whose highest active lane fails its guard delivers nothing and leaves its accumulators to the next warp.
- `vote.uni` answers the opposite of what the PTX instruction set defines: true exactly if the voters disagree.
- A decrement undoes an increment only within the bound.
- The pipeline viewer drops what it has queued whenever it stops early, because a call lacks an argument.

## Model

| member | source | states |
|---|---|---|
| SimtStack.Stack.constructor | gpgpu-sim/abstract_hardware_model.cc:581-591 | the stack is empty |
| SimtStack.Stack.Launch | gpgpu-sim/abstract_hardware_model.cc:593-602 | one NORMAL entry with the launch mask and no reconvergence PC |
| SimtStack.Stack.TakeGroup | gpgpu-sim/abstract_hardware_model.cc:669-684 | one pass takes the whole class of the highest live lane's next PC, drops finished lanes, and removes at least one lane |
| SimtStack.GroupsPartition | gpgpu-sim/abstract_hardware_model.cc:666-689 | the groups of all passes are exactly the classes of live lanes with the same next PC, each PC once |
| SimtStack.Stack.Place | gpgpu-sim/abstract_hardware_model.cc:721-753 | one group discarded, or placed in the stack, with the split made at the first group that stays |
| SimtStack.Stack.CallOrReturn | gpgpu-sim/abstract_hardware_model.cc:692-719 | a call pushes a CALL entry; a return pops it, sets the caller's PC and pops the caller if it reconverges there |
| SimtStack.DrainIsOrdinary | gpgpu-sim/abstract_hardware_model.cc:666-756 | the in-place loop and its final pop leave the closed form: the old top as a reconvergence entry if the split needs one, then one sibling for each group that stays |
| SimtStack.Stack.Update | gpgpu-sim/abstract_hardware_model.cc:650-762 | the whole update, calls and returns included, is the closed form on the old stack |
| WarpInvariants.OrdinaryReplacesTop | gpgpu-sim/abstract_hardware_model.cc:721-756 | an update replaces the top entry and changes nothing below it; siblings are distinct classes of lanes, strict subsets after a split, and lanes that get none wait or reconverge |
| WarpInvariants.ReplaceLockStep | gpgpu-sim/abstract_hardware_model.cc:721-756 | after it every live lane is at the PC of its topmost entry, if no lane of a split jumps to the PC the old top waits for |
| WarpInvariants.CallKeepsInv | gpgpu-sim/abstract_hardware_model.cc:692-703 | a call keeps lock step, loses no lane and keeps all reconvergence links |
| WarpInvariants.ReturnKeepsInv | gpgpu-sim/abstract_hardware_model.cc:705-719 | so does a return |
| WarpInvariants.NextKeepsInv | gpgpu-sim/abstract_hardware_model.cc:650-762 | every update keeps: live lanes at the PC of their topmost entry, no lane lost, every NORMAL entry linked to a lower entry with all its lanes that waits at its reconvergence PC, callers covered by their calls |
| LaminarDepth.FamilyBound | gpgpu-sim/abstract_hardware_model.h:280-321 | a laminar family of non-empty distinct sets of n lanes has at most 2n - 1 members |
| LaminarDepth.NextKeepsShape | gpgpu-sim/abstract_hardware_model.cc:650-762 | whatever the next PCs: any two masks are disjoint or nested, strictly unless a call is between |
| LaminarDepth.DepthBound | gpgpu-sim/abstract_hardware_model.cc:650-762 | a laminar stack has at most 2n - 1 entries besides CALL entries |
| PostDominators.ImmediateExists | gpgpu-sim/cuda-sim/ptx_ir.cc:640-681 | every block that reaches the exit has an immediate post-dominator |
| PostDominators.SolutionIsPostDom | gpgpu-sim/cuda-sim/ptx_ir.cc:622-637 | a solution of the data-flow equations between the true post-dominators and everything is post-dominance, path by path |
| PostDominators.ControlFlow.Meet | gpgpu-sim/cuda-sim/ptx_ir.cc:626-631 | the intersection over the successors, with the block itself |
| PostDominators.ControlFlow.FindPostdominators | gpgpu-sim/cuda-sim/ptx_ir.cc:609-638 | terminates with, for each block, exactly the blocks on all its paths to the exit |
| PostDominators.ControlFlow.FindIpostdominators | gpgpu-sim/cuda-sim/ptx_ir.cc:640-681 | for every block that reaches the exit, the immediate post-dominator; the final assertions hold if and only if one candidate is left for every block, as `OneLeft` says |
| PostDominators.ControlFlow.Reduce | gpgpu-sim/cuda-sim/ptx_ir.cc:653-668 | what the two loops leave: candidates of which none post-dominates another, while all others post-dominate one of them |
| PostDominators.OneLeftExactly | gpgpu-sim/cuda-sim/ptx_ir.cc:669-681 | one candidate is left if and only if the block reaches the exit, or another block does not either, or no two other blocks are leaves of post-dominance |
| PostDominators.AssertionsByExample | gpgpu-sim/cuda-sim/ptx_ir.cc:669-681 | a graph whose assertions pass although two blocks do not reach the exit, and one where they fail |
| PostDominators.ExtendsSame | gpgpu-sim/cuda-sim/ptx_ir.cc:456-469 | more edges from blocks with an edge to the exit change neither reachability of the exit nor post-dominance |
| PostDominators.ExtendsImmediate | gpgpu-sim/cuda-sim/ptx_ir.cc:456-469 | nor immediate post-dominators |
| BlockLinks.WaysAndLinks | gpgpu-sim/cuda-sim/ptx_ir.cc:443-490 | to which blocks lanes go from a block: the exit, the target, and the next block unless its last instruction is an unguarded exit, return or bra; and which of these are linked |
| BlockLinks.ConnectBasicBlocks | gpgpu-sim/cuda-sim/ptx_ir.cc:443-490 | the links made, with the one after a guarded exit or return missing |
| BlockLinks.WaysExtendLinks | gpgpu-sim/cuda-sim/ptx_ir.cc:456-469 | links are missing only from blocks that are linked to the exit |
| BlockLinks.MakeTable | gpgpu-sim/cuda-sim/cuda-sim.cc:253-270 | the table made from the links holds the immediate post-dominators in the graph of all ways |
| BlockLinks.TableMakesValid | gpgpu-sim/cuda-sim/ptx_ir.cc:787-821 | a kernel with that table meets all that is asked of kernels, if its blocks reach the exit |
| Kernels.ReconvergencePairs | gpgpu-sim/cuda-sim/ptx_ir.cc:787-821 | one pair of source and target for each block that ends in a branch, in order |
| Kernels.PairsInOrder | gpgpu-sim/cuda-sim/ptx_ir.cc:787-821 | the pairs come in the order of the blocks |
| Kernels.GetConvergePoint | gpgpu-sim/cuda-sim/cuda-sim.cc:2176-2198 | the target of the first pair at that PC, the return PC for the exit, none for other instructions |
| Kernels.ConvergePointOf | gpgpu-sim/cuda-sim/cuda-sim.cc:2176-2198 | the search of the reconvergence pairs finds the start of the immediate post-dominator of a branch's block, or the return PC if that is the exit |
| Kernels.ConvergePointNone | gpgpu-sim/cuda-sim/cuda-sim.cc:2176-2198 | it finds nothing for an instruction that is not the bra at the end of a block |
| Kernels.NoJumpPast | gpgpu-sim/cuda-sim/ptx_ir.cc:787-820 | no path from a block leads past its immediate post-dominator to a block that post-dominates it too |
| KernelRuns.DividesAtBranch | gpgpu-sim/cuda-sim/cuda-sim.cc:2176-2198 | lanes divide only at a branch at the end of its block, and get that block's target for reconvergence |
| KernelRuns.TableHasNoShortcut | gpgpu-sim/cuda-sim/ptx_ir.cc:787-820 | no lane of a split goes straight to the PC its entry waits for, which is what the stack needs |
| KernelRuns.TopIsIssuable | gpgpu-sim/abstract_hardware_model.cc:809-816 | while a lane lives the top entry is at an instruction, holds only live lanes, and all are at its PC |
| KernelRuns.IssueKeepsKernelInv | gpgpu-sim/abstract_hardware_model.cc:790-807 | every issue of a kernel keeps that, the links, and what each entry waits for |
| WarpRuns.LaunchRunsInLockStep | gpgpu-sim/abstract_hardware_model.cc:593-762 | in every run from a launch: every live lane is at the PC of the topmost entry that holds it, no unfinished lane is lost, the lanes of the top are at its PC, every entry is linked |
| WarpRuns.LaunchRunsBounded | gpgpu-sim/abstract_hardware_model.cc:593-762 | in every run, for arbitrary next PCs: laminar masks, at most 2n - 1 entries and the CALL entries |
| WarpRuns.ResurfacesUnchanged | gpgpu-sim/abstract_hardware_model.cc:728-738 | an entry that resurfaces has the mask it had when it was covered, and all below it is unchanged; without calls the entry is unchanged too |
| WarpRuns.CleanExactly | gpgpu-sim/abstract_hardware_model.cc:673-674 | an ordinary update leaves finished lanes in the stack if and only if some lane finishes while a lower entry holds it or the top stays behind a split |
| WarpRuns.CleanStepExactly | gpgpu-sim/abstract_hardware_model.cc:650-762 | any update, calls and returns included, leaves finished lanes in the stack if and only if some lane finishes in a call or return, or not alone |
| WarpRuns.CleanRunExactly | gpgpu-sim/abstract_hardware_model.cc:650-762 | over whole runs with calls and returns: no stack of the run holds a finished lane if and only if lanes finish alone and in no call or return |
| WarpRuns.FinishedNeverIssued | gpgpu-sim/cuda-sim/cuda-sim.cc:1298-1329 | if lanes finish alone, no run issues a finished lane |
| WarpRuns.KernelRunsInLockStep | gpgpu-sim/cuda-sim/cuda-sim.cc:1298-1329 | in every run from the entry of a kernel in which no split towards the exit may lead to the return PC: all updates are legal; while a lane lives the top entry holds only live lanes, each at its PC, so the assertions on the PC and on finished lanes hold; the stack is empty only when every lane has finished |
| StaleBottom.FinishedLaneIssued | gpgpu-sim/cuda-sim/ptx_sim.h:173-182 | in every other kernel, and for every warp of three lanes or more, some run from the entry has a finished lane in the top entry while another lane lives |
| StaleBottom.UniformRun | gpgpu-sim/cuda-sim/cuda-sim.cc:1981-1994 | from a launch all lanes may go along any path together; the stack stays one entry that waits for nothing |
| StaleBottom.ReturnPcExactly | gpgpu-sim/abstract_hardware_model.cc:790-807 | for every warp of three lanes or more: all runs of a kernel without calls from its entry are legal and issue live lanes only, if and only if no split towards the exit that lanes may come to leads to the return PC |
| StaleBottom.LoopKernelLeadsBack | gpgpu-sim/cuda-sim/ptx_sim.h:173-182 | a valid kernel at PC 0 that branches back to its first instruction, and a run of it from PC 0 that issues a finished lane |
| StaleBottom.LoopKernelIsLinked | gpgpu-sim/cuda-sim/ptx_ir.cc:443-490 | that kernel's graph is the one of a function of two guarded branches and two exits |
| Programs.RpcOfOk | gpgpu-sim/abstract_hardware_model.cc:790-807 | the reconvergence PC handed to the stack is the answer of the table, or the return PC of the first live lane of the warp where lanes reconverge only at the exit |
| Programs.AnswerIsReturnPc | gpgpu-sim/cuda-sim/cuda-sim.cc:2176-2198 | for such a branch the search of the table answers with the return PC |
| ProgramRuns.TopIsReady | gpgpu-sim/cuda-sim/cuda-sim.cc:1298-1329 | while a lane lives the top entry holds only live lanes, each at its PC and each with as many calls in progress as frames lie on the kernel's |
| ProgramRuns.KernelStep | gpgpu-sim/abstract_hardware_model.cc:790-807 | an issue in the kernel keeps the invariant of frames |
| ProgramRuns.CalleeStep | gpgpu-sim/abstract_hardware_model.cc:790-807 | so does one in a called function |
| ProgramRuns.CallStep | gpgpu-sim/cuda-sim/instructions.cc:1277-1289 | so does a call: a new frame whose lanes know where to return |
| ProgramRuns.ReturnFromCall | gpgpu-sim/cuda-sim/ptx_sim.cc:379-395 | so does a return: the whole frame goes on in the caller's frame after the call |
| ProgramRuns.IssueKeepsProgramInv | gpgpu-sim/abstract_hardware_model.cc:790-807 | every issue of a sound program, calls and returns included, is legal and keeps the invariant |
| ProgramRuns.ProgramRunsInLockStep | gpgpu-sim/cuda-sim/cuda-sim.cc:1298-1329 | in every run of a sound program from its entry, with calls nested to any depth: all updates are legal; while a lane lives the top entry holds only live lanes, each at its PC; the stack is empty only when every lane has finished |
| StaleCaller.AllButOne | gpgpu-sim/cuda-sim/ptx_ir.cc:787-821 | a program that is linked correctly and meets every condition of soundness but that its function does not divide its lanes for good |
| StaleCaller.FinishedCallersIssued | gpgpu-sim/cuda-sim/cuda-sim.cc:1320-1324 | for every warp of three lanes or more, a legal run of that program from its entry after which the top entry holds only finished lanes while another lane lives |
| LockStepRefinement.ExecuteWarp | gpgpu-sim/abstract_hardware_model.cc:764-777 | the active lanes execute the fetched instruction one after the other, each once, in increasing order: the states in between are a chain from the old state to the new one |
| LockStepRefinement.TwoLanes | gpgpu-sim/abstract_hardware_model.cc:764-777 | of two lanes the lower one executes first |
| LockStepRefinement.IssueIsSchedule | gpgpu-sim/abstract_hardware_model.cc:764-777 | for live lanes at its PC, issuing an instruction is scheduling each of them once |
| LockStepRefinement.ScheduleAppends | gpgpu-sim/abstract_hardware_model.cc:764-777 | what a schedule means: one thread executes the instruction at its own PC, and the rest goes on from the state it leaves |
| LockStepRefinement.StepsAreSchedule | gpgpu-sim/abstract_hardware_model.cc:764-816 | fetch, issue and update of a sound program with calls, any number of times: while a lane lives the machine can go on, and its state is that of a schedule of independent live threads that goes step by step through the lanes of the top entry, the lowest first |
| LockStepRefinement.LockStepRefinesThreads | gpgpu-sim/abstract_hardware_model.cc:764-816 | the same from every launch at the entry |
| LockStepRefinement.RunsRefineThreads | gpgpu-sim/abstract_hardware_model.cc:764-816 | with calls and arbitrary reconvergence PCs: every run from a launch whose splits are post-dominated and whose lanes finish alone computes what a schedule of independent live threads computes, with lanes in increasing order in each step |
| BarrierScheduler.NeverPastABarrier | gpgpu-sim/cuda-sim/cuda-sim.cc:1996-2026 | what a safe log means: whoever executes has arrived at no more barriers than any warp that lives |
| BarrierScheduler.TurnKeepsGood | gpgpu-sim/cuda-sim/cuda-sim.cc:2015-2026 | a turn keeps: the arrivals of a live warp are the releases, plus one exactly when its flag is set; executed and remaining instructions are the script; the log is safe |
| BarrierScheduler.TurnsOneEach | gpgpu-sim/cuda-sim/cuda-sim.cc:2004-2006 | the turns of a pass: every warp that lived and did not wait executes its next instruction, once, in the order of the warps, and no other warp executes anything |
| BarrierScheduler.ReleaseKeepsGood | gpgpu-sim/cuda-sim/cuda-sim.cc:2008-2011 | so does the release, and it leaves a live warp free to go |
| BarrierScheduler.RoundKeepsGood | gpgpu-sim/cuda-sim/cuda-sim.cc:2001-2012 | so does a pass; with a live warp it executes at least one instruction |
| BarrierScheduler.FunctionalCore.constructor | gpgpu-sim/cuda-sim/cuda-sim.cc:1959-1994 | the invariant holds at the start |
| BarrierScheduler.FunctionalCore.ExecuteWarp | gpgpu-sim/cuda-sim/cuda-sim.cc:2015-2026 | one instruction if the warp lives and does not wait, and the two flags |
| BarrierScheduler.FunctionalCore.Sweep | gpgpu-sim/cuda-sim/cuda-sim.cc:2004-2006 | the log gains one instruction of every warp that was live and did not wait, its next, in the order of the warps, and nothing else; the flags say whether some live and whether all live ones wait |
| BarrierScheduler.FunctionalCore.Round | gpgpu-sim/cuda-sim/cuda-sim.cc:2001-2012 | such a pass, and the release |
| BarrierScheduler.FunctionalCore.Execute | gpgpu-sim/cuda-sim/cuda-sim.cc:1996-2013 | terminates with every script executed to its end, a safe log, and a log made of such passes |
| StreamManager.EnqueueKeepsInv | gpgpu-sim/stream_manager.cc:64-68 | a push keeps the invariant |
| StreamManager.FrontKeepsInv | gpgpu-sim/stream_manager.cc:231-264 | so does `front`: FIFO order, one operation in flight per stream, stream 0 alone, the index exact |
| StreamManager.FinishKeepsInv | gpgpu-sim/stream_manager.cc:70-76 | so does a completion |
| StreamManager.DestroyKeepsInv | gpgpu-sim/stream_manager.cc:297-310 | so does the end of an empty stream |
| StreamManager.IndexFinds | gpgpu-sim/stream_manager.cc:214-229 | a kernel that runs is in the index and at the front of the stream found there, so the assertion on its number holds |
| StreamManager.StreamsAreFifo | gpgpu-sim/stream_manager.cc:64-85 | in every interleaving: what `front` has handed out of a stream is a beginning of the sequence of pushes to it; what is left is that sequence without as many as were reported finished; at most one is in flight |
| StreamManager.ListedAsAdded | gpgpu-sim/stream_manager.cc:291-310 | in every interleaving: the streams listed are those added and not destroyed, in the order of their addition |
| StreamManager.ChosenIsFirst | gpgpu-sim/stream_manager.cc:231-264 | `front` issues from stream 0 if and only if that is serviced or no other stream has work, and otherwise from the first idle stream listed |
| StreamManager.StreamZeroExcludes | gpgpu-sim/stream_manager.cc:231-264 | in every interleaving: stream 0 is never in flight with another |
| StreamManager.IndexIsExact | gpgpu-sim/stream_manager.cc:214-264 | in every interleaving: the index holds exactly the kernels in flight, with their streams |
| StreamManager.ReadyExactly | gpgpu-sim/stream_manager.cc:266-289 | some operation may be issued if and only if `front` chooses one |
| StreamManager.IssuedWithinTwo | gpgpu-sim/stream_manager.cc:231-264 | with work and nothing in flight `front` issues, except if and only if the flag was left set for an empty stream 0; then the next call issues |
| StreamManager.Manager.constructor | gpgpu-sim/stream_manager.cc:188-193 | the initial state |
| StreamManager.Manager.ConcurrentStreamsEmpty | gpgpu-sim/stream_manager.cc:312-325 | whether all listed streams are empty |
| StreamManager.Manager.Next | gpgpu-sim/stream_manager.cc:79-85 | the front is in flight, and in the index if it is a kernel |
| StreamManager.Manager.Front | gpgpu-sim/stream_manager.cc:231-264 | the new state and the operation issued: from stream 0 while it is serviced, else from the first idle stream |
| StreamManager.Manager.Ready | gpgpu-sim/stream_manager.cc:266-289 | whether some operation may be issued, and what the look does to the flag |
| StreamManager.Manager.Push | gpgpu-sim/stream_manager.cc:365-381 | the operation goes to the end of its stream, or of stream 0 if it has none or launches block; whether the tick is scheduled |
| StreamManager.Manager.AddStream | gpgpu-sim/stream_manager.cc:291-295 | the stream is listed last |
| StreamManager.Manager.DestroyStream | gpgpu-sim/stream_manager.cc:297-310 | its first occurrence is erased |
| StreamManager.Manager.RecordNextDone | gpgpu-sim/stream_manager.cc:70-76 | the front is completed |
| StreamManager.Manager.RegisterFinishedKernel | gpgpu-sim/stream_manager.cc:214-229 | the kernel's stream is found and advanced and the index entry erased; 0 is ignored |
| StreamTick.AssertsExactly | gem5/src/sim/eventq_impl.hh:41-57 | scheduling fails its assertion if and only if a tick issues an event and something may be issued after it |
| StreamTick.QueuedExactly | gem5-gpu/src/gpu/gpgpu-sim/cuda_gpu.cc:321-344 | after which causes the tick is in the event queue |
| StreamTick.PanicsExactly | gem5-gpu/src/gpu/gpgpu-sim/cuda_gpu.hh:310-319 | the GPU panics if and only if a tick chooses a kernel or transfer while another is in flight |
| StreamTick.ReactKeepsOne | gem5-gpu/src/gpu/gpgpu-sim/cuda_gpu.hh:310-325 | whatever does not fail keeps at most one operation in flight on the GPU, and the GPU knows |
| StreamTick.EventBeforeTransferAsserts | gpgpu-sim/stream_manager.cc:147-159 | an event and a transfer pushed to stream 0, and the first tick fails |
| StreamTick.TwoStreamsPanic | gem5-gpu/src/gpu/gpgpu-sim/cuda_gpu.hh:310-319 | a transfer pushed to each of two streams, and the second tick panics |
| StreamTick.NoEventsNeverAsserts | gem5-gpu/src/gpu/gpgpu-sim/cuda_gpu.cc:321-344 | the assertion of the event queue fails in no run without events |
| StreamTick.StreamZeroGoesOn | gem5-gpu/src/gpu/gpgpu-sim/cuda_gpu.cc:321-344 | every run that pushes only kernels and transfers, and only to stream 0, goes on: it neither fails the assertion nor panics |
| StreamTick.ReactKeepsAwake | gem5-gpu/src/gpu/gpgpu-sim/cuda_gpu.cc:321-344 | every cause that does not fail keeps: the flag tells whether the tick is in the event queue; it is, or nothing may be issued and the service flag is not left over |
| StreamTick.NoLostWakeup | gem5-gpu/src/gpu/gpgpu-sim/cuda_gpu.cc:321-344 | in every run that does not fail, with work queued and nothing in flight the tick is scheduled |
| StreamTick.CudaGpu.Schedule | gem5/src/sim/eventq_impl.hh:41-57 | the event is queued, or was already and the assertion fails |
| StreamTick.CudaGpu.ScheduleStreamEvent | gem5-gpu/src/gpu/gpgpu-sim/cuda_gpu.cc:336-344 | the event is scheduled unless the flag says that it is |
| StreamTick.CudaGpu.BeginStreamOperation | gem5-gpu/src/gpu/gpgpu-sim/cuda_gpu.hh:310-319 | an operation runs, or one did already and the GPU panics |
| StreamTick.CudaGpu.DoOperation | gpgpu-sim/stream_manager.cc:99-168 | an operation is issued: a kernel or transfer starts or panics, an event completes at once and schedules the tick |
| StreamTick.CudaGpu.Process | gem5-gpu/src/gpu/gpgpu-sim/cuda_gpu.cc:321-334 | one tick: the operation, and the tick again if more may be issued |
| PagedMemory.Log2 | gpgpu-sim/cuda-sim/memory.cc:32-45 | passes its assertions exactly for powers of two, and finds the exponent |
| PagedMemory.Pow2Divides | gpgpu-sim/cuda-sim/memory.cc:32-45 | such block sizes divide the address space |
| PagedMemory.FlatIsMemory | gpgpu-sim/cuda-sim/memory.h:58-80 | the reference: zero before any write; a write puts its bytes at its addresses modulo 2^64 and leaves all others |
| PagedMemory.PatchIsLocal | gpgpu-sim/cuda-sim/memory.h:68-72 | writing to a block changes those bytes and no other of the whole memory |
| PagedMemory.FastExact | gpgpu-sim/cuda-sim/memory.cc:50 | the fast route is taken wrongly by accesses that run over the top from below the last block, and by no others |
| PagedMemory.MemorySpace.constructor | gpgpu-sim/cuda-sim/memory.cc:32-45 | the memory is all zeros |
| PagedMemory.MemorySpace.StoreAcross | gpgpu-sim/cuda-sim/memory.cc:56-78 | the block-by-block route stores every byte, going round the top |
| PagedMemory.MemorySpace.Store | gpgpu-sim/cuda-sim/memory.cc:47-78 | the memory is the flat memory after the write, by either route; stopped if and only if the access runs over the top from below the last block |
| PagedMemory.MemorySpace.Write | gpgpu-sim/cuda-sim/memory.cc:47-87 | the store, and exactly the watchpoints whose test holds |
| PagedMemory.WatchExact | gpgpu-sim/cuda-sim/memory.cc:79-86 | for every write and watchpoint: exactly which overlaps with the four bytes are missed, and that only empty writes hit without one |
| PagedMemory.WatchMisses | gpgpu-sim/cuda-sim/memory.cc:79-86 | one missed write of each of the four kinds |
| PagedMemory.SingleBlockReads | gpgpu-sim/cuda-sim/memory.cc:89-108 | what is read from one block, or the throw at the last block |
| PagedMemory.MemorySpace.LoadAcross | gpgpu-sim/cuda-sim/memory.cc:116-139 | throws if and only if the access ends inside the last block, and reads every byte otherwise |
| PagedMemory.MemorySpace.Read | gpgpu-sim/cuda-sim/memory.cc:110-140 | the bytes of the flat memory, whatever was written before and by either route; exactly what happens instead at the top |
| KernelParams.RegionsApart | gpgpu-sim/cuda-sim/cuda-sim.cc:1085 | parameter regions do not overlap |
| KernelParams.WhatIsLaidOut | gpgpu-sim/cuda-sim/cuda-sim.cc:1044-1085 | nothing of a pointer to shared memory, eight bytes for the same number of a pointer of four, and otherwise a beginning of what was passed, no longer than declared |
| KernelParams.CopyWords | gpgpu-sim/cuda-sim/cuda-sim.cc:1079-1083 | the parameter is in memory, and nothing below it or from three bytes past it on has changed |
| KernelParams.LayOut | gpgpu-sim/cuda-sim/cuda-sim.cc:1044-1085 | the bytes laid out: as passed, zero-extended from 4 to 8, or the smaller of two sizes; none for pointers to shared memory |
| KernelParams.OneMoreLaidOut | gpgpu-sim/cuda-sim/cuda-sim.cc:1079-1085 | laying out the next parameter spoils none before it |
| KernelParams.Finalize | gpgpu-sim/cuda-sim/cuda-sim.cc:1040-1087 | the first address is 0 and each next one follows the bytes before it; every parameter reads back at its address, and nothing from three bytes past the last on has changed |
| SharedAtomics.StoredWord | gpgpu-sim/cuda-sim/instructions.cc:1128-1132 | storing an aligned word changes that word and no other |
| SharedAtomics.LowByteFirst | gpgpu-sim/cuda-sim/instructions.cc:1128-1132 | words are stored with the low byte first |
| SharedAtomics.Callback | gpgpu-sim/cuda-sim/instructions.cc:828-1136 | the lane gets the word, the memory the result |
| SharedAtomics.DoAtomic | gpgpu-sim/abstract_hardware_model.cc:161-176 | for every operation: the lanes that access a word take turns, the lowest first; the first gets the old word, each next one what the one before made of the word it got, and the last one's result stays; other words are unchanged |
| SharedAtomics.AddsAddUp | gpgpu-sim/cuda-sim/instructions.cc:1021-1047 | additions add up modulo 2^32 |
| SharedAtomics.IncsGoRound | gpgpu-sim/cuda-sim/instructions.cc:604 | k increments from v leave (v + k) mod (bound + 1); above the bound the first leads to 0 |
| SharedAtomics.DecsGoRound | gpgpu-sim/cuda-sim/instructions.cc:605 | k decrements lead k below v, and from 0 on from the bound; above the bound the first leads to the bound |
| SharedAtomics.FromAbove | gpgpu-sim/cuda-sim/instructions.cc:604-605 | where one increment or decrement leads from above the bound |
| SharedAtomics.DecUndoesInc | gpgpu-sim/cuda-sim/instructions.cc:604-605 | a decrement undoes an increment if and only if the word is within the bound |
| SharedAtomics.DecsUndoIncs | gpgpu-sim/cuda-sim/instructions.cc:604-605 | the decrements of a warp undo its increments |
| Coalescing.InSegment | gpgpu-sim/abstract_hardware_model.cc:388-395 | an access inside a 32-byte chunk lies in one segment, as the assertion wants, and so does its chunk |
| Coalescing.NaturalFits | gpgpu-sim/abstract_hardware_model.cc:353-415 | a naturally aligned access lies inside a chunk |
| Coalescing.SegmentSizes | gpgpu-sim/abstract_hardware_model.cc:358-362 | segments are 32 bytes for each byte of an access, at most 128 |
| Coalescing.SharedSegment | gpgpu-sim/abstract_hardware_model.cc:358-362 | two accesses share a segment if and only if they lie in the same 128 bytes, or 64 for 2 bytes, or 32 for one |
| Coalescing.Reduce | gpgpu-sim/abstract_hardware_model.cc:492-541 | an aligned block of 32, 64 or 128 bytes that covers the chunks used and has both its halves used; the assertions hold |
| Coalescing.TightIsSmallest | gpgpu-sim/abstract_hardware_model.cc:492-541 | such a block lies inside every aligned block that meets all the chunks |
| Coalescing.Gather | gpgpu-sim/abstract_hardware_model.cc:365-402 | per segment, exactly the chunks, bytes and lanes of its accesses |
| Coalescing.Send | gpgpu-sim/abstract_hardware_model.cc:492-542 | the access sent has the lanes and byte mask of its members, and the smallest block that holds them |
| Coalescing.Coalesce | gpgpu-sim/abstract_hardware_model.cc:353-415 | of one sub-warp: one exact and minimal access for each segment touched, in the order of addresses, and no others |
| Coalescing.CoalesceWarp | gpgpu-sim/abstract_hardware_model.cc:353-415 | the sub-warps one after the other in one queue, each with one access for every 128 bytes it touches, or 64 for 2 bytes, or 32 for one |
| Coalescing.AccessesCounted | gpgpu-sim/abstract_hardware_model.cc:353-415 | how many accesses each sub-warp sends, counted by addresses |
| Coalescing.SubWarpLanes | gpgpu-sim/abstract_hardware_model.cc:363-369 | a sub-warp holds exactly the accesses of its lanes, lane by lane |
| Coalescing.FlatAt | gpgpu-sim/abstract_hardware_model.cc:403-414 | the queue holds the accesses of the sub-warps in order |
| Coalescing.AllServed | gpgpu-sim/abstract_hardware_model.cc:353-415 | every access of a lane of a sub-warp lies in a memory access of the queue that names the lane |
| Coalescing.EveryLane | gpgpu-sim/abstract_hardware_model.cc:363-369 | every lane below the last whole sub-warp is in one of them |
| AtomicCoalescing.TestBytes | gpgpu-sim/abstract_hardware_model.h:866-871 | whether some byte of the range is set |
| AtomicCoalescing.FirstFit | gpgpu-sim/abstract_hardware_model.cc:447-463 | the first transaction without a conflict, or one past the last |
| AtomicCoalescing.FirstFitIsPlace | gpgpu-sim/abstract_hardware_model.cc:447-463 | first fit puts a lane in the transaction numbered by the earlier lanes with its word |
| AtomicCoalescing.SlotIsConflictFree | gpgpu-sim/abstract_hardware_model.cc:465-472 | lanes of one transaction touch disjoint bytes |
| AtomicCoalescing.ListIsMinimal | gpgpu-sim/abstract_hardware_model.cc:417-490 | the number of transactions of a segment is the largest number of lanes with one word |
| AtomicCoalescing.Gather | gpgpu-sim/abstract_hardware_model.cc:433-472 | per segment, the transactions with exactly the lanes that belong there; stopped if and only if some address does not fit 32 bits |
| AtomicCoalescing.Coalesce | gpgpu-sim/abstract_hardware_model.cc:417-490 | of one sub-warp, the accesses sent: every lane in one transaction, each exact and minimal, as few as possible; stopped exactly as above |
| AtomicCoalescing.OneSegment | gpgpu-sim/abstract_hardware_model.cc:440-445 | an aligned access lies in one segment, and the assertion that says so holds if and only if the address fits 32 bits |
| AtomicCoalescing.CoalesceWarp | gpgpu-sim/abstract_hardware_model.cc:417-490 | both sub-warps, with one list of transactions for every 128 bytes touched, or 64 or 32; stopped if and only if an address of theirs does not fit 32 bits |
| BankConflicts.Tally | gpgpu-sim/abstract_hardware_model.cc:228-239 | per bank, the words asked for and how often |
| BankConflicts.BankOfWord | gpgpu-sim/abstract_hardware_model.h:258-266 | word k, of four bytes, is in bank k modulo the number of banks |
| BankConflicts.SameWord | gpgpu-sim/abstract_hardware_model.h:258-266 | two addresses are in one word if and only if they are in the same four bytes |
| BankConflicts.CostsByAddress | gpgpu-sim/abstract_hardware_model.cc:264-298 | what a bank costs, counted by addresses: its different words with full broadcast; otherwise its lanes, those of the word broadcast counted once |
| BankConflicts.LimitedCostsMore | gpgpu-sim/abstract_hardware_model.cc:264-286 | a bank serves at least as many accesses with one word broadcast as with all |
| BankConflicts.FindBroadcast | gpgpu-sim/abstract_hardware_model.cc:241-262 | the first word, by bank and address, that several lanes ask for |
| BankConflicts.LimitedCount | gpgpu-sim/abstract_hardware_model.cc:264-288 | the largest cost of a bank with one word broadcast |
| BankConflicts.FullCount | gpgpu-sim/abstract_hardware_model.cc:290-298 | the largest number of different words of a bank |
| BankConflicts.TotalAccesses | gpgpu-sim/abstract_hardware_model.cc:221-301 | the sum over the sub-warps, in either mode |
| BankConflicts.NoConflict | gpgpu-sim/abstract_hardware_model.cc:221-301 | lanes in different banks cost one access, in either mode |
| BankConflicts.AllConflict | gpgpu-sim/abstract_hardware_model.cc:221-301 | lanes at different words of one bank cost one access each, in either mode |
| BankConflicts.ConsecutiveWords | gpgpu-sim/abstract_hardware_model.cc:221-301 | lanes at consecutive words, no more than banks: one access |
| BankConflicts.BankStride | gpgpu-sim/abstract_hardware_model.cc:221-301 | lanes at words as far apart as there are banks: as many accesses as lanes |
| BankConflicts.PartOfWarp | gpgpu-sim/abstract_hardware_model.cc:221-228 | which lanes are in which sub-warp |
| BankConflicts.SumAppends | gpgpu-sim/abstract_hardware_model.cc:286-298 | the counts of sub-warps add up |
| BankConflicts.TotalsOrdered | gpgpu-sim/abstract_hardware_model.cc:301 | full broadcast never costs more than limited, and limited never more than one access per lane |
| BankConflicts.TotalPositive | gpgpu-sim/abstract_hardware_model.cc:301 | at least one access if a lane is active and sub-warps divide the warp evenly |
| PtxAssembly.PaddingAligns | gpgpu-sim/cuda-sim/cuda-sim.cc:203-207 | the padding aligns a PC to eight if and only if it is a multiple of four |
| PtxAssembly.LayOut | gpgpu-sim/cuda-sim/cuda-sim.cc:209-231 | each instruction at its offset, nothing elsewhere; each name at the offset of its last label |
| PtxAssembly.TableMore | gpgpu-sim/cuda-sim/cuda-sim.cc:202-232 | another function keeps the table dense: every instruction at its PC, everything else empty, functions apart and aligned |
| PtxAssembly.PcsUnique | gpgpu-sim/cuda-sim/cuda-sim.cc:202-232 | different instructions, of the same or of different functions, have different PCs |
| PtxAssembly.LabelLeadsToNext | gpgpu-sim/cuda-sim/cuda-sim.cc:233-247 | a label leads to the PC of the next instruction |
| PtxAssembly.NextOffset | gpgpu-sim/cuda-sim/cuda-sim.cc:209-231 | PCs count bytes: what follows an instruction comes after its size |
| PtxAssembly.ResolvedExactly | gpgpu-sim/cuda-sim/cuda-sim.cc:233-247 | a branch is unresolved if and only if its label is missing, and leads past the end if and only if no instruction follows the last label of that name |
| PtxAssembly.Resolve | gpgpu-sim/cuda-sim/cuda-sim.cc:233-247 | where a branch leads, with the missing label and the label at the end |
| PtxAssembly.Assembler.Assemble | gpgpu-sim/cuda-sim/cuda-sim.cc:187-247 | the function starts at the next multiple of eight and ends its size later; the table invariant is kept for any sequence of functions, and branches are resolved |
| AddressWindows.WindowsTile | gpgpu-sim/abstract_hardware_model.h:323-334 | every address between static and heap allocations lies in exactly one window, its owner's, and no other address in any |
| AddressWindows.WindowsInOrder | gpgpu-sim/abstract_hardware_model.h:323-334 | which windows lie next to each other, from static memory to the heap, and their sizes |
| AddressWindows.SpaceIsOwners | gpgpu-sim/cuda-sim/cuda-sim.cc:309-318 | `whichspace` agrees with the windows |
| AddressWindows.ConversionsRoundTrip | gpgpu-sim/cuda-sim/cuda-sim.cc:287-349 | conversions land in the owner's window exactly for addresses within its size; conversions back undo them and are undone by them |
| WarpVote.VoteExact | gpgpu-sim/cuda-sim/instructions.cc:4044-4112 | for every mask, guard and operand: delivered to exactly the voters with the tally over them if the highest active lane votes; otherwise nobody gets anything and the accumulators are left counting |
| WarpVote.UnguardedVote | gpgpu-sim/cuda-sim/instructions.cc:4044-4112 | an unguarded vote gives every active lane for-all, exists or the set of lanes in favour, and is ready for the next warp |
| WarpVote.ReadyForNext | gpgpu-sim/cuda-sim/instructions.cc:4085-4111 | a guarded vote is ready for the next warp if and only if the highest active lane passes its guard or none does |
| WarpVote.UniIsInverted | gpgpu-sim/cuda-sim/instructions.cc:4097-4101 | what is delivered for vote.uni is true if and only if the voters disagree |
| WarpVote.VoteUnit.Vote | gpgpu-sim/cuda-sim/instructions.cc:4044-4112 | one call: reset by the first lane, the operand added, handed out by the last lane |
| WarpVote.VoteUnit.VoteWarp | gpgpu-sim/abstract_hardware_model.cc:764-777 | the calls of a warp in ascending lane order |
| PipeView.PrintedOnce | gem5/util/o3-pipeview.py:159-188 | for every trace, each instruction that passes the filter is printed exactly once |
| PipeView.PassesWithin | gem5/util/o3-pipeview.py:175-187 | the bounds of the filter are inclusive, and zero means none |
| PipeView.SortIsStable | gem5/util/o3-pipeview.py:155-169 | instructions with one sequence number stay in the order of their arrival |
| PipeView.RetiredInOrder | gem5/util/o3-pipeview.py:128-147 | every instruction that retires is queued, once for each time, in the order of the lines |
| PipeView.RetiredFrom | gem5/util/o3-pipeview.py:128-147 | and nothing else is |
| PipeView.TakenIsNotAfter | gem5/util/o3-pipeview.py:167-170 | what a flush takes out is not after any later arrival, if disorder is bounded |
| PipeView.PrintedInOrder | gem5/util/o3-pipeview.py:47-53 | if no instruction is preceded by more than min_threshold that come after it, everything is printed in order |
| PipeView.BoundIsTight | gem5/util/o3-pipeview.py:47-53 | for all thresholds, one more is too many |
| PipeView.Viewer.constructor | gem5/util/o3-pipeview.py:52-67 | an empty queue |
| PipeView.Viewer.PrintInsts | gem5/util/o3-pipeview.py:167-188 | the queue is sorted and taken out from the front down to the threshold, and what passes the filter is printed |
| PipeView.Viewer.QueueInst | gem5/util/o3-pipeview.py:159-164 | the instruction is queued, and the queue flushed if it exceeds its maximum |
| PipeView.Viewer.QueueLines | gem5/util/o3-pipeview.py:128-147 | the queue after all lines up to the first that stops |
| PipeView.Viewer.Process | gem5/util/o3-pipeview.py:128-152 | stops exactly at the first fetch too far past a bound, and then prints nothing of what is queued; otherwise everything is printed once, and in order if disorder is bounded |

## Assumptions

- A launch mask lies within the lanes of the warp; a live lane never has the null PC; calls and returns are uniform over
  the top entry. `update` asserts the last.
- In programs, calls are unguarded and lead to one function each.
- Kernels are given with the blocks of their code and how each ends, and every block reaches the exit. Where the runs are
  of stacks alone, the assumption on reconvergence PCs is `PostDominates`.
- A thread block is given by what each of its warps does until its threads have finished, for every possible course. A
  prefix of a course that never ends is a prefix of one that does.
- Streams are added once and destroyed when they are empty, kernel numbers are positive and used once, and what is
  reported as finished is in flight. What operations do and when they finish is left open; the GPU can always start a
  kernel.
- Accesses to memory spaces are shorter than 4 GiB by at least a block, and parameters take less than 4 GiB together: the
  source keeps lengths and offsets in 32 bits.

## Left out

- Construction of basic blocks from instructions; `BlockLinks` starts from how each block ends and where its last instruction is.
- BlockLinks.MakeTable: leaves out the targets of `break`, which the source resolves between linking the blocks and the data flow.
- KernelRuns.IssueKeepsKernelInv: is about issues of instructions other than calls; for those there is `ProgramRuns.IssueKeepsProgramInv`.
- WarpRuns.KernelRunsInLockStep: is about kernels without calls; with calls there is `ProgramRuns.ProgramRunsInLockStep`.
- StaleBottom.ReturnPcExactly: is about kernels without calls, and warps of three lanes or more; with calls the exact condition is one on runs (`WarpRuns.CleanRunExactly`).
- ProgramRuns.ProgramRunsInLockStep: the condition on programs suffices and is not necessary: a function that is never called may violate it without harm. Calls through guards or function pointers, and called functions with an exit instruction, are left out.
- LockStepRefinement.StepsAreSchedule: is about instructions that neither read the active mask nor act after the loop over the lanes.
- LockStepRefinement.LockStepRefinesThreads: likewise.
- WarpRuns.LaunchRunsInLockStep: takes the property of reconvergence PCs as an assumption on the run, since it is about arbitrary instructions; for kernels it is proved.
- SimtStack.Stack.Update: leaves out the call depth and the cycle of the last divergence of an entry, which are only printed.
- `break` and its reconvergence, and the timing of branches.
- BarrierScheduler.FunctionalCore.ExecuteWarp: keeps flags and counts in sequences, not arrays, and what an instruction does to registers and memory is not modelled.
- StreamManager.Manager.Front: names streams by numbers in one map instead of objects and pointers, so aliasing and deallocation are not modelled; event time stamps and thread wake-ups are left out.
- StreamTick.CudaGpu.DoOperation: leaves out the times at which events are scheduled and the threads that an event wakes.
- PagedMemory.MemorySpace.Write: lengths close to 4 GiB or more, which the source cuts to 32 bits; the order of watchpoint hits and what a hit does; the hash table is a map.
- SharedAtomics.Callback: 32-bit operations on aligned words; 64-bit and floating-point atomics, and compare-and-swap with its third operand in the destination register, are left out.
- SharedAtomics.DoAtomic: unaligned shared addresses, which the PTX instruction set does not allow.
- Coalescing.CoalesceWarp: access types and whether an access writes; texture and constant accesses.
- PtxAssembly.Resolve: a missing label aborts and a label at the end reads uninitialised memory in the source; here they are results.
- WarpVote.VoteUnit.Vote: warps of fewer than 32 lanes.
- PipeView.Viewer.Process: parsing of traces, and skipping to the first line of interest.
- Arithmetic and floating-point instructions, textures, the timing model, the parser, the debugger, configuration, statistics and printing: input and output, host floating point, or easy members.
