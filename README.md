# xv6 process table and schedulers, in Dafny

This project models the process table in `kernel/proc.c` of an xv6-riscv kernel that has been extended with four build-time schedulers: DEFAULT (round robin), FCFS, PBS (priority based) and MLFQ (multi-level feedback queue). The table is the global `proc[NPROC]` array of process slots. Each slot has a state drawn from UNUSED, USED, SLEEPING, RUNNABLE, RUNNING and ZOMBIE. The table also holds the `nextpid` counter and `initproc`.

The model covers:
- the operations that change the table: allocpid, allocproc, freeproc, userinit, fork, reparent, exit, wait, waitx, update_time, sleep, wakeup, yield, kill and set_priority_i;
- one selection-and-dispatch step of each of the four schedulers.

Files:
- `types.dfy` (module `ProcTypes`): the slot record `Proc`, the matching states and wait channels, and the C integer operations the code relies on (truncating division, and `uint` subtraction modulo 2^32). It also defines the single-slot updates that the operations apply: what allocproc initialises, what freeproc clears, what sleep, wakeup, kill and dispatch change.
- `pbs.dfy` (module `Pbs`): `PSBPriority` and `PcbCompare` as pure functions, and the order they define.
- `mlfq.dfy` (module `Mlfq`): `UpgradePolicy`'s aging rule and the level scan, as a fold over the table with the `minimum_time == 0` sentinel.
- `table.dfy` (module `ProcTable`): class `Table`.
  - It holds `procs: array<Proc>`, `nextpid`, `ticks`, `initproc` and the compiled-in `policy`.
  - Each kernel operation is a method on the array. Reparent, update_time, wakeup and UpgradePolicy write slots inside their scan loops, as the C code does. kill, set_priority_i, allocproc, wait/waitx and the four scheduler steps first scan in a separate read-only method (`FindPid`, `FindPriorityTarget`, `FirstUnused`, `ScanChildren`, `DefaultSelect`, `FcfsSelect`, `PbsSelect`, `MlfqSelect`) and then write the one slot found.
  - `Valid()` is the table invariant that every method keeps. Parents are slots or null, MLFQ levels index `Max_wait`, live pids are distinct and below `nextpid`, and UNUSED slots have pid 0.
- `scenarios.dfy` (module `Scenarios`): whole-table runs. In one, init forks a child, the child exits and init reaps it. In another, a parent blocks in wait; a third shows exit waking a parent that sleeps in wait; a fourth shows that `kill(0)` followed by allocproc creates a process that is already killed; a fifth shows PBS dispatching init again, as the only RUNNABLE slot, after a tick in which its dynamic priority became undefined.

Representation choices:
- `parent` is a slot index, with -1 for the null pointer.
- `chan` is `NoChan`, `SlotChan(i)` (the address of slot i, which wait and exit use) or `Other(a)`.
- The calling process, `myproc()`, is the parameter `cur`.
- Allocation of memory, the copy of the parent's memory in fork, and `copyout` in wait are boolean inputs (`memOk`, `copyOk`, `copyoutOk`).
- Each method is one atomic step.
- Where wait and waitx would call `sleep`, the model performs the sleep transition on the caller's own slot and returns `WouldBlock`.

The model follows what the code does, including where it departs from the schedulers' usual description:
- The MLFQ level scan covers levels 0 to 3, because the loop at kernel/proc.c:750 runs `i < 4`, not only levels 0 to 2.
- The MLFQ round-robin fallback at kernel/proc.c:776-781 takes any RUNNABLE slot, not only those at level 3.
- `set_priority_i` yields when the new static priority is numerically larger than the old one (kernel/proc.c:1063), i.e. less urgent, not more urgent.

## Model

| member | source | states |
|---|---|---|
| ProcTable.Table.constructor | kernel/proc.c:11-15 | the zero-initialised table: every slot UNUSED, `nextpid` 1, no initproc; the invariant holds |
| ProcTable.Table.AllocPid | kernel/proc.c:88-98 | returns the old `nextpid` and increments it by exactly one |
| ProcTable.Table.FirstUnused | kernel/proc.c:109-117 | returns the first UNUSED slot in table order, and none exactly when no slot is UNUSED |
| ProcTable.Table.AllocProc | kernel/proc.c:104-169 | with no UNUSED slot: returns none and changes nothing, `nextpid` included. Otherwise: takes the first UNUSED slot and spends one pid. On success the slot is USED, with pid = old `nextpid`, zeroed times and the policy fields set, and no other slot changes. On memory failure the slot is freed again and none is returned |
| ProcTable.Table.FreeProc | kernel/proc.c:174-191 | only the given slot changes: it becomes UNUSED with pid, parent, chan, killed and xstate cleared |
| ProcTable.Table.UserInit | kernel/proc.c:249-272 | the first UNUSED slot receives the next pid, becomes RUNNABLE and is recorded as initproc |
| ProcTable.Table.Fork | kernel/proc.c:296-352 | the pid, or -1, and the whole new table for each of three outcomes: no free slot, memory failure, copy failure. On success the first free slot becomes a RUNNABLE child of the caller. Under MLFQ a caller below level 0 has its tick count cleared and becomes RUNNABLE |
| ProcTable.Table.ForkFinish | kernel/proc.c:335-349 | the child gets the caller as its parent and becomes RUNNABLE; under MLFQ a parent below level 0 clears its tick count and yields; no other slot changes |
| ProcTable.Table.Reparent | kernel/proc.c:356-367 | every child of the caller gets initproc as its parent. If the caller had any child, every other slot SLEEPING on initproc's slot is woken. Slots affected by neither are unchanged |
| ProcTable.Table.Exit | kernel/proc.c:372-406 | every child of the exiting slot now has initproc as its parent. The exiting slot is ZOMBIE with the given status and `etime = ticks`. Every other slot is the reparent result followed by a wakeup on the exiter's parent |
| ProcTable.Table.ScanChildren | kernel/proc.c:426-451 | returns the first ZOMBIE child of the caller in table order. When there is none, says whether the caller has any child at all |
| ProcTable.Table.Wait | kernel/proc.c:417-462 | reaps the first ZOMBIE child: returns its pid and status and frees exactly that slot, or returns -1 and changes nothing when the copyout fails. With no child, or when the caller is killed: returns -1 and changes nothing. Otherwise the caller sleeps on its own slot |
| ProcTable.Table.Waitx | kernel/proc.c:464-511 | as Wait, and also reports the child's `rtime` and `wtime = etime - ctime - rtime` in `uint` arithmetic |
| ProcTable.Table.Reap | kernel/proc.c:432-461 | the outcomes of wait's scan result, on the table before the scan: reap, copyout failure, no children or killed, sleep |
| ProcTable.Table.UpdateTime | kernel/proc.c:513-524 | every RUNNING slot gains one tick of `rtime`; every other slot is unchanged |
| ProcTable.Table.Sleep | kernel/proc.c:859-883 | only the caller's slot changes: it is SLEEPING on the channel. Under PBS its running interval is closed and its sleeping interval is started at `ticks` |
| ProcTable.Table.FinishSleep | kernel/proc.c:885-886 | only the caller's channel is cleared |
| ProcTable.Table.Wakeup | kernel/proc.c:895-919 | exactly the slots other than the caller's that are SLEEPING on the channel become RUNNABLE, with the PBS or MLFQ bookkeeping; every other slot is unchanged |
| ProcTable.Table.Yield | kernel/proc.c:826-834 | only the caller's slot changes: it becomes RUNNABLE |
| ProcTable.Table.FindPid | kernel/proc.c:928-941 | returns the first slot with the pid, whatever its state, and none exactly when no slot has it |
| ProcTable.Table.Kill | kernel/proc.c:924-943 | 0 exactly when some slot has the pid. Then only the first such slot changes, ZOMBIE and UNUSED slots included: it is marked killed and, if SLEEPING, made RUNNABLE. Otherwise -1 and nothing changes |
| ProcTable.Table.FindPriorityTarget | kernel/proc.c:1044-1055 | returns the first RUNNABLE or SLEEPING slot with the pid, and none exactly when there is no such slot |
| ProcTable.Table.SetPriority | kernel/proc.c:1032-1066 | 10 outside PBS and 1 for a priority outside [0, 100], both with nothing changed. 2 when no RUNNABLE or SLEEPING slot has the pid. Otherwise: returns the old static priority, sets the new one, resets both interval markers to -1, and makes the caller RUNNABLE if the new value is larger |
| ProcTable.Table.Reprioritise | kernel/proc.c:1057-1065 | returns the target's old static priority and sets the new one with both interval markers at -1. The caller becomes RUNNABLE exactly when the new value is larger. No other slot changes |
| ProcTable.Table.Dispatch | kernel/proc.c:703-706 | only the chosen slot changes: it becomes RUNNING with the dispatch updates of the compiled policy (PBS lines 703-706, MLFQ lines 789-791) |
| ProcTable.Table.DefaultSelect | kernel/proc.c:545-560 | returns the first RUNNABLE slot at or after the scan position, and none exactly when there is none |
| ProcTable.Table.DefaultStep | kernel/proc.c:533-562 | only the selected slot changes: it is the first RUNNABLE slot from the position, and it becomes RUNNING. If there is none, nothing changes |
| ProcTable.Table.FcfsSelect | kernel/proc.c:579-604 | returns a RUNNABLE slot with minimal `start_time`, strictly below that of every earlier RUNNABLE slot (so ties go to the lowest index), and none exactly when nothing is RUNNABLE |
| ProcTable.Table.FcfsStep | kernel/proc.c:566-613 | the FCFS choice becomes RUNNING and no other slot changes |
| Pbs.PSBPriority | kernel/proc.c:618-636 | the dynamic priority lies in [0, 100] and equals the static priority for a fresh process whose static priority is in range |
| Pbs.NicenessBounds | kernel/proc.c:621-625 | for non-negative intervals, niceness lies in [0, 10]: it is 0 without sleep and 10 without running |
| Pbs.DynamicPriorityWindow | kernel/proc.c:618-636 | for an in-range static priority and a process that is fresh or has both interval markers non-negative, the dynamic priority is within 5 of the static one |
| Pbs.PsbPriorityExamples | kernel/proc.c:618-636 | priority 60 fresh gives 60; 80 ticks asleep and 20 running give niceness 8 and priority 57 |
| Pbs.PcbCompare | kernel/proc.c:639-662 | the result is 1 or -1. It is positive exactly when q precedes p: lower dynamic priority, then fewer times scheduled, then earlier start time. A full tie gives -1 |
| Pbs.PrecedesOrder | kernel/proc.c:639-662 | the PcbCompare order is irreflexive and transitive. Two processes that do not precede one another have the same key |
| ProcTable.Table.PbsSelect | kernel/proc.c:677-701 | none exactly when nothing is RUNNABLE; otherwise a RUNNABLE slot. When every RUNNABLE slot has a defined priority, no RUNNABLE slot precedes the choice and it strictly precedes every earlier RUNNABLE slot (equals go to the earliest slot). A lone RUNNABLE slot is taken without a comparison, so its priority need not be defined |
| ProcTable.Table.PbsStep | kernel/proc.c:665-713 | the PBS choice (as PbsSelect, a lone RUNNABLE slot included) becomes RUNNING with one more dispatch, sleeping interval 0 and running marker `ticks`; no other slot changes; nothing changes when nothing is RUNNABLE |
| ProcTable.Table.UpgradePolicy | kernel/proc.c:716-732 | Every RUNNABLE slot at a level above 0 whose wait `ticks - time_added` (in `uint` arithmetic) exceeds `Max_wait` for its level moves up exactly one level and is stamped with `ticks`. Every other slot is unchanged |
| ProcTypes.USub | kernel/proc.c:725 | `uint` subtraction: below 2^32, congruent to the difference, equal to it when the difference is in range |
| ProcTypes.CDiv | kernel/proc.c:625 | C division truncates toward zero: the remainder `a - q * b` is smaller than the divisor in magnitude and is 0 or has the dividend's sign; for a non-negative dividend and positive divisor it is Dafny's `/` |
| ProcTypes.WakeupAt | kernel/proc.c:901-916 | a woken slot is RUNNABLE; one that is not woken is unchanged; pid, parent, channel, killed, xstate and level are always kept |
| ProcTypes.WakeupAtIdempotent | kernel/proc.c:362-365 | a second wakeup on the same channel changes nothing, and wakeup commutes with reparent's change of parent |
| Mlfq.LevelScanFound | kernel/proc.c:752-772 | a find is a candidate at the level whose `time_added` is the non-zero minimum, and no later candidate has an earlier one |
| Mlfq.LevelScanExact | kernel/proc.c:752-772 | a level reports a find exactly when some candidate with non-zero `time_added` is followed by no candidate with `time_added` 0 |
| Mlfq.LevelScanNoZero | kernel/proc.c:752-772 | without zero `time_added` candidates: a find exactly when there is a candidate. The find has the earliest `time_added`, the first slot among ties |
| Mlfq.ZeroTimeHides | kernel/proc.c:757-766 | when the last candidate of a level in table order has `time_added` 0, the level reports nothing, whatever candidates precede it |
| Mlfq.LevelPickSound | kernel/proc.c:750-772 | the first level (0 to 3) whose scan finds something gives a RUNNABLE slot with non-zero `time_added`; all earlier levels found nothing |
| Mlfq.LevelPickNoZero | kernel/proc.c:750-772 | without zero `time_added` RUNNABLE slots at levels 0–3, something is picked exactly when such a slot exists. The pick is at the most urgent occupied level, with the earliest `time_added`, the first slot among ties |
| ProcTable.Table.MlfqLevelScan | kernel/proc.c:752-771 | the loop computes exactly the fold `Mlfq.LevelScan` over the table |
| ProcTable.Table.RoundRobin | kernel/proc.c:774-783 | returns the first RUNNABLE slot met going round from the cursor, and moves the cursor just past it. Returns none, with the cursor kept, exactly when nothing is RUNNABLE |
| ProcTable.Table.MlfqSelect | kernel/proc.c:746-783 | the level pick when there is one, with the cursor unchanged; otherwise the round-robin choice; none exactly when nothing is RUNNABLE |
| ProcTable.Table.MlfqStep | kernel/proc.c:740-791 | on the table after aging: the MLFQ choice becomes RUNNING, with `time_added` cleared and its dispatch count incremented, and no other slot changes. Nothing is dispatched exactly when nothing is RUNNABLE after aging |
| Scenarios.ForkExitWait | kernel/proc.c:296-462 | init forks pid 2 at slot 1. The child exits with status 7. Init's wait returns pid 2 with status 7 |
| Scenarios.WaitBlocks | kernel/proc.c:417-462 | waiting on a live child with nothing to reap blocks |
| Scenarios.ExitWakesParent | kernel/proc.c:399-400 | a parent sleeping in wait on its own slot is RUNNABLE once its child has exited |
| Scenarios.KillZeroInherited | kernel/proc.c:924-943 | in any valid table with a free slot, `kill(0)` returns 0, and the next allocproc returns a USED slot whose `killed` flag is already set: freeproc (line 184) zeroes the pid, kill's scan meets the first UNUSED slot, and allocproc (lines 109-121) reuses that slot without clearing `killed` |
| Scenarios.PbsInitRunsAlone | kernel/proc.c:677-706 | under PBS, init dispatched at tick 0, run for a tick and yielded (so its intervals sum to 0) is still chosen and dispatched again as the only RUNNABLE slot |

## Left out

- Spinlocks (`pid_lock`, `wait_lock`, the per-slot locks), `push_off`/`pop_off`, interrupt control and `sched`'s lock checks: each operation is one atomic step, and concurrent interleavings are not modelled.
- `swtch`, `sched`'s context switch, `forkret`, the trapframe and `context`: register-level transfer, outside the table. Yield and Sleep stop at the state change.
- `cpuid`, `mycpu`, `myproc`: the current process is the parameter `cur`. Operations run by a process require its slot to be RUNNING.
- Memory and page tables (`kalloc`, `proc_pagetable`, `uvmcopy`, `uvminit`, `proc_mapstacks`, `growproc`): foreign calls, reduced to the flags `memOk` and `copyOk`. The `sz`, `pagetable`, `trapframe`, `kstack`, `name`, `Trace`, `ofile` and `cwd` fields are not modelled.
- Files and the filesystem in fork and exit (`filedup`, `idup`, `fileclose`, `iput`, `begin_op`, `namei`, `fsinit`): foreign collaborators.
- `copyout`, `either_copyout`, `either_copyin`: user-memory I/O. The copy in wait is the flag `copyoutOk`, and `status` is the value it would copy.
- `procdump`: console output only.
- The scheduler's endless `for(;;)` loops: each is one selection-and-dispatch step (DefaultStep, FcfsStep, PbsStep, MlfqStep). The DEFAULT scan, which goes on from the next slot after each run, is DefaultStep called with the next position.
- `ticks` and the time fields are unbounded naturals. Only the MLFQ aging subtraction and waitx's `wtime` use 32-bit `uint` arithmetic. Wrap-around of the tick counter itself is not modelled.
- `nextpid` and `pid` are unbounded integers. In C they are `int` (kernel/proc.c:15, 88-98), and `nextpid` overflows after 2^31 - 1 allocations; the distinct-pid part of `Valid()` relies on the counter never wrapping. The dispatch counters `Times_scheduled` (PBS) and `no_times` (MLFQ), also C `int`, are likewise unbounded naturals (`timesScheduled`, `noTimes`), and their overflow is not modelled.
- NPROC is 64, xv6's value. kernel/param.h is not part of this model.
- ProcTable.Table.ClockTick: the timer interrupt's `ticks++` lives in kernel/trap.c, which is not part of this model. It is provided so that runs can advance time, as `Scenarios.PbsInitRunsAlone` does.
- Pbs.PSBPriority: division by zero, when a process that is not fresh has `running_time + sleeping_time == 0`, is undefined behaviour in C. The model makes it a precondition (`PriorityDefined`), also required by PcbCompare. PbsSelect and PbsStep require it for every RUNNABLE slot only when at least two slots are RUNNABLE (`PbsScanDefined`), because the scan calls PcbCompare only from the second RUNNABLE slot on (kernel/proc.c:683-690); a lone RUNNABLE slot is chosen whatever its intervals.
- Pbs.PSBPriority: overflow of `sleeping_time * 10` in 32-bit `int` is not modelled.
- Pbs.DynamicPriorityWindow: the ±5 window is proved only for fresh processes and for non-negative interval markers. set_priority_i on a SLEEPING process resets both markers to -1 (kernel/proc.c:1059-1060), and wakeup then sets only `sleeping_time` (line 908), leaving a process that is not fresh with running marker -1; its niceness can then exceed 10 (running -1, sleeping 3 gives 30 / 2 = 15), and the window does not hold.
- ProcTable.Table.RoundRobin: the source spins for ever when nothing is RUNNABLE. The model makes one pass round the table and returns none with the cursor unchanged.
- ProcTable.Table.FcfsSelect: `start_time` is compared with the `int` sentinel `First_start` as a natural number. A `start_time` whose 32-bit pattern reads as -1 is not modelled.
- ProcTable.Table.Wait and ProcTable.Table.Waitx: one pass of the `for(;;)` loop. The sleep ends the pass with `WouldBlock`, and the re-scan after wakeup is a new call.
- ProcTable.Table.UserInit: requires a free slot and successful allocation. The source does not check allocproc's result and would dereference a null pointer.
- ProcTable.Table.Exit: requires that the caller is not initproc, where the source panics.
