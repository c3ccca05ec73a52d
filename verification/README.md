# LettuceOs kernel model

LettuceOs is a small microkernel: a sixteen-slot task table scheduled by EEVDF or
Round-Robin, three mediated call paths between services, generational tables for
capabilities, tasks, shared buffers and memory blocks, and three ARM64 protection
domains switched by ASID. This project models those parts and proves what they keep
over whole runs.

Each part has two layers. A state machine on values gives every entry point as a step
function, and the theorems quantify over all its runs. A class with the kernel's own
arrays and globals, scanning loops included, is proved to perform exactly those steps.

| part | state machine and theorems | in-place form |
|---|---|---|
| scheduler | `Scheduler`, `SchedulerSafety`, `SchedulerBounds`, `SchedulerLaws`, `SchedulerSteps`, `EevdfLag`, `EevdfLagChange`, `EevdfLiveness`, `EevdfSleep`, `RoundRobinLiveness`, `RegisterPreservation`, `TaskIds` | `SchedulerKernel` |
| mediated calls | `Gates`, `GateLaws`, `Svc`, `SvcWitness` | `GateKernel`, `SvcKernel` |
| registry, capabilities | `Registry`, `Capabilities`, `Generations` | classes in the same modules |
| memory | `Allocator`, `SharedBuffers` | classes in the same modules |
| address spaces | `Mmu`, `Tlb`, `SvcTlb` | `MmuKernel` |
| circular array | | `CircularArray` |

## Reading the theorems

- A slot is *visible* when its generation is in 1..10: every scheduler scan probes only
  those. Liveness and selection are stated for visible slots.
- `charged` counts the ticks charged to a running task since init. Field arithmetic wraps
  at 64 or 32 bits in the model, as in C; `SchedulerBounds` shows that no virtual clock
  wraps within 2^47 charged ticks, and the EEVDF theorems carry that limit.
- A service body is a tree of kernel actions, user computation and nested calls. A tree
  fixes one execution, so quantifying over trees covers every behaviour, depth and mix.
- Permission and flag masks are sets of bit positions. Translation-table words are
  naturals whose fields are read with division and remainder; where C ors fields that do
  not overlap, the model adds them.
- Inputs from outside are parameters: the passing of timer ticks, the trap frame user code
  leaves behind, whether `malloc` succeeds, where the linker puts tables and pages, and the
  TLB's fills and evictions.

## Where the code falls short of its promise

- Under EEVDF a sleep call charges nothing, whatever its length, and its caller stays
  current exactly when the scheduler is inactive or selection, after the wake-ups of that
  pass, leaves it in place (`EevdfSleep.SleepKeepsCpuIff`). With nobody asleep and the
  caller not ahead of V_sys, a zero-tick sleep keeps the CPU exactly when every other
  eligible task loses to the caller's new deadline (`EevdfSleep.SleepZeroKeepsCpuIff`);
  beside such a caller a ready task can wait through any number of zero-tick sleeps
  (`EevdfSleep.StarvationReachable`). Only sleep calls escape the bound: every timer tick
  and every yield of a running task still uses up the waiter's Patience, however many
  sleeps come between them (`EevdfLiveness.WaitsAtMost`). Under Round-Robin sleeps count
  like ticks (`RoundRobinLiveness.WaitsAtMost`).
- Changing a weight or a slice can break the lag bound (`EevdfLagChange.LagBreaks`).
  So can a second selection of EEVDF, which zeroes V_sys under the tasks
  (`EevdfLagChange.ReselectionBreaks`). `EevdfLag.StepLag` says of every call exactly when
  it does.
- A sleep whose deadline passes 2^64 is woken in the same pass instead of sleeping
  (`SchedulerSafety.SleepsUntil`).
- The scheduler probes only generations 1 to 10, so a task created in a slot that has been
  terminated ten times is ready and never runs (`TaskIds.UnseenReachable`,
  `TaskIds.UnseenNeverRuns`); a used slot is seen exactly when its terminations modulo
  65535 are below ten (`TaskIds.VisibleIff`).
- An allocation writes the head's generation over every page of its span, which lowers the
  generation of a page behind a younger head; nothing else lowers one short of the 16-bit
  wrap (`Allocator.GenerationDropsIff`). So an already released memory handle can become
  live again (`Allocator.ReleasedHandleRevives`). It stays dead as long as no allocation
  puts its page behind a head of lower generation than the handle's, no release wraps, and
  no init uncovers the page under that very generation (`Allocator.ReleasedHandleRejected`);
  a handle can be made live without such a call exactly when it is not dead
  (`Allocator.RevivableIff`).
- Initialising the pool or the shared buffers again clears live records and keeps their
  generations, so a handle from before is issued anew to whoever comes next
  (`Allocator.InitReissues`, `SharedBuffers.InitReissues`). A memory handle can come back
  after an init exactly when it is not older than its page (`Allocator.InitRevivesIff`); a
  buffer handle is live again exactly when its slot is occupied after a multiple of 65535
  revocations, and an init is none (`SharedBuffers.HandleLifetime`).
- Removing a service revokes no capability: a service registered under a reused id makes
  the calls its predecessor was granted (`Gates.GrantsOutliveServices`).
- A request within 4095 bytes of 2^64 wraps to zero pages and is reported as allocated
  without reserving anything, under the handle of whatever page 0 holds
  (`Allocator.WrappedSizeReservesNothing`, `Allocator.AllocatedHandleResolves`).
- The assembly and C elevator transitions differ for an unknown target domain, and a
  return to an unknown domain does not restore it (`Svc.ElevatorVariantsAgree`,
  `Svc.ReturnRestoresDomainIff`). The registry accepts any domain id. What the SVC theorems
  say of tables, service, status, return state and stack holds for every domain; what they
  say of the recorded domain and TTBR0 holds while all domains in play are built in.
  `SvcWitness.UnknownDomainRun` is a run from boot with both failures.
- In such a domain TTBR0 is zero and the cached kernel blocks still hit, so the TLB no
  longer agrees with the tables; it agrees exactly when TTBR0 holds a root or no global
  entry is cached (`Tlb.CoherentIff`, `Tlb.UnknownDomainIncoherent`). User code reaches
  nothing there (`SvcTlb.UserReach`).
- `PRIVATE_A_PA` and the linker's choices decide whether a writable page shares a frame with
  a translation table; the tables are out of user reach exactly when none does
  (`Tlb.TablesOutOfReachIff`).
- `PRIVATE_A_PA` is a fixed address (kernel/arch/arm64/mmu.c:62) while the domain record
  names a different page (kernel/arch/arm64/mmu.c:176); the tables use the former, and so
  does the model's `Region.privatePa`.

## Model

| member | source | states |
|---|---|---|
| EevdfLiveness.NoStarvation | kernel/scheduler/eevdf.c:84-194 | while a visible task stays ready and undispatched, at most Patience ticks are charged over any run, where Patience sums the other tasks' distance to its deadline plus one slice each |
| EevdfLiveness.DispatchedInTime | kernel/scheduler/scheduler.c:130-174 | with the scheduler active and unlimited, among any ticks, yields and sleeps, more than Patience ticks and yields after a running task, or more than Patience + 1 ticks from any state, contain the moment the task runs |
| EevdfLiveness.WaitsAtMost | kernel/scheduler/scheduler.c:217-243 | a ready task waits through at most Patience ticks and yields, with any number of sleeps of any length between them |
| EevdfLiveness.WaitsAtMostTicks | kernel/scheduler/scheduler.c:153-174 | from an idle CPU too, at most Patience + 1 ticks |
| SchedulerSafety.WaitsOrRuns | kernel/scheduler/scheduler.c:102-215 | through ticks, yields and sleeps a visible ready task waits to the end or is dispatched on the way |
| EevdfLiveness.StepFalls | kernel/scheduler/scheduler.c:102-243 | every call keeps the deadline waited for, never raises Patience, and lowers it by each tick charged |
| EevdfLiveness.ChosenBeforeDeadline | kernel/scheduler/eevdf.c:157-172 | whatever is chosen while a task waits is not past the waiter's deadline, eligible or caught up |
| EevdfSleep.SleepZeroKeepsCpu | kernel/scheduler/scheduler.c:222-233 | such a task keeps the CPU through sleep(0) with nothing charged, and is in the same position again |
| EevdfSleep.SleepKeepsCpuIff | kernel/scheduler/scheduler.c:222-233 | in every EEVDF state and for every length, sleep leaves its caller current exactly when the scheduler is inactive, the caller wins the selection, or nobody is ready |
| EevdfSleep.SleepZeroKeepsCpuIff | kernel/scheduler/eevdf.c:118-163 | with nobody asleep and the running task not ahead of V_sys, sleep(0) keeps the CPU exactly when every other eligible task loses to its wake-up deadline |
| EevdfSleep.SleepZeroStarves | kernel/scheduler/scheduler.c:222-233 | any number of such sleeps leaves a ready task waiting |
| EevdfSleep.StarvationReachable | kernel/scheduler/eevdf.c:201-214 | from init, two tasks, one tick and two zero-tick sleeps reach that state |
| EevdfLag.RunLag | kernel/scheduler/eevdf.c:84-194 | over every EEVDF run whose weight, slice and policy changes the tasks can afford, every task has vruntime at most V_sys plus its virtual slice, and the running one keeps room for the rest of its slice |
| EevdfLag.StepLag | kernel/scheduler/scheduler.c:102-243 | a call keeps the lag bound exactly unless it sets a weight, slice or policy that a task cannot afford |
| EevdfLag.ChargeLag | kernel/scheduler/eevdf.c:84-106 | a charge spends pending time and never pushes the task past the bound |
| EevdfLag.InitialLag | kernel/scheduler/scheduler.c:70-80 | selecting EEVDF right after init starts within lag |
| EevdfLag.WeightChangeExact | kernel/main/task.c:146-157 | a weight change keeps the bound exactly when what the task, running or not, has had and has left fits its slice at the new weight |
| EevdfLag.SliceChangeExact | kernel/main/task.c:164-173 | the same for a slice change |
| EevdfLag.PolicyChangeExact | kernel/scheduler/eevdf.c:79-82 | selecting EEVDF again, which zeroes V_sys, keeps the bound exactly when every task fits its slice from zero |
| EevdfLagChange.LagBreaks | kernel/main/task.c:146-173 | from init, two tasks and four ticks reach a state within the bound where raising a weight, or cutting a slice, puts a runtime past it |
| EevdfLagChange.ReselectionBreaks | kernel/scheduler/scheduler.c:70-80 | from init, a run within the bound after which selecting EEVDF again puts a runtime past it |
| SchedulerBounds.ReachableStates | kernel/scheduler/scheduler.c:46-58 | every state reachable from init by any API calls satisfies the invariant and the arithmetic bounds |
| SchedulerBounds.RunNeverWraps | kernel/scheduler/eevdf.c:24-106 | no run wraps a virtual clock, deadline or tick counter within 2^47 charged ticks |
| SchedulerLaws.ChargeExact | kernel/scheduler/eevdf.c:84-106 | a tick adds 1 to the task's ticks, 65536/weight to its runtime, and 65536 divided by the summed weights of the visible ready and running tasks to V_sys, takes one tick off its slice, and changes nothing else |
| SchedulerLaws.RequeueExact | kernel/scheduler/eevdf.c:185-194 | a task that loses the CPU saves its frame and, under EEVDF, is lifted to V_sys with a deadline one slice later |
| SchedulerLaws.WakeExact | kernel/scheduler/eevdf.c:201-214 | exactly the visible sleepers that are due become ready, placed likewise |
| SchedulerLaws.EevdfReschedules | kernel/scheduler/eevdf.c:108-183 | the next current task is the ready one not past V_sys with the earliest deadline, else the one of least runtime, lower slot first |
| SchedulerLaws.RotationReschedules | kernel/scheduler/rr.c:35-68 | under Round-Robin it is the ready slot reached first after the last pick |
| SchedulerLaws.RescheduleRuns | kernel/scheduler/eevdf.c:157-172 | the chosen task runs with a full slice and, under EEVDF, a deadline one slice after its runtime |
| SchedulerLaws.RescheduleLeaves | kernel/scheduler/eevdf.c:137-155 | every other task is left as it is, but for a stale deadline under EEVDF |
| SchedulerSteps.TickWithinSlice | kernel/scheduler/scheduler.c:130-138 | a tick within the slice charges the running task, wakes the due sleepers, and changes nothing else |
| SchedulerSteps.LeavesTheCpu | kernel/scheduler/scheduler.c:140-152 | a running task that loses the CPU by a tick or yield is left ready with its frame, no slice, and under EEVDF at the later of its charged runtime and the charged V_sys, its deadline one slice after that |
| SchedulerSteps.NextAfterTurn | kernel/scheduler/scheduler.c:153-174 | when a turn ends under EEVDF the next task is the one that comes next among all then ready |
| SchedulerSteps.WokenIsPlaced | kernel/scheduler/scheduler.c:110-128 | a sleeper woken by a pass and not chosen is left ready at the later of its own time and V_sys |
| SchedulerSteps.PassCounts | kernel/scheduler/scheduler.c:202-243 | a tick, yield or sleep counts its switch; only a tick counts a preemption |
| SchedulerSteps.StopAndInit | kernel/scheduler/scheduler.c:46-68 | after a stop, or after init, no call switches or charges until the next start |
| SchedulerSteps.LimitHolds | kernel/scheduler/scheduler.c:202-213 | no run passes a preemption limit, but for one preemption after each later start |
| SchedulerSteps.FirstPickIsLowest | kernel/scheduler/rr.c:35-68 | after init and a selection of Round-Robin the first tick runs the lowest ready slot |
| SchedulerSteps.SleepLasts | kernel/scheduler/scheduler.c:222-233 | through any calls a sleeper sleeps until its ticks have passed, and the first active tick after that wakes it |
| SchedulerSteps.TerminateExact | kernel/main/task.c:118-130 | termination frees exactly the slot its id names, kills the id, and clears the current task if it was that one |
| SchedulerBounds.SystemTimeMonotone | kernel/scheduler/eevdf.c:165-172 | V_sys never decreases between policy initialisations |
| SchedulerBounds.WorkConserving | kernel/scheduler/scheduler.c:153-174 | after an active pass the current task runs or no visible task is ready |
| SchedulerBounds.RunConserves | kernel/scheduler/rr.c:23-33 | over a run without creation the tasks' tick counters grow by exactly the ticks charged, under either policy |
| Eevdf.WeightSumExact | kernel/scheduler/eevdf.c:58-77 | the 32-bit weight sum is the true sum of the weights of the ready and running tasks in a probed generation |
| Eevdf.GainExact | kernel/scheduler/eevdf.c:93-98 | one tick gains V_sys 65536 divided by that sum |
| Eevdf.SliceCoversTicks | kernel/scheduler/eevdf.c:24-29 | a virtual slice is worth at least its ticks at the rounded per-tick charge |
| Eevdf.PickRefines | kernel/scheduler/eevdf.c:108-183 | the lowest slot of least effective deadline among the eligible, else of least vruntime with V_sys raised to it; null exactly when nothing is ready and curr does not run |
| Eevdf.BestIsEarliest | kernel/scheduler/eevdf.c:137-155 | the scan finds the lowest slot of the earliest effective deadline among the eligible |
| Eevdf.MinIsLeast | kernel/scheduler/eevdf.c:130-135 | the scan finds the lowest ready slot of least vruntime |
| Eevdf.PickFrame | kernel/scheduler/eevdf.c:137-163 | selection changes only deadlines and the chosen task's remaining slice |
| SchedulerSafety.RunKeeps | kernel/scheduler/scheduler.c:102-243 | every API run keeps at most one running task, the current one, which is live and visible, and switches = same-domain + cross-domain |
| SchedulerSafety.StepKeeps | kernel/main/task.c:51-173 | each API call keeps that invariant |
| SchedulerSafety.DoScheduleCounts | kernel/scheduler/scheduler.c:176-214 | counters, service id and preemption limit follow exactly the change of current task and its domain |
| SchedulerSafety.WakesExactlyTheDue | kernel/scheduler/scheduler.c:110-128 | an active pass wakes a visible sleeper exactly when its deadline has come |
| SchedulerSafety.SleepsUntil | kernel/scheduler/scheduler.c:222-233 | a sleeper is left asleep until exactly its ticks have passed, if there are any and the deadline does not wrap; otherwise the same pass wakes it |
| SchedulerSafety.CreateExact | kernel/main/task.c:51-93 | creation fills the lowest free slot with the given service, domain and start frame, weight 1024, slice and quantum 5, zero clocks; leaves the rest; and its id resolves |
| RoundRobinLiveness.BoundedWait | kernel/scheduler/rr.c:35-68 | before a ready task is dispatched the picks come in rotation order, at most fifteen, no slot twice; charged ticks fit the running slice plus the quanta in between |
| RoundRobinLiveness.DispatchedInTime | kernel/scheduler/scheduler.c:130-174 | among any ticks, yields and sleeps, more of them than WaitBound after a running task, or more ticks than IdleBound from an idle CPU, contain the moment the task runs |
| RoundRobinLiveness.WaitsAtMost | kernel/scheduler/rr.c:23-68 | a ready task waits through at most WaitBound ticks, yields and sleeps |
| RoundRobin.NextFromIdle | kernel/scheduler/rr.c:40-58 | with no current task the scan starts at the last pick and then takes the nearest candidate |
| RoundRobinLiveness.StepAdvances | kernel/scheduler/rr.c:23-68 | each call makes at most one pick, strictly closer to the waiter, and uses up the bound |
| RoundRobin.NextIsNearest | kernel/scheduler/rr.c:40-58 | the circular scan picks the candidate nearest after the last pick |
| RoundRobin.NextExists | kernel/scheduler/rr.c:35-58 | it finds one exactly when some slot is a candidate, whatever the start offset |
| RegisterPreservation.ResumedWithItsFrame | kernel/scheduler/scheduler.c:140-200 | a task that left by tick or yield is resumed with exactly the frame it left with, after any calls in between |
| RegisterPreservation.UserFrameSurvives | kernel/scheduler/scheduler.c:140-200 | whatever registers user code leaves behind are the ones it is resumed with |
| RegisterPreservation.StaysWithItsFrame | kernel/scheduler/scheduler.c:158-174 | a task that keeps the CPU keeps its frame |
| RegisterPreservation.NewTaskStartsFresh | kernel/main/task.c:51-93 | a new task first runs at its entry point, on its stack, with zeroed registers |
| Tasks.SaveLoad | kernel/scheduler/scheduler.c:194-200 | saving and restoring the 34 words is lossless |
| Tasks.Resolve | kernel/main/task.c:95-106 | an id resolves exactly when its slot is used under its generation |
| Tasks.FirstFree | kernel/main/task.c:58-61 | the lowest unused or terminated slot |
| Tasks.ClampWeight | kernel/main/task.c:146-157 | zero becomes 1, weights above 10240 become 10240, the others are kept |
| TaskIds.IdLifetime | kernel/main/task.c:95-130 | an id resolves later exactly after a multiple of 65535 terminations of its slot |
| TaskIds.GenerationCounts | kernel/main/task.c:118-130 | a slot's generation is 1 + (terminations mod 65535), over any run without init |
| TaskIds.VisibleIff | kernel/scheduler/scheduler.c:114-127 | a used slot is seen by the scans exactly when its terminations since init modulo 65535 are below ten |
| TaskIds.UnseenNeverRuns | kernel/scheduler/eevdf.c:118-133 | a task past its slot's tenth generation is never made current while the slot is not terminated |
| TaskIds.UnseenReachable | kernel/main/task.c:51-130 | from init, ten tasks created and terminated in slot 0 leave the eleventh ready there and never run |
| SchedulerKernel.Kernel.Probe | kernel/scheduler/scheduler.c:114-127 | trying generations 1..10 finds exactly the visible slots |
| SchedulerKernel.Kernel.WakeSleepers | kernel/scheduler/scheduler.c:110-128 | the wake loop performs the wake phase |
| SchedulerKernel.Kernel.ActiveWeightSum | kernel/scheduler/eevdf.c:58-77 | the scan computes the active weight |
| SchedulerKernel.Kernel.OnTick | kernel/scheduler/eevdf.c:84-106 | the in-place charge is the charge phase, for both policies |
| SchedulerKernel.Kernel.ScanEevdf | kernel/scheduler/eevdf.c:118-155 | one scan refreshes deadlines and finds the best eligible and the least vruntime |
| SchedulerKernel.Kernel.PickEevdf | kernel/scheduler/eevdf.c:108-183 | pick_next in place is the choose phase |
| SchedulerKernel.Kernel.PickRoundRobin | kernel/scheduler/rr.c:35-68 | likewise for Round-Robin |
| SchedulerKernel.Kernel.SaveContext | kernel/scheduler/scheduler.c:140-146 | the register loop stores the whole frame |
| SchedulerKernel.Kernel.LoadContext | kernel/scheduler/scheduler.c:194-200 | the register loop loads the whole context |
| SchedulerKernel.Kernel.SwitchTo | kernel/scheduler/scheduler.c:176-214 | the hand-over performs the switch phase |
| SchedulerKernel.Kernel.DoScheduleCall | kernel/scheduler/scheduler.c:102-215 | do_schedule in place is one step of the machine |
| SchedulerKernel.Kernel.YieldCall | kernel/scheduler/scheduler.c:235-243 | yield is its step |
| SchedulerKernel.Kernel.SleepCall | kernel/scheduler/scheduler.c:222-233 | sleep_current is its step |
| SchedulerKernel.Kernel.CreateCall | kernel/main/task.c:51-93 | create is its step and returns the claimed slot |
| SchedulerKernel.Kernel.TerminateCall | kernel/main/task.c:118-130 | terminate is its step, generation wrap included |
| SchedulerKernel.Kernel.InitCall | kernel/main/task.c:19-49 | init clears every record and the policy state |
| SchedulerKernel.Kernel.TickCall | kernel/scheduler/scheduler.c:217-220 | tick is its step |
| SchedulerKernel.Kernel.SetWeightCall | kernel/main/task.c:146-157 | set_weight is its step |
| SchedulerKernel.Kernel.SetSliceCall | kernel/main/task.c:164-173 | set_slice is its step, slice and quantum together |
| SchedulerKernel.Kernel.SetPolicyCall | kernel/scheduler/scheduler.c:70-80 | set_policy is its step |
| Gates.EveryEntryJustified | ipc/same_layer/gate.c:20-46 | over every call tree each entry that ran was authorised by the tables at its check, for the service the enclosing call entered |
| Gates.ContextRestored | kernel/main/context.c:37-53 | every body hands back the service id and domain it started with |
| Gates.TablesKept | kernel/main/dispatch.c:17-48 | whatever a call tree creates, revokes, registers or removes, the registry and the capability table stay well formed |
| Gates.AdmittedIffAuthorised | ipc/same_layer/validate.c:20-75 | validation admits exactly the calls with active parties, the path's layer relation and a live grant of the direct caller for that target, operation and resource |
| Gates.RefusalExactly | ipc/cross_layer/call.c:24-60 | each status is answered exactly under its own condition, on each path |
| Gates.RefusalIsInert | ipc/elevator/policy.c:18-48 | a call is refused exactly when no authorisation exists, and then nothing changes or runs |
| Gates.GrantsOutliveServices | kernel/main/kernel.c:48-61 | unregistering and re-registering an id keeps every grant, so the successor's calls are authorised exactly if it is active and on a fitting layer |
| GateLaws.RevokedIsNeverUsed | kernel/main/capability.c:117-143 | once an action has revoked a capability, no call of the rest of the tree is admitted on it, short of the wrap of its slot |
| GateLaws.RevokedIsRefused | ipc/same_layer/validate.c:60-65 | after a revocation every path refuses the handle, and every other call is answered as before |
| GateLaws.GrantedIsHeld | kernel/main/capability.c:87-115 | a legal grant is held by its owner at once, for the paths its permissions allow |
| GateLaws.OperationsDecideEntry | kernel/main/dispatch.c:17-48 | no call enters a removed operation, and a registered one is entered by whoever may call it |
| GateLaws.ServicesDecideParties | kernel/main/kernel.c:32-61 | a removed service neither calls nor is called; a new one is found as described |
| GateLaws.GateAnswers | ipc/same_layer/gate.c:36-46 | a gate runs the callee exactly with authority and room, and then answers the callee's status |
| GateLaws.CalleeContext | kernel/main/context.c:37-53 | a callee makes its calls as the target service in the target's domain, or its caller's if that is null |
| Gates.RoomSuffices | kernel/arch/arm64/cpu.c:179-206 | a bounded continuation stack behaves like an unbounded one on every tree that fits |
| GateKernel.Supervisor.GateCall | ipc/elevator/elevator.c:21-34 | the gate with its saved and restored globals is the gate of the machine, for every path and body |
| GateKernel.Supervisor.ExecCall | ipc/cross_layer/call.c:62-75 | a body run against the shared objects is its execution in the machine |
| GateKernel.Supervisor.Enter | kernel/main/context.c:37-47 | enters the target context and returns the previous one |
| GateKernel.Supervisor.EnterDomain | kernel/main/protection.c:39-49 | the invalid domain is ignored |
| GateKernel.Supervisor.ValidateSameLayerCall | ipc/same_layer/validate.c:20-75 | the chain of checks against the live tables |
| GateKernel.Supervisor.ValidateCrossLayerCall | ipc/cross_layer/call.c:24-60 | the chain of checks against the live tables |
| GateKernel.Supervisor.ValidateElevatorCall | ipc/elevator/policy.c:18-48 | the chain of checks against the live tables |
| Svc.CallRefines | kernel/arch/arm64/cpu.c:335-435 | for every body, a call with its whole nested execution leaves the tables, service and status the gate leaves and restores elr, spsr, sp_el0 and the stack; with built-in domains also the gate's domain and TTBR0 |
| Svc.CallRefinesUnbounded | kernel/arch/arm64/cpu.c:307-435 | on trees that fit the free frames it agrees with the unbounded gate |
| Svc.BalancedRestores | kernel/arch/arm64/cpu.c:310-327 | any balanced sequence of calls, returns, kernel actions and user code restores the caller's service, elr, spsr, sp_el0 and stack and delivers the callee's x0; its domain exactly if built in or still current; TTBR0 with built-in domains |
| Svc.RefusedCallOnlySetsX0 | kernel/arch/arm64/cpu.c:389-406 | a call refused by validation or a full stack sets x0 to that status, changes nothing else, and these are the only refusals |
| Svc.RequestIsX0ToX3 | kernel/arch/arm64/cpu.c:337-355 | the request is x0 to x3, each cut to 32 bits |
| Svc.AdmittedEnters | kernel/arch/arm64/cpu.c:402-434 | an admitted call pushes the caller and starts the entry at EL0 as the target service; exactly which domain and TTBR0 it leaves, on either path, for known and unknown domains |
| Svc.FramesKept | kernel/arch/arm64/cpu.c:179-206 | frames below the lowest depth reached are never touched; depth stays at most 8 |
| Svc.ElevatorVariantsAgree | kernel/arch/arm64/elevator.S:41-55 | the exact condition under which the assembly and C transitions agree |
| Svc.ElevatorCallAgrees | kernel/arch/arm64/cpu.c:408-434 | from every good state both variants give the same machine |
| Svc.ReturnRestoresDomainIff | kernel/arch/arm64/mmu.c:616-634 | a return restores the saved domain exactly when it is built in or already current |
| SvcWitness.UnknownDomainRun | kernel/arch/arm64/cpu.c:408-426 | from boot, a run in which the two elevator variants differ on an unknown domain, and one in which the return to it leaves domain A recorded |
| SvcKernel.Handler.SvcCallHandler | kernel/arch/arm64/cpu.c:335-435 | the handler over the frame array performs the call step |
| SvcKernel.Handler.SvcReturnHandler | kernel/arch/arm64/cpu.c:310-327 | likewise for the return step |
| SvcKernel.Handler.PushContext | kernel/arch/arm64/cpu.c:179-196 | pushes unless eight frames are stacked |
| SvcKernel.Handler.EnterDomain | kernel/arch/arm64/mmu.c:616-629 | writes TTBR0 only for a different built-in domain |
| SvcKernel.Handler.ElevatorTransition | kernel/arch/arm64/elevator.S:41-55 | the straight-line stores of the assembly path |
| Registry.RegisterExact | kernel/main/kernel.c:32-46 | registration adds exactly one service and leaves it no inherited operation |
| Registry.UnregisterExact | kernel/main/kernel.c:48-61 | removal drops the service with all its operations and nothing else |
| Registry.OperationsExact | kernel/main/dispatch.c:17-60 | an operation is registered exactly for an active service, a legal free operation and a non-null entry; registration and removal change one entry |
| Registry.ServiceRegistry.UnregisterCall | kernel/main/kernel.c:48-61 | the clearing loop performs the removal |
| Registry.ServiceRegistry.RegisterCall | kernel/main/kernel.c:32-46 | registration in place |
| Registry.ServiceRegistry.DispatchCall | kernel/main/dispatch.c:50-60 | the lookup in place |
| Registry.ServiceRegistry.RegisterOperationCall | kernel/main/dispatch.c:17-34 | the registration in place |
| Registry.ServiceRegistry.UnregisterOperationCall | kernel/main/dispatch.c:36-48 | removal of an operation in place |
| Capabilities.CreateRefines | kernel/main/capability.c:87-115 | create adds one fresh key to the grant map and, for valid arguments, fails only at 4096 grants |
| Capabilities.RevokeRefines | kernel/main/capability.c:117-143 | revoke removes exactly its key if present |
| Capabilities.CheckRefines | kernel/main/capability.c:145-185 | check is a lookup by owner, target, operation, resource and every permission bit |
| Capabilities.Occupancy | kernel/main/capability.c:70-85 | grants plus free slots are always 4096 |
| Capabilities.RunKeeps | kernel/main/capability.c:105-140 | the free stack stays duplicate-free and exactly the inactive slots over every run |
| Capabilities.HandleLifetime | kernel/main/capability.c:117-143 | a handle is live later exactly when its slot is occupied after a multiple of 65535 revocations |
| Capabilities.CapabilityTable.CreateCall | kernel/main/capability.c:87-115 | create on the arrays |
| Capabilities.CapabilityTable.RevokeCall | kernel/main/capability.c:117-143 | revoke on the arrays, generation wrap included |
| Capabilities.CapabilityTable.CheckCall | kernel/main/capability.c:145-185 | check on the arrays |
| Generations.HandleRoundTrip | kernel/main/capability.c:46-68 | encoding and decoding handles undo each other |
| Generations.NextIsGeneration | kernel/main/capability.c:136-138 | one release moves the generation of k releases to that of k + 1 |
| Generations.AfterCounts | kernel/main/capability.c:136-138 | n releases after k the generation is that of k + n releases, skipping zero |
| Allocator.RunKeepsTiling | memory/allocator/fixed.c:61-142 | after any calls, of any size, the blocks tile the pool disjointly and free pages plus block sizes are 64 |
| Allocator.AllocateExact | memory/allocator/fixed.c:61-106 | for every size, allocate takes the lowest free span of the rounded length; each refusal has its exact condition and changes nothing |
| Allocator.AllocatedHandleResolves | memory/allocator/fixed.c:118-126 | the returned handle resolves for its own domain and is denied to every other; a wrapped size returns the handle of page 0 |
| Allocator.ReleaseExact | memory/allocator/fixed.c:108-142 | release frees exactly the block its handle heads; each refusal has its exact condition and changes nothing |
| Allocator.BlocksDisjoint | memory/allocator/fixed.c:89-99 | two active pages are in the same block or in disjoint ones |
| Allocator.PoolConserved | memory/allocator/fixed.c:97-139 | free pages plus block sizes are 64 in any tiled pool |
| Allocator.ReleasedHandleRejected | memory/allocator/fixed.c:108-165 | a released handle is rejected for every domain as long as no allocation puts its page behind a head of lower generation, no release wraps, and no init uncovers the page under its generation |
| Allocator.GenerationDropsIff | memory/allocator/fixed.c:84-99 | a call lowers a page's generation exactly when it allocates the page behind a head of lower generation, or releases it under generation 65535 |
| Allocator.RevivableIff | memory/allocator/fixed.c:61-142 | a handle can be made live by some run without such a call exactly when it is not dead |
| Allocator.DeadStepIff | memory/allocator/fixed.c:50-142 | a dead handle stays dead through a call exactly unless the call is one of those three |
| Allocator.InitRevivesIff | memory/allocator/fixed.c:50-59 | after an init every handle is rejected, and exactly those not older than their page can come back |
| Allocator.InitReissues | memory/allocator/fixed.c:50-59 | the first allocation after an init is given the handle page 0 was live under |
| Allocator.HeadHandleLifetime | memory/allocator/fixed.c:108-142 | for a page that is never interior, a handle resolves later exactly for the owner of its block after a multiple of 65535 releases |
| Allocator.ReleasedHandleRevives | memory/allocator/fixed.c:84-99 | a concrete run in which a released handle becomes live again |
| Allocator.WrappedSizeReservesNothing | memory/allocator/fixed.c:66-68 | the rounding wraps exactly for the top 4095 sizes and then reserves nothing |
| Allocator.PagePool.AllocateCall | memory/allocator/fixed.c:61-106 | the nested scan and span writes perform allocate |
| Allocator.PagePool.ReleaseCall | memory/allocator/fixed.c:108-142 | the span write performs release, in bounds |
| Allocator.PagePool.ResolveCall | memory/allocator/fixed.c:144-165 | the handle checks shared by release and data |
| Allocator.PagePool.InitCall | memory/allocator/fixed.c:50-59 | the clearing loop performs init |
| SharedBuffers.CreateRefines | memory/shared/buffer.c:80-121 | create adds one fresh handle whose payload is all zeros; each refusal has its exact condition |
| SharedBuffers.StoreRefines | memory/shared/buffer.c:123-149 | a write through one handle changes that payload only |
| SharedBuffers.RevokeRefines | memory/shared/buffer.c:151-176 | revoke removes exactly its handle, for the owner only, and zeroes the payload; each refusal has its exact condition |
| SharedBuffers.AccessRefines | memory/shared/buffer.c:123-149 | access exposes exactly the buffer its live handle names, to a caller holding the bound capability; each refusal has its exact condition and exposes nothing |
| SharedBuffers.ReadsLastWrite | memory/shared/buffer.c:123-149 | over any calls while a handle lives, a read returns the last byte stored through it at that offset, or zero |
| SharedBuffers.ApplyKeepsBuffer | memory/shared/buffer.c:80-176 | while a handle stays live no call changes its buffer but a store through it, and that one byte only |
| SharedBuffers.HandleLifetime | memory/shared/buffer.c:151-176 | a handle is live later exactly when its slot is occupied after a multiple of 65535 revocations |
| SharedBuffers.InitReissues | memory/shared/buffer.c:70-78 | an init ends every handle, and the first buffer created after it is given the handle slot 0 was live under |
| SharedBuffers.BufferTable.CreateCall | memory/shared/buffer.c:80-121 | create in place, with its slot search and zeroing loop |
| SharedBuffers.BufferTable.AccessCall | memory/shared/buffer.c:123-149 | access in place |
| SharedBuffers.BufferTable.RevokeCall | memory/shared/buffer.c:151-176 | revoke in place |
| SharedBuffers.BufferTable.InitCall | memory/shared/buffer.c:70-78 | the clearing loop performs init |
| Mmu.WalkIsMapping | kernel/arch/arm64/mmu.c:262-357 | the tables built at init translate every page of every domain as intended, by a three-level walk |
| Mmu.PageBits | kernel/arch/arm64/mmu.c:279-283 | every field of a page descriptor |
| Mmu.BlockBits | kernel/arch/arm64/mmu.c:267-277 | every field of the three block descriptors, their physical addresses included |
| Mmu.TtbrBits | kernel/arch/arm64/mmu.c:582-587 | a TTBR0 word carries its ASID and root |
| Tlb.HitsAgreeWithWalks | kernel/arch/arm64/mmu.c:359-408 | over every run of switches, fills, evictions and user stores without a flush, the tables stay as built and a TLB hit equals a fresh walk exactly when TTBR0 is not zero |
| Tlb.CoherentIff | kernel/arch/arm64/mmu.c:359-408 | after any such run every hit agrees with a walk exactly when TTBR0 holds a root or no global entry is cached |
| Tlb.UnknownDomainIncoherent | kernel/arch/arm64/elevator.S:41-46 | from boot, a cached kernel block and an elevator switch to an unknown domain break the agreement |
| SvcTlb.SystemIsPairedRun | kernel/arch/arm64/cpu.c:310-435 | every run of SVC exceptions is a paired run of domain switches with the same recorded domain and TTBR0 |
| SvcTlb.UserReach | kernel/arch/arm64/mmu.c:288-357 | after any such run from boot, through a TLB hit or a walk, user code reads, writes and executes exactly the pages of its current domain, and nothing in an unknown one |
| Tlb.FillOk | kernel/arch/arm64/mmu.c:362-375 | a filled entry is right for every domain it can serve |
| Tlb.RootFollowsDomain | kernel/arch/arm64/mmu.c:616-644 | TTBR0 is the recorded domain's root, zero for an unknown one, whenever no elevator switch is half done |
| Tlb.ReachExactly | kernel/arch/arm64/mmu.c:288-357 | user code reads, writes and executes exactly the pages its domain was given |
| Tlb.PhysicalExactly | kernel/arch/arm64/mmu.c:262-357 | every page of every domain, by address: kernel RAM and devices at their own physical addresses, service pages on their frames, nothing else mapped |
| Tlb.AttributesExactly | kernel/arch/arm64/mmu.c:262-283 | the memory type, shareability, access, global and execute-never fields of every mapped page |
| Tlb.WritableFramesMeetInShared | kernel/arch/arm64/mmu.c:497-508 | two domains can write the same physical page only if it is the shared one |
| Tlb.TablesOutOfReachIff | kernel/arch/arm64/mmu.c:288-357 | user code can write no translation table exactly when no writable page shares a frame with one |
| Tlb.StoreMissesTables | kernel/arch/arm64/mmu.c:497-508 | on such a layout a user store, through a TLB hit or a walk, leaves every table unchanged |
| Tlb.StoreHitsTables | kernel/arch/arm64/mmu.c:497-508 | where a table shares a writable frame, a user store rewrites it |
| Tlb.SupervisorOnly | kernel/arch/arm64/mmu.c:267-277 | kernel and device blocks are never user-accessible and are equal in all domains |
| MmuKernel.InitDomainTables | kernel/arch/arm64/mmu.c:288-357 | the loops and stores build the three tables |
| MmuKernel.InitDeviceTable | kernel/arch/arm64/mmu.c:499-503 | likewise the device table |
| MmuKernel.StackTopIsMapped | kernel/arch/arm64/mmu.c:229-238 | the installed stack pointer is the top of a page writable in that domain and no other |
| MmuKernel.DomainSwitch.EnterCall | kernel/arch/arm64/mmu.c:616-629 | domain entry in place is its step |
| MmuKernel.DomainSwitch.EnterLeave | kernel/arch/arm64/mmu.c:616-634 | entering and leaving restores both registers exactly when the previous domain is known |
| CircularArray.DynamicArray.Push | shared/dynamic_array/dynamic_array.c:96-117 | push and enqueue append; a failed push leaves the contents unchanged |
| CircularArray.DynamicArray.Resize | shared/dynamic_array/dynamic_array.c:61-94 | growth preserves the order across a wrapped head |
| CircularArray.DynamicArray.Pop | shared/dynamic_array/dynamic_array.c:119-131 | drops the last element |
| CircularArray.DynamicArray.Dequeue | shared/dynamic_array/dynamic_array.c:138-151 | drops the first element |
| CircularArray.DynamicArray.Get | shared/dynamic_array/dynamic_array.c:36-46 | indexes the sequence |
| CircularArray.DynamicArray.Set | shared/dynamic_array/dynamic_array.c:48-59 | updates the sequence at an index |

## Left out

- SchedulerKernel.Kernel.DoScheduleCall: a null trap frame returns at once, like an inactive scheduler, and is not a separate case; the MMU switch of the ARM64 build is the domain entry of `Tlb`.
- SchedulerKernel.Kernel.SwitchTo: the ARM64 build's MMU entry on a cross-domain switch is the domain entry of `Tlb`; at the preemption limit the model stops the scheduler, and the jump back to the kernel is not a step.
- SvcKernel.Handler.SvcReturnHandler: a return with no stacked frame resumes the kernel harness in the source and is a no-op here.
- Combining scheduler switches with the SVC continuation stack: the stack is global, so interleaving tasks would mix their frames.
- Register contents across sleep_current, which marks the task sleeping before the register save that asks for a running task.
- Exact proportional shares under EEVDF: requeueing lifts a task to system time, so only the lag bound and the wait bound are decided.
- lettuce_task_set_current and direct writes to task fields, and null pointers passed for tasks, messages and results.
- The EL2 variants of the MMU code, pointer-authentication instructions (an abstract pair of inverse functions), MTE and POE probing.
- Raw pointers to shared-buffer payloads and pool pages kept after revocation.
- UART, interrupt controller, timer registers, boot and exception assembly, POSIX-lite, the Rust and C client wrappers, benchmarks and scripts.
