# up_unblock_task on ARMv7-M

A model of `up_unblock_task` of the TizenRT kernel for ARMv7-M
(`os/arch/arm/src/armv7-m/up_unblocktask.c`). The scheduler calls it when a
task that waits on a semaphore, a signal or a message queue, or that was
never activated, becomes ready. The function:

- asserts that the task is in one of the blocked states;
- unlinks it from the list of that state (`sched_removeblocked`);
- rearms its round-robin timeslice when round-robin scheduling is
  configured;
- links it into the prioritised ready-to-run list (`sched_addreadytorun`).

If the task lands at the head of that list it is now the highest-priority
task and the CPU must switch to it. There are two ways to do so:

- From an interrupt handler, where `current_regs` is set:
  1. the old task's registers are saved from the interrupt snapshot;
  2. the new head of the list has its MPU regions programmed;
  3. it becomes the running application (`g_umm_app_id`) and is marked
     active for the task monitor;
  4. its registers are restored for the return from the interrupt.
- Otherwise, one `up_switchcontext` call from the old task to the new head.

The model is organised in four modules:

- `Task` (task.dfy) holds the task states and their numeric codes, the
  thread kinds, and the task control block `Tcb`: a class whose `state`,
  `timeslice` and `isActive` fields are written in place.
- `TaskList` (tasklist.dfy) holds the task lists as sequences of `Tcb`
  references, head first. It defines prioritised insertion (`InsertionPoint`,
  `InsertAt`) and unlinking (`Remove`). It also states the list invariant
  `Wf` and proves the lemmas that connect them:
  - insertion keeps the list sorted and without duplicates;
  - unlinking undoes linking in;
  - exactly one task runs, and it is the head;
  - a task is in at most one list.
- `Trace` (trace.dfy) holds the build configuration as a value (`Config`)
  and the hardware primitives as events (`Event`). A primitive is not
  executed: each call appends one event to the scheduler's `trace`.
  `RegionWrites` and `InterruptSwitch` state which events the interrupt
  path produces, and the lemmas about them state their order and when
  each region is written.
- `Sched` (sched.dfy) holds the class `Scheduler`, which has:
  - the ready-to-run list, the blocked lists, the trace, the halt flag and
    the application-id cell as fields;
  - a ghost map `states` of every task the kernel knows, tied to each
    task's `state` field by the invariant `Valid`;
  - the methods `RemoveBlocked`, `AddReadyToRun`, `SetMpuRegions`,
    `SwitchInInterrupt`, `MakeReady` and `UnblockTask`.

  Every method keeps `Valid` and states its whole new state. `Valid` also
  ties the size of every known task's descriptor buffers to
  MPU_NUM_REGIONS.

## Model

| member | source | states |
|---|---|---|
| Task.Code | os/arch/arm/src/armv7-m/up_unblocktask.c:115 | the state codes stay within 0..LAST_BLOCKED_STATE, and a code reaches FIRST_BLOCKED_STATE exactly for the blocked states |
| Task.InBlockedRange | os/arch/arm/src/armv7-m/up_unblocktask.c:115 | the range check on the state code accepts exactly the blocked states and none of Running, ReadyToRun, Pending, Invalid |
| TaskList.InsertAt | os/arch/arm/src/armv7-m/up_unblocktask.c:133 | linking in at position k puts the task at k, keeps the entries before k and shifts the entries from k on by one |
| TaskList.InsertionPoint | os/arch/arm/src/armv7-m/up_unblocktask.c:129-133 | the task is linked in front of the first strictly lower-priority entry and behind every entry of at least its priority |
| TaskList.Remove | os/arch/arm/src/armv7-m/up_unblocktask.c:117-119 | unlinking shortens the list by one exactly when the task was in it, adds nothing, and leaves a list without the task unchanged |
| TaskList.InsertionKeepsSorted | os/arch/arm/src/armv7-m/up_unblocktask.c:129-133 | linking in at the insertion point keeps a priority-sorted list sorted |
| TaskList.InsertMembers | os/arch/arm/src/armv7-m/up_unblocktask.c:129-133 | linking in adds exactly the task and keeps every other entry, as a multiset |
| TaskList.InsertNoDup | os/arch/arm/src/armv7-m/up_unblocktask.c:129-133 | a task not yet in a list appears in it once after linking in |
| TaskList.SortedInsertHead | os/arch/arm/src/armv7-m/up_unblocktask.c:133 | in a sorted list a strictly higher-priority task becomes the head and a strictly lower-priority one never does |
| TaskList.RemoveMembers | os/arch/arm/src/armv7-m/up_unblocktask.c:119 | in a list without duplicates unlinking removes exactly the task and keeps the rest without duplicates |
| TaskList.RemoveInsertAt | os/arch/arm/src/armv7-m/up_unblocktask.c:119-133 | unlinking is the inverse of linking in, wherever the task was linked |
| TaskList.InitialWf | os/arch/arm/src/armv7-m/up_unblocktask.c:111 | the list invariant that this_task() relies on can be established: a kernel with only the running idle task and empty blocked lists satisfies it |
| TaskList.RunningIsHead | os/arch/arm/src/armv7-m/up_unblocktask.c:111 | under the invariant exactly one task is Running, and it is the head of the ready-to-run list |
| TaskList.OneListEach | os/arch/arm/src/armv7-m/up_unblocktask.c:119 | a task in a blocked list is in no other blocked list and not in the ready-to-run list |
| TaskList.RemoveBlockedWf | os/arch/arm/src/armv7-m/up_unblocktask.c:119 | unlinking a blocked task and marking it Invalid keeps the invariant and leaves the task in no list |
| TaskList.InsertReadyWf | os/arch/arm/src/armv7-m/up_unblocktask.c:129-133 | linking an unlisted task into the ready-to-run list at a sorted place keeps the invariant; at the front it runs and the old head becomes ReadyToRun |
| Trace.AppRegionWrites | os/arch/arm/src/armv7-m/up_unblocktask.c:163-165 | the loop over the application regions writes exactly MPU_NUM_REGIONS descriptors, at offsets 0, 3, 6, ... in that order |
| Trace.RegionWrites | os/arch/arm/src/armv7-m/up_unblocktask.c:158-171 | the interrupt path writes nothing without the MPU; otherwise MPU_NUM_REGIONS application descriptors for a task that is not a kernel thread when application separation is configured, plus one stack descriptor with stack-overflow protection; every event is a register write |
| Trace.InterruptSwitch | os/arch/arm/src/armv7-m/up_unblocktask.c:145-185 | the interrupt path's events are the region writes of the new task framed by one save of the old task first and one restore of the new task last |
| Trace.RegionWritesInBounds | os/arch/arm/src/armv7-m/up_unblocktask.c:163-169 | when a task's buffers are sized by the configuration, every region write names a whole three-word descriptor inside its buffer, as the scheduler invariant guarantees for every known task |
| Trace.RegionWritesOfTask | os/arch/arm/src/armv7-m/up_unblocktask.c:158-171 | every region write programs a descriptor of the task switched in, and without the MPU there is none |
| Trace.AppRegionsInOrder | os/arch/arm/src/armv7-m/up_unblocktask.c:159-170 | for a task that is not a kernel thread, the application regions come first, in order, then the stack region if configured |
| Trace.KernelSkipsAppRegions | os/arch/arm/src/armv7-m/up_unblocktask.c:160-167 | a kernel thread gets at most the stack-region write |
| Trace.StackRegionLast | os/arch/arm/src/armv7-m/up_unblocktask.c:168-170 | with stack-overflow protection the stack region is written for every kind of task, and last |
| Trace.AppRegionsWrittenIff | os/arch/arm/src/armv7-m/up_unblocktask.c:159-167 | the application descriptors are written if and only if the MPU and application separation are configured, the task is not a kernel thread and there is at least one region |
| Trace.InterruptSwitchOrder | os/arch/arm/src/armv7-m/up_unblocktask.c:145-185 | on the interrupt path the old task is saved first, the new task is restored last, each once, and every region write lies between them |
| Sched.Scheduler.constructor | os/arch/arm/src/armv7-m/up_unblocktask.c:111 | the scheduler invariant that this_task() relies on can be established: a scheduler with only the running idle task, empty blocked lists and an empty trace is valid |
| Sched.Scheduler.ThisTask | os/arch/arm/src/armv7-m/up_unblocktask.c:111 | this_task() is the head of the ready-to-run list and the one Running task |
| Sched.Scheduler.RemoveBlocked | os/arch/arm/src/armv7-m/up_unblocktask.c:117-119 | the task leaves the list of its state, is Invalid and in no list, and the invariant holds; nothing else changes |
| Sched.Scheduler.AddReadyToRun | os/arch/arm/src/armv7-m/up_unblocktask.c:129-133 | the task joins the ready-to-run list, which stays sorted, and removing it gives back the old list; the result is true exactly when the head changed, which is exactly when the task is the new head; higher priority always switches and lower never does; the new and old head swap Running and ReadyToRun |
| Sched.Scheduler.SetMpuRegions | os/arch/arm/src/armv7-m/up_unblocktask.c:158-171 | the loop appends exactly the region writes of the task switched in (Trace.RegionWrites) |
| Sched.Scheduler.SwitchInInterrupt | os/arch/arm/src/armv7-m/up_unblocktask.c:140-186 | save the old task, then program and restore the head read after insertion; the app id is set only with a store and common binaries; the flag is set only with the task monitor |
| Sched.Scheduler.MakeReady | os/arch/arm/src/armv7-m/up_unblocktask.c:117-133 | the list work: removal from the blocked list, the timeslice reset when RR_INTERVAL > 0, insertion, the head-change result, and the new states of the task and the old head |
| Sched.Scheduler.UnblockTask | os/arch/arm/src/armv7-m/up_unblocktask.c:109-209 | called only while the kernel has not halted; a task outside the blocked range halts the kernel with nothing else changed; otherwise: it leaves the blocked lists and joins the sorted ready-to-run list, Running if it is the new head and ReadyToRun otherwise, with the old head the other way round; the timeslice is rearmed; with no head change nothing else happens; on the interrupt path the trace is save old, regions of the new, restore new, with is_active set on the new task only and the app id set only with a store; otherwise exactly one switch event from the old task to the new one, with no flag or id change |

## Left out

- The register primitives `up_savestate`, `up_restorestate`,
  `up_switchcontext` and `up_mpu_set_register` are not modelled as
  hardware. Each is one event in the trace, and what it does to registers
  is not modelled.
- `up_switchcontext` does not return in the usual sense. The model records
  the switch as an event and returns at once.
- `current_regs` is read only as a flag. It is the parameter `inInterrupt`
  of `UnblockTask`, and the register snapshot it points to is not modelled.
- `save_task_scheduling_status` (CONFIG_TASK_SCHED_HISTORY) is not
  modelled: it only writes a scheduling history.
- `MSEC2TICK(CONFIG_RR_INTERVAL)` is a given value, `Config.rrIntervalTicks`.
  The tick conversion is not modelled.
- The configuration switches are fields of `Config`, so every combination
  is covered at once rather than one build at a time.
- The bodies of `sched_removeblocked` and `sched_addreadytorun` are not
  modelled here. `RemoveBlocked` and `AddReadyToRun` follow their
  documented behaviour: unlink from the state's list, and prioritised
  insertion into the ready-to-run list.
- The pre-emption lock of `sched_addreadytorun` is not modelled. That lock
  parks the task in the pending list and reports no switch.
- AddReadyToRun: its contract does not promise where a task goes among
  tasks of equal priority. Only strictly higher and strictly lower
  priority are pinned down; the body links in behind equal priorities.
- The state codes and the FIRST_BLOCKED_STATE..LAST_BLOCKED_STATE range
  follow the kernel's scheduler header for one configuration: signals and
  message queues enabled, paging disabled. The header is not modelled
  here. In that configuration the blocked states are Inactive and the four
  wait states; other configurations have fewer or more wait states.
- A failed `ASSERT` sets the `halted` flag and `UnblockTask` requires it
  clear, since the panic does not return.
- The task lists are sequences of references rather than doubly linked
  lists. The links (`flink`, `blink`) and their aliasing are not modelled,
  only the order of the entries.
- Interrupt masking, concurrency and re-entry of the scheduler are not
  modelled. A call runs as one atomic step.
- The panic itself is not modelled, only the `halted` flag.
