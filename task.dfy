/** Task control blocks and the task-state machine of the kernel.

    The numbering of the states follows the kernel's scheduler header, in
    a configuration with signals and message queues and without paging
    (the header itself is not modelled here): the ready-to-run states come
    first and the blocked states form one contiguous range, so that the
    range check of up_unblock_task can be written on the codes. */
module Task {

  /** A 32-bit unsigned machine word. */
  newtype uint32 = x: int | 0 <= x < 0x1_0000_0000

  /** The states a task can be in. */
  datatype TaskState =
    | Invalid          // in no list at all
    | Pending          // ready to run, held back by a pre-emption lock
    | ReadyToRun       // in the ready-to-run list, not at its head
    | Running          // at the head of the ready-to-run list
    | Inactive         // blocked: initialised, not yet activated
    | WaitSem          // blocked: waiting for a semaphore
    | WaitSig          // blocked: waiting for a signal
    | WaitMqNotEmpty   // blocked: waiting for a message queue to fill
    | WaitMqNotFull    // blocked: waiting for a message queue to drain

  /** The numeric value of each state (the `task_state` field). */
  function Code(s: TaskState): (c: nat)
    ensures c <= LAST_BLOCKED_STATE
    ensures FIRST_BLOCKED_STATE <= c <==> IsBlocked(s)
  {
    match s
    case Invalid => 0
    case Pending => 1
    case ReadyToRun => 2
    case Running => 3
    case Inactive => 4
    case WaitSem => 5
    case WaitSig => 6
    case WaitMqNotEmpty => 7
    case WaitMqNotFull => 8
  }

  const FIRST_BLOCKED_STATE: nat := 4
  const LAST_BLOCKED_STATE: nat := 8

  /** The blocked states: each of them has a list of its own. */
  predicate IsBlocked(s: TaskState)
  {
    s.Inactive? || s.WaitSem? || s.WaitSig? || s.WaitMqNotEmpty? || s.WaitMqNotFull?
  }

  /** The check up_unblock_task asserts before it does anything: the
      state code lies in FIRST_BLOCKED_STATE..LAST_BLOCKED_STATE inclusive.
      It accepts exactly the blocked states. */
  function InBlockedRange(s: TaskState): (ok: bool)
    ensures ok <==> IsBlocked(s)
    ensures ok ==> s != Running && s != ReadyToRun && s != Invalid && s != Pending
  {
    FIRST_BLOCKED_STATE <= Code(s) && Code(s) <= LAST_BLOCKED_STATE
  }

  /** The thread type held in the TCB flags (TCB_FLAG_TTYPE_MASK). */
  datatype TaskKind = UserTask | Pthread | Kernel

  /** A task control block. The fields that up_unblock_task only reads are
      constants here; `state`, `timeslice` and `isActive` are written. */
  class Tcb {
    const priority: int                // sched_priority, higher runs first
    const kind: TaskKind               // flags & TCB_FLAG_TTYPE_MASK
    const appId: int                   // app_id
    const mpuRegs: array<uint32>       // mpu_regs: 3 words per region descriptor
    const stackMpuRegs: array<uint32>  // stack_mpu_regs: one descriptor
    var state: TaskState               // task_state
    var timeslice: int                 // timeslice, round-robin ticks left
    var isActive: bool                 // is_active, the task-monitor flag

    constructor (priority: int, kind: TaskKind, appId: int, regions: nat, state: TaskState)
      ensures this.priority == priority && this.kind == kind && this.appId == appId
      ensures this.state == state && timeslice == 0 && !isActive
      ensures mpuRegs.Length == 3 * regions && stackMpuRegs.Length == 3
      ensures fresh(mpuRegs) && fresh(stackMpuRegs)
    {
      this.priority := priority;
      this.kind := kind;
      this.appId := appId;
      this.state := state;
      timeslice := 0;
      isActive := false;
      mpuRegs := new uint32[3 * regions];
      stackMpuRegs := new uint32[3];
    }
  }
}
