/** The build configuration and the hardware primitives up_unblock_task
    calls. A primitive is not executed: each call appends one event to the
    scheduler's trace, and the trace is what the contracts speak about. */
module Trace {
  import opened Task

  /** The configuration switches the code is compiled under. */
  datatype Config = Config(
    rrInterval: int,                  // CONFIG_RR_INTERVAL, milliseconds
    rrIntervalTicks: int,             // MSEC2TICK(CONFIG_RR_INTERVAL), a given value
    armv7mMpu: bool,                  // CONFIG_ARMV7M_MPU
    appBinarySeparation: bool,        // CONFIG_APP_BINARY_SEPARATION
    mpuStackOverflowProtection: bool, // CONFIG_MPU_STACK_OVERFLOW_PROTECTION
    supportCommonBinary: bool,        // CONFIG_SUPPORT_COMMON_BINARY
    taskMonitor: bool,                // CONFIG_TASK_MONITOR
    mpuNumRegions: nat)               // MPU_NUM_REGIONS

  /** One call of a register-transfer or MPU primitive. */
  datatype Event =
    | SaveState(task: Tcb)                          // up_savestate(task->xcp.regs)
    | RestoreState(task: Tcb)                       // up_restorestate(task->xcp.regs)
    | SwitchContext(from: Tcb, to: Tcb)             // up_switchcontext(from->xcp.regs, to->xcp.regs)
    | MpuSetRegister(regs: array<uint32>, offset: nat) // up_mpu_set_register(&regs[offset])

  /** The writes of the loop over the application regions, one descriptor
      of three words each: offsets 0, 3, 6, ... of `regs`, in that order. */
  function AppRegionWrites(regs: array<uint32>, n: nat): (es: seq<Event>)
    ensures |es| == n
    ensures forall i :: 0 <= i < n ==> es[i] == MpuSetRegister(regs, 3 * i)
  {
    if n == 0 then [] else AppRegionWrites(regs, n - 1) + [MpuSetRegister(regs, 3 * (n - 1))]
  }

  /** The MPU programming for the task being switched in: nothing without
      the MPU; otherwise the application regions of a task that is not a
      kernel thread when application separation is configured, and the
      stack region when stack-overflow protection is. */
  function RegionWrites(cfg: Config, t: Tcb): (es: seq<Event>)
    ensures |es| == if !cfg.armv7mMpu then 0
                    else (if t.kind != Kernel && cfg.appBinarySeparation then cfg.mpuNumRegions else 0)
                         + (if cfg.mpuStackOverflowProtection then 1 else 0)
    ensures forall i :: 0 <= i < |es| ==> es[i].MpuSetRegister?
  {
    if !cfg.armv7mMpu then []
    else
      (if t.kind != Kernel && cfg.appBinarySeparation
       then AppRegionWrites(t.mpuRegs, cfg.mpuNumRegions) else [])
      + (if cfg.mpuStackOverflowProtection then [MpuSetRegister(t.stackMpuRegs, 0)] else [])
  }

  /** The primitives called on the interrupt path: save the old task from
      the interrupt snapshot, program the new task's regions, restore the
      new task. */
  function InterruptSwitch(cfg: Config, from: Tcb, to: Tcb): (es: seq<Event>)
    ensures |es| == |RegionWrites(cfg, to)| + 2
    ensures es[0] == SaveState(from) && es[|es| - 1] == RestoreState(to)
  {
    [SaveState(from)] + RegionWrites(cfg, to) + [RestoreState(to)]
  }

  /** The descriptor buffers of a task have the sizes the configuration
      gives them: three words per application region, three for the stack
      region. */
  predicate DescriptorsFit(cfg: Config, t: Tcb)
  {
    t.mpuRegs.Length == 3 * cfg.mpuNumRegions && t.stackMpuRegs.Length == 3
  }

  /** For a task whose buffers fit the configuration, every region write
      names a whole three-word descriptor inside its buffer. */
  lemma RegionWritesInBounds(cfg: Config, t: Tcb)
    requires DescriptorsFit(cfg, t)
    ensures forall e :: e in RegionWrites(cfg, t) ==> e.MpuSetRegister? && e.offset + 3 <= e.regs.Length
  {
  }

  /** Every region write programs a descriptor of the task switched in, and
      there is none without the MPU. */
  lemma RegionWritesOfTask(cfg: Config, t: Tcb)
    ensures forall e :: e in RegionWrites(cfg, t) ==>
              e.MpuSetRegister? && (e.regs == t.mpuRegs || e.regs == t.stackMpuRegs)
    ensures !cfg.armv7mMpu ==> RegionWrites(cfg, t) == []
  {
  }

  /** For a task that is not a kernel thread, with application separation,
      the writes are exactly MPU_NUM_REGIONS descriptors at offsets 0, 3,
      6, ..., followed by the stack region when that is configured. */
  lemma AppRegionsInOrder(cfg: Config, t: Tcb)
    requires cfg.armv7mMpu && cfg.appBinarySeparation && t.kind != Kernel
    ensures |RegionWrites(cfg, t)| ==
              cfg.mpuNumRegions + (if cfg.mpuStackOverflowProtection then 1 else 0)
    ensures forall i :: 0 <= i < cfg.mpuNumRegions ==>
              RegionWrites(cfg, t)[i] == MpuSetRegister(t.mpuRegs, 3 * i)
  {
  }

  /** A kernel thread never has its application regions written: at most
      the stack region is. */
  lemma KernelSkipsAppRegions(cfg: Config, t: Tcb)
    requires t.kind == Kernel
    ensures RegionWrites(cfg, t) ==
              if cfg.armv7mMpu && cfg.mpuStackOverflowProtection
              then [MpuSetRegister(t.stackMpuRegs, 0)] else []
  {
  }

  /** The stack-overflow region is written whatever the kind of the task,
      and it is the last region written. */
  lemma StackRegionLast(cfg: Config, t: Tcb)
    requires cfg.armv7mMpu && cfg.mpuStackOverflowProtection
    ensures |RegionWrites(cfg, t)| > 0
    ensures RegionWrites(cfg, t)[|RegionWrites(cfg, t)| - 1] == MpuSetRegister(t.stackMpuRegs, 0)
  {
  }

  /** The application descriptors of a task are written if and only if the
      MPU and application separation are configured, the task is not a
      kernel thread and there is at least one region. */
  lemma AppRegionsWrittenIff(cfg: Config, t: Tcb)
    requires t.mpuRegs != t.stackMpuRegs
    ensures (exists i :: 0 <= i < |RegionWrites(cfg, t)| && RegionWrites(cfg, t)[i].regs == t.mpuRegs)
            <==> cfg.armv7mMpu && cfg.appBinarySeparation && t.kind != Kernel && cfg.mpuNumRegions > 0
  {
    var es := RegionWrites(cfg, t);
    if cfg.armv7mMpu && cfg.appBinarySeparation && t.kind != Kernel && cfg.mpuNumRegions > 0 {
      assert es[0] == MpuSetRegister(t.mpuRegs, 0);
    } else {
      forall i | 0 <= i < |es| ensures es[i].regs != t.mpuRegs {
        if cfg.armv7mMpu && cfg.appBinarySeparation && t.kind != Kernel {
          assert |AppRegionWrites(t.mpuRegs, cfg.mpuNumRegions)| == 0;
        }
      }
    }
  }

  /** On the interrupt path the old task is saved first, the new task is
      restored last, and each happens once: every region write lies
      strictly between the two. */
  lemma InterruptSwitchOrder(cfg: Config, from: Tcb, to: Tcb)
    ensures var es := InterruptSwitch(cfg, from, to);
      |es| == |RegionWrites(cfg, to)| + 2 &&
      es[0] == SaveState(from) && es[|es| - 1] == RestoreState(to) &&
      (forall i :: 0 < i < |es| - 1 ==> es[i] == RegionWrites(cfg, to)[i - 1]) &&
      (forall i :: 0 <= i < |es| && !es[i].MpuSetRegister? ==> i == 0 || i == |es| - 1)
  {
  }
}
