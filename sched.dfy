/** The scheduler state that up_unblock_task works on, the two list
    operations it calls (sched_removeblocked, sched_addreadytorun) and
    up_unblock_task itself (os/arch/arm/src/armv7-m/up_unblocktask.c). */
module Sched {
  import opened Task
  import opened TaskList
  import opened Trace

  /** The word g_umm_app_id points to: the id of the running application. */
  class AppIdCell {
    var value: int

    constructor (value: int)
      ensures this.value == value
    {
      this.value := value;
    }
  }

  class Scheduler {
    const cfg: Config
    const appIdCell: AppIdCell?             // g_umm_app_id, null when there is no store
    var readyToRun: seq<Tcb>                // g_readytorun, head first
    var blocked: map<TaskState, seq<Tcb>>   // the list of each blocked state
    var trace: seq<Event>                   // the primitives called so far
    var halted: bool                        // an ASSERT has failed: the kernel panicked
    ghost var states: map<Tcb, TaskState>   // every TCB the kernel knows, with its state

    /** The scheduler invariant: `states` is the state of every task the
        kernel knows, mirrored from its `state` field; the task lists
        satisfy their invariant (TaskList.Wf) for those states; and the
        descriptor buffers of every such task are as large as the
        configuration says (MPU_NUM_REGIONS descriptors). */
    ghost predicate Valid()
      reads this`readyToRun, this`blocked, this`states, states.Keys`state
    {
      && (forall t :: t in states ==> states[t] == t.state)
      && (forall t {:trigger DescriptorsFit(cfg, t)} :: t in states ==> DescriptorsFit(cfg, t))
      && Wf(readyToRun, blocked, states)
    }

    /** A scheduler whose only task is the idle task, running. */
    constructor (cfg: Config, appIdCell: AppIdCell?, idle: Tcb)
      requires idle.state == Running && DescriptorsFit(cfg, idle)
      ensures Valid()
      ensures this.cfg == cfg && this.appIdCell == appIdCell
      ensures readyToRun == [idle] && states == map[idle := Running] && trace == [] && !halted
      ensures forall s :: s in blocked ==> blocked[s] == []
    {
      this.cfg := cfg;
      this.appIdCell := appIdCell;
      var lists := map[Inactive := [], WaitSem := [], WaitSig := [],
                       WaitMqNotEmpty := [], WaitMqNotFull := []];
      InitialWf(idle, lists);
      readyToRun := [idle];
      blocked := lists;
      trace := [];
      halted := false;
      states := map[idle := Running];
    }

    /** this_task(): the head of the ready-to-run list, which is the one
        running task. */
    function ThisTask(): (r: Tcb)
      reads this`readyToRun, this`blocked, this`states, states.Keys`state
      requires Valid()
      ensures r in states && r in readyToRun && r.state == Running
      ensures forall t :: t in states ==> (t.state == Running <==> t == r)
    {
      RunningIsHead(readyToRun, blocked, states);
      readyToRun[0]
    }

    /** sched_removeblocked: unlink a blocked task from the list of its
        state; the task is then in no list. */
    method RemoveBlocked(tcb: Tcb)
      requires Valid() && tcb in states && IsBlocked(tcb.state)
      modifies this`blocked, this`states, tcb`state
      ensures Valid()
      ensures blocked == old(blocked)[old(tcb.state) := Remove(old(blocked[tcb.state]), tcb)]
      ensures states == old(states)[tcb := Invalid]
      ensures tcb.state == Invalid && tcb !in readyToRun
      ensures forall s :: s in blocked ==> tcb !in blocked[s]
    {
      var s := tcb.state;
      RemoveBlockedWf(readyToRun, blocked, states, tcb);
      blocked := blocked[s := Remove(blocked[s], tcb)];
      tcb.state := Invalid;
      states := states[tcb := Invalid];
    }

    /** sched_addreadytorun: link a task that is in no list into the
        ready-to-run list at a place its priority allows, and report
        whether it became the head, that is, the running task. Which place
        it takes among tasks of equal priority is not promised. */
    method AddReadyToRun(tcb: Tcb) returns (switched: bool)
      requires Valid() && tcb in states && tcb !in readyToRun && !IsBlocked(tcb.state)
      modifies this`readyToRun, this`states, tcb`state, (readyToRun[0] as Tcb)`state
      ensures Valid()
      ensures |readyToRun| == |old(readyToRun)| + 1
      ensures tcb in readyToRun && Remove(readyToRun, tcb) == old(readyToRun)
      ensures switched <==> readyToRun[0] != old(readyToRun[0])
      ensures switched <==> readyToRun[0] == tcb
      ensures tcb.priority > old(readyToRun[0]).priority ==> switched
      ensures tcb.priority < old(readyToRun[0]).priority ==> !switched
      ensures states == if switched then old(states)[tcb := Running][old(readyToRun[0]) := ReadyToRun]
                        else old(states)[tcb := ReadyToRun]
      ensures tcb.state == if switched then Running else ReadyToRun
      ensures old(readyToRun[0]).state == if switched then ReadyToRun else Running
    {
      var head := readyToRun[0];
      var k := InsertionPoint(readyToRun, tcb);
      InsertionKeepsSorted(readyToRun, tcb);
      InsertHead(readyToRun, k, tcb);
      SortedInsertHead(readyToRun, k, tcb);
      InsertReadyWf(readyToRun, blocked, states, tcb, k);
      RemoveInsertAt(readyToRun, k, tcb);
      readyToRun := InsertAt(readyToRun, k, tcb);
      if k == 0 {
        tcb.state := Running;
        head.state := ReadyToRun;
        switched := true;
        states := states[tcb := Running][head := ReadyToRun];
      } else {
        tcb.state := ReadyToRun;
        switched := false;
        states := states[tcb := ReadyToRun];
      }
    }

    /** The MPU programming of the interrupt path: the application region
        descriptors of a task that is not a kernel thread, walked three
        words at a time, then the stack-overflow region. */
    method SetMpuRegions(rtcb: Tcb)
      modifies this`trace
      ensures trace == old(trace) + RegionWrites(cfg, rtcb)
    {
      if cfg.armv7mMpu {
        if rtcb.kind != Kernel {
          if cfg.appBinarySeparation {
            var i := 0;
            ghost var before := trace;
            while i < 3 * cfg.mpuNumRegions
              modifies this`trace
              invariant 0 <= i <= 3 * cfg.mpuNumRegions && i % 3 == 0
              invariant trace == before + AppRegionWrites(rtcb.mpuRegs, i / 3)
            {
              trace := trace + [MpuSetRegister(rtcb.mpuRegs, i)];
              i := i + 3;
            }
          }
        }
        if cfg.mpuStackOverflowProtection {
          trace := trace + [MpuSetRegister(rtcb.stackMpuRegs, 0)];
        }
      }
    }

    /** The interrupt path of a context switch. The registers of the old
        task `rtcb` are saved from the interrupt snapshot; then the new
        head of the ready-to-run list has its regions programmed, becomes
        the running application and is marked active, and its registers
        are restored for the return from the interrupt. */
    method SwitchInInterrupt(rtcb: Tcb)
      requires 0 < |readyToRun|
      modifies this`trace, (readyToRun[0] as Tcb)`isActive, appIdCell
      ensures trace == old(trace) + InterruptSwitch(cfg, rtcb, readyToRun[0])
      ensures readyToRun[0].isActive == (cfg.taskMonitor || old(readyToRun[0].isActive))
      ensures appIdCell != null ==>
                appIdCell.value == if cfg.supportCommonBinary then readyToRun[0].appId
                                   else old(appIdCell.value)
    {
      var rtcb := rtcb;
      trace := trace + [SaveState(rtcb)];

      rtcb := readyToRun[0];

      SetMpuRegions(rtcb);

      if cfg.supportCommonBinary && appIdCell != null {
        appIdCell.value := rtcb.appId;
      }
      if cfg.taskMonitor {
        rtcb.isActive := true;
      }

      trace := trace + [RestoreState(rtcb)];
    }

    /** The list work of up_unblock_task: unlink the blocked task, rearm
        its timeslice when round-robin scheduling is configured, link it
        into the ready-to-run list; report whether it is now the head. */
    method MakeReady(tcb: Tcb) returns (switched: bool)
      requires Valid() && tcb in states && IsBlocked(tcb.state)
      modifies this`blocked, this`readyToRun, this`states, tcb`state, tcb`timeslice,
               (readyToRun[0] as Tcb)`state
      ensures Valid() && states.Keys == old(states.Keys)
      ensures old(readyToRun[0]) != tcb
      ensures blocked == old(blocked)[old(tcb.state) := Remove(old(blocked[tcb.state]), tcb)]
      ensures forall s :: s in blocked ==> tcb !in blocked[s]
      ensures tcb in readyToRun && Remove(readyToRun, tcb) == old(readyToRun)
      ensures tcb.timeslice == if cfg.rrInterval > 0 then cfg.rrIntervalTicks else old(tcb.timeslice)
      ensures switched <==> readyToRun[0] != old(readyToRun[0])
      ensures switched <==> readyToRun[0] == tcb
      ensures tcb.priority > old(readyToRun[0]).priority ==> switched
      ensures tcb.priority < old(readyToRun[0]).priority ==> !switched
      ensures tcb.state == if switched then Running else ReadyToRun
      ensures old(readyToRun[0]).state == if switched then ReadyToRun else Running
    {
      RemoveBlocked(tcb);

      if cfg.rrInterval > 0 {
        tcb.timeslice := cfg.rrIntervalTicks;
      }

      switched := AddReadyToRun(tcb);
    }

    /** up_unblock_task: move a blocked task to the ready-to-run list and,
        when it is now the highest-priority task, switch to it.
        `inInterrupt` says whether current_regs is set, that is, whether
        the call comes from an interrupt handler. */
    method UnblockTask(tcb: Tcb, inInterrupt: bool)
      requires Valid() && tcb in states && !halted
      modifies this`blocked, this`readyToRun, this`states, this`trace, this`halted,
               tcb`state, tcb`timeslice, tcb`isActive, (readyToRun[0] as Tcb)`state, appIdCell
      ensures Valid() && states.Keys == old(states.Keys)
      // A task in no blocked state fails the assertion: the kernel halts
      // and nothing else changes.
      ensures !InBlockedRange(old(tcb.state)) ==>
        && halted
        && readyToRun == old(readyToRun) && blocked == old(blocked) && states == old(states)
        && trace == old(trace) && tcb.timeslice == old(tcb.timeslice)
        && tcb.isActive == old(tcb.isActive)
        && (appIdCell != null ==> appIdCell.value == old(appIdCell.value))
      // Otherwise the task leaves its blocked list and is linked into the
      // ready-to-run list, which stays sorted (Valid); the old head keeps
      // its monitor flag.
      ensures InBlockedRange(old(tcb.state)) ==>
        && !halted
        && old(readyToRun[0]) != tcb
        && blocked == old(blocked)[old(tcb.state) := Remove(old(blocked[tcb.state]), tcb)]
        && (forall s :: s in blocked ==> tcb !in blocked[s])
        && tcb in readyToRun && Remove(readyToRun, tcb) == old(readyToRun)
        && old(readyToRun[0]).isActive == old(readyToRun[0].isActive)
      // The timeslice is rearmed whatever the kind of the task.
      ensures InBlockedRange(old(tcb.state)) ==>
        tcb.timeslice == if cfg.rrInterval > 0 then cfg.rrIntervalTicks else old(tcb.timeslice)
      // The head changes exactly when the unblocked task became the head.
      ensures InBlockedRange(old(tcb.state)) ==>
        && (readyToRun[0] != old(readyToRun[0]) <==> readyToRun[0] == tcb)
        && (tcb.priority > old(readyToRun[0]).priority ==> readyToRun[0] == tcb)
        && (tcb.priority < old(readyToRun[0]).priority ==> readyToRun[0] == old(readyToRun[0]))
      // The unblocked task runs if it is the new head and is ready to run
      // otherwise; the old head is then ready to run, or still running.
      ensures InBlockedRange(old(tcb.state)) ==>
        && tcb.state == (if readyToRun[0] == tcb then Running else ReadyToRun)
        && old(readyToRun[0]).state == (if readyToRun[0] == tcb then ReadyToRun else Running)
      // No head change: no primitive is called and no flag or id changes.
      ensures InBlockedRange(old(tcb.state)) && readyToRun[0] == old(readyToRun[0]) ==>
        && trace == old(trace)
        && tcb.isActive == old(tcb.isActive)
        && (appIdCell != null ==> appIdCell.value == old(appIdCell.value))
      // Interrupt path: save the old task from the snapshot, program the
      // new task's regions, restore the new task; set the app id and the
      // monitor flag of the new task when configured.
      ensures InBlockedRange(old(tcb.state)) && readyToRun[0] != old(readyToRun[0]) && inInterrupt ==>
        && trace == old(trace) + InterruptSwitch(cfg, old(readyToRun[0]), tcb)
        && tcb.isActive == (cfg.taskMonitor || old(tcb.isActive))
        && (appIdCell != null ==>
              appIdCell.value == if cfg.supportCommonBinary then tcb.appId else old(appIdCell.value))
      // Normal path: one context switch from the old task to the new head.
      ensures InBlockedRange(old(tcb.state)) && readyToRun[0] != old(readyToRun[0]) && !inInterrupt ==>
        && trace == old(trace) + [SwitchContext(old(readyToRun[0]), tcb)]
        && tcb.isActive == old(tcb.isActive)
        && (appIdCell != null ==> appIdCell.value == old(appIdCell.value))
    {
      var rtcb := readyToRun[0];

      if !InBlockedRange(tcb.state) {
        halted := true;
        return;
      }

      var switched := MakeReady(tcb);
      if switched {
        if inInterrupt {
          SwitchInInterrupt(rtcb);
        } else {
          var nexttcb := readyToRun[0];
          trace := trace + [SwitchContext(rtcb, nexttcb)];
        }
      }
    }
  }
}
