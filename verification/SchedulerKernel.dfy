/**
 The scheduler as the kernel runs it: a task array and globals updated in place
 by scanning loops.  Every entry point is proved to perform the corresponding
 step of the state machine in Scheduler.
 */
module SchedulerKernel {
  import opened Words
  import opened Tasks
  import opened Scheduler
  import Eevdf
  import RoundRobin

  class Kernel {
    const tasks: array<Task>
    var current: Option<Slot>
    var frame: TrapFrame
    var now: nat
    var active: bool
    var policy: Policy
    var vsys: nat
    var rrLast: Slot
    var preemptLimit: nat
    var switches: nat
    var preempts: nat
    var sameDomain: nat
    var crossDomain: nat
    var service: nat
    ghost var charged: nat

    ghost predicate Valid() {
      tasks.Length == 16
    }

    ghost function Table(): TaskTable
      requires Valid()
      reads tasks
    {
      tasks[..]
    }

    ghost function View(): Sched
      requires Valid()
      reads this, tasks
    {
      Sched(Table(), current, frame, now, active, policy, vsys, rrLast, preemptLimit,
            switches, preempts, sameDomain, crossDomain, service, charged)
    }

    constructor (boot: TrapFrame)
      ensures Valid() && fresh(tasks) && Initial(View())
      ensures policy == RR && vsys == 0
    {
      tasks := new Task[16](i => FreshTask());
      current, frame, now, active := None, boot, 0, false;
      policy, vsys, rrLast, preemptLimit := RR, 0, 0, 0;
      switches, preempts, sameDomain, crossDomain, service := 0, 0, 0, 0, 0;
      charged := 0;
      new;
      assert Table() == InitTable();
      assert View() == DoInit(View());
    }

    method Get(id: u32) returns (r: Option<Slot>)
      requires Valid()
      ensures r == Resolve(Table(), id)
    {
      var slot := id % TWO16;
      if slot >= MAX_TASKS {
        return None;
      }
      if tasks[slot].generation != id / TWO16 || tasks[slot].state == Unused {
        return None;
      }
      return Some(slot);
    }

    /** The inner loop of every scan: try generations 1..10 of a slot. */
    method Probe(slot: Slot) returns (found: bool)
      requires Valid()
      ensures found == Visible(tasks[slot])
    {
      var gen := 1;
      while gen <= PROBED_GENERATIONS
        invariant 1 <= gen <= 11
        invariant 1 <= tasks[slot].generation < gen ==> tasks[slot].state == Unused
      {
        var r := Get(TaskId(gen, slot));
        if r.Some? {
          return true;
        }
        gen := gen + 1;
      }
      return false;
    }

    method WakeSleepers()
      requires Valid()
      modifies tasks
      ensures View() == Wake(old(View()))
    {
      ghost var s := View();
      for slot := 0 to 16
        invariant forall i: Slot :: i < slot ==> tasks[i] == WakeTask(s, s.tasks[i])
        invariant forall i: Slot :: slot <= i ==> tasks[i] == s.tasks[i]
      {
        var found := Probe(slot);
        if found && tasks[slot].state == Sleeping && now >= tasks[slot].wakeAt {
          tasks[slot] := tasks[slot].(state := Ready);
          if policy == EEVDF {
            AlignTask(slot);
          }
        }
      }
      assert Table() == WakeTable(s);
    }

    /** eevdf_on_task_ready and eevdf_on_task_wake. */
    method AlignTask(slot: Slot)
      requires Valid()
      modifies tasks
      ensures Table() == old(Table())[slot := Eevdf.Align(old(tasks[slot]), vsys)]
    {
      if tasks[slot].vruntime < vsys {
        tasks[slot] := tasks[slot].(vruntime := vsys);
      }
      tasks[slot] := tasks[slot].(vdeadline := Eevdf.Deadline(tasks[slot]));
    }

    method ActiveWeightSum() returns (w: nat)
      requires Valid()
      ensures w == Eevdf.ActiveWeight(Table())
    {
      var total := 0;
      for slot := 0 to 16
        invariant total == Eevdf.WeightSum(Table(), slot)
      {
        var found := Probe(slot);
        if found && (tasks[slot].state == Ready || tasks[slot].state == Running) {
          total := Add32(total, if tasks[slot].weight > 0 then tasks[slot].weight else BASE_WEIGHT);
        }
      }
      w := if total > 0 then total else BASE_WEIGHT;
    }

    method OnTick(c: Slot)
      requires Valid() && current == Some(c) && CurrentRuns(View())
      modifies this`vsys, this`charged, tasks
      ensures View() == Charge(old(View()))
    {
      ghost var s := View();
      tasks[c] := tasks[c].(ticksRun := Add64(tasks[c].ticksRun, 1));
      if policy == EEVDF {
        tasks[c] := tasks[c].(vruntime := Add64(tasks[c].vruntime, Eevdf.TickCost(tasks[c])));
      }
      tasks[c] := tasks[c].(remaining := if tasks[c].remaining >= 1 then tasks[c].remaining - 1 else 0);
      if policy == EEVDF {
        assert tasks[c] == Eevdf.ChargeTask(s.tasks[c]);
        assert Table() == s.tasks[c := Eevdf.ChargeTask(s.tasks[c])];
        var w := ActiveWeightSum();
        vsys := Add64(vsys, Eevdf.SCALE / w);
      }
      charged := charged + 1;
      assert Table() == Charge(s).tasks;
    }

    /** Copy the trap frame into the task record, register by register. */
    method SaveContext(c: Slot)
      requires Valid()
      modifies tasks
      ensures Table() == old(Table())[c := old(tasks[c]).(context := Save(frame))]
    {
      var x: seq<nat> := tasks[c].context.x;
      for r := 0 to 30
        invariant |x| == 31
        invariant forall k :: 0 <= k < r ==> x[k] == frame.x[k]
      {
        x := x[r := frame.x[r]];
      }
      x := x[30 := frame.lr];
      assert x == frame.x + [frame.lr];
      tasks[c] := tasks[c].(context := TaskContext(x, frame.spEl0, frame.elr, frame.spsr));
    }

    /** Copy a task's saved registers into the trap frame. */
    method LoadContext(n: Slot)
      requires Valid()
      modifies this`frame
      ensures frame == Load(tasks[n].context)
    {
      var x: seq<nat> := frame.x;
      for r := 0 to 30
        invariant |x| == 30
        invariant forall k :: 0 <= k < r ==> x[k] == tasks[n].context.x[k]
      {
        x := x[r := tasks[n].context.x[r]];
      }
      assert x == tasks[n].context.x[..30];
      frame := TrapFrame(x, tasks[n].context.x[30],
                         tasks[n].context.elr, tasks[n].context.spsr, tasks[n].context.spEl0);
    }

    method RenewTask(slot: Slot)
      requires Valid()
      modifies tasks
      ensures Table() == old(Table())[slot := Eevdf.Renew(old(tasks[slot]))]
    {
      tasks[slot] := tasks[slot].(remaining := tasks[slot].slice);
      tasks[slot] := tasks[slot].(vdeadline := Eevdf.Deadline(tasks[slot]));
    }

    /** An eligible task whose deadline lags its runtime gets a new one. */
    method RefreshDeadline(slot: Slot)
      requires Valid() && Eevdf.Eligible(tasks[slot], vsys)
      modifies tasks
      ensures Table() == old(Table())[slot := Eevdf.RefreshTask(old(tasks[slot]), vsys)]
      ensures tasks[slot].vdeadline == Eevdf.EffectiveDeadline(old(tasks[slot]))
    {
      if tasks[slot].vdeadline < tasks[slot].vruntime {
        tasks[slot] := tasks[slot].(vdeadline := Eevdf.Deadline(tasks[slot]));
      }
    }

    /** The table scan of eevdf_pick_next. */
    method ScanEevdf() returns (best: Option<Slot>, least: Option<Slot>)
      requires Valid()
      modifies tasks
      ensures Table() == Eevdf.Refresh(old(Table()), vsys)
      ensures best == Eevdf.BestEligible(old(Table()), vsys, 16)
      ensures least == Eevdf.MinVruntime(old(Table()), 16)
    {
      ghost var ts := Table();
      best, least := None, None;
      var earliest, minimum := UINT64_MAX, UINT64_MAX;
      for slot := 0 to 16
        invariant forall i: Slot :: i < slot ==> tasks[i] == Eevdf.RefreshTask(ts[i], vsys)
        invariant forall i: Slot :: slot <= i ==> tasks[i] == ts[i]
        invariant best == Eevdf.BestEligible(ts, vsys, slot)
        invariant earliest == if best.None? then UINT64_MAX else Eevdf.EffectiveDeadline(ts[best.value])
        invariant least == Eevdf.MinVruntime(ts, slot)
        invariant minimum == if least.None? then UINT64_MAX else ts[least.value].vruntime
      {
        var found := Probe(slot);
        if found && tasks[slot].state == Ready {
          if tasks[slot].vruntime < minimum {
            minimum, least := tasks[slot].vruntime, Some(slot);
          }
          if tasks[slot].vruntime <= vsys {
            RefreshDeadline(slot);
            if tasks[slot].vdeadline < earliest {
              earliest, best := tasks[slot].vdeadline, Some(slot);
            }
          }
        }
      }
      assert Table() == Eevdf.Refresh(ts, vsys);
    }

    method PickEevdf() returns (next: Option<Slot>)
      requires Valid() && policy == EEVDF
      modifies this`vsys, tasks
      ensures View() == Choose(old(View())).s && next == Choose(old(View())).next
    {
      var best, least := ScanEevdf();
      if best.Some? {
        RenewTask(best.value);
        return best;
      }
      if least.Some? {
        vsys := tasks[least.value].vruntime;
        RenewTask(least.value);
        return least;
      }
      if current.Some? && tasks[current.value].state == Running {
        RenewTask(current.value);
        return current;
      }
      return None;
    }

    /** The circular scan of rr_pick_next: the first probe offset that meets a ready task. */
    method ScanRoundRobin(start: nat) returns (i: nat)
      requires Valid()
      ensures i == RoundRobin.Scan(Table(), rrLast, start, start + 16)
    {
      i := start;
      while i < start + 16
        invariant start <= i <= start + 16
        invariant RoundRobin.Scan(Table(), rrLast, i, start + 16) == RoundRobin.Scan(Table(), rrLast, start, start + 16)
      {
        var found := Probe(RoundRobin.At(rrLast, i));
        if found && tasks[RoundRobin.At(rrLast, i)].state == Ready {
          return;
        }
        i := i + 1;
      }
    }

    method PickRoundRobin() returns (next: Option<Slot>)
      requires Valid() && policy == RR
      modifies this`rrLast, tasks
      ensures View() == Choose(old(View())).s && next == Choose(old(View())).next
    {
      var start := if current.None? then 0 else 1;
      var i := ScanRoundRobin(start);
      assert RoundRobin.Next(Table(), rrLast, current) ==
        if i < start + 16 then Some(RoundRobin.At(rrLast, i)) else None;
      if i < start + 16 {
        var candidate := RoundRobin.At(rrLast, i);
        rrLast := candidate;
        tasks[candidate] := tasks[candidate].(remaining := tasks[candidate].quantum);
        return Some(candidate);
      }
      if current.Some? && tasks[current.value].state == Running {
        tasks[current.value] := tasks[current.value].(remaining := tasks[current.value].quantum);
        return current;
      }
      return None;
    }

    method CountSwitch(n: Slot)
      requires Valid()
      modifies this`sameDomain, this`crossDomain, this`switches
      ensures var same := current.Some? && tasks[n].domain == tasks[current.value].domain;
        && sameDomain == (if same then Add64(old(sameDomain), 1) else old(sameDomain))
        && crossDomain == (if same then old(crossDomain) else Add64(old(crossDomain), 1))
        && switches == Add64(old(switches), 1)
    {
      if current.Some? && tasks[n].domain == tasks[current.value].domain {
        sameDomain := Add64(sameDomain, 1);
      } else {
        crossDomain := Add64(crossDomain, 1);
      }
      switches := Add64(switches, 1);
    }

    method CountPreemption()
      requires Valid()
      modifies this`preempts, this`active
      ensures preempts == Add64(old(preempts), 1)
      ensures active == (old(active) && !(preemptLimit > 0 && preempts >= preemptLimit))
    {
      preempts := Add64(preempts, 1);
      if preemptLimit > 0 && preempts >= preemptLimit {
        active := false;
      }
    }

    /** The identity and the context of the next task. */
    method TakeCpu(n: Slot)
      requires Valid()
      modifies this`service, this`frame, this`current, tasks
      ensures service == old(tasks[n]).service && frame == Load(old(tasks[n]).context) && current == Some(n)
      ensures Table() == old(Table())[n := old(tasks[n]).(state := Running)]
    {
      service := tasks[n].service;
      LoadContext(n);
      tasks[n] := tasks[n].(state := Running);
      current := Some(n);
    }

    method SwitchTo(n: Slot, preempt: bool)
      requires Valid()
      modifies this, tasks
      ensures View() == Switch(old(View()), n, preempt)
    {
      CountSwitch(n);
      TakeCpu(n);
      if preempt {
        CountPreemption();
      }
    }

    /** Steps 3 to 5 of do_schedule. */
    method PickAndDispatch(preempt: bool)
      requires Valid()
      modifies this, tasks
      ensures View() == Reschedule(old(View()), preempt)
    {
      var next: Option<Slot>;
      if policy == EEVDF {
        next := PickEevdf();
      } else {
        next := PickRoundRobin();
      }
      if next.None? {
        if current.Some? && tasks[current.value].state == Ready {
          tasks[current.value] := tasks[current.value].(state := Running, remaining := tasks[current.value].quantum);
        }
        return;
      }
      if next == current {
        tasks[next.value] := tasks[next.value].(state := Running, remaining := tasks[next.value].quantum);
        return;
      }
      SwitchTo(next.value, preempt);
    }

    method DoScheduleCall(preempt: bool)
      requires Valid()
      modifies this, tasks
      ensures View() == DoSchedule(old(View()), preempt)
    {
      if !active {
        return;
      }
      WakeSleepers();
      if current.Some? && tasks[current.value].state == Running {
        var c := current.value;
        OnTick(c);
        if tasks[c].remaining > 0 && preempt {
          return;
        }
        ghost var s := View();
        SaveContext(c);
        tasks[c] := tasks[c].(state := Ready);
        if policy == EEVDF {
          AlignTask(c);
        }
        assert Table() == Requeue(s).tasks;
      }
      PickAndDispatch(preempt);
    }

    method TickCall()
      requires Valid()
      modifies this, tasks
      ensures View() == Step(old(View()), Tick)
    {
      DoScheduleCall(true);
    }

    method YieldCall()
      requires Valid()
      modifies this, tasks
      ensures View() == Step(old(View()), Yield)
    {
      if current.Some? {
        ghost var s := View();
        tasks[current.value] := tasks[current.value].(remaining := 0);
        assert View() == Enter(s, Yield);
        DoScheduleCall(false);
      }
    }

    method SleepCall(ticks: u64)
      requires Valid()
      modifies this, tasks
      ensures View() == Step(old(View()), Sleep(ticks))
    {
      if current.Some? {
        ghost var s := View();
        tasks[current.value] := tasks[current.value].(wakeAt := Add64(now, ticks));
        tasks[current.value] := tasks[current.value].(state := Sleeping);
        assert View() == Enter(s, Sleep(ticks));
        DoScheduleCall(false);
      }
    }

    /** lettuce_task_create: claim the lowest unused or terminated slot. */
    method CreateCall(svc: u32, domain: u32, pc: u64, sp: u64) returns (r: Option<Slot>)
      requires Valid()
      modifies tasks
      ensures View() == Step(old(View()), Create(svc, domain, pc, sp))
      ensures r == FirstFree(old(Table()), 0)
    {
      ghost var s := View();
      for i := 0 to 16
        invariant Table() == s.tasks
        invariant FirstFree(s.tasks, i) == FirstFree(s.tasks, 0)
      {
        if tasks[i].state == Unused || tasks[i].state == Terminated {
          tasks[i] := NewTask(tasks[i], i, svc, domain, pc, sp);
          return Some(i);
        }
      }
      return None;
    }

    method TerminateCall(id: u32)
      requires Valid()
      modifies this`current, tasks
      ensures View() == Step(old(View()), Terminate(id))
    {
      var r := Get(id);
      if r.Some? {
        var i := r.value;
        tasks[i] := tasks[i].(state := Terminated, generation := (tasks[i].generation + 1) % TWO16);
        if tasks[i].generation == 0 {
          tasks[i] := tasks[i].(generation := 1);
        }
        if current == Some(i) {
          current := None;
        }
      }
    }

    method SetWeightCall(slot: Slot, weight: u32)
      requires Valid()
      modifies tasks
      ensures View() == Step(old(View()), SetWeight(slot, weight))
    {
      tasks[slot] :=
        tasks[slot].(weight := if weight == 0 then 1 else if weight > MAX_WEIGHT then MAX_WEIGHT else weight);
    }

    method SetSliceCall(slot: Slot, slice: u32)
      requires Valid()
      modifies tasks
      ensures View() == Step(old(View()), SetSlice(slot, slice))
    {
      var n := if slice == 0 then 1 else slice;
      tasks[slot] := tasks[slot].(slice := n);
      tasks[slot] := tasks[slot].(quantum := n);
    }

    /** The policy's own init hook. */
    method InitPolicy()
      requires Valid()
      modifies this`vsys, this`rrLast
      ensures View() == PolicyInit(old(View()))
    {
      if policy == EEVDF {
        vsys := 0;
      } else {
        rrLast := 0;
      }
    }

    method SetPolicyCall(p: Policy)
      requires Valid()
      modifies this
      ensures View() == Step(old(View()), SetPolicy(p))
    {
      policy := p;
      InitPolicy();
    }

    /** lettuce_task_init_subsystem's clearing loop. */
    method InitTasks()
      requires Valid()
      modifies tasks
      ensures Table() == InitTable()
    {
      for i := 0 to 16
        invariant forall k: Slot :: k < i ==> tasks[k] == FreshTask()
      {
        tasks[i] := FreshTask();
      }
    }

    method ClearRun()
      requires Valid()
      modifies this`current, this`active, this`charged
      modifies this`switches, this`preempts, this`sameDomain, this`crossDomain, this`preemptLimit
      ensures current == None && !active && charged == 0 && preemptLimit == 0
      ensures switches == 0 && preempts == 0 && sameDomain == 0 && crossDomain == 0
    {
      current, active, charged := None, false, 0;
      switches, preempts, sameDomain, crossDomain, preemptLimit := 0, 0, 0, 0, 0;
    }

    method InitCall()
      requires Valid()
      modifies this, tasks
      ensures View() == DoInit(old(View()))
    {
      InitTasks();
      ClearRun();
      InitPolicy();
    }
  }
}
