/** What every run of the scheduler API keeps, under either policy. */
module SchedulerSafety {
  import opened Words
  import opened Tasks
  import opened Scheduler
  import Eevdf

  predicate TaskOk(t: Task) {
    && 1 <= t.generation < TWO16
    && 1 <= t.weight <= MAX_WEIGHT
    && 1 <= t.slice < TWO32 && t.quantum == t.slice
    && t.state != Blocked
  }

  predicate Base(s: Sched) {
    && (forall i: Slot :: TaskOk(s.tasks[i]))
    && (s.current.Some? ==>
          s.tasks[s.current.value].generation <= PROBED_GENERATIONS && !Free(s.tasks[s.current.value]))
    && s.sameDomain < TWO64 && s.crossDomain < TWO64 && s.switches == Add64(s.sameDomain, s.crossDomain)
    && s.preempts < TWO64
  }

  /** At most one task runs and it is the current one; the current task is live and visible. */
  predicate Inv(s: Sched) {
    && Base(s)
    && (forall i: Slot :: s.tasks[i].state == Running ==> s.current == Some(i))
    && (s.current.Some? ==> s.tasks[s.current.value].state in {Running, Sleeping})
  }

  /** Between requeue and dispatch: nothing runs. */
  predicate Parked(s: Sched) {
    Base(s) && forall i: Slot :: s.tasks[i].state != Running
  }

  lemma WakeKeeps(s: Sched)
    requires Inv(s)
    ensures var w := Wake(s); if CurrentRuns(w) then Inv(w) else Parked(w)
  {
  }

  lemma NobodyWakes(s: Sched)
    requires forall i: Slot :: s.tasks[i].state != Sleeping
    ensures Wake(s) == s
  {
    assert Wake(s).tasks == s.tasks;
  }

  lemma ChargeKeeps(s: Sched)
    requires Inv(s) && CurrentRuns(s)
    ensures Inv(Charge(s)) && CurrentRuns(Charge(s))
  {
  }

  lemma RequeueParks(s: Sched)
    requires Inv(s) && CurrentRuns(s)
    ensures Parked(Requeue(s))
  {
  }

  /** Selection changes no state, generation, weight, slice or quantum. */
  lemma ChooseFrame(s: Sched, i: Slot)
    requires Parked(s)
    ensures var t, u := s.tasks[i], Choose(s).s.tasks[i];
      u == t.(remaining := u.remaining, vdeadline := u.vdeadline)
  {
    if s.policy == EEVDF { Eevdf.PickFrame(s.tasks, s.vsys, s.current, i); } else { RotationFrame(s, i); }
  }

  lemma RotationFrame(s: Sched, i: Slot)
    requires s.policy == RR
    ensures Choose(s).s.tasks[i] == s.tasks[i].(remaining := Choose(s).s.tasks[i].remaining)
  {
  }

  lemma ChosenIsCandidate(s: Sched)
    requires Parked(s)
    ensures Choose(s).next.Some? ==> Candidate(s.tasks[Choose(s).next.value])
  {
    Eevdf.PickIsCandidate(s.tasks, s.vsys, s.current);
  }

  lemma ChooseKeeps(s: Sched)
    requires Parked(s)
    ensures Parked(Choose(s).s) && Choose(s).s.current == s.current
    ensures Choose(s).next.Some? ==>
      Candidate(s.tasks[Choose(s).next.value]) && Candidate(Choose(s).s.tasks[Choose(s).next.value])
    ensures forall i: Slot :: Candidate(Choose(s).s.tasks[i]) <==> Candidate(s.tasks[i])
  {
    ChosenIsCandidate(s);
    forall i: Slot
      ensures TaskOk(Choose(s).s.tasks[i]) && Choose(s).s.tasks[i].state == s.tasks[i].state
           && Choose(s).s.tasks[i].generation == s.tasks[i].generation
    {
      assert TaskOk(s.tasks[i]);
      ChooseFrame(s, i);
    }
  }

  lemma AddSmall(a: u64, b: u64)
    ensures Add64(a, b) == if a + b < TWO64 then a + b else a + b - TWO64
  {
  }

  lemma AddOne(a: u64, b: u64)
    ensures Add64(Add64(a, 1), b) == Add64(Add64(a, b), 1) == Add64(a, Add64(b, 1))
  {
    AddSmall(a, 1);
    AddSmall(b, 1);
    AddSmall(a, b);
    AddSmall(Add64(a, 1), b);
    AddSmall(Add64(a, b), 1);
    AddSmall(a, Add64(b, 1));
  }

  lemma SwitchKeeps(s: Sched, n: Slot, preempt: bool)
    requires Parked(s) && Candidate(s.tasks[n])
    ensures Inv(Switch(s, n, preempt)) && CurrentRuns(Switch(s, n, preempt))
  {
    var r := Switch(s, n, preempt);
    assert TaskOk(s.tasks[n]);
    assert forall i: Slot :: i != n ==> r.tasks[i] == s.tasks[i];
    assert r.switches == Add64(r.sameDomain, r.crossDomain) by {
      AddOne(s.sameDomain, s.crossDomain);
    }
  }

  lemma DispatchKeeps(s: Sched, next: Option<Slot>, preempt: bool)
    requires Parked(s)
    requires next.Some? ==> Candidate(s.tasks[next.value])
    ensures Inv(Dispatch(s, next, preempt))
    ensures next.Some? ==> CurrentRuns(Dispatch(s, next, preempt))
  {
    if next.Some? && next != s.current {
      SwitchKeeps(s, next.value, preempt);
    } else if s.current.Some? {
      assert TaskOk(s.tasks[s.current.value]);
    }
  }

  lemma RescheduleKeeps(s: Sched, preempt: bool)
    requires Parked(s)
    ensures Inv(Reschedule(s, preempt))
  {
    ChooseKeeps(s);
    DispatchKeeps(Choose(s).s, Choose(s).next, preempt);
  }

  lemma DoScheduleKeeps(s: Sched, preempt: bool)
    requires Inv(s)
    ensures Inv(DoSchedule(s, preempt))
  {
    if s.active {
      WakeKeeps(s);
      var w := Wake(s);
      if CurrentRuns(w) {
        ChargeKeeps(w);
        RequeueParks(Charge(w));
        if !(preempt && Charge(w).tasks[w.current.value].remaining > 0) {
          RescheduleKeeps(Requeue(Charge(w)), preempt);
        }
      } else {
        RescheduleKeeps(w, preempt);
      }
    }
  }

  lemma EnterKeeps(s: Sched, op: Op)
    requires Inv(s) && IsPass(op)
    ensures Inv(Enter(s, op))
  {
  }

  lemma UpdateKeeps(s: Sched, i: Slot, t: Task)
    requires Inv(s) && TaskOk(t) && t.generation == s.tasks[i].generation && t.state == s.tasks[i].state
    ensures Inv(s.(tasks := s.tasks[i := t]))
  {
  }

  lemma TerminateKeeps(s: Sched, id: u32)
    requires Inv(s)
    ensures Inv(DoTerminate(s, id))
  {
  }

  lemma CreateKeeps(s: Sched, service: u32, domain: u32, pc: u64, sp: u64)
    requires Inv(s)
    ensures Inv(DoCreate(s, service, domain, pc, sp))
  {
  }

  lemma TableOpKeeps(s: Sched, op: Op)
    requires Inv(s) && !IsPass(op)
    ensures Inv(Step(s, op))
  {
    match op
    case Terminate(id) => TerminateKeeps(s, id);
    case Create(svc, dom, pc, sp) => CreateKeeps(s, svc, dom, pc, sp);
    case SetWeight(i, w) =>
      assert TaskOk(s.tasks[i]);
      UpdateKeeps(s, i, s.tasks[i].(weight := ClampWeight(w)));
    case SetSlice(i, n) =>
      assert TaskOk(s.tasks[i]);
      UpdateKeeps(s, i, s.tasks[i].(slice := ClampSlice(n), quantum := ClampSlice(n)));
    case _ => OtherOpKeeps(s, op);
  }

  lemma OtherOpKeeps(s: Sched, op: Op)
    requires Inv(s) && !IsPass(op) && !op.Terminate? && !op.Create? && !op.SetWeight? && !op.SetSlice?
    ensures Inv(Step(s, op))
  {
  }

  /** Every API call keeps the invariant. */
  lemma StepKeeps(s: Sched, op: Op)
    requires Inv(s)
    ensures Inv(Step(s, op))
  {
    if IsPass(op) {
      EnterKeeps(s, op);
      DoScheduleKeeps(Enter(s, op), op.Tick?);
    } else {
      TableOpKeeps(s, op);
    }
  }

  /** Every state of every API run satisfies the invariant. */
  lemma {:induction false} RunKeeps(s: Sched, ops: seq<Op>)
    requires Inv(s)
    ensures Inv(Run(s, ops))
    decreases |ops|
  {
    if ops != [] {
      StepKeeps(s, ops[0]);
      RunKeeps(Step(s, ops[0]), ops[1..]);
    }
  }

  // ----- a ready task leaves its state only by dispatch -----

  lemma RescheduleTakesOrLeaves(s: Sched, preempt: bool, me: Slot)
    requires Parked(s) && Candidate(s.tasks[me]) && s.current != Some(me)
    ensures var r := Reschedule(s, preempt);
      Candidate(r.tasks[me]) || (r.current == Some(me) && r.tasks[me].state == Running)
  {
    ChooseKeeps(s);
    ChooseFrame(s, me);
  }

  lemma DoScheduleTakesOrLeaves(s: Sched, preempt: bool, me: Slot)
    requires Inv(s) && Candidate(s.tasks[me])
    ensures var r := DoSchedule(s, preempt);
      Candidate(r.tasks[me]) || (r.current == Some(me) && r.tasks[me].state == Running)
  {
    if s.active {
      var w := Wake(s);
      WakeKeeps(s);
      assert w.tasks[me] == s.tasks[me] == WakeTask(s, s.tasks[me]);
      if CurrentRuns(w) {
        ChargeKeeps(w);
        RequeueParks(Charge(w));
        RescheduleTakesOrLeaves(Requeue(Charge(w)), preempt, me);
      } else {
        RescheduleTakesOrLeaves(w, preempt, me);
      }
    }
  }

  lemma StepTakesOrLeaves(s: Sched, op: Op, me: Slot)
    requires Inv(s) && Ordinary(op) && Candidate(s.tasks[me])
    ensures var r := Step(s, op); Candidate(r.tasks[me]) || (r.current == Some(me) && r.tasks[me].state == Running)
  {
    if IsPass(op) {
      EnterKeeps(s, op);
      DoScheduleTakesOrLeaves(Enter(s, op), op.Tick?, me);
    }
  }

  /** Through ordinary calls a ready task either waits to the end or is dispatched on the way. */
  lemma {:induction false} WaitsOrRuns(s: Sched, ops: seq<Op>, me: Slot)
    requires Inv(s) && Candidate(s.tasks[me]) && forall k :: 0 <= k < |ops| ==> Ordinary(ops[k])
    ensures Waits(s, ops, me) || Runs(s, ops, me)
    decreases |ops|
  {
    if ops != [] {
      var r := Step(s, ops[0]);
      StepKeeps(s, ops[0]);
      StepTakesOrLeaves(s, ops[0], me);
      if Candidate(r.tasks[me]) {
        WaitsOrRuns(r, ops[1..], me);
        if Runs(r, ops[1..], me) {
          var k :| 0 <= k <= |ops| - 1 && RunsAfter(r, ops[1..], k, me);
          assert ops[..k + 1][1..] == ops[1..][..k];
          assert RunsAfter(s, ops, k + 1, me);
        }
      } else {
        assert ops[..1][1..] == [];
        assert Run(r, []) == r;
        assert RunsAfter(s, ops, 1, me);
      }
    }
  }

  // ----- what one pass reports and whom it wakes -----

  /** The counters, the service id and the preemption limit all follow the change of current task. */
  ghost predicate CountsSwitch(s: Sched, r: Sched, preempt: bool) {
    if r.current == s.current then
      && (r.switches, r.sameDomain, r.crossDomain, r.preempts) == (s.switches, s.sameDomain, s.crossDomain, s.preempts)
      && r.service == s.service && r.active == s.active
    else
      && r.current.Some? && r.service == r.tasks[r.current.value].service
      && r.switches == Add64(s.switches, 1)
      && r.preempts == Add64(s.preempts, if preempt then 1 else 0)
      && (if s.current.Some? && s.tasks[s.current.value].domain == r.tasks[r.current.value].domain
          then r.sameDomain == Add64(s.sameDomain, 1) && r.crossDomain == s.crossDomain
          else r.sameDomain == s.sameDomain && r.crossDomain == Add64(s.crossDomain, 1))
      && (r.active <==> s.active && !(preempt && s.preemptLimit > 0 && r.preempts >= s.preemptLimit))
  }

  lemma DispatchCounts(s: Sched, next: Option<Slot>, preempt: bool)
    requires s.preempts < TWO64
    ensures CountsSwitch(s, Dispatch(s, next, preempt), preempt)
    ensures forall i: Slot :: Dispatch(s, next, preempt).tasks[i].domain == s.tasks[i].domain
  {
  }

  lemma RescheduleCounts(s: Sched, preempt: bool)
    requires Parked(s)
    ensures CountsSwitch(s, Reschedule(s, preempt), preempt)
  {
    forall i: Slot ensures Choose(s).s.tasks[i].domain == s.tasks[i].domain {
      ChooseFrame(s, i);
    }
    DispatchCounts(Choose(s).s, Choose(s).next, preempt);
  }

  /** Every pass: one switch counted per change of current task, on the right side of the domain split. */
  lemma DoScheduleCounts(s: Sched, preempt: bool)
    requires Inv(s)
    ensures CountsSwitch(s, DoSchedule(s, preempt), preempt)
  {
    if s.active {
      var w := Wake(s);
      WakeKeeps(s);
      if s.current.Some? { assert w.tasks[s.current.value] == WakeTask(s, s.tasks[s.current.value]); }
      if CurrentRuns(w) {
        ChargeKeeps(w);
        RequeueParks(Charge(w));
        RescheduleCounts(Requeue(Charge(w)), preempt);
      } else {
        RescheduleCounts(w, preempt);
      }
    }
  }

  lemma DispatchKeepsSleepers(s: Sched, next: Option<Slot>, preempt: bool, i: Slot)
    requires next.Some? ==> s.tasks[next.value].state == Ready
    ensures s.tasks[i].state == Sleeping <==> Dispatch(s, next, preempt).tasks[i].state == Sleeping
    ensures Dispatch(s, next, preempt).tasks[i].wakeAt == s.tasks[i].wakeAt
  {
  }

  lemma RescheduleKeepsSleepers(s: Sched, preempt: bool, i: Slot)
    requires Parked(s)
    ensures s.tasks[i].state == Sleeping <==> Reschedule(s, preempt).tasks[i].state == Sleeping
    ensures Reschedule(s, preempt).tasks[i].wakeAt == s.tasks[i].wakeAt
  {
    ChooseFrame(s, i);
    ChooseKeeps(s);
    DispatchKeepsSleepers(Choose(s).s, Choose(s).next, preempt, i);
  }

  /** An active pass wakes exactly the visible sleepers whose deadline has come. */
  lemma WakesExactlyTheDue(s: Sched, preempt: bool, i: Slot)
    requires Inv(s) && s.active && Visible(s.tasks[i]) && s.tasks[i].state == Sleeping
    ensures DoSchedule(s, preempt).tasks[i].state == Sleeping <==> s.now < s.tasks[i].wakeAt
    ensures DoSchedule(s, preempt).tasks[i].wakeAt == s.tasks[i].wakeAt
  {
    var w := Wake(s);
    WakeKeeps(s);
    assert w.tasks[i] == WakeTask(s, s.tasks[i]);
    if CurrentRuns(w) {
      ChargeKeeps(w);
      RequeueParks(Charge(w));
      RescheduleKeepsSleepers(Requeue(Charge(w)), preempt, i);
    } else {
      RescheduleKeepsSleepers(w, preempt, i);
    }
  }

  /**
   A sleeper is left asleep, due exactly when its ticks have passed, if there are
   any and the deadline fits in 64 bits; otherwise the same pass wakes it.
   */
  lemma SleepsUntil(s: Sched, n: u64)
    requires Inv(s) && s.active && s.current.Some? && s.now < TWO64
    ensures var r, c := Step(s, Sleep(n)), s.current.value;
      && (r.tasks[c].state == Sleeping <==> n > 0 && s.now + n < TWO64)
      && (r.tasks[c].state == Sleeping ==> r.tasks[c].wakeAt == s.now + n)
  {
    SleepMarks(s, n);
    WakesExactlyTheDue(Enter(s, Sleep(n)), false, s.current.value);
  }

  lemma SleepMarks(s: Sched, n: u64)
    requires Inv(s) && s.current.Some? && s.now < TWO64
    ensures var e := Enter(s, Sleep(n));
      && Inv(e) && e.active == s.active && e.now == s.now
      && Visible(e.tasks[s.current.value]) && e.tasks[s.current.value].state == Sleeping
      && e.tasks[s.current.value].wakeAt == if s.now + n < TWO64 then s.now + n else s.now + n - TWO64
  {
    EnterKeeps(s, Sleep(n));
    AddSmall(s.now, n);
    assert TaskOk(s.tasks[s.current.value]);
  }

  /** Creation fills the lowest free slot, or nothing, and its id resolves at once. */
  lemma CreateExact(s: Sched, service: u32, domain: u32, pc: u64, sp: u64)
    requires Inv(s)
    ensures var r, f := Step(s, Create(service, domain, pc, sp)), FirstFree(s.tasks, 0);
      && (f.None? ==> r == s)
      && (f.Some? ==>
            var t := r.tasks[f.value];
            && r == s.(tasks := s.tasks[f.value := t])
            && (t.service, t.domain, t.state, t.generation) == (service, domain, Ready, s.tasks[f.value].generation)
            && (t.weight, t.slice, t.quantum, t.remaining) == (1024, 5, 5, 5)
            && (t.vruntime, t.vdeadline, t.wakeAt, t.ticksRun) == (0, 0, 0, 0)
            && Load(t.context) == StartFrame(pc, sp)
            && t.id < TWO32 && Resolve(r.tasks, t.id) == f)
  {
    var f := FirstFree(s.tasks, 0);
    if f.Some? {
      assert TaskOk(s.tasks[f.value]);
      StartContext(pc, sp);
      NewIdResolves(Step(s, Create(service, domain, pc, sp)).tasks, f.value);
    }
  }

  lemma NewIdResolves(ts: TaskTable, i: Slot)
    requires ts[i].state != Unused && 1 <= ts[i].generation < TWO16 && ts[i].id == TaskId(ts[i].generation, i)
    ensures ts[i].id < TWO32 && Resolve(ts, ts[i].id) == Some(i)
  {
    assert ts[i].id % TWO16 == i && ts[i].id / TWO16 == ts[i].generation;
  }
}
