/**
 The 64-bit fixed-point arithmetic of the scheduler never wraps within 2^47
 charged ticks of init, system virtual time never goes backwards, a pass never
 leaves the CPU idle beside a ready task, and charged ticks are conserved.
 */
module SchedulerBounds {
  import opened Words
  import opened Sums
  import opened Tasks
  import opened Scheduler
  import opened SchedulerSafety
  import Eevdf
  import RoundRobin

  const TICK_LIMIT: nat := 0x8000_0000_0000
  /** The longest slice, in virtual time. */
  const LONGEST: nat := 65536 * 0xFFFF_FFFF

  predicate TaskFits(t: Task, n: nat) {
    && t.vruntime <= Eevdf.SCALE * n
    && t.vdeadline <= Eevdf.SCALE * n + LONGEST
    && t.ticksRun <= n
  }

  /** All virtual times are below 65536 per charged tick, deadlines one slice further. */
  predicate Fits(s: Sched) {
    && s.charged < TICK_LIMIT
    && (s.policy == EEVDF ==> s.vsys <= Eevdf.SCALE * s.charged)
    && forall i: Slot :: TaskFits(s.tasks[i], s.charged)
  }

  predicate Bounded(s: Sched) {
    s.charged < TICK_LIMIT ==> Fits(s)
  }

  lemma DeadlineExact(t: Task, n: nat)
    requires TaskOk(t) && TaskFits(t, n) && n < TICK_LIMIT
    ensures Eevdf.Deadline(t) == t.vruntime + Eevdf.VSlice(t) <= Eevdf.SCALE * n + LONGEST < UINT64_MAX
    ensures Eevdf.VSlice(t) == t.slice * 65536 / t.weight
    ensures t.vruntime <= Eevdf.EffectiveDeadline(t) <= Eevdf.SCALE * n + LONGEST
  {
    Eevdf.SliceCoversTicks(t);
    assert t.slice * Eevdf.SCALE <= LONGEST;
  }

  lemma AlignFits(t: Task, v: nat, n: nat)
    requires TaskOk(t) && TaskFits(t, n) && n < TICK_LIMIT && v <= Eevdf.SCALE * n
    ensures TaskFits(Eevdf.Align(t, v), n)
  {
    var u := t.(vruntime := if t.vruntime < v then v else t.vruntime);
    DeadlineExact(u, n);
  }

  lemma FitsBelowMax(s: Sched)
    requires Fits(s) && forall i: Slot :: TaskOk(s.tasks[i])
    ensures Eevdf.BelowMax(s.tasks)
  {
    forall i: Slot
      ensures s.tasks[i].vruntime < UINT64_MAX && Eevdf.EffectiveDeadline(s.tasks[i]) < UINT64_MAX
    {
      assert TaskFits(s.tasks[i], s.charged);
      DeadlineExact(s.tasks[i], s.charged);
    }
  }

  lemma WakeFits(s: Sched)
    requires Fits(s) && forall i: Slot :: TaskOk(s.tasks[i])
    ensures Fits(Wake(s))
  {
    forall i: Slot ensures TaskFits(Wake(s).tasks[i], s.charged) {
      assert TaskFits(s.tasks[i], s.charged) && TaskOk(s.tasks[i]);
      if Due(s, s.tasks[i]) && s.policy == EEVDF {
        AlignFits(s.tasks[i].(state := Ready), s.vsys, s.charged);
      }
    }
  }

  /** Neither addition of a charge wraps. */
  lemma ChargeFits(s: Sched)
    requires Inv(s) && CurrentRuns(s) && Fits(s) && s.charged + 1 < TICK_LIMIT
    ensures var c := s.current.value;
      && Fits(Charge(s))
      && Charge(s).tasks[c].ticksRun == s.tasks[c].ticksRun + 1
      && (s.policy == EEVDF ==>
            && Charge(s).tasks[c].vruntime == s.tasks[c].vruntime + Eevdf.TickCost(s.tasks[c])
            && Charge(s).vsys == s.vsys + Eevdf.SystemGain(Charge(s).tasks))
      && 6 <= Eevdf.TickCost(s.tasks[c]) <= Eevdf.SCALE
  {
    var c := s.current.value;
    var t := s.tasks[c];
    assert TaskOk(t) && TaskFits(t, s.charged);
    Eevdf.SliceCoversTicks(t);
    AddSmall(t.vruntime, Eevdf.TickCost(t));
    AddSmall(t.ticksRun, 1);
    assert TaskFits(Charge(s).tasks[c], s.charged + 1);
    forall i: Slot ensures TaskFits(Charge(s).tasks[i], s.charged + 1) {
      assert TaskFits(s.tasks[i], s.charged);
    }
  }

  lemma RequeueFits(s: Sched)
    requires Inv(s) && CurrentRuns(s) && Fits(s)
    ensures Fits(Requeue(s))
  {
    var c := s.current.value;
    var t := s.tasks[c].(context := Save(s.frame), state := Ready);
    assert TaskOk(s.tasks[c]) && TaskFits(s.tasks[c], s.charged);
    if s.policy == EEVDF { AlignFits(t, s.vsys, s.charged); }
    forall i: Slot ensures TaskFits(Requeue(s).tasks[i], s.charged) {
      assert TaskFits(s.tasks[i], s.charged);
    }
  }

  /** Choosing keeps the bounds, never lowers V_sys and finds a candidate if there is one. */
  lemma ChooseFits(s: Sched)
    requires Parked(s) && Fits(s)
    ensures Fits(Choose(s).s) && s.vsys <= Choose(s).s.vsys
    ensures Choose(s).next.None? <==> forall i: Slot :: !Candidate(s.tasks[i])
  {
    FitsBelowMax(s);
    if s.policy == EEVDF {
      Eevdf.PickRefines(s.tasks, s.vsys, s.current);
    } else {
      RoundRobin.NextExists(s.tasks, s.rrLast, s.current);
    }
    forall i: Slot ensures TaskFits(Choose(s).s.tasks[i], s.charged) {
      assert TaskFits(s.tasks[i], s.charged);
      DeadlineExact(s.tasks[i], s.charged);
      if s.policy == EEVDF { Eevdf.PickFrame(s.tasks, s.vsys, s.current, i); }
    }
  }

  lemma DispatchFits(s: Sched, next: Option<Slot>, preempt: bool)
    requires Fits(s)
    ensures var r := Dispatch(s, next, preempt);
      Fits(r) && r.vsys == s.vsys && r.charged == s.charged && r.policy == s.policy
  {
  }

  lemma RescheduleFits(s: Sched, preempt: bool)
    requires Parked(s) && Fits(s)
    ensures var r := Reschedule(s, preempt);
      Fits(r) && s.vsys <= r.vsys && r.charged == s.charged && r.policy == s.policy
  {
    ChooseFits(s);
    DispatchFits(Choose(s).s, Choose(s).next, preempt);
  }

  lemma RescheduleWorks(s: Sched, preempt: bool)
    requires Parked(s) && Fits(s)
    ensures var r := Reschedule(s, preempt); CurrentRuns(r) || forall i: Slot :: !Candidate(r.tasks[i])
  {
    ChooseKeeps(s);
    ChooseFits(s);
    var p, n := Choose(s).s, Choose(s).next;
    DispatchKeeps(p, n, preempt);
    if n.None? && p.current.Some? {
      assert !Candidate(p.tasks[p.current.value]);
    }
  }

  lemma DoScheduleFits(s: Sched, preempt: bool)
    requires Inv(s) && Fits(s) && DoSchedule(s, preempt).charged < TICK_LIMIT
    ensures var r := DoSchedule(s, preempt);
      && Fits(r) && s.vsys <= r.vsys && r.policy == s.policy
      && (s.active ==> CurrentRuns(r) || forall i: Slot :: !Candidate(r.tasks[i]))
  {
    if s.active {
      WakeKeeps(s);
      WakeFits(s);
      var w := Wake(s);
      if CurrentRuns(w) {
        var c := Charge(w);
        assert c.charged < TICK_LIMIT by { ScheduleCharges(s, preempt); }
        ChargeKeeps(w);
        ChargeFits(w);
        RequeueParks(c);
        RequeueFits(c);
        RescheduleFits(Requeue(c), preempt);
        RescheduleWorks(Requeue(c), preempt);
      } else {
        RescheduleFits(w, preempt);
        RescheduleWorks(w, preempt);
      }
    }
  }

  /** A pass charges one tick exactly when it is active and finds the current task running. */
  lemma ScheduleCharges(s: Sched, preempt: bool)
    ensures DoSchedule(s, preempt).charged == s.charged + if s.active && CurrentRuns(s) then 1 else 0
    ensures DoSchedule(s, preempt).policy == s.policy
  {
    var w := Wake(s);
    assert CurrentRuns(w) == CurrentRuns(s) by {
      if s.current.Some? { assert w.tasks[s.current.value] == WakeTask(s, s.tasks[s.current.value]); }
    }
    if s.active {
      RescheduleKeepsCount(w, preempt);
      if CurrentRuns(w) { RescheduleKeepsCount(Requeue(Charge(w)), preempt); }
    }
  }

  lemma RescheduleKeepsCount(s: Sched, preempt: bool)
    ensures Reschedule(s, preempt).charged == s.charged && Reschedule(s, preempt).policy == s.policy
  {
  }

  predicate KeepsClock(op: Op) {
    !op.Init? && !op.SetPolicy?
  }

  lemma EnterFits(s: Sched, op: Op)
    requires Fits(s) && IsPass(op)
    ensures Fits(Enter(s, op)) && Enter(s, op).vsys == s.vsys
  {
  }

  lemma PassBounded(s: Sched, op: Op)
    requires Inv(s) && Bounded(s) && IsPass(op)
    ensures s.charged <= Pass(s, op).charged
    ensures Bounded(Pass(s, op)) && Pass(s, op).policy == s.policy
    ensures Pass(s, op).charged < TICK_LIMIT ==> s.vsys <= Pass(s, op).vsys
  {
    var e := Enter(s, op);
    EnterKeeps(s, op);
    ScheduleCharges(e, op.Tick?);
    if Pass(s, op).charged < TICK_LIMIT && !(!op.Tick? && s.current.None?) {
      EnterFits(s, op);
      DoScheduleFits(e, op.Tick?);
    }
  }

  lemma TableOpBounded(s: Sched, op: Op)
    requires Inv(s) && Fits(s) && !IsPass(op)
    ensures Fits(Step(s, op))
  {
    var r := Step(s, op);
    forall i: Slot ensures TaskFits(r.tasks[i], r.charged) {
      assert TaskFits(s.tasks[i], s.charged);
    }
  }

  /** One API call keeps the bounds and, policy initialisation aside, never lowers V_sys. */
  lemma StepBounded(s: Sched, op: Op)
    requires Inv(s) && Bounded(s)
    ensures Bounded(Step(s, op))
    ensures KeepsClock(op) && Step(s, op).charged < TICK_LIMIT ==> s.vsys <= Step(s, op).vsys
    ensures KeepsClock(op) ==> s.charged <= Step(s, op).charged
  {
    if IsPass(op) {
      PassBounded(s, op);
    } else if s.charged < TICK_LIMIT {
      TableOpBounded(s, op);
    }
  }

  /** No API run wraps the virtual clocks within 2^47 charged ticks of an init. */
  lemma {:induction false} RunNeverWraps(s: Sched, ops: seq<Op>)
    requires Inv(s) && Bounded(s)
    ensures Inv(Run(s, ops)) && Bounded(Run(s, ops))
    decreases |ops|
  {
    if ops != [] {
      StepKeeps(s, ops[0]);
      StepBounded(s, ops[0]);
      RunNeverWraps(Step(s, ops[0]), ops[1..]);
    }
  }

  /** V_sys and the charge count only grow between policy initialisations. */
  lemma {:induction false} SystemTimeMonotone(s: Sched, ops: seq<Op>)
    requires Inv(s) && Bounded(s) && Run(s, ops).charged < TICK_LIMIT
    requires forall k :: 0 <= k < |ops| ==> KeepsClock(ops[k])
    ensures s.charged <= Run(s, ops).charged && s.vsys <= Run(s, ops).vsys
    decreases |ops|
  {
    if ops != [] {
      StepKeeps(s, ops[0]);
      StepBounded(s, ops[0]);
      SystemTimeMonotone(Step(s, ops[0]), ops[1..]);
    }
  }

  lemma InitialBounded(s: Sched)
    requires Initial(s)
    ensures Inv(s) && Bounded(s)
  {
  }

  /** Every state reachable from init by any API calls is well formed and within the bounds. */
  lemma {:induction false} ReachableStates(s: Sched, ops: seq<Op>)
    requires Initial(s)
    ensures Inv(Run(s, ops)) && Bounded(Run(s, ops))
  {
    InitialBounded(s);
    RunNeverWraps(s, ops);
  }

  /** After an active pass, the current task runs or no visible task is ready. */
  lemma WorkConserving(s: Sched, op: Op)
    requires Inv(s) && Fits(s) && s.charged + 1 < TICK_LIMIT && s.active && IsPass(op) && (op.Tick? || s.current.Some?)
    ensures CurrentRuns(Step(s, op)) || forall i: Slot :: !Candidate(Step(s, op).tasks[i])
  {
    var e := Enter(s, op);
    EnterKeeps(s, op);
    EnterFits(s, op);
    assert e.charged == s.charged && e.active;
    ScheduleCharges(e, op.Tick?);
    DoScheduleFits(e, op.Tick?);
    assert Step(s, op) == DoSchedule(e, op.Tick?);
  }

  // ----- conservation of charged ticks -----

  function TicksRun(ts: TaskTable): (r: seq<nat>)
    ensures |r| == 16 && forall i: Slot :: r[i] == ts[i].ticksRun
  {
    seq(16, i requires 0 <= i < 16 => ts[i].ticksRun)
  }

  function TotalTicks(s: Sched): nat {
    Sum(TicksRun(s.tasks))
  }

  lemma RescheduleKeepsTicks(s: Sched, preempt: bool)
    ensures TicksRun(Reschedule(s, preempt).tasks) == TicksRun(s.tasks)
  {
    forall i: Slot ensures Choose(s).s.tasks[i].ticksRun == s.tasks[i].ticksRun {
      if s.policy == EEVDF { Eevdf.PickFrame(s.tasks, s.vsys, s.current, i); }
    }
    DispatchKeepsTicks(Choose(s).s, Choose(s).next, preempt);
  }

  lemma DispatchKeepsTicks(s: Sched, next: Option<Slot>, preempt: bool)
    ensures forall i: Slot :: Dispatch(s, next, preempt).tasks[i].ticksRun == s.tasks[i].ticksRun
  {
  }

  lemma ChargeAddsOne(s: Sched)
    requires Inv(s) && CurrentRuns(s) && Fits(s) && s.charged + 1 < TICK_LIMIT
    ensures CurrentRuns(Charge(s)) && TotalTicks(Requeue(Charge(s))) == TotalTicks(Charge(s)) == TotalTicks(s) + 1
  {
    var c, r := s.current.value, Charge(s);
    ChargeFits(s);
    ChargeKeeps(s);
    SumUpdate(TicksRun(s.tasks), c, r.tasks[c].ticksRun);
    assert TicksRun(r.tasks) == TicksRun(s.tasks)[c := r.tasks[c].ticksRun];
    assert TicksRun(Requeue(r).tasks) == TicksRun(r.tasks);
  }

  lemma DoScheduleConserves(s: Sched, preempt: bool)
    requires Inv(s) && Fits(s) && DoSchedule(s, preempt).charged < TICK_LIMIT
    ensures TotalTicks(DoSchedule(s, preempt)) - TotalTicks(s) == DoSchedule(s, preempt).charged - s.charged
  {
    ScheduleCharges(s, preempt);
    if s.active {
      var w := Wake(s);
      WakeKeeps(s);
      WakeFits(s);
      assert TicksRun(w.tasks) == TicksRun(s.tasks);
      if CurrentRuns(w) {
        assert w.charged + 1 < TICK_LIMIT by { assert w.current == s.current && CurrentRuns(s); }
        ChargeAddsOne(w);
        RescheduleKeepsTicks(Requeue(Charge(w)), preempt);
      } else {
        RescheduleKeepsTicks(w, preempt);
      }
    }
  }

  predicate KeepsTaskSet(op: Op) {
    !op.Init? && !op.Create?
  }

  lemma StepConserves(s: Sched, op: Op)
    requires Inv(s) && Bounded(s) && KeepsTaskSet(op) && Step(s, op).charged < TICK_LIMIT && s.charged < TICK_LIMIT
    ensures TotalTicks(Step(s, op)) - TotalTicks(s) == Step(s, op).charged - s.charged
  {
    if IsPass(op) {
      EnterKeeps(s, op);
      EnterFits(s, op);
      assert TicksRun(Enter(s, op).tasks) == TicksRun(s.tasks);
      if op.Tick? || s.current.Some? { DoScheduleConserves(Enter(s, op), op.Tick?); }
    } else {
      TableOpKeepsTicks(s, op);
    }
  }

  lemma TableOpKeepsTicks(s: Sched, op: Op)
    requires !IsPass(op) && KeepsTaskSet(op)
    ensures TicksRun(Step(s, op).tasks) == TicksRun(s.tasks) && Step(s, op).charged == s.charged
  {
  }

  /** Over any run that creates no task, the tasks' tick counters grow by exactly the ticks charged. */
  lemma {:induction false} RunConserves(s: Sched, ops: seq<Op>)
    requires Inv(s) && Bounded(s) && Run(s, ops).charged < TICK_LIMIT
    requires forall k :: 0 <= k < |ops| ==> KeepsTaskSet(ops[k])
    ensures s.charged <= Run(s, ops).charged
    ensures TotalTicks(Run(s, ops)) - TotalTicks(s) == Run(s, ops).charged - s.charged
    decreases |ops|
  {
    if ops != [] {
      var m := Step(s, ops[0]);
      StepKeeps(s, ops[0]);
      StepBounded(s, ops[0]);
      RunConserves(m, ops[1..]);
      assert s.charged <= m.charged;
      StepConserves(s, ops[0]);
    }
  }
}
