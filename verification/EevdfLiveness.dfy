/**
 EEVDF does not starve a ready task: the ticks charged before it is dispatched
 are bounded by a measure of how far the other tasks are from its deadline.
 */
module EevdfLiveness {
  import opened Words
  import opened Sums
  import opened Tasks
  import opened Scheduler
  import opened SchedulerSafety
  import opened SchedulerBounds
  import Eevdf

  /** The ticks another task may still be charged before it passes deadline d and ends its slice. */
  function Claim(t: Task, d: nat): nat {
    if t.vruntime <= d then d + 1 - t.vruntime + Max(t.slice, t.remaining) else 0
  }

  function Claims(ts: TaskTable, me: Slot, d: nat): (r: seq<nat>)
    ensures |r| == 16 && forall i: Slot :: r[i] == if i == me then 0 else Claim(ts[i], d)
  {
    seq(16, i requires 0 <= i < 16 => if i == me then 0 else Claim(ts[i], d))
  }

  /** What is left of the slice of a running task that is already past d. */
  function Overrun(s: Sched, d: nat): nat {
    if CurrentRuns(s) && s.tasks[s.current.value].vruntime > d then Max(s.tasks[s.current.value].remaining, 1) else 0
  }

  function Measure(s: Sched, me: Slot, d: nat): nat {
    Sum(Claims(s.tasks, me, d)) + Overrun(s, d)
  }

  /** The bound on charged ticks before the ready task in slot me is dispatched. */
  function Patience(s: Sched, me: Slot): nat {
    Measure(s, me, Eevdf.EffectiveDeadline(s.tasks[me]))
  }

  /** Calls under which the wait is measured: no task appears, no slice grows, the waiter keeps its weight. */
  predicate Undisturbed(op: Op, me: Slot) {
    match op
    case Init => false
    case SetPolicy(_) => false
    case Create(_, _, _, _) => false
    case SetSlice(_, _) => false
    case SetWeight(i, _) => i != me
    case _ => true
  }

  predicate UnderEevdf(s: Sched) {
    Inv(s) && Fits(s) && s.policy == EEVDF
  }

  lemma ClaimsFall(ts: TaskTable, us: TaskTable, me: Slot, d: nat)
    requires forall i: Slot :: i != me ==> Claim(us[i], d) <= Claim(ts[i], d)
    ensures Sum(Claims(us, me, d)) <= Sum(Claims(ts, me, d))
  {
    SumMonotone(Claims(us, me, d), Claims(ts, me, d));
  }

  lemma WakeFalls(s: Sched, me: Slot, d: nat)
    ensures Measure(Wake(s), me, d) <= Measure(s, me, d)
    ensures Candidate(s.tasks[me]) ==> Wake(s).tasks[me] == s.tasks[me]
  {
    var w := Wake(s);
    forall i: Slot | i != me ensures Claim(w.tasks[i], d) <= Claim(s.tasks[i], d) {
      assert w.tasks[i] == WakeTask(s, s.tasks[i]);
    }
    ClaimsFall(s.tasks, w.tasks, me, d);
    if s.current.Some? { assert w.tasks[s.current.value] == WakeTask(s, s.tasks[s.current.value]); }
  }

  /** A charge spends at least one unit of the measure while the task keeps the CPU ... */
  lemma ChargeSpends(s: Sched, me: Slot, d: nat)
    requires UnderEevdf(s) && CurrentRuns(s) && s.charged + 1 < TICK_LIMIT && s.current != Some(me)
    requires Charge(s).tasks[s.current.value].remaining > 0
    ensures Measure(Charge(s), me, d) + 1 <= Measure(s, me, d)
  {
    var c, r := s.current.value, Charge(s);
    ChargeFits(s);
    ChargeKeeps(s);
    var a, b := Claims(r.tasks, me, d), Claims(s.tasks, me, d);
    if s.tasks[c].vruntime <= d {
      SumDrop(a, b, c, b[c] - a[c]);
    } else {
      SumMonotone(a, b);
    }
  }

  /** ... and also when it is put back among the ready tasks. */
  lemma RequeueSpends(s: Sched, me: Slot, d: nat)
    requires UnderEevdf(s) && CurrentRuns(s) && s.charged + 1 < TICK_LIMIT && s.current != Some(me)
    requires CurrentRuns(Charge(s))
    ensures Sum(Claims(Requeue(Charge(s)).tasks, me, d)) + 1 <= Measure(s, me, d)
  {
    var c, r := s.current.value, Requeue(Charge(s));
    ChargeFits(s);
    var a, b := Claims(r.tasks, me, d), Claims(s.tasks, me, d);
    assert Charge(s).tasks[c].vruntime <= r.tasks[c].vruntime;
    if s.tasks[c].vruntime <= d {
      SumDrop(a, b, c, 1);
    } else {
      SumMonotone(a, b);
    }
  }

  /** Whatever is chosen instead of the waiter is not past the waiter's deadline. */
  lemma ChosenBeforeDeadline(s: Sched, me: Slot)
    requires Parked(s) && Fits(s) && s.policy == EEVDF && Candidate(s.tasks[me])
    ensures var d, n := Eevdf.EffectiveDeadline(s.tasks[me]), Choose(s).next;
      n.Some? && Candidate(s.tasks[n.value]) && s.tasks[n.value].vruntime <= d
  {
    FitsBelowMax(s);
    ChooseKeeps(s);
    ChooseFits(s);
    Eevdf.BestIsEarliest(s.tasks, s.vsys, 16);
    Eevdf.MinIsLeast(s.tasks, 16);
    var n := Choose(s).next.value;
    assert TaskFits(s.tasks[me], s.charged) && TaskFits(s.tasks[n], s.charged);
    DeadlineExact(s.tasks[me], s.charged);
    DeadlineExact(s.tasks[n], s.charged);
  }

  lemma ChooseFalls(s: Sched, me: Slot)
    requires Parked(s) && Fits(s) && s.policy == EEVDF && Candidate(s.tasks[me])
    ensures var p, d := Choose(s).s, Eevdf.EffectiveDeadline(s.tasks[me]);
      && (Choose(s).next != Some(me) ==> Eevdf.EffectiveDeadline(p.tasks[me]) == d)
      && Sum(Claims(p.tasks, me, d)) <= Sum(Claims(s.tasks, me, d))
      && Choose(s).next.Some? && p.tasks[Choose(s).next.value].vruntime <= d
  {
    var p, d := Choose(s).s, Eevdf.EffectiveDeadline(s.tasks[me]);
    ChosenBeforeDeadline(s, me);
    assert TaskFits(s.tasks[me], s.charged);
    DeadlineExact(s.tasks[me], s.charged);
    Eevdf.PickFrame(s.tasks, s.vsys, s.current, me);
    forall i: Slot
      ensures Claim(p.tasks[i], d) <= Claim(s.tasks[i], d) && p.tasks[i].vruntime == s.tasks[i].vruntime
    {
      Eevdf.PickFrame(s.tasks, s.vsys, s.current, i);
    }
    ClaimsFall(s.tasks, p.tasks, me, d);
  }

  lemma DispatchFalls(s: Sched, n: Slot, preempt: bool, me: Slot, d: nat)
    requires Parked(s) && n != me && s.tasks[n].vruntime <= d
    ensures var r := Dispatch(s, Some(n), preempt);
      r.tasks[me] == s.tasks[me] && Measure(r, me, d) <= Sum(Claims(s.tasks, me, d))
  {
    var r := Dispatch(s, Some(n), preempt);
    assert TaskOk(s.tasks[n]);
    forall i: Slot ensures Claim(r.tasks[i], d) <= Claim(s.tasks[i], d) {
    }
    ClaimsFall(s.tasks, r.tasks, me, d);
    assert Overrun(r, d) == 0;
  }

  lemma RescheduleFalls(s: Sched, me: Slot, preempt: bool)
    requires Parked(s) && Fits(s) && s.policy == EEVDF && Candidate(s.tasks[me])
    ensures var r, d := Reschedule(s, preempt), Eevdf.EffectiveDeadline(s.tasks[me]);
      Candidate(r.tasks[me]) ==>
        Eevdf.EffectiveDeadline(r.tasks[me]) == d && Measure(r, me, d) <= Sum(Claims(s.tasks, me, d))
  {
    ChooseFalls(s, me);
    ChooseKeeps(s);
    var n := Choose(s).next.value;
    DispatchKeeps(Choose(s).s, Some(n), preempt);
    if n != me {
      DispatchFalls(Choose(s).s, n, preempt, me, Eevdf.EffectiveDeadline(s.tasks[me]));
    }
  }

  lemma DoScheduleFalls(s: Sched, me: Slot, preempt: bool)
    requires UnderEevdf(s) && DoSchedule(s, preempt).charged < TICK_LIMIT
    requires Candidate(s.tasks[me]) && Candidate(DoSchedule(s, preempt).tasks[me])
    ensures var r, d := DoSchedule(s, preempt), Eevdf.EffectiveDeadline(s.tasks[me]);
      && Eevdf.EffectiveDeadline(r.tasks[me]) == d
      && s.charged <= r.charged
      && Measure(r, me, d) + (r.charged - s.charged) <= Measure(s, me, d)
  {
    var d := Eevdf.EffectiveDeadline(s.tasks[me]);
    ScheduleCharges(s, preempt);
    if s.active {
      var w := Wake(s);
      WakeKeeps(s);
      WakeFits(s);
      WakeFalls(s, me, d);
      if CurrentRuns(w) {
        assert w.charged + 1 < TICK_LIMIT by { assert w.current == s.current && CurrentRuns(s); }
        var c := Charge(w);
        ChargeKeeps(w);
        ChargeFits(w);
        RequeueParks(c);
        RequeueFits(c);
        assert c.tasks[me] == w.tasks[me];
        if preempt && c.tasks[w.current.value].remaining > 0 {
          ChargeSpends(w, me, d);
        } else {
          RequeueSpends(w, me, d);
          RescheduleFalls(Requeue(c), me, preempt);
        }
      } else {
        RescheduleFalls(w, me, preempt);
      }
    }
  }

  lemma EnterFalls(s: Sched, me: Slot, op: Op, d: nat)
    requires IsPass(op) && Inv(s) && Candidate(s.tasks[me])
    ensures Measure(Enter(s, op), me, d) <= Measure(s, me, d) && Enter(s, op).tasks[me] == s.tasks[me]
  {
    var e := Enter(s, op);
    forall i: Slot | i != me ensures Claim(e.tasks[i], d) <= Claim(s.tasks[i], d) {
    }
    ClaimsFall(s.tasks, e.tasks, me, d);
  }

  lemma TableOpFalls(s: Sched, me: Slot, op: Op)
    requires !IsPass(op) && Undisturbed(op, me) && Candidate(s.tasks[me]) && Candidate(Step(s, op).tasks[me])
    ensures var r, d := Step(s, op), Eevdf.EffectiveDeadline(s.tasks[me]);
      && r.tasks[me] == s.tasks[me] && r.charged == s.charged && r.policy == s.policy
      && Measure(r, me, d) <= Measure(s, me, d)
  {
    var r, d := Step(s, op), Eevdf.EffectiveDeadline(s.tasks[me]);
    forall i: Slot | i != me ensures Claim(r.tasks[i], d) <= Claim(s.tasks[i], d) {
    }
    ClaimsFall(s.tasks, r.tasks, me, d);
  }

  /** One call: the deadline waited for stays put and each charged tick uses up patience. */
  lemma StepFalls(s: Sched, me: Slot, op: Op)
    requires UnderEevdf(s) && Undisturbed(op, me) && Step(s, op).charged < TICK_LIMIT
    requires Candidate(s.tasks[me]) && Candidate(Step(s, op).tasks[me])
    ensures var r := Step(s, op);
      UnderEevdf(r) && s.charged <= r.charged && Patience(r, me) + (r.charged - s.charged) <= Patience(s, me)
  {
    StepKeeps(s, op);
    StepBounded(s, op);
    if IsPass(op) {
      var e := Enter(s, op);
      EnterKeeps(s, op);
      EnterFits(s, op);
      EnterFalls(s, me, op, Eevdf.EffectiveDeadline(s.tasks[me]));
      if op.Tick? || s.current.Some? {
        DoScheduleFalls(e, me, op.Tick?);
        ScheduleCharges(e, op.Tick?);
      }
    } else {
      TableOpFalls(s, me, op);
    }
  }

  /**
   No starvation.  While a visible task stays ready without being dispatched, at
   most Patience ticks are charged, however others tick, yield, sleep, wake or exit.
   */
  lemma {:induction false} NoStarvation(s: Sched, ops: seq<Op>, me: Slot)
    requires UnderEevdf(s) && Waits(s, ops, me) && Run(s, ops).charged < TICK_LIMIT
    requires forall k :: 0 <= k < |ops| ==> Undisturbed(ops[k], me)
    ensures UnderEevdf(Run(s, ops)) && s.charged <= Run(s, ops).charged <= s.charged + Patience(s, me)
    ensures Patience(Run(s, ops), me) + (Run(s, ops).charged - s.charged) <= Patience(s, me)
    decreases |ops|
  {
    if ops != [] {
      var r := Step(s, ops[0]);
      StepKeeps(s, ops[0]);
      StepBounded(s, ops[0]);
      SystemTimeMonotone(r, ops[1..]);
      StepFalls(s, me, ops[0]);
      NoStarvation(r, ops[1..], me);
    }
  }

  /** The scheduler is started and no preemption limit will stop it. */
  predicate Awake(s: Sched) {
    UnderEevdf(s) && s.active && s.preemptLimit == 0
  }

  predicate Live(s: Sched) {
    Awake(s) && CurrentRuns(s)
  }

  lemma RescheduleStaysActive(s: Sched, preempt: bool)
    requires s.active && s.preemptLimit == 0
    ensures Reschedule(s, preempt).active && Reschedule(s, preempt).preemptLimit == 0
  {
  }

  lemma DoScheduleStaysActive(s: Sched, preempt: bool)
    requires s.active && s.preemptLimit == 0
    ensures DoSchedule(s, preempt).active && DoSchedule(s, preempt).preemptLimit == 0
  {
    var w := Wake(s);
    RescheduleStaysActive(w, preempt);
    if CurrentRuns(w) { RescheduleStaysActive(Requeue(Charge(w)), preempt); }
  }

  /** The ticks a call charges when a task is running: one for a tick or a yield, none for a sleep. */
  function Toll(op: Op): nat {
    if op.Tick? || op.Yield? then 1 else 0
  }

  /** With the scheduler active and unlimited, a pass beside a ready task leaves a task running. */
  lemma PassWorks(s: Sched, op: Op, me: Slot)
    requires Awake(s) && IsPass(op) && (op.Tick? || s.current.Some?)
    requires Candidate(Step(s, op).tasks[me]) && s.charged + 1 < TICK_LIMIT
    ensures Live(Step(s, op)) && Step(s, op).charged == s.charged + if CurrentRuns(s) then Toll(op) else 0
  {
    StepKeeps(s, op);
    StepBounded(s, op);
    ScheduleCharges(Enter(s, op), op.Tick?);
    DoScheduleStaysActive(Enter(s, op), op.Tick?);
    WorkConserving(s, op);
  }

  lemma OrdinaryStaysLive(s: Sched, op: Op, me: Slot)
    requires Live(s) && Ordinary(op)
    requires Candidate(Step(s, op).tasks[me]) && s.charged + 1 < TICK_LIMIT
    ensures Live(Step(s, op)) && Step(s, op).charged == s.charged + Toll(op)
  {
    if IsPass(op) {
      PassWorks(s, op, me);
    } else {
      StepKeeps(s, op);
      StepBounded(s, op);
    }
  }

  /**
   From a running task on, a ready one waits through at most Patience ticks and
   yields, however many sleeps of any length come between them.
   */
  lemma {:induction false} WaitsAtMost(s: Sched, ops: seq<Op>, me: Slot)
    requires Live(s) && s.charged + TicksAndYields(ops) + 1 < TICK_LIMIT
    requires forall k :: 0 <= k < |ops| ==> Ordinary(ops[k])
    ensures Waits(s, ops, me) ==> TicksAndYields(ops) <= Patience(s, me)
    decreases |ops|
  {
    if ops != [] && Waits(s, ops, me) {
      assert Waits(Step(s, ops[0]), ops[1..], me);
      OrdinaryStaysLive(s, ops[0], me);
      StepFalls(s, me, ops[0]);
      WaitsAtMost(Step(s, ops[0]), ops[1..], me);
    }
  }

  /** The same from any active state: one tick more may be needed to find a task to run. */
  lemma {:induction false} WaitsAtMostTicks(s: Sched, ops: seq<Op>, me: Slot)
    requires Awake(s) && s.charged + TicksAndYields(ops) + 1 < TICK_LIMIT
    requires forall k :: 0 <= k < |ops| ==> Ordinary(ops[k])
    ensures Waits(s, ops, me) ==> Ticks(ops) <= Patience(s, me) + 1
    decreases |ops|
  {
    if CurrentRuns(s) {
      WaitsAtMost(s, ops, me);
    } else if ops != [] && Waits(s, ops, me) {
      var r := Step(s, ops[0]);
      assert Waits(r, ops[1..], me);
      StepCharges(s, ops[0]);
      StepFalls(s, me, ops[0]);
      if IsPass(ops[0]) && (ops[0].Tick? || s.current.Some?) {
        PassWorks(s, ops[0], me);
        WaitsAtMost(r, ops[1..], me);
      } else {
        WaitsAtMostTicks(r, ops[1..], me);
      }
    }
  }

  lemma StepCharges(s: Sched, op: Op)
    requires Awake(s) && Ordinary(op) && !CurrentRuns(s)
    ensures Step(s, op).charged == s.charged
  {
    if IsPass(op) { ScheduleCharges(Enter(s, op), op.Tick?); }
  }

  /**
   A ready task is dispatched: among any ordinary calls, more ticks and yields than
   Patience, or from an idle CPU more ticks than Patience + 1, contain the moment
   it runs.
   */
  lemma DispatchedInTime(s: Sched, ops: seq<Op>, me: Slot)
    requires Awake(s) && Candidate(s.tasks[me]) && s.charged + TicksAndYields(ops) + 1 < TICK_LIMIT
    requires forall k :: 0 <= k < |ops| ==> Ordinary(ops[k])
    ensures CurrentRuns(s) && TicksAndYields(ops) > Patience(s, me) ==> Runs(s, ops, me)
    ensures Ticks(ops) > Patience(s, me) + 1 ==> Runs(s, ops, me)
  {
    WaitsOrRuns(s, ops, me);
    if CurrentRuns(s) { WaitsAtMost(s, ops, me); }
    WaitsAtMostTicks(s, ops, me);
  }
}
