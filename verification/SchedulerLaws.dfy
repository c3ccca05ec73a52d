/**
 What one call does to the task table, written out field by field: who is charged
 what, where a task that loses the CPU or wakes is placed, and who runs next.
 */
module SchedulerLaws {
  import opened Words
  import opened Sums
  import opened Tasks
  import opened Scheduler
  import opened SchedulerSafety
  import opened SchedulerBounds
  import Eevdf
  import RoundRobin

  /** The later of a task's own virtual time and the system's. */
  function Later(t: Task, vsys: nat): nat {
    if t.vruntime < vsys then vsys else t.vruntime
  }

  /** A task placed at virtual time v, its deadline one slice later. */
  function PlacedAt(t: Task, v: nat): Task
    requires t.weight > 0
  {
    t.(vruntime := v, vdeadline := v + t.slice * 65536 / t.weight)
  }

  // ----- the phases -----

  /** A charge adds 65536/weight to the running task and 65536/(sum of live weights) to V_sys; nothing wraps. */
  lemma ChargeExact(s: Sched)
    requires Inv(s) && CurrentRuns(s) && Fits(s) && s.charged + 1 < TICK_LIMIT
    ensures var c, total := s.current.value, Sum(Eevdf.LiveWeights(s.tasks));
      var t := s.tasks[c];
      && t.weight > 0 && total > 0
      && Charge(s) == s.(
           tasks := s.tasks[c := t.(
             ticksRun := t.ticksRun + 1, remaining := if t.remaining == 0 then 0 else t.remaining - 1,
             vruntime := if s.policy == EEVDF then t.vruntime + 65536 / t.weight else t.vruntime)],
           vsys := if s.policy == EEVDF then s.vsys + 65536 / total else s.vsys,
           charged := s.charged + 1)
  {
    GainSums(s);
    ChargeSums(s);
  }

  /** A charge moves no weight, and the running task has some. */
  lemma GainSums(s: Sched)
    requires Inv(s) && CurrentRuns(s)
    ensures var total := Sum(Eevdf.LiveWeights(s.tasks));
      && s.tasks[s.current.value].weight > 0 && total > 0
      && Eevdf.SystemGain(Charge(s).tasks) == Eevdf.SystemGain(s.tasks) == 65536 / total
  {
    var c, r := s.current.value, Charge(s);
    ChargeKeeps(s);
    assert forall i: Slot :: TaskOk(s.tasks[i]) && TaskOk(r.tasks[i]);
    assert Eevdf.LiveWeights(r.tasks) == Eevdf.LiveWeights(s.tasks);
    Eevdf.GainExact(r.tasks, c);
    Eevdf.GainExact(s.tasks, c);
  }

  lemma ChargeSums(s: Sched)
    requires Inv(s) && CurrentRuns(s) && Fits(s) && s.charged + 1 < TICK_LIMIT
    ensures var t := s.tasks[s.current.value];
      && Add64(t.ticksRun, 1) == t.ticksRun + 1 && Add64(t.vruntime, Eevdf.TickCost(t)) == t.vruntime + 65536 / t.weight
      && (s.policy == EEVDF ==>
           Add64(s.vsys, Eevdf.SystemGain(Charge(s).tasks)) == s.vsys + Eevdf.SystemGain(Charge(s).tasks))
  {
    var t := s.tasks[s.current.value];
    assert TaskOk(t) && TaskFits(t, s.charged);
    Eevdf.SliceCoversTicks(t);
    AddSmall(t.ticksRun, 1);
    AddSmall(t.vruntime, Eevdf.TickCost(t));
  }

  /** A task that loses the CPU saves its frame; under EEVDF it is lifted to V_sys and gets a new deadline. */
  lemma RequeueExact(s: Sched)
    requires Inv(s) && CurrentRuns(s) && Fits(s)
    ensures var c := s.current.value;
      var u := s.tasks[c].(context := Save(s.frame), state := Ready);
      && u.weight > 0
      && Requeue(s) == s.(tasks := s.tasks[c := if s.policy == EEVDF then PlacedAt(u, Later(u, s.vsys)) else u])
  {
    var u := s.tasks[s.current.value].(context := Save(s.frame), state := Ready);
    assert TaskOk(s.tasks[s.current.value]) && TaskFits(s.tasks[s.current.value], s.charged);
    if s.policy == EEVDF { PlacesExactly(u, s.vsys, s.charged); }
  }

  lemma PlacesExactly(t: Task, v: nat, n: nat)
    requires TaskOk(t) && TaskFits(t, n) && n < TICK_LIMIT && v <= Eevdf.SCALE * n
    ensures Eevdf.Align(t, v) == PlacedAt(t, Later(t, v))
  {
    DeadlineExact(t.(vruntime := Later(t, v)), n);
  }

  /** A visible sleeper whose deadline has come becomes ready; under EEVDF it is placed like one that lost the CPU. */
  lemma WakeExact(s: Sched, i: Slot)
    requires Fits(s) && TaskOk(s.tasks[i])
    ensures var t := s.tasks[i];
      Wake(s).tasks[i] ==
      if t.state == Sleeping && 1 <= t.generation <= 10 && s.now >= t.wakeAt then
        if s.policy == EEVDF then PlacedAt(t.(state := Ready), Later(t, s.vsys)) else t.(state := Ready)
      else t
  {
    assert TaskFits(s.tasks[i], s.charged);
    if s.policy == EEVDF { PlacesExactly(s.tasks[i].(state := Ready), s.vsys, s.charged); }
  }

  // ----- who runs next -----

  predicate CanRun(t: Task) {
    1 <= t.generation <= 10 && t.state == Ready
  }

  /** The deadline a task is compared by: a new one if the old lags its runtime. */
  function DeadlineOf(t: Task): nat
    requires t.weight > 0
  {
    if t.vdeadline < t.vruntime then t.vruntime + t.slice * 65536 / t.weight else t.vdeadline
  }

  ghost predicate Weighted(ts: TaskTable) {
    forall i: Slot :: ts[i].weight > 0
  }

  /** Among ready tasks not past V_sys the earliest deadline, else the least runtime; the lower slot on a tie. */
  ghost predicate ComesNext(ts: TaskTable, vsys: nat, n: Slot)
    requires Weighted(ts)
  {
    && CanRun(ts[n])
    && if exists i: Slot :: CanRun(ts[i]) && ts[i].vruntime <= vsys then
         && ts[n].vruntime <= vsys
         && forall i: Slot :: CanRun(ts[i]) && ts[i].vruntime <= vsys && i != n ==>
              DeadlineOf(ts[n]) < DeadlineOf(ts[i]) || (DeadlineOf(ts[n]) == DeadlineOf(ts[i]) && n < i)
       else
         forall i: Slot :: CanRun(ts[i]) && i != n ==>
           ts[n].vruntime < ts[i].vruntime || (ts[n].vruntime == ts[i].vruntime && n < i)
  }

  lemma DeadlinesAgree(s: Sched, i: Slot)
    requires Parked(s) && Fits(s)
    ensures s.tasks[i].weight > 0 && Eevdf.EffectiveDeadline(s.tasks[i]) == DeadlineOf(s.tasks[i])
    ensures Candidate(s.tasks[i]) <==> CanRun(s.tasks[i])
  {
    assert TaskFits(s.tasks[i], s.charged) && TaskOk(s.tasks[i]);
    DeadlineExact(s.tasks[i], s.charged);
  }

  lemma WinnersAgree(s: Sched, n: Slot)
    requires Parked(s) && Fits(s)
    ensures Weighted(s.tasks) && (Eevdf.Wins(s.tasks, s.vsys, n) <==> ComesNext(s.tasks, s.vsys, n))
  {
    forall i: Slot
      ensures s.tasks[i].weight > 0 && Eevdf.EffectiveDeadline(s.tasks[i]) == DeadlineOf(s.tasks[i])
      ensures Candidate(s.tasks[i]) <==> CanRun(s.tasks[i])
      ensures Eevdf.Eligible(s.tasks[i], s.vsys) <==> CanRun(s.tasks[i]) && s.tasks[i].vruntime <= s.vsys
    {
      DeadlinesAgree(s, i);
    }
  }

  /** Under EEVDF a rescheduling makes a slot current exactly if it comes next, or if it was and nobody is ready. */
  lemma EevdfReschedules(s: Sched, preempt: bool, n: Slot)
    requires Parked(s) && Fits(s) && s.policy == EEVDF
    ensures Weighted(s.tasks)
    ensures Reschedule(s, preempt).current == Some(n) <==>
      ComesNext(s.tasks, s.vsys, n) || (s.current == Some(n) && forall i: Slot :: !CanRun(s.tasks[i]))
  {
    FitsBelowMax(s);
    WinnersAgree(s, n);
    ChooseKeeps(s);
    Eevdf.PicksExactly(s.tasks, s.vsys, s.current, n);
    forall i: Slot ensures Candidate(s.tasks[i]) <==> CanRun(s.tasks[i]) {
      DeadlinesAgree(s, i);
    }
  }

  /** Under Round-Robin, beside a current task, the ready slot reached first after the last pick. */
  lemma RotationReschedules(s: Sched, preempt: bool, i: Slot)
    requires Parked(s) && s.policy == RR && s.current.Some? && CanRun(s.tasks[i])
    ensures var n := Reschedule(s, preempt).current;
      n.Some? && CanRun(s.tasks[n.value]) && (n.value + 15 - s.rrLast) % 16 <= (i + 15 - s.rrLast) % 16
  {
    RoundRobin.NextIsNearest(s.tasks, s.rrLast, s.current, i);
    var n := Choose(s).next.value;
    StepsAhead(s.rrLast, n);
    StepsAhead(s.rrLast, i);
  }

  lemma StepsAhead(last: Slot, n: Slot)
    ensures (n + 15 - last) % 16 == RoundRobin.Distance(last, n) - 1
  {
  }

  /** The task that gets the CPU runs with a full slice and, under EEVDF, a deadline one slice ahead. */
  lemma RescheduleRuns(s: Sched, preempt: bool, n: Slot)
    requires Parked(s) && Fits(s) && Choose(s).next == Some(n)
    ensures var r, t := Reschedule(s, preempt), s.tasks[n];
      && t.weight > 0 && r.current == Some(n)
      && r.tasks[n] ==
           (if s.policy == EEVDF then PlacedAt(t, t.vruntime) else t).(state := Running, remaining := t.slice)
  {
    assert TaskOk(s.tasks[n]) && TaskFits(s.tasks[n], s.charged);
    DeadlineExact(s.tasks[n], s.charged);
    ChosenIsCandidate(s);
    if s.policy == EEVDF { Eevdf.PickFrame(s.tasks, s.vsys, s.current, n); }
    assert Choose(s).s.tasks[n] == (if s.policy == EEVDF then PlacedAt(s.tasks[n], s.tasks[n].vruntime)
                                    else s.tasks[n]).(remaining := s.tasks[n].slice);
    DispatchRuns(Choose(s).s, n, preempt);
  }

  lemma DispatchRuns(p: Sched, n: Slot, preempt: bool)
    requires p.tasks[n].remaining == p.tasks[n].quantum
    ensures var r := Dispatch(p, Some(n), preempt);
      r.current == Some(n) && r.tasks[n] == p.tasks[n].(state := Running)
  {
  }

  /** Every other task is left as it is, but for a new deadline if it was eligible under a stale one. */
  lemma RescheduleLeaves(s: Sched, preempt: bool, i: Slot)
    requires Parked(s) && Fits(s) && Reschedule(s, preempt).current != Some(i)
    ensures var t := s.tasks[i];
      && t.weight > 0
      && Reschedule(s, preempt).tasks[i] ==
           if s.policy == EEVDF && CanRun(t) && t.vruntime <= s.vsys then t.(vdeadline := DeadlineOf(t)) else t
  {
    ChooseKeeps(s);
    DeadlinesAgree(s, i);
    assert TaskFits(s.tasks[i], s.charged);
    DeadlineExact(s.tasks[i], s.charged);
    if s.policy == EEVDF { Eevdf.PickFrame(s.tasks, s.vsys, s.current, i); }
    DispatchLeaves(Choose(s).s, Choose(s).next, preempt, i);
  }

  lemma DispatchLeaves(s: Sched, next: Option<Slot>, preempt: bool, i: Slot)
    requires Dispatch(s, next, preempt).current != Some(i)
    ensures Dispatch(s, next, preempt).tasks[i] == s.tasks[i] && next != Some(i)
  {
  }
}
