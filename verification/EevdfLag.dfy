/** No task under EEVDF ever gets further ahead of system time than its own virtual slice. */
module EevdfLag {
  import opened Words
  import opened Tasks
  import opened Scheduler
  import opened SchedulerSafety
  import opened SchedulerBounds
  import Eevdf

  /** What the running task may still be charged before its slice ends. */
  function Pending(t: Task): nat {
    if t.state == Running then Max(t.remaining, 1) * Eevdf.TickCost(t) else 0
  }

  predicate WithinLag(t: Task, vsys: nat) {
    t.vruntime + Pending(t) <= vsys + Eevdf.VSlice(t)
  }

  predicate LagOk(s: Sched) {
    s.policy == EEVDF && forall i: Slot :: WithinLag(s.tasks[i], s.vsys)
  }

  predicate Good(s: Sched) {
    Inv(s) && Fits(s) && LagOk(s)
  }

  lemma WakeLag(s: Sched)
    requires LagOk(s)
    ensures LagOk(Wake(s))
  {
  }

  /** A tick takes one cost from what is pending. */
  lemma TickLeaves(remaining: nat, cost: nat)
    ensures cost <= Max(remaining, 1) * cost
    ensures remaining > 1 ==> Max(remaining, 1) * cost == Max(remaining - 1, 1) * cost + cost
  {
    Eevdf.MulMonotone(1, Max(remaining, 1), cost);
    if remaining > 1 { assert remaining * cost == (remaining - 1) * cost + cost; }
  }

  /** Charging spends pending time: with slice left the bound survives, without it the parked task is within lag. */
  lemma ChargeLag(s: Sched)
    requires Good(s) && CurrentRuns(s) && s.charged + 1 < TICK_LIMIT
    ensures var r, c := Charge(s), s.current.value;
      && r.tasks[c].vruntime <= r.vsys + Eevdf.VSlice(r.tasks[c])
      && (r.tasks[c].remaining > 0 ==> LagOk(r))
      && (forall i: Slot :: i != c ==> WithinLag(r.tasks[i], r.vsys))
  {
    var r, c := Charge(s), s.current.value;
    var t, u := s.tasks[c], r.tasks[c];
    ChargeFits(s);
    assert WithinLag(t, s.vsys);
    var cost := Eevdf.TickCost(t);
    assert Eevdf.TickCost(u) == cost && Eevdf.VSlice(u) == Eevdf.VSlice(t);
    TickLeaves(t.remaining, cost);
    forall i: Slot | i != c ensures WithinLag(r.tasks[i], r.vsys) {
      assert WithinLag(s.tasks[i], s.vsys);
    }
  }

  lemma RequeueLag(s: Sched)
    requires CurrentRuns(s) && s.policy == EEVDF
    requires s.tasks[s.current.value].vruntime <= s.vsys + Eevdf.VSlice(s.tasks[s.current.value])
    requires forall i: Slot :: i != s.current.value ==> WithinLag(s.tasks[i], s.vsys)
    ensures LagOk(Requeue(s))
  {
  }

  lemma ChooseLag(s: Sched)
    requires Parked(s) && Fits(s) && LagOk(s)
    ensures LagOk(Choose(s).s)
    ensures Choose(s).next.Some? ==>
      var t := Choose(s).s.tasks[Choose(s).next.value];
      t.vruntime <= Choose(s).s.vsys && t.remaining == t.slice
  {
    var p := Choose(s).s;
    FitsBelowMax(s);
    Eevdf.PickKeepsTime(s.tasks, s.vsys, s.current);
    ChooseKeeps(s);
    forall i: Slot
      ensures WithinLag(p.tasks[i], p.vsys) && (Choose(s).next == Some(i) ==> p.tasks[i].remaining == p.tasks[i].slice)
    {
      Eevdf.PickFrame(s.tasks, s.vsys, s.current, i);
      assert WithinLag(s.tasks[i], s.vsys) && s.tasks[i].state != Running;
    }
  }

  /** A task within system time may run one full slice. */
  lemma FreshSliceWithin(t: Task, vsys: nat)
    requires TaskOk(t) && t.vruntime <= vsys && t.remaining == t.slice
    ensures WithinLag(t.(state := Running), vsys)
  {
    Eevdf.SliceCoversTicks(t);
    assert Eevdf.TickCost(t.(state := Running)) == Eevdf.TickCost(t);
    assert Eevdf.VSlice(t.(state := Running)) == Eevdf.VSlice(t);
  }

  lemma RescheduleLag(s: Sched, preempt: bool)
    requires Parked(s) && Fits(s) && LagOk(s)
    ensures LagOk(Reschedule(s, preempt))
  {
    var p, n := Choose(s).s, Choose(s).next;
    ChooseKeeps(s);
    ChooseFits(s);
    ChooseLag(s);
    var r := Reschedule(s, preempt);
    if n.Some? {
      assert TaskOk(p.tasks[n.value]);
      FreshSliceWithin(p.tasks[n.value], p.vsys);
      assert r.tasks[n.value] == p.tasks[n.value].(state := Running);
      forall i: Slot ensures WithinLag(r.tasks[i], r.vsys) {
        assert WithinLag(p.tasks[i], p.vsys);
      }
    } else if s.current.Some? {
      assert !Candidate(s.tasks[s.current.value]);
    }
  }

  lemma DoScheduleLag(s: Sched, preempt: bool)
    requires Good(s) && DoSchedule(s, preempt).charged < TICK_LIMIT
    ensures LagOk(DoSchedule(s, preempt))
  {
    ScheduleCharges(s, preempt);
    if s.active {
      var w := Wake(s);
      WakeKeeps(s);
      WakeFits(s);
      WakeLag(s);
      if CurrentRuns(w) {
        var c := Charge(w);
        assert w.charged + 1 < TICK_LIMIT by { assert w.current == s.current && CurrentRuns(s); }
        ChargeKeeps(w);
        ChargeFits(w);
        ChargeLag(w);
        RequeueParks(c);
        RequeueFits(c);
        RequeueLag(c);
        RescheduleLag(Requeue(c), preempt);
      } else {
        RescheduleLag(w, preempt);
      }
    }
  }

  /** What the task has had and may still be charged fits the given slice at the given weight. */
  predicate Affords(t: Task, vsys: nat, weight: nat, slice: nat)
    requires weight > 0
  {
    t.vruntime + (if t.state == Running then Max(t.remaining, 1) * (Eevdf.SCALE / weight) else 0)
      <= vsys + slice * Eevdf.SCALE / weight
  }

  /**
   The calls that keep the bound: a new weight or slice the task can afford, or a
   policy initialisation, which sets V_sys to zero, that every task can afford.
   */
  predicate Steady(s: Sched, op: Op) {
    match op
    case SetPolicy(p) => p == EEVDF &&
      forall i: Slot :: Affords(s.tasks[i], 0, Eevdf.Weight(s.tasks[i]), s.tasks[i].slice)
    case SetWeight(i, w) => Affords(s.tasks[i], s.vsys, ClampWeight(w), s.tasks[i].slice)
    case SetSlice(i, n) => Affords(s.tasks[i], s.vsys, Eevdf.Weight(s.tasks[i]), ClampSlice(n))
    case _ => true
  }

  lemma AffordsIsWithin(t: Task, vsys: nat)
    requires TaskOk(t)
    ensures WithinLag(t, vsys) <==> Affords(t, vsys, t.weight, t.slice)
  {
  }

  lemma OthersStayWithin(s: Sched, i: Slot, t: Task)
    requires LagOk(s)
    ensures LagOk(s.(tasks := s.tasks[i := t])) <==> WithinLag(t, s.vsys)
  {
    var r := s.(tasks := s.tasks[i := t]);
    assert r.tasks[i] == t;
    forall j: Slot | j != i ensures WithinLag(r.tasks[j], r.vsys) {
      assert WithinLag(s.tasks[j], s.vsys);
    }
  }

  /** A new weight keeps the bound exactly when the task can afford its slice at that weight. */
  lemma WeightChangeExact(s: Sched, i: Slot, w: u32)
    requires Good(s)
    ensures LagOk(Step(s, SetWeight(i, w))) <==> Affords(s.tasks[i], s.vsys, ClampWeight(w), s.tasks[i].slice)
  {
    var t := s.tasks[i].(weight := ClampWeight(w));
    assert TaskOk(s.tasks[i]);
    OthersStayWithin(s, i, t);
    AffordsIsWithin(t, s.vsys);
  }

  /** A new slice keeps the bound exactly when the task can afford that slice. */
  lemma SliceChangeExact(s: Sched, i: Slot, n: u32)
    requires Good(s)
    ensures LagOk(Step(s, SetSlice(i, n))) <==> Affords(s.tasks[i], s.vsys, s.tasks[i].weight, ClampSlice(n))
  {
    var t := s.tasks[i].(slice := ClampSlice(n), quantum := ClampSlice(n));
    assert TaskOk(s.tasks[i]);
    OthersStayWithin(s, i, t);
    AffordsIsWithin(t, s.vsys);
  }

  lemma PolicyChangeExact(s: Sched, p: Policy)
    requires Good(s)
    ensures LagOk(Step(s, SetPolicy(p))) <==> Steady(s, SetPolicy(p))
  {
    forall i: Slot
      ensures WithinLag(s.tasks[i], 0) <==> Affords(s.tasks[i], 0, Eevdf.Weight(s.tasks[i]), s.tasks[i].slice)
    {
      assert TaskOk(s.tasks[i]);
      AffordsIsWithin(s.tasks[i], 0);
    }
  }

  lemma EnterLag(s: Sched, op: Op)
    requires LagOk(s) && IsPass(op)
    ensures LagOk(Enter(s, op))
  {
    if s.current.Some? {
      var c := s.current.value;
      var t := s.tasks[c];
      assert WithinLag(t, s.vsys);
      Eevdf.MulMonotone(1, Max(t.remaining, 1), Eevdf.TickCost(t));
      forall i: Slot ensures WithinLag(Enter(s, op).tasks[i], s.vsys) {
        assert WithinLag(s.tasks[i], s.vsys);
      }
    }
  }

  lemma TableOpLag(s: Sched, op: Op)
    requires Good(s) && !IsPass(op)
    ensures LagOk(Step(s, op)) <==> Steady(s, op)
  {
    match op
    case SetPolicy(p) => PolicyChangeExact(s, p);
    case SetWeight(i, w) => WeightChangeExact(s, i, w);
    case SetSlice(i, n) =>
      assert TaskOk(s.tasks[i]);
      SliceChangeExact(s, i, n);
    case _ => OtherTableOpLag(s, op);
  }

  lemma OtherTableOpLag(s: Sched, op: Op)
    requires Good(s) && !IsPass(op) && !op.SetPolicy? && !op.SetWeight? && !op.SetSlice?
    ensures LagOk(Step(s, op))
  {
  }

  /** Every call keeps the bound, except exactly the changes a task cannot afford. */
  lemma StepLag(s: Sched, op: Op)
    requires Good(s) && Step(s, op).charged < TICK_LIMIT
    ensures Good(Step(s, op)) <==> Steady(s, op)
  {
    StepKeeps(s, op);
    StepBounded(s, op);
    if IsPass(op) {
      EnterKeeps(s, op);
      EnterFits(s, op);
      EnterLag(s, op);
      if op.Tick? || s.current.Some? { DoScheduleLag(Enter(s, op), op.Tick?); }
    } else {
      TableOpLag(s, op);
    }
  }

  ghost predicate SteadyRun(s: Sched, ops: seq<Op>)
    decreases |ops|
  {
    ops == [] || (Steady(s, ops[0]) && Step(s, ops[0]).charged < TICK_LIMIT && SteadyRun(Step(s, ops[0]), ops[1..]))
  }

  /** Lag bound over whole runs: every task stays within its virtual slice of system time. */
  lemma {:induction false} RunLag(s: Sched, ops: seq<Op>)
    requires Good(s) && SteadyRun(s, ops)
    ensures Good(Run(s, ops))
    ensures forall i: Slot :: Run(s, ops).tasks[i].vruntime <= Run(s, ops).vsys + Eevdf.VSlice(Run(s, ops).tasks[i])
    decreases |ops|
  {
    if ops != [] {
      StepLag(s, ops[0]);
      RunLag(Step(s, ops[0]), ops[1..]);
    } else {
      forall i: Slot ensures s.tasks[i].vruntime <= s.vsys + Eevdf.VSlice(s.tasks[i]) {
        assert WithinLag(s.tasks[i], s.vsys);
      }
    }
  }

  /** A run that selects EEVDF right after init starts within lag. */
  lemma InitialLag(s: Sched)
    requires Initial(s)
    ensures Good(Step(s, SetPolicy(EEVDF)))
  {
  }
}
