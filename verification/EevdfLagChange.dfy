/** A run from init after which a change of weight, and one of slice, break the lag bound. */
module EevdfLagChange {
  import opened Words
  import opened Tasks
  import opened Scheduler
  import opened SchedulerSafety
  import opened SchedulerBounds
  import opened EevdfLiveness
  import opened EevdfLag
  import opened EevdfSleep
  import Eevdf

  /** Two default tasks; slot 0 has run k of its five ticks since both were at virtual time zero. */
  predicate Ran(s: Sched, k: nat) {
    && UnderEevdf(s) && s.active && s.current == Some(0) && s.charged == k
    && s.tasks[0].state == Running && s.tasks[1].state == Ready
    && s.tasks[0].vruntime == 64 * k && s.tasks[0].remaining == 5 - k && s.vsys == 32 * k
    && (forall i: Slot :: 1 <= i ==> s.tasks[i].vruntime == 0)
    && (forall i: Slot :: i <= 1 ==> s.tasks[i].generation == 1 && s.tasks[i].weight == 1024 && s.tasks[i].slice == 5)
    && (forall i: Slot :: 2 <= i ==> s.tasks[i].state == Unused)
  }

  lemma {:induction false} TwoWeights(ts: TaskTable, n: nat)
    requires 2 <= n <= 16 && Eevdf.Counts(ts[0]) && Eevdf.Counts(ts[1]) && ts[0].weight == ts[1].weight == 1024
    requires forall i: Slot :: 2 <= i ==> !Eevdf.Counts(ts[i])
    ensures Eevdf.WeightSum(ts, n) == 2048
  {
    if n == 2 {
      assert Eevdf.WeightSum(ts, 0) == 0;
      assert Eevdf.WeightSum(ts, 1) == 1024;
    } else {
      TwoWeights(ts, n - 1);
    }
  }

  lemma TickCharges(s: Sched)
    requires s.active && CurrentRuns(s) && Wake(s) == s && Charge(s).tasks[s.current.value].remaining > 0
    ensures Step(s, Tick) == Charge(s)
  {
  }

  lemma RunsOn(s: Sched, k: nat)
    requires Ran(s, k) && k < 4
    ensures Ran(Step(s, Tick), k + 1)
  {
    var c := Charge(s);
    NobodyWakes(s);
    ChargeKeeps(s);
    ChargeFits(s);
    TwoWeights(c.tasks, 16);
    TickCharges(s);
  }

  function ThreeTicks(): seq<Op> {
    [Tick, Tick, Tick]
  }

  lemma RunsThree(s: Sched)
    requires Ran(s, 0)
    ensures Ran(Run(s, ThreeTicks()), 3)
  {
    var s1 := Step(s, Tick);
    var s2 := Step(s1, Tick);
    RunsOn(s, 0);
    RunsOn(s1, 1);
    RunsOn(s2, 2);
    var ops := ThreeTicks();
    assert ops[1..] == [Tick, Tick] && ops[1..][1..] == [Tick];
    assert Run(s, ops) == Step(s2, Tick);
  }

  /**
   From init, two tasks, five ticks and a slice that still fits lead to a state
   within lag in which selecting EEVDF again, which zeroes V_sys, puts the runtime
   of slot 0 past the bound.
   */
  lemma ReselectionBreaks(s: Sched)
    requires Initial(s) && s.now < TWO64
    ensures var r := Step(Step(Run(Run(s, Prologue()), ThreeTicks()), Tick), SetSlice(0, 3));
      && Good(r) && r.tasks[0].vruntime == 256
      && var z := Step(r, SetPolicy(EEVDF));
         z.tasks[0].vruntime > z.vsys + Eevdf.VSlice(z.tasks[0]) && !LagOk(z)
  {
    PrologueReaches(s);
    RunsThree(Run(s, Prologue()));
    var r := Run(Run(s, Prologue()), ThreeTicks());
    RunsOn(r, 3);
    Reselects(Step(r, Tick));
  }

  lemma Reselects(s: Sched)
    requires Ran(s, 4)
    ensures var r := Step(s, SetSlice(0, 3));
      && Good(r) && r.tasks[0].vruntime == 256
      && var z := Step(r, SetPolicy(EEVDF));
         z.tasks[0].vruntime > z.vsys + Eevdf.VSlice(z.tasks[0]) && !LagOk(z)
  {
    var r := Step(s, SetSlice(0, 3));
    StepKeeps(s, SetSlice(0, 3));
    StepBounded(s, SetSlice(0, 3));
    assert forall i: Slot :: WithinLag(s.tasks[i], s.vsys);
    OthersStayWithin(s, 0, r.tasks[0]);
    var z := Step(r, SetPolicy(EEVDF));
    assert Eevdf.VSlice(z.tasks[0]) == 192 && !WithinLag(z.tasks[0], z.vsys);
  }

  /**
   From init, two tasks and four ticks lead to a state within lag in which slot 0
   has run three ticks; raising its weight, or cutting its slice to one tick, puts
   its runtime past the bound at once.
   */
  lemma LagBreaks(s: Sched)
    requires Initial(s) && s.now < TWO64
    ensures var r := Run(Run(s, Prologue()), ThreeTicks());
      && Good(r) && r.tasks[0].vruntime == 192 && r.vsys == 96
      && var w, n := Step(r, SetWeight(0, 10240)), Step(r, SetSlice(0, 1));
         && w.tasks[0].vruntime > w.vsys + Eevdf.VSlice(w.tasks[0]) && !LagOk(w)
         && n.tasks[0].vruntime > n.vsys + Eevdf.VSlice(n.tasks[0]) && !LagOk(n)
  {
    PrologueReaches(s);
    RunsThree(Run(s, Prologue()));
    var r := Run(Run(s, Prologue()), ThreeTicks());
    RanWithin(r);
  }

  lemma RanWithin(s: Sched)
    requires Ran(s, 3)
    ensures Good(s)
    ensures var w, n := Step(s, SetWeight(0, 10240)), Step(s, SetSlice(0, 1));
      && w.tasks[0].vruntime > w.vsys + Eevdf.VSlice(w.tasks[0]) && !LagOk(w)
      && n.tasks[0].vruntime > n.vsys + Eevdf.VSlice(n.tasks[0]) && !LagOk(n)
  {
    var w, n := Step(s, SetWeight(0, 10240)), Step(s, SetSlice(0, 1));
    assert Eevdf.VSlice(w.tasks[0]) == 32 && Eevdf.VSlice(n.tasks[0]) == 64;
    assert !WithinLag(w.tasks[0], w.vsys) && !WithinLag(n.tasks[0], n.vsys);
  }
}
