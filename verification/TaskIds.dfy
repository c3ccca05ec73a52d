/** Task ids over whole scheduler runs: a terminated id stays unresolvable for 65534 further terminations. */
module TaskIds {
  import opened Words
  import opened Generations
  import opened Tasks
  import opened Scheduler
  import opened SchedulerSafety
  import opened SchedulerBounds

  predicate Ends(s: Sched, op: Op, slot: Slot) {
    op.Terminate? && Resolve(s.tasks, op.id) == Some(slot)
  }

  /** How often a run terminates what a slot holds. */
  function Terminations(s: Sched, ops: seq<Op>, slot: Slot): nat
    decreases |ops|
  {
    if ops == [] then 0
    else (if Ends(s, ops[0], slot) then 1 else 0) + Terminations(Step(s, ops[0]), ops[1..], slot)
  }

  predicate SameId(t: Task, u: Task) {
    t.generation == u.generation && (t.state == Unused <==> u.state == Unused)
  }

  lemma RescheduleKeepsIds(s: Sched, preempt: bool)
    requires Parked(s)
    ensures var r := Reschedule(s, preempt);
      forall i: Slot :: SameId(r.tasks[i], s.tasks[i])
  {
    forall i: Slot
      ensures Choose(s).s.tasks[i].generation == s.tasks[i].generation && Choose(s).s.tasks[i].state == s.tasks[i].state
    {
      ChooseFrame(s, i);
    }
    ChooseKeeps(s);
    DispatchKeepsIds(Choose(s).s, Choose(s).next, preempt);
  }

  lemma DispatchKeepsIds(s: Sched, next: Option<Slot>, preempt: bool)
    requires next.Some? ==> s.tasks[next.value].state == Ready
    ensures forall i: Slot :: SameId(Dispatch(s, next, preempt).tasks[i], s.tasks[i])
  {
  }

  lemma DoScheduleKeepsIds(s: Sched, preempt: bool)
    requires Inv(s)
    ensures var r := DoSchedule(s, preempt);
      forall i: Slot :: SameId(r.tasks[i], s.tasks[i])
  {
    if s.active {
      var w := Wake(s);
      WakeKeeps(s);
      forall i: Slot ensures SameId(w.tasks[i], s.tasks[i]) {
        assert w.tasks[i] == WakeTask(s, s.tasks[i]);
      }
      if CurrentRuns(w) {
        ChargeKeeps(w);
        RequeueParks(Charge(w));
        RescheduleKeepsIds(Requeue(Charge(w)), preempt);
      } else {
        RescheduleKeepsIds(w, preempt);
      }
    }
  }

  /** Only a successful termination moves a slot's generation; a used slot stays used. */
  lemma StepIds(s: Sched, op: Op, slot: Slot)
    requires Inv(s) && !op.Init?
    ensures Step(s, op).tasks[slot].generation ==
      if Ends(s, op, slot) then NextGeneration(s.tasks[slot].generation) else s.tasks[slot].generation
    ensures s.tasks[slot].state != Unused ==> Step(s, op).tasks[slot].state != Unused
  {
    if IsPass(op) {
      EnterKeeps(s, op);
      DoScheduleKeepsIds(Enter(s, op), op.Tick?);
    } else {
      assert TaskOk(s.tasks[slot]);
    }
  }

  lemma {:induction false} RunIds(s: Sched, ops: seq<Op>, slot: Slot)
    requires Inv(s) && forall j :: 0 <= j < |ops| ==> !ops[j].Init?
    ensures Run(s, ops).tasks[slot].generation == After(s.tasks[slot].generation, Terminations(s, ops, slot))
    ensures s.tasks[slot].state != Unused ==> Run(s, ops).tasks[slot].state != Unused
    decreases |ops|
  {
    if ops != [] {
      StepKeeps(s, ops[0]);
      StepIds(s, ops[0], slot);
      RunIds(Step(s, ops[0]), ops[1..], slot);
    }
  }

  lemma {:induction false} GenerationCounts(s: Sched, ops: seq<Op>, slot: Slot, k: nat)
    requires Inv(s) && s.tasks[slot].generation == Generation(k)
    requires forall j :: 0 <= j < |ops| ==> !ops[j].Init?
    ensures Run(s, ops).tasks[slot].generation == Generation(k + Terminations(s, ops, slot))
    ensures s.tasks[slot].state != Unused ==> Run(s, ops).tasks[slot].state != Unused
  {
    RunIds(s, ops, slot);
    AfterCounts(k, Terminations(s, ops, slot));
  }

  lemma ResolvesByGeneration(ts: TaskTable, slot: Slot, g: u16)
    requires ts[slot].state != Unused
    ensures TaskId(g, slot) < TWO32
    ensures Resolve(ts, TaskId(g, slot)).Some? <==> ts[slot].generation == g
  {
  }

  lemma Lifetime(ts: TaskTable, slot: Slot, g: u16, n: nat)
    requires 1 <= g && ts[slot].state != Unused && ts[slot].generation == Generation(g - 1 + n)
    ensures TaskId(g, slot) < TWO32
    ensures Resolve(ts, TaskId(g, slot)).Some? <==> n % 65535 == 0
    ensures 0 < n < 65535 ==> Resolve(ts, TaskId(g, slot)).None?
  {
    GenerationRepeats(g - 1, n);
    ResolvesByGeneration(ts, slot, g);
    SmallMultiple(n);
  }

  /**
   The id of a live task resolves later exactly when the slot has been terminated
   a multiple of 65535 times since; a terminated id is dead for 65534 more.
   */
  lemma {:induction false} IdLifetime(s: Sched, ops: seq<Op>, slot: Slot, id: u32)
    requires Inv(s) && Resolve(s.tasks, id) == Some(slot)
    requires forall j :: 0 <= j < |ops| ==> !ops[j].Init?
    ensures Resolve(Run(s, ops).tasks, id).Some? <==> Terminations(s, ops, slot) % 65535 == 0
    ensures 0 < Terminations(s, ops, slot) < 65535 ==> Resolve(Run(s, ops).tasks, id).None?
  {
    var g, n := s.tasks[slot].generation, Terminations(s, ops, slot);
    assert TaskOk(s.tasks[slot]);
    GenerationCounts(s, ops, slot, g - 1);
    Lifetime(Run(s, ops).tasks, slot, g, n);
  }

  // ----- slots the scheduler no longer sees -----

  /** A used slot is seen by the scheduler exactly when its terminations since init, modulo 65535, are below ten. */
  lemma {:induction false} VisibleIff(s: Sched, ops: seq<Op>, slot: Slot)
    requires Initial(s) && forall j :: 0 <= j < |ops| ==> !ops[j].Init?
    ensures var t := Run(s, ops).tasks[slot];
      Visible(t) <==> t.state != Unused && Terminations(s, ops, slot) % 65535 < 10
  {
    InitialBounded(s);
    GenerationCounts(s, ops, slot, 0);
  }

  /** A task in a slot past its tenth generation is never made current, until the slot is terminated or cleared. */
  lemma {:induction false} UnseenNeverRuns(s: Sched, ops: seq<Op>, slot: Slot)
    requires Inv(s) && s.tasks[slot].generation > PROBED_GENERATIONS
    requires (forall j :: 0 <= j < |ops| ==> !ops[j].Init?) && Terminations(s, ops, slot) == 0
    ensures Run(s, ops).current != Some(slot) && !Runs(s, ops, slot)
    decreases |ops|
  {
    assert TaskOk(s.tasks[slot]);
    GenerationCounts(s, ops, slot, s.tasks[slot].generation - 1);
    RunKeeps(s, ops);
    forall k | 0 <= k <= |ops| ensures !RunsAfter(s, ops, k, slot) {
      if k < |ops| {
        TerminationsPrefix(s, ops, k, slot);
        UnseenNeverRuns(s, ops[..k], slot);
      } else {
        assert ops[..k] == ops;
      }
    }
  }

  lemma {:induction false} TerminationsPrefix(s: Sched, ops: seq<Op>, k: nat, slot: Slot)
    requires k <= |ops|
    ensures Terminations(s, ops[..k], slot) <= Terminations(s, ops, slot)
    decreases |ops|
  {
    if k > 0 {
      assert ops[..k][1..] == ops[1..][..k - 1];
      TerminationsPrefix(Step(s, ops[0]), ops[1..], k - 1, slot);
    }
  }

  predicate FreeUnder(s: Sched, g: nat) {
    Inv(s) && Free(s.tasks[0]) && s.tasks[0].generation == g
  }

  /** Create a task in slot 0 under generation g and terminate it. */
  function Tenancy(g: u16): seq<Op> {
    [Create(1, 100, 0, 0), Terminate(TaskId(g, 0))]
  }

  /** n tenancies of slot 0 from generation g on. */
  function Turnover(g: nat, n: nat): seq<Op>
    requires 1 <= g && g + n < TWO16
    decreases n
  {
    if n == 0 then [] else Tenancy(g) + Turnover(g + 1, n - 1)
  }

  lemma TenancyWears(s: Sched, g: u16)
    requires FreeUnder(s, g) && 1 <= g < TWO16 - 1
    ensures FreeUnder(Run(s, Tenancy(g)), g + 1)
  {
    var c := Step(s, Create(1, 100, 0, 0));
    CreateKeeps(s, 1, 100, 0, 0);
    assert FirstFree(s.tasks, 0) == Some(0);
    assert c.tasks[0].generation == g && c.tasks[0].state == Ready;
    TerminateKeeps(c, TaskId(g, 0));
    assert Resolve(c.tasks, TaskId(g, 0)) == Some(0);
    RunTwo(s, Create(1, 100, 0, 0), Terminate(TaskId(g, 0)));
  }

  lemma RunTwo(s: Sched, a: Op, b: Op)
    ensures Run(s, [a, b]) == Step(Step(s, a), b)
  {
    var ops := [a, b];
    assert ops[1..] == [b] && ops[1..][1..] == [];
    assert Run(s, ops) == Run(Step(s, a), ops[1..]) == Run(Step(Step(s, a), b), ops[1..][1..]);
  }

  lemma {:induction false} RunConcat(s: Sched, a: seq<Op>, b: seq<Op>)
    ensures Run(s, a + b) == Run(Run(s, a), b)
    decreases |a|
  {
    if a == [] {
      assert a + b == b;
    } else {
      assert (a + b)[1..] == a[1..] + b;
      RunConcat(Step(s, a[0]), a[1..], b);
    }
  }

  lemma TurnoverSplits(s: Sched, g: nat, n: nat)
    requires 1 <= g && g + n < TWO16 && n > 0
    ensures Run(s, Turnover(g, n)) == Run(Run(s, Tenancy(g)), Turnover(g + 1, n - 1))
  {
    RunConcat(s, Tenancy(g), Turnover(g + 1, n - 1));
  }

  lemma {:induction false} TurnoverWears(s: Sched, g: nat, n: nat)
    requires FreeUnder(s, g) && 1 <= g && g + n < TWO16
    ensures FreeUnder(Run(s, Turnover(g, n)), g + n)
    decreases n
  {
    if n > 0 {
      var r := Run(s, Tenancy(g));
      TenancyWears(s, g);
      TurnoverWears(r, g + 1, n - 1);
      TurnoverSplits(s, g, n);
    }
  }

  lemma {:induction false} CreatedUnseen(s: Sched, ops: seq<Op>)
    requires FreeUnder(s, 11) && forall j :: 0 <= j < |ops| ==> !ops[j].Init?
    ensures var r := Step(s, Create(1, 100, 0, 0));
      r.tasks[0].state == Ready && (Terminations(r, ops, 0) == 0 ==> !Runs(r, ops, 0))
  {
    var r := Step(s, Create(1, 100, 0, 0));
    StepKeeps(s, Create(1, 100, 0, 0));
    assert FirstFree(s.tasks, 0) == Some(0);
    if Terminations(r, ops, 0) == 0 { UnseenNeverRuns(r, ops, 0); }
  }

  /** From init, after ten tasks have ended in slot 0 the next one is ready there and is never run. */
  lemma {:induction false} UnseenReachable(s: Sched, ops: seq<Op>)
    requires Initial(s) && forall j :: 0 <= j < |ops| ==> !ops[j].Init?
    ensures var r := Step(Run(s, Turnover(1, 10)), Create(1, 100, 0, 0));
      r.tasks[0].state == Ready && (Terminations(r, ops, 0) == 0 ==> !Runs(r, ops, 0))
  {
    InitialBounded(s);
    TurnoverWears(s, 1, 10);
    CreatedUnseen(Run(s, Turnover(1, 10)), ops);
  }
}
