/**
 The phases put together: what one call, or a run of calls, does to the running
 task, to a sleeper, to the counters and to a scheduler that is stopped or limited.
 */
module SchedulerSteps {
  import opened Words
  import opened Sums
  import opened Tasks
  import opened Scheduler
  import opened SchedulerSafety
  import opened SchedulerBounds
  import opened SchedulerLaws
  import opened TaskIds
  import Eevdf
  import RoundRobin

  // ----- ticks and yields -----

  /** The state in which a pass that ends the running task's turn makes its choice. */
  function AtChoice(s: Sched, op: Op): Sched
    requires IsPass(op) && CurrentRuns(Wake(Enter(s, op)))
  {
    Requeue(Charge(Wake(Enter(s, op))))
  }

  /** What one tick adds to V_sys, with the tasks it wakes weighing in. */
  function Gain(s: Sched): nat {
    var total := Sum(Eevdf.LiveWeights(Wake(s).tasks));
    if total == 0 then 0 else 65536 / total
  }

  /** The running task charged one tick. */
  function ChargedOnce(s: Sched, t: Task): Task
    requires t.weight > 0
  {
    t.(ticksRun := t.ticksRun + 1, remaining := if t.remaining == 0 then 0 else t.remaining - 1,
       vruntime := if s.policy == EEVDF then t.vruntime + 65536 / t.weight else t.vruntime)
  }

  /** The system's virtual time after a tick. */
  function Advanced(s: Sched): nat {
    if s.policy == EEVDF then s.vsys + Gain(s) else s.vsys
  }

  /** A task whose turn has ended: charged, its frame saved, no slice left, placed by the policy. */
  function TurnedOver(s: Sched, t: Task): Task
    requires t.weight > 0
  {
    var u := ChargedOnce(s, t).(state := Ready, context := Save(s.frame), remaining := 0);
    if s.policy == EEVDF then PlacedAt(u, Later(u, Advanced(s))) else u
  }

  lemma WakeKeepsRunner(s: Sched)
    requires Inv(s) && CurrentRuns(s)
    ensures CurrentRuns(Wake(s)) && Wake(s).tasks[s.current.value] == s.tasks[s.current.value]
  {
    assert Wake(s).tasks[s.current.value] == WakeTask(s, s.tasks[s.current.value]);
  }

  /** The rest of a pass after the wake phase. */
  function AfterWake(w: Sched, preempt: bool): Sched {
    if CurrentRuns(w) then
      var c := Charge(w);
      if preempt && c.tasks[c.current.value].remaining > 0 then c else Reschedule(Requeue(c), preempt)
    else Reschedule(w, preempt)
  }

  /** Entering a pass and waking the sleepers leaves everything but the table alone. */
  lemma PassBegins(s: Sched, op: Op)
    requires Inv(s) && Fits(s) && s.active && IsPass(op) && (op.Tick? || s.current.Some?)
    ensures var w := Wake(Enter(s, op));
      && Fits(w) && w == s.(tasks := w.tasks)
      && (if CurrentRuns(w) then Inv(w) else Parked(w))
      && Step(s, op) == AfterWake(w, op.Tick?)
  {
    var e := Enter(s, op);
    EnterKeeps(s, op);
    EnterFits(s, op);
    WakeKeeps(e);
    WakeFits(e);
  }

  /** The running task comes through the wake phase as it was, but for the slice a yield gives up. */
  lemma RunnerBegins(s: Sched, op: Op)
    requires Inv(s) && CurrentRuns(s) && op in {Tick, Yield}
    ensures var w, c := Wake(Enter(s, op)), s.current.value;
      CurrentRuns(w) && w.tasks[c] == s.tasks[c].(remaining := if op == Yield then 0 else s.tasks[c].remaining)
  {
    EnterKeeps(s, op);
    WakeKeepsRunner(Enter(s, op));
  }

  /** A tick within the slice charges the running task, wakes whoever is due, and changes nothing else. */
  lemma TickWithinSlice(s: Sched)
    requires Inv(s) && Fits(s) && s.charged + 1 < TICK_LIMIT && s.active && CurrentRuns(s)
    requires s.tasks[s.current.value].remaining > 1
    ensures var c := s.current.value;
      && s.tasks[c].weight > 0
      && Step(s, Tick) == s.(tasks := Wake(s).tasks[c := ChargedOnce(s, s.tasks[c])], vsys := Advanced(s),
                             charged := s.charged + 1)
  {
    WakeKeeps(s);
    WakeFits(s);
    WakeKeepsRunner(s);
    ChargeExact(Wake(s));
  }

  /** A tick at the end of the slice, or a yield, puts the running task back and chooses anew. */
  lemma TurnEnds(s: Sched, op: Op)
    requires Inv(s) && Fits(s) && s.charged + 1 < TICK_LIMIT && s.active && CurrentRuns(s)
    requires op == Yield || (op == Tick && s.tasks[s.current.value].remaining <= 1)
    ensures CurrentRuns(Wake(Enter(s, op)))
    ensures var q := AtChoice(s, op);
      Parked(q) && Fits(q) && q.policy == s.policy && q.current == s.current && Step(s, op) == Reschedule(q, op.Tick?)
  {
    var w := Wake(Enter(s, op));
    PassBegins(s, op);
    RunnerBegins(s, op);
    ChargeKeeps(w);
    ChargeFits(w);
    RequeueParks(Charge(w));
    RequeueFits(Charge(w));
  }

  /** What the running task looks like when its turn has ended: charged once, its frame saved, placed by the policy. */
  lemma AtChoiceExact(s: Sched, op: Op)
    requires Inv(s) && Fits(s) && s.charged + 1 < TICK_LIMIT && s.active && CurrentRuns(s)
    requires op == Yield || (op == Tick && s.tasks[s.current.value].remaining <= 1)
    ensures CurrentRuns(Wake(Enter(s, op)))
    ensures var q, c := AtChoice(s, op), s.current.value;
      && s.tasks[c].weight > 0 && q.vsys == Advanced(s) && q.tasks[c] == TurnedOver(s, s.tasks[c])
      && forall i: Slot :: i != c ==> q.tasks[i] == Wake(s).tasks[i]
  {
    var w := Wake(Enter(s, op));
    PassBegins(s, op);
    RunnerBegins(s, op);
    SameWakers(s, op);
    ChargesTurn(s, op);
    ChargeKeeps(w);
    ChargeFits(w);
    RequeuesTurn(s, w, Charge(w), s.current.value);
  }

  lemma RequeuesTurn(s: Sched, w: Sched, d: Sched, c: Slot)
    requires s.current == d.current == Some(c) && Inv(d) && CurrentRuns(d) && Fits(d)
    requires d.policy == s.policy && d.frame == s.frame
    requires s.tasks[c].weight > 0 && s.tasks[c].state == Running && d.vsys == Advanced(s)
    requires w.tasks[c] == s.tasks[c].(remaining := w.tasks[c].remaining) && w.tasks[c].remaining <= 1
    requires w.policy == s.policy && d.tasks[c] == ChargedOnce(w, w.tasks[c])
    ensures Requeue(d).vsys == Advanced(s) && Requeue(d).tasks == d.tasks[c := TurnedOver(s, s.tasks[c])]
  {
    RequeueExact(d);
  }

  lemma ChargesTurn(s: Sched, op: Op)
    requires Inv(s) && Fits(s) && s.charged + 1 < TICK_LIMIT && s.active && CurrentRuns(s) && op in {Tick, Yield}
    ensures CurrentRuns(Wake(Enter(s, op)))
    ensures var w, c := Wake(Enter(s, op)), s.current.value;
      && s.tasks[c].weight > 0
      && Charge(w) == w.(tasks := w.tasks[c := ChargedOnce(w, w.tasks[c])],
                         vsys := Advanced(s), charged := s.charged + 1)
  {
    var w := Wake(Enter(s, op));
    PassBegins(s, op);
    RunnerBegins(s, op);
    ChargesOnce(w);
    SameGain(s, w, op);
  }

  lemma ChargesOnce(w: Sched)
    requires Inv(w) && Fits(w) && w.charged + 1 < TICK_LIMIT && CurrentRuns(w)
    ensures var c, total := w.current.value, Sum(Eevdf.LiveWeights(w.tasks));
      && w.tasks[c].weight > 0 && total > 0
      && Charge(w).tasks == w.tasks[c := ChargedOnce(w, w.tasks[c])]
      && Charge(w).vsys == (if w.policy == EEVDF then w.vsys + 65536 / total else w.vsys)
      && Charge(w) == w.(tasks := Charge(w).tasks, vsys := Charge(w).vsys, charged := w.charged + 1)
  {
    ChargeExact(w);
  }

  lemma SameGain(s: Sched, w: Sched, op: Op)
    requires Inv(s) && CurrentRuns(s) && op in {Tick, Yield} && w == Wake(Enter(s, op)) && w.vsys == s.vsys
    requires Sum(Eevdf.LiveWeights(w.tasks)) > 0
    ensures w.vsys + 65536 / Sum(Eevdf.LiveWeights(w.tasks)) == s.vsys + Gain(s)
  {
    SameWakers(s, op);
  }

  lemma SameWakers(s: Sched, op: Op)
    requires Inv(s) && CurrentRuns(s) && op in {Tick, Yield}
    ensures forall i: Slot :: s.current != Some(i) ==> Wake(Enter(s, op)).tasks[i] == Wake(s).tasks[i]
    ensures Eevdf.LiveWeights(Wake(Enter(s, op)).tasks) == Eevdf.LiveWeights(Wake(s).tasks)
  {
    WakeKeepsRunner(s);
    EnterKeeps(s, op);
    WakeKeepsRunner(Enter(s, op));
    forall i: Slot ensures Eevdf.LiveWeight(Wake(Enter(s, op)).tasks[i]) == Eevdf.LiveWeight(Wake(s).tasks[i])
      && (s.current != Some(i) ==> Wake(Enter(s, op)).tasks[i] == Wake(s).tasks[i])
    {
      assert Wake(s).tasks[i] == WakeTask(s, s.tasks[i]);
      assert Wake(Enter(s, op)).tasks[i] == WakeTask(Enter(s, op), Enter(s, op).tasks[i]);
    }
  }

  /**
   A running task that loses the CPU by a tick or a yield is left ready with its
   frame saved and no slice; under EEVDF at the later of its charged runtime and the
   charged V_sys, its deadline one slice after that.
   */
  lemma LeavesTheCpu(s: Sched, op: Op)
    requires Inv(s) && Fits(s) && s.charged + 1 < TICK_LIMIT && s.active && CurrentRuns(s)
    requires op in {Tick, Yield} && Step(s, op).current != s.current
    ensures var t := s.tasks[s.current.value];
      t.weight > 0 && Step(s, op).tasks[s.current.value] == TurnedOver(s, t)
  {
    var c := s.current.value;
    if op == Tick && s.tasks[c].remaining > 1 { TickWithinSlice(s); }
    TurnEnds(s, op);
    AtChoiceExact(s, op);
    RescheduleLeaves(AtChoice(s, op), op.Tick?, c);
  }

  /** When a turn ends under EEVDF, the next task is the one that comes next among all that are then ready. */
  lemma NextAfterTurn(s: Sched, op: Op, n: Slot)
    requires Inv(s) && Fits(s) && s.charged + 1 < TICK_LIMIT && s.active && CurrentRuns(s) && s.policy == EEVDF
    requires op == Yield || (op == Tick && s.tasks[s.current.value].remaining <= 1)
    ensures CurrentRuns(Wake(Enter(s, op)))
    ensures var q := AtChoice(s, op);
      Weighted(q.tasks) && (Step(s, op).current == Some(n) <==> ComesNext(q.tasks, q.vsys, n))
  {
    TurnEnds(s, op);
    AtChoiceExact(s, op);
    var q, c := AtChoice(s, op), s.current.value;
    EevdfReschedules(q, op.Tick?, n);
    assert CanRun(q.tasks[c]) by { assert Inv(s); }
  }

  /** A sleeper woken by a pass and not chosen in it is left ready, placed at the later of its own time and V_sys. */
  lemma WokenIsPlaced(s: Sched, op: Op, i: Slot)
    requires Inv(s) && Fits(s) && s.charged + 1 < TICK_LIMIT && s.active && IsPass(op) && (op.Tick? || s.current.Some?)
    requires Visible(s.tasks[i]) && s.tasks[i].state == Sleeping && s.now >= s.tasks[i].wakeAt
    requires s.current != Some(i) && Step(s, op).current != Some(i)
    ensures var t := s.tasks[i].(state := Ready);
      t.weight > 0 && Step(s, op).tasks[i] == if s.policy == EEVDF then PlacedAt(t, Later(t, s.vsys)) else t
  {
    WokenAtWake(s, op, i);
    PassLeaves(Wake(Enter(s, op)), op.Tick?, i);
  }

  lemma WokenAtWake(s: Sched, op: Op, i: Slot)
    requires Inv(s) && Fits(s) && s.active && IsPass(op) && (op.Tick? || s.current.Some?)
    requires Visible(s.tasks[i]) && s.tasks[i].state == Sleeping && s.now >= s.tasks[i].wakeAt && s.current != Some(i)
    ensures var w, t := Wake(Enter(s, op)), s.tasks[i].(state := Ready);
      && t.weight > 0 && w.tasks[i] == (if s.policy == EEVDF then PlacedAt(t, Later(t, s.vsys)) else t)
      && Fits(w) && w.charged == s.charged && w.current == s.current && w.policy == s.policy && TaskOk(w.tasks[i])
      && (if CurrentRuns(w) then Inv(w) else Parked(w))
      && Step(s, op) == AfterWake(w, op.Tick?)
  {
    var e := Enter(s, op);
    PassBegins(s, op);
    assert TaskOk(s.tasks[i]) && e.tasks[i] == s.tasks[i];
    EnterFits(s, op);
    WakeExact(e, i);
    assert TaskOk(Wake(e).tasks[i]);
  }

  /** After the wake phase, a task that is neither current nor chosen is left alone unless its deadline is stale. */
  lemma PassLeaves(w: Sched, preempt: bool, i: Slot)
    requires Fits(w) && w.charged + 1 < TICK_LIMIT && w.current != Some(i) && TaskOk(w.tasks[i])
    requires w.policy == EEVDF ==> w.tasks[i].vruntime <= w.tasks[i].vdeadline
    requires if CurrentRuns(w) then Inv(w) else Parked(w)
    requires AfterWake(w, preempt).current != Some(i)
    ensures AfterWake(w, preempt).tasks[i] == w.tasks[i]
  {
    if CurrentRuns(w) {
      ChargeKeeps(w);
      ChargeFits(w);
      RequeueParks(Charge(w));
      RequeueFits(Charge(w));
      assert Requeue(Charge(w)).tasks[i] == w.tasks[i];
      if !(preempt && Charge(w).tasks[w.current.value].remaining > 0) {
        RescheduleLeaves(Requeue(Charge(w)), preempt, i);
      }
    } else {
      RescheduleLeaves(w, preempt, i);
    }
  }

  // ----- counters, limit and stop -----

  /** Switches are counted per change of current task; preemptions only for ticks. */
  lemma PassCounts(s: Sched, op: Op)
    requires Inv(s) && IsPass(op)
    ensures CountsSwitch(s, Step(s, op), op.Tick?)
    ensures !op.Tick? ==> Step(s, op).preempts == s.preempts
  {
    var e := Enter(s, op);
    EnterKeeps(s, op);
    EnterCounts(s, op);
    AddSmall(s.preempts, 0);
    if op.Tick? || s.current.Some? {
      DoScheduleCounts(e, op.Tick?);
      CountsFrom(s, e, DoSchedule(e, op.Tick?), op.Tick?);
      assert Step(s, op) == DoSchedule(e, op.Tick?);
    }
  }

  /** Everything a switch is counted by is the same in both states. */
  predicate SameCounts(s: Sched, e: Sched) {
    && e.current == s.current && e.service == s.service && e.active == s.active && e.preemptLimit == s.preemptLimit
    && (e.switches, e.sameDomain, e.crossDomain, e.preempts) == (s.switches, s.sameDomain, s.crossDomain, s.preempts)
    && (s.current.Some? ==> e.tasks[s.current.value].domain == s.tasks[s.current.value].domain)
  }

  lemma EnterCounts(s: Sched, op: Op)
    requires IsPass(op)
    ensures SameCounts(s, Enter(s, op))
  {
  }

  lemma CountsFrom(s: Sched, e: Sched, r: Sched, preempt: bool)
    requires SameCounts(s, e) && CountsSwitch(e, r, preempt)
    ensures CountsSwitch(s, r, preempt)
  {
  }

  /** A stopped scheduler never gives the CPU to another task and charges nothing until it is started. */
  lemma {:induction false} StoppedKeeps(s: Sched, ops: seq<Op>)
    requires !s.active && forall k :: 0 <= k < |ops| ==> !ops[k].Start? && !ops[k].Init?
    ensures var r := Run(s, ops);
      && !r.active && r.current in {s.current, None}
      && (r.charged, r.switches, r.preempts, r.service) == (s.charged, s.switches, s.preempts, s.service)
    decreases |ops|
  {
    if ops != [] {
      StoppedStep(s, ops[0]);
      StoppedKeeps(Step(s, ops[0]), ops[1..]);
    }
  }

  lemma StoppedStep(s: Sched, op: Op)
    requires !s.active && !op.Start? && !op.Init?
    ensures var r := Step(s, op);
      && !r.active && r.current in {s.current, None}
      && (r.charged, r.switches, r.preempts, r.service) == (s.charged, s.switches, s.preempts, s.service)
  {
  }

  /** Stop takes effect at once, and after init nothing runs before the first start. */
  lemma StopAndInit(s: Sched, ops: seq<Op>)
    requires forall k :: 0 <= k < |ops| ==> !ops[k].Start? && !ops[k].Init?
    ensures Run(Step(s, Stop), ops).current in {s.current, None} && !Run(Step(s, Stop), ops).active
    ensures Run(Step(s, Stop), ops).switches == s.switches
    ensures Initial(s) ==> Run(s, ops).current == None && Run(s, ops).switches == 0 && Run(s, ops).charged == 0
    ensures Step(s, Start) == s.(active := true)
  {
    StoppedKeeps(Step(s, Stop), ops);
    if Initial(s) { StoppedKeeps(s, ops); }
  }

  function Starts(ops: seq<Op>): nat {
    if ops == [] then 0 else (if ops[0].Start? then 1 else 0) + Starts(ops[1..])
  }

  /** At most b preemptions so far, and a scheduler that has reached its limit is stopped unless b leaves one more. */
  predicate Budgeted(s: Sched, b: nat) {
    && s.preemptLimit > 0 && s.preempts <= b && s.preemptLimit <= b
    && (s.active && s.preempts >= s.preemptLimit ==> s.preempts < b)
  }

  lemma BudgetStep(s: Sched, op: Op, b: nat)
    requires Inv(s) && Budgeted(s, b) && b + 1 < TWO64 && !op.Init? && !op.SetLimit?
    ensures Budgeted(Step(s, op), b + if op.Start? then 1 else 0)
  {
    if IsPass(op) {
      PassCounts(s, op);
      AddSmall(s.preempts, 1);
      PassKeepsRest(s, op);
    }
  }

  lemma RescheduleKeepsRest(s: Sched, preempt: bool)
    ensures Reschedule(s, preempt).preemptLimit == s.preemptLimit && Reschedule(s, preempt).now == s.now
  {
    var p := Choose(s).s;
    assert p.preemptLimit == s.preemptLimit && p.now == s.now;
  }

  /** No pass moves the limit or the clock. */
  lemma PassKeepsRest(s: Sched, op: Op)
    requires IsPass(op)
    ensures Step(s, op).preemptLimit == s.preemptLimit && Step(s, op).now == s.now
  {
    var w := Wake(Enter(s, op));
    assert w.preemptLimit == s.preemptLimit && w.now == s.now;
    RescheduleKeepsRest(w, op.Tick?);
    if CurrentRuns(w) { RescheduleKeepsRest(Requeue(Charge(w)), op.Tick?); }
  }

  lemma {:induction false} BudgetRun(s: Sched, ops: seq<Op>, b: nat)
    requires Inv(s) && Budgeted(s, b) && b + Starts(ops) + 1 < TWO64
    requires forall k :: 0 <= k < |ops| ==> !ops[k].Init? && !ops[k].SetLimit?
    ensures Run(s, ops).preempts <= b + Starts(ops)
    decreases |ops|
  {
    if ops != [] {
      StepKeeps(s, ops[0]);
      BudgetStep(s, ops[0], b);
      BudgetRun(Step(s, ops[0]), ops[1..], b + if ops[0].Start? then 1 else 0);
    }
  }

  /** A preemption limit holds: no run passes it, but for one preemption after each later start. */
  lemma LimitHolds(s: Sched, n: u64, ops: seq<Op>)
    requires Inv(s) && s.preempts < n && n + Starts(ops) + 1 < TWO64
    requires forall k :: 0 <= k < |ops| ==> !ops[k].Init? && !ops[k].SetLimit?
    ensures Run(Step(s, SetLimit(n)), ops).preempts <= n + Starts(ops)
  {
    StepKeeps(s, SetLimit(n));
    BudgetRun(Step(s, SetLimit(n)), ops, n);
  }

  // ----- Round-Robin from init -----

  /** No task has run since the policy was initialised. */
  predicate Untouched(s: Sched) {
    && Inv(s) && s.policy == RR && s.rrLast == 0 && s.current == None
    && forall i: Slot :: s.tasks[i].state in {Unused, Ready, Terminated}
  }

  predicate Prepares(op: Op) {
    !IsPass(op) && !op.Init? && op != SetPolicy(EEVDF)
  }

  lemma {:induction false} StaysUntouched(s: Sched, ops: seq<Op>)
    requires Untouched(s) && forall k :: 0 <= k < |ops| ==> Prepares(ops[k])
    ensures Untouched(Run(s, ops))
    decreases |ops|
  {
    if ops != [] {
      StepKeeps(s, ops[0]);
      StaysUntouched(Step(s, ops[0]), ops[1..]);
    }
  }

  /** After init and a selection of Round-Robin, the first tick runs the lowest ready slot. */
  lemma FirstPickIsLowest(s: Sched, ops: seq<Op>, n: Slot)
    requires Initial(s) && forall k :: 0 <= k < |ops| ==> Prepares(ops[k])
    ensures var r := Run(Step(s, SetPolicy(RR)), ops);
      r.active && CanRun(r.tasks[n]) && (forall i: Slot :: i < n ==> !CanRun(r.tasks[i])) ==>
        Step(r, Tick).current == Some(n)
  {
    InitialBounded(s);
    StepKeeps(s, SetPolicy(RR));
    StaysUntouched(Step(s, SetPolicy(RR)), ops);
    var r := Run(Step(s, SetPolicy(RR)), ops);
    if r.active && CanRun(r.tasks[n]) && forall i: Slot :: i < n ==> !CanRun(r.tasks[i]) {
      PicksLowest(r, n);
    }
  }

  lemma PicksLowest(s: Sched, n: Slot)
    requires Untouched(s) && s.active && CanRun(s.tasks[n]) && forall i: Slot :: i < n ==> !CanRun(s.tasks[i])
    ensures Step(s, Tick).current == Some(n)
  {
    NobodyWakes(s);
    assert forall i: Slot :: Candidate(s.tasks[i]) <==> CanRun(s.tasks[i]);
    RoundRobin.NextFromZero(s.tasks, n);
    assert Choose(s).next == Some(n);
    assert Step(s, Tick) == Reschedule(s, true);
  }

  // ----- sleeping -----

  /** The time that passes during a run. */
  function Elapsed(ops: seq<Op>): nat {
    if ops == [] then 0 else (if ops[0].Advance? then ops[0].elapsed else 0) + Elapsed(ops[1..])
  }

  /** The call neither ends the task in slot i nor puts it to sleep anew. */
  predicate LetsSleep(s: Sched, op: Op, i: Slot) {
    !op.Init? && !Ends(s, op, i) && !(op.Sleep? && s.current == Some(i))
  }

  ghost predicate LeftAsleep(s: Sched, ops: seq<Op>, i: Slot)
    decreases |ops|
  {
    ops == [] || (LetsSleep(s, ops[0], i) && LeftAsleep(Step(s, ops[0]), ops[1..], i))
  }

  lemma ClockStep(s: Sched, op: Op)
    requires s.now + (if op.Advance? then op.elapsed else 0) < TWO64
    ensures Step(s, op).now == s.now + if op.Advance? then op.elapsed else 0
  {
    if IsPass(op) { PassKeepsRest(s, op); }
  }

  lemma SleepStep(s: Sched, op: Op, i: Slot)
    requires Inv(s) && Visible(s.tasks[i]) && s.tasks[i].state == Sleeping && s.now < s.tasks[i].wakeAt
    requires LetsSleep(s, op, i)
    ensures var t := Step(s, op).tasks[i]; Visible(t) && t.state == Sleeping && t.wakeAt == s.tasks[i].wakeAt
  {
    StepIds(s, op, i);
    if IsPass(op) {
      var e := Enter(s, op);
      EnterKeeps(s, op);
      assert Visible(e.tasks[i]) && e.tasks[i].state == Sleeping && e.tasks[i].wakeAt == s.tasks[i].wakeAt;
      if e.active { WakesExactlyTheDue(e, op.Tick?, i); }
    }
  }

  lemma {:induction false} StaysAsleep(s: Sched, ops: seq<Op>, i: Slot)
    requires Inv(s) && Visible(s.tasks[i]) && s.tasks[i].state == Sleeping && s.tasks[i].wakeAt < TWO64
    requires s.now + Elapsed(ops) < s.tasks[i].wakeAt && LeftAsleep(s, ops, i)
    ensures var r := Run(s, ops);
      && Inv(r) && r.now == s.now + Elapsed(ops)
      && Visible(r.tasks[i]) && r.tasks[i].state == Sleeping && r.tasks[i].wakeAt == s.tasks[i].wakeAt
    decreases |ops|
  {
    if ops != [] {
      StepKeeps(s, ops[0]);
      SleepStep(s, ops[0], i);
      ClockStep(s, ops[0]);
      StaysAsleep(Step(s, ops[0]), ops[1..], i);
    }
  }

  /**
   A sleep lasts as long as asked: through any calls during which fewer ticks of
   time pass the task sleeps on, and the first active tick after they have passed
   wakes it.
   */
  lemma SleepLasts(s: Sched, n: u64, ops: seq<Op>, more: u64)
    requires Inv(s) && s.active && s.current.Some? && 0 < n && s.now + n < TWO64
    requires LeftAsleep(Step(s, Sleep(n)), ops, s.current.value) && Elapsed(ops) < n
    requires s.now + Elapsed(ops) + more < TWO64
    ensures var c, r := s.current.value, Run(Step(s, Sleep(n)), ops);
      && r.tasks[c].state == Sleeping
      && (r.active ==> (Step(Step(r, Advance(more)), Tick).tasks[c].state == Sleeping <==> Elapsed(ops) + more < n))
  {
    var c, f := s.current.value, Step(s, Sleep(n));
    SleepsUntil(s, n);
    StepKeeps(s, Sleep(n));
    ClockStep(s, Sleep(n));
    StepIds(s, Sleep(n), c);
    assert Visible(s.tasks[c]) && Visible(f.tasks[c]) && f.tasks[c].wakeAt == s.now + n;
    StaysAsleep(f, ops, c);
    if Run(f, ops).active { WakesInTime(Run(f, ops), c, more); }
  }

  lemma WakesInTime(s: Sched, c: Slot, more: u64)
    requires Inv(s) && s.active && Visible(s.tasks[c]) && s.tasks[c].state == Sleeping && s.now + more < TWO64
    ensures Step(Step(s, Advance(more)), Tick).tasks[c].state == Sleeping <==> s.now + more < s.tasks[c].wakeAt
  {
    var r := Step(s, Advance(more));
    ClockStep(s, Advance(more));
    StepKeeps(s, Advance(more));
    WakesExactlyTheDue(r, true, c);
  }

  // ----- termination -----

  /** Termination ends exactly the task its id names: its slot is free, the id dead, and nothing current if it was. */
  lemma TerminateExact(s: Sched, id: u32)
    requires Inv(s)
    ensures var r, f := Step(s, Terminate(id)), Resolve(s.tasks, id);
      && (f.None? ==> r == s)
      && (f.Some? ==>
            var t := s.tasks[f.value];
            var next := if t.generation == 65535 then 1 else t.generation + 1;
            && r == s.(tasks := s.tasks[f.value := t.(state := Terminated, generation := next)],
                       current := if s.current == f then None else s.current)
            && Resolve(r.tasks, id).None? && FirstFree(r.tasks, 0).Some? && FirstFree(r.tasks, 0).value <= f.value)
  {
    var f := Resolve(s.tasks, id);
    if f.Some? { assert TaskOk(s.tasks[f.value]); }
  }
}
