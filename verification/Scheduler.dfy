/**
 The scheduler of kernel/scheduler/scheduler.c as a state machine.  One pass of
 do_schedule is split into its phases: wake, charge, requeue, choose, dispatch.
 */
module Scheduler {
  import opened Words
  import opened Tasks
  import Eevdf
  import RoundRobin
  import opened Generations

  datatype Policy = RR | EEVDF

  /** All scheduler globals.  charged is a history variable: the number of ticks charged since init. */
  datatype Sched = Sched(
    tasks: TaskTable, current: Option<Slot>, frame: TrapFrame, now: nat, active: bool,
    policy: Policy, vsys: nat, rrLast: Slot, preemptLimit: nat,
    switches: nat, preempts: nat, sameDomain: nat, crossDomain: nat,
    service: nat, charged: nat)

  predicate CurrentRuns(s: Sched) {
    Eevdf.IsRunning(s.tasks, s.current)
  }

  // ----- phases of do_schedule -----

  function OnReady(s: Sched, t: Task): Task {
    if s.policy == EEVDF then Eevdf.Align(t, s.vsys) else t
  }

  predicate Due(s: Sched, t: Task) {
    Visible(t) && t.state == Sleeping && s.now >= t.wakeAt
  }

  function WakeTask(s: Sched, t: Task): Task {
    if Due(s, t) then OnReady(s, t.(state := Ready)) else t
  }

  function WakeTable(s: Sched): (r: TaskTable)
    ensures forall i: Slot :: r[i] == WakeTask(s, s.tasks[i])
  {
    seq(16, i requires 0 <= i < 16 => WakeTask(s, s.tasks[i]))
  }

  function Wake(s: Sched): Sched {
    s.(tasks := WakeTable(s))
  }

  /** The policy's on_tick with a delta of one. */
  function Charge(s: Sched): Sched
    requires CurrentRuns(s)
  {
    var c := s.current.value;
    var t := s.tasks[c];
    if s.policy == EEVDF then
      var ts := s.tasks[c := Eevdf.ChargeTask(t)];
      s.(tasks := ts, vsys := Add64(s.vsys, Eevdf.SystemGain(ts)), charged := s.charged + 1)
    else
      s.(tasks := s.tasks[c := t.(ticksRun := Add64(t.ticksRun, 1),
                                  remaining := if t.remaining >= 1 then t.remaining - 1 else 0)],
         charged := s.charged + 1)
  }

  /** Save the running task's registers and put it back among the ready tasks. */
  function Requeue(s: Sched): Sched
    requires CurrentRuns(s)
  {
    var c := s.current.value;
    s.(tasks := s.tasks[c := OnReady(s, s.tasks[c].(context := Save(s.frame), state := Ready))])
  }

  datatype Chosen = Chosen(s: Sched, next: Option<Slot>)

  /** The policy's pick_next. */
  function Choose(s: Sched): Chosen {
    if s.policy == EEVDF then
      var r := Eevdf.Pick(s.tasks, s.vsys, s.current);
      Chosen(s.(tasks := r.tasks, vsys := r.vsys), r.next)
    else
      match RoundRobin.Next(s.tasks, s.rrLast, s.current)
      case Some(n) =>
        Chosen(s.(tasks := s.tasks[n := s.tasks[n].(remaining := s.tasks[n].quantum)], rrLast := n), Some(n))
      case None =>
        if CurrentRuns(s) then
          var c := s.current.value;
          Chosen(s.(tasks := s.tasks[c := s.tasks[c].(remaining := s.tasks[c].quantum)]), s.current)
        else Chosen(s, None)
  }

  function Rerun(s: Sched, c: Slot): Sched {
    s.(tasks := s.tasks[c := s.tasks[c].(state := Running, remaining := s.tasks[c].quantum)])
  }

  /** Hand the CPU to another task. */
  function Switch(s: Sched, n: Slot, preempt: bool): Sched {
    var t := s.tasks[n];
    var same := s.current.Some? && t.domain == s.tasks[s.current.value].domain;
    var preempts := if preempt then Add64(s.preempts, 1) else s.preempts;
    s.(tasks := s.tasks[n := t.(state := Running)],
       current := Some(n), frame := Load(t.context), service := t.service,
       sameDomain := if same then Add64(s.sameDomain, 1) else s.sameDomain,
       crossDomain := if same then s.crossDomain else Add64(s.crossDomain, 1),
       switches := Add64(s.switches, 1), preempts := preempts,
       active := s.active && !(preempt && s.preemptLimit > 0 && preempts >= s.preemptLimit))
  }

  function Dispatch(s: Sched, next: Option<Slot>, preempt: bool): Sched {
    if next.None? then
      if s.current.Some? && s.tasks[s.current.value].state == Ready then Rerun(s, s.current.value) else s
    else if next == s.current then Rerun(s, next.value)
    else Switch(s, next.value, preempt)
  }

  function Reschedule(s: Sched, preempt: bool): Sched {
    Dispatch(Choose(s).s, Choose(s).next, preempt)
  }

  function DoSchedule(s: Sched, preempt: bool): Sched {
    if !s.active then s
    else
      var w := Wake(s);
      if CurrentRuns(w) then
        var c := Charge(w);
        if preempt && c.tasks[c.current.value].remaining > 0 then c
        else Reschedule(Requeue(c), preempt)
      else Reschedule(w, preempt)
  }

  // ----- the API -----

  datatype Op =
    | Init
    | SetPolicy(policy: Policy)
    | Start
    | Stop
    | SetLimit(limit: u64)
    | Create(service: u32, domain: u32, pc: u64, sp: u64)
    | Terminate(id: u32)
    | SetWeight(slot: Slot, weight: u32)
    | SetSlice(slot: Slot, slice: u32)
    | Advance(elapsed: u64)
    | User(frame: TrapFrame)
    | Tick
    | Yield
    | Sleep(ticks: u64)

  function PolicyInit(s: Sched): Sched {
    if s.policy == EEVDF then s.(vsys := 0) else s.(rrLast := 0)
  }

  function InitTable(): (ts: TaskTable)
    ensures forall i: Slot :: ts[i] == FreshTask()
  {
    seq(16, i => FreshTask())
  }

  function DoInit(s: Sched): Sched {
    PolicyInit(s.(tasks := InitTable(), current := None, active := false, switches := 0, preempts := 0,
                  sameDomain := 0, crossDomain := 0, preemptLimit := 0, charged := 0))
  }

  function DoCreate(s: Sched, service: u32, domain: u32, pc: u64, sp: u64): Sched {
    match FirstFree(s.tasks, 0)
    case None => s
    case Some(i) => s.(tasks := s.tasks[i := NewTask(s.tasks[i], i, service, domain, pc, sp)])
  }

  function DoTerminate(s: Sched, id: u32): Sched {
    match Resolve(s.tasks, id)
    case None => s
    case Some(i) =>
      var t := s.tasks[i];
      s.(tasks := s.tasks[i := t.(state := Terminated, generation := NextGeneration(t.generation))],
         current := if s.current == Some(i) then None else s.current)
  }

  predicate IsPass(op: Op) {
    op.Tick? || op.Yield? || op.Sleep?
  }

  /** What yield and sleep_current do to the current task before the pass. */
  function Enter(s: Sched, op: Op): Sched
    requires IsPass(op)
  {
    if s.current.None? then s
    else
      var c := s.current.value;
      match op
      case Yield => s.(tasks := s.tasks[c := s.tasks[c].(remaining := 0)])
      case Sleep(n) => s.(tasks := s.tasks[c := s.tasks[c].(wakeAt := Add64(s.now, n), state := Sleeping)])
      case _ => s
  }

  /** lettuce_scheduler_tick, yield and sleep_current: the last two need a current task. */
  function Pass(s: Sched, op: Op): Sched
    requires IsPass(op)
  {
    if !op.Tick? && s.current.None? then s else DoSchedule(Enter(s, op), op.Tick?)
  }

  function Step(s: Sched, op: Op): Sched {
    match op
    case Init => DoInit(s)
    case SetPolicy(p) => PolicyInit(s.(policy := p))
    case Start => s.(active := true)
    case Stop => s.(active := false)
    case SetLimit(n) => s.(preemptLimit := n)
    case Create(svc, dom, pc, sp) => DoCreate(s, svc, dom, pc, sp)
    case Terminate(id) => DoTerminate(s, id)
    case SetWeight(i, w) => s.(tasks := s.tasks[i := s.tasks[i].(weight := ClampWeight(w))])
    case SetSlice(i, n) => s.(tasks := s.tasks[i := s.tasks[i].(slice := ClampSlice(n), quantum := ClampSlice(n))])
    case Advance(n) => s.(now := Add64(s.now, n))
    case User(f) => s.(frame := f)
    case _ => Pass(s, op)
  }

  /** The state after a sequence of API calls. */
  function Run(s: Sched, ops: seq<Op>): Sched
    decreases |ops|
  {
    if ops == [] then s else Run(Step(s, ops[0]), ops[1..])
  }

  /** The task in slot me is visible and ready, and not dispatched, in every state of the run. */
  ghost predicate Waits(s: Sched, ops: seq<Op>, me: Slot)
    decreases |ops|
  {
    Candidate(s.tasks[me]) && (ops == [] || Waits(Step(s, ops[0]), ops[1..], me))
  }

  /** Some state of the run has the task in slot me current and running. */
  ghost predicate Runs(s: Sched, ops: seq<Op>, me: Slot) {
    exists k :: 0 <= k <= |ops| && RunsAfter(s, ops, k, me)
  }

  ghost predicate RunsAfter(s: Sched, ops: seq<Op>, k: nat, me: Slot)
    requires k <= |ops|
  {
    var r := Run(s, ops[..k]);
    r.current == Some(me) && r.tasks[me].state == Running
  }

  /** Ticks, yields and sleeps, with user code and time passing in between. */
  predicate Ordinary(op: Op) {
    IsPass(op) || op.User? || op.Advance?
  }

  function Ticks(ops: seq<Op>): nat {
    if ops == [] then 0 else (if ops[0].Tick? then 1 else 0) + Ticks(ops[1..])
  }

  function TicksAndYields(ops: seq<Op>): (n: nat)
    ensures Ticks(ops) <= n
  {
    if ops == [] then 0 else (if ops[0].Tick? || ops[0].Yield? then 1 else 0) + TicksAndYields(ops[1..])
  }

  /** Ticks, yields and sleeps. */
  function Passes(ops: seq<Op>): (n: nat)
    ensures Ticks(ops) <= n
  {
    if ops == [] then 0 else (if IsPass(ops[0]) then 1 else 0) + Passes(ops[1..])
  }

  /** The state lettuce_scheduler_init leaves, whatever was there before. */
  ghost predicate Initial(s: Sched) {
    exists boot: Sched :: s == DoInit(boot)
  }
}
