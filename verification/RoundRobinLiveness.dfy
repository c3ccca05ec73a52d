/**
 Round-Robin bounded wait: before a ready task is dispatched, no other slot is
 picked twice, and the ticks charged fit in the running slice plus one quantum
 for each slot between the last pick and the waiter.
 */
module RoundRobinLiveness {
  import opened Words
  import opened Sums
  import opened Tasks
  import opened Scheduler
  import opened SchedulerSafety
  import opened SchedulerBounds
  import opened RoundRobin

  /** Slot j is probed before the waiter. */
  predicate Ahead(last: Slot, me: Slot, j: Slot) {
    Distance(last, j) < Distance(last, me)
  }

  function Quanta(ts: TaskTable, last: Slot, me: Slot): (r: seq<nat>)
    ensures |r| == 16 && forall i: Slot :: r[i] == if Ahead(last, me, i) then ts[i].quantum else 0
  {
    seq(16, i requires 0 <= i < 16 => if Ahead(last, me, i) then ts[i].quantum else 0)
  }

  function SliceLeft(s: Sched): nat {
    if CurrentRuns(s) then Max(s.tasks[s.current.value].remaining, 1) else 0
  }

  /** The bound on charged ticks before the task in slot me is dispatched. */
  function WaitBound(s: Sched, me: Slot): nat {
    SliceLeft(s) + Sum(Quanta(s.tasks, s.rrLast, me))
  }

  predicate Rotating(s: Sched) {
    Inv(s) && s.policy == RR && s.current.Some?
  }

  /** Calls under which the wait is measured; others may sleep and wake. */
  predicate Undisturbed(op: Op) {
    match op
    case Init => false
    case SetPolicy(_) => false
    case Create(_, _, _, _) => false
    case Terminate(_) => false
    case SetSlice(_, _) => false
    case _ => true
  }

  lemma DistanceThrough(last: Slot, n: Slot, me: Slot, j: Slot)
    requires Ahead(last, me, n)
    ensures Ahead(n, me, j) ==> Ahead(last, me, j) && Distance(last, n) < Distance(last, j)
    ensures Distance(n, me) + Distance(last, n) == Distance(last, me) && !Ahead(n, me, n)
  {
  }

  lemma SameQuanta(ts: TaskTable, us: TaskTable, last: Slot, me: Slot)
    requires forall i: Slot :: us[i].quantum == ts[i].quantum
    ensures Quanta(us, last, me) == Quanta(ts, last, me)
  {
  }

  /** A choice made while the waiter is ready but not taken uses up the picked slot's quantum. */
  lemma RescheduleAdvances(s: Sched, me: Slot, preempt: bool)
    requires Parked(s) && s.policy == RR && s.current.Some? && Candidate(s.tasks[me])
    requires Candidate(Reschedule(s, preempt).tasks[me])
    ensures var r, n := Reschedule(s, preempt), Choose(s).next;
      && n.Some? && r.rrLast == n.value && r.current.Some? && r.policy == RR
      && n.value != me && Ahead(s.rrLast, me, n.value)
      && WaitBound(r, me) <= Sum(Quanta(s.tasks, s.rrLast, me))
  {
    NextIsNearest(s.tasks, s.rrLast, s.current, me);
    var n := Choose(s).next.value;
    assert n != me;
    assert Ahead(s.rrLast, me, n) by {
      assert At(s.rrLast, Distance(s.rrLast, n)) == n;
    }
    PickUsesQuantum(s, me, preempt);
  }

  /** A pick ahead of the waiter is paid for by the quantum it had there. */
  lemma PickUsesQuantum(s: Sched, me: Slot, preempt: bool)
    requires Parked(s) && s.policy == RR && Choose(s).next.Some? && Ahead(s.rrLast, me, Choose(s).next.value)
    ensures WaitBound(Reschedule(s, preempt), me) <= Sum(Quanta(s.tasks, s.rrLast, me))
  {
    var r, n := Reschedule(s, preempt), Choose(s).next.value;
    var q := s.tasks[n].quantum;
    assert TaskOk(s.tasks[n]);
    DispatchedSlice(s, preempt);
    SameQuanta(s.tasks, r.tasks, n, me);
    var a, b := Quanta(s.tasks, n, me), Quanta(s.tasks, s.rrLast, me);
    forall i: Slot ensures a[i] <= b[i] {
      DistanceThrough(s.rrLast, n, me, i);
    }
    DistanceThrough(s.rrLast, n, me, n);
    SumDrop(a, b, n, q);
  }

  lemma DispatchedSlice(s: Sched, preempt: bool)
    requires s.policy == RR && Choose(s).next.Some? && Parked(s)
    ensures var r, n := Reschedule(s, preempt), Choose(s).next.value;
      && r.current == Some(n) && r.rrLast == n && r.tasks[n].remaining == s.tasks[n].quantum
      && r.policy == RR && forall i: Slot :: r.tasks[i].quantum == s.tasks[i].quantum
  {
    ChooseKeeps(s);
  }

  /** The slot pick_next returned during a call, if the call got that far. */
  function PickIn(s: Sched, preempt: bool): Option<Slot> {
    if !s.active then None
    else
      var w := Wake(s);
      if CurrentRuns(w) then
        var c := Charge(w);
        if preempt && c.tasks[c.current.value].remaining > 0 then None else Choose(Requeue(c)).next
      else Choose(w).next
  }

  function PickOf(s: Sched, op: Op): Option<Slot> {
    if !IsPass(op) || (!op.Tick? && s.current.None?) then None else PickIn(Enter(s, op), op.Tick?)
  }

  /** How one call moves the rotation: at most one pick, strictly closer to the waiter. */
  ghost predicate Advances(s: Sched, r: Sched, pick: Option<Slot>, me: Slot) {
    && r.rrLast == (if pick.Some? then pick.value else s.rrLast)
    && (pick.Some? ==> pick.value != me && Ahead(s.rrLast, me, pick.value))
    && s.charged <= r.charged
    && WaitBound(r, me) + (r.charged - s.charged) <= WaitBound(s, me)
    && r.policy == RR && r.current.Some?
  }

  lemma WakeSame(s: Sched, me: Slot)
    requires Inv(s) && s.policy == RR
    ensures WaitBound(Wake(s), me) == WaitBound(s, me)
    ensures Candidate(s.tasks[me]) ==> Wake(s).tasks[me] == s.tasks[me]
  {
    var w := Wake(s);
    forall i: Slot ensures w.tasks[i].quantum == s.tasks[i].quantum {
      assert w.tasks[i] == WakeTask(s, s.tasks[i]);
    }
    if s.current.Some? { assert w.tasks[s.current.value] == WakeTask(s, s.tasks[s.current.value]); }
    SameQuanta(s.tasks, w.tasks, s.rrLast, me);
  }

  lemma KeepsCpu(s: Sched, me: Slot)
    requires Rotating(s) && CurrentRuns(s) && Charge(s).tasks[s.current.value].remaining > 0
    ensures Advances(s, Charge(s), None, me)
  {
    SameQuanta(s.tasks, Charge(s).tasks, s.rrLast, me);
  }

  lemma GivesUpCpu(s: Sched, me: Slot, preempt: bool)
    requires Rotating(s) && CurrentRuns(s) && CurrentRuns(Charge(s)) && Candidate(s.tasks[me])
    requires Candidate(Reschedule(Requeue(Charge(s)), preempt).tasks[me])
    ensures Advances(s, Reschedule(Requeue(Charge(s)), preempt), Choose(Requeue(Charge(s))).next, me)
  {
    ChargeKeeps(s);
    RequeueParks(Charge(s));
    var q := Requeue(Charge(s));
    SameQuanta(s.tasks, q.tasks, s.rrLast, me);
    RescheduleAdvances(q, me, preempt);
    RescheduleKeepsCount(q, preempt);
  }

  /** The rotation moves the same way seen from an earlier state with the same last pick and no smaller bound. */
  lemma AdvancesFrom(s: Sched, w: Sched, r: Sched, pick: Option<Slot>, me: Slot)
    requires w.rrLast == s.rrLast && w.charged == s.charged && WaitBound(w, me) <= WaitBound(s, me)
    requires Advances(w, r, pick, me)
    ensures Advances(s, r, pick, me)
  {
  }

  lemma ResumesFromIdle(s: Sched, me: Slot, preempt: bool)
    requires Parked(s) && s.policy == RR && s.current.Some? && Candidate(s.tasks[me])
    requires Candidate(Reschedule(s, preempt).tasks[me])
    ensures Advances(s, Reschedule(s, preempt), Choose(s).next, me)
  {
    RescheduleAdvances(s, me, preempt);
    RescheduleKeepsCount(s, preempt);
  }

  lemma DoScheduleAdvances(s: Sched, me: Slot, preempt: bool)
    requires Rotating(s) && Candidate(s.tasks[me]) && Candidate(DoSchedule(s, preempt).tasks[me])
    ensures Advances(s, DoSchedule(s, preempt), PickIn(s, preempt), me)
  {
    if s.active {
      var w := Wake(s);
      WakeKeeps(s);
      WakeSame(s, me);
      if CurrentRuns(w) {
        ChargeKeeps(w);
        if preempt && Charge(w).tasks[w.current.value].remaining > 0 {
          KeepsCpu(w, me);
        } else {
          GivesUpCpu(w, me, preempt);
        }
      } else {
        ResumesFromIdle(w, me, preempt);
      }
      AdvancesFrom(s, w, DoSchedule(s, preempt), PickIn(s, preempt), me);
    }
  }

  lemma EnterShrinks(s: Sched, me: Slot, op: Op)
    requires Rotating(s) && IsPass(op)
    ensures WaitBound(Enter(s, op), me) <= WaitBound(s, me)
    ensures Candidate(s.tasks[me]) ==> Enter(s, op).tasks[me] == s.tasks[me]
  {
    SameQuanta(s.tasks, Enter(s, op).tasks, s.rrLast, me);
  }

  lemma StepAdvances(s: Sched, me: Slot, op: Op)
    requires Rotating(s) && Undisturbed(op) && Candidate(s.tasks[me]) && Candidate(Step(s, op).tasks[me])
    ensures Advances(s, Step(s, op), PickOf(s, op), me) && Rotating(Step(s, op))
  {
    StepKeeps(s, op);
    if IsPass(op) {
      var e := Enter(s, op);
      EnterKeeps(s, op);
      EnterShrinks(s, me, op);
      DoScheduleAdvances(e, me, op.Tick?);
      AdvancesFrom(s, e, Step(s, op), PickOf(s, op), me);
    } else {
      TableOpAdvances(s, me, op);
    }
  }

  lemma TableOpAdvances(s: Sched, me: Slot, op: Op)
    requires Rotating(s) && !IsPass(op) && Undisturbed(op)
    ensures Advances(s, Step(s, op), None, me)
  {
    SameQuanta(s.tasks, Step(s, op).tasks, s.rrLast, me);
  }

  /** The slots picked during a run, in order. */
  function Picks(s: Sched, ops: seq<Op>): seq<Slot>
    decreases |ops|
  {
    if ops == [] then []
    else
      var rest := Picks(Step(s, ops[0]), ops[1..]);
      if PickOf(s, ops[0]).Some? then [PickOf(s, ops[0]).value] + rest else rest
  }

  /**
   Bounded wait.  While the visible task in slot me stays ready without being
   dispatched, the picked slots come in strict rotation order before it, so no
   slot is picked twice and at most fifteen are; and at most WaitBound ticks are charged.
   */
  lemma {:induction false} BoundedWait(s: Sched, ops: seq<Op>, me: Slot)
    requires Rotating(s) && Waits(s, ops, me)
    requires forall k :: 0 <= k < |ops| ==> Undisturbed(ops[k])
    ensures |Picks(s, ops)| < Distance(s.rrLast, me) <= 16 && InRotation(Picks(s, ops), s.rrLast, me)
    ensures s.charged <= Run(s, ops).charged <= s.charged + WaitBound(s, me)
    decreases |ops|
  {
    if ops != [] {
      var r := Step(s, ops[0]);
      StepAdvances(s, me, ops[0]);
      BoundedWait(r, ops[1..], me);
      if PickOf(s, ops[0]).Some? {
        FirstPick(s.rrLast, PickOf(s, ops[0]).value, me, Picks(r, ops[1..]));
      }
    }
  }

  /** Each slot is probed before the waiter and after every slot picked earlier. */
  ghost predicate InRotation(ps: seq<Slot>, last: Slot, me: Slot) {
    && me !in ps
    && (forall i :: 0 <= i < |ps| ==> Ahead(last, me, ps[i]))
    && (forall i, j :: 0 <= i < j < |ps| ==> Distance(last, ps[i]) < Distance(last, ps[j]) && ps[i] != ps[j])
  }

  lemma FirstPick(last: Slot, n: Slot, me: Slot, rest: seq<Slot>)
    requires n != me && Ahead(last, me, n) && InRotation(rest, n, me)
    ensures InRotation([n] + rest, last, me) && Distance(n, me) < Distance(last, me)
  {
    DistanceThrough(last, n, me, n);
    var ps := [n] + rest;
    forall i | 0 <= i < |rest|
      ensures Ahead(last, me, rest[i]) && Distance(last, rest[i]) == Distance(last, n) + Distance(n, rest[i])
    {
      DistanceAdds(last, n, me, rest[i]);
    }
    forall i | 0 <= i < |ps| ensures Ahead(last, me, ps[i]) {
      if i > 0 { assert ps[i] == rest[i - 1]; }
    }
    forall i, j | 0 <= i < j < |ps| ensures Distance(last, ps[i]) < Distance(last, ps[j]) {
      assert ps[j] == rest[j - 1];
      if i > 0 { assert ps[i] == rest[i - 1]; }
    }
  }

  lemma DistanceAdds(last: Slot, n: Slot, me: Slot, j: Slot)
    requires Ahead(last, me, n) && Ahead(n, me, j)
    ensures Distance(last, j) == Distance(last, n) + Distance(n, j) < Distance(last, me)
  {
  }

  /** Round-Robin is started and no preemption limit will stop it. */
  predicate Started(s: Sched) {
    Inv(s) && s.policy == RR && s.active && s.preemptLimit == 0
  }

  predicate Turning(s: Sched) {
    Started(s) && CurrentRuns(s)
  }

  lemma RescheduleTurns(s: Sched, me: Slot, preempt: bool)
    requires Parked(s) && s.policy == RR && s.active && s.preemptLimit == 0 && Candidate(s.tasks[me])
    ensures var r := Reschedule(s, preempt); r.active && r.preemptLimit == 0 && CurrentRuns(r) && r.policy == RR
  {
    NextExists(s.tasks, s.rrLast, s.current);
    ChooseKeeps(s);
    DispatchKeeps(Choose(s).s, Choose(s).next, preempt);
  }

  lemma DoScheduleTurns(s: Sched, me: Slot, preempt: bool)
    requires Started(s) && Candidate(s.tasks[me])
    ensures Turning(DoSchedule(s, preempt))
  {
    var w := Wake(s);
    DoScheduleKeeps(s, preempt);
    WakeKeeps(s);
    WakeSame(s, me);
    if CurrentRuns(w) {
      ChargeKeeps(w);
      RequeueParks(Charge(w));
      RescheduleTurns(Requeue(Charge(w)), me, preempt);
    } else {
      RescheduleTurns(w, me, preempt);
    }
  }

  /** A sleep charges nothing, but gives up what was left of the slice. */
  lemma SleepSpends(s: Sched, me: Slot, n: u64)
    requires Turning(s) && Candidate(s.tasks[me]) && Candidate(Step(s, Sleep(n)).tasks[me])
    ensures WaitBound(Step(s, Sleep(n)), me) + 1 <= WaitBound(s, me)
  {
    var e := Enter(s, Sleep(n));
    EnterKeeps(s, Sleep(n));
    SameQuanta(s.tasks, e.tasks, s.rrLast, me);
    assert WaitBound(e, me) + 1 <= WaitBound(s, me);
    DoScheduleAdvances(e, me, false);
  }

  lemma PassTurns(s: Sched, me: Slot, op: Op)
    requires Started(s) && IsPass(op) && (op.Tick? || s.current.Some?) && Candidate(s.tasks[me])
    ensures Turning(Step(s, op))
  {
    EnterKeeps(s, op);
    assert Enter(s, op).tasks[me] == s.tasks[me];
    DoScheduleTurns(Enter(s, op), me, op.Tick?);
  }

  /** Every pass, sleeps included, uses up the bound. */
  lemma StepTurns(s: Sched, me: Slot, op: Op)
    requires Turning(s) && Ordinary(op) && Candidate(s.tasks[me]) && Candidate(Step(s, op).tasks[me])
    ensures Turning(Step(s, op)) && WaitBound(Step(s, op), me) + (if IsPass(op) then 1 else 0) <= WaitBound(s, me)
  {
    StepAdvances(s, me, op);
    if IsPass(op) {
      PassTurns(s, me, op);
      assert Turning(Step(s, op));
      if op.Sleep? { SleepSpends(s, me, op.ticks); } else { ScheduleCharges(Enter(s, op), op.Tick?); }
    }
  }

  /** From a running task on, a ready one waits through at most WaitBound ticks, yields and sleeps. */
  lemma {:induction false} WaitsAtMost(s: Sched, ops: seq<Op>, me: Slot)
    requires Turning(s) && forall k :: 0 <= k < |ops| ==> Ordinary(ops[k])
    ensures Waits(s, ops, me) ==> Passes(ops) <= WaitBound(s, me)
    decreases |ops|
  {
    if ops != [] && Waits(s, ops, me) {
      assert Waits(Step(s, ops[0]), ops[1..], me);
      StepTurns(s, me, ops[0]);
      WaitsAtMost(Step(s, ops[0]), ops[1..], me);
    }
  }

  /** From an idle CPU: one tick to end the idling and, with no current task, the last pick's quantum again. */
  function IdleBound(s: Sched, me: Slot): nat {
    WaitBound(s, me) + 1 + if s.current.None? then s.tasks[s.rrLast].quantum else 0
  }

  /** With no current task the scan starts at the last pick itself. */
  lemma FirstReschedule(s: Sched, me: Slot, preempt: bool)
    requires Parked(s) && s.policy == RR && s.current.None? && Candidate(s.tasks[me])
    requires Candidate(Reschedule(s, preempt).tasks[me])
    ensures WaitBound(Reschedule(s, preempt), me) + 1 <= IdleBound(s, me)
  {
    NextFromIdle(s.tasks, s.rrLast, me);
    var n := Choose(s).next.value;
    DispatchedSlice(s, preempt);
    assert n != me && TaskOk(s.tasks[n]);
    if n == s.rrLast {
      SameQuanta(s.tasks, Reschedule(s, preempt).tasks, n, me);
    } else {
      assert At(s.rrLast, Distance(s.rrLast, n)) == n;
      PickUsesQuantum(s, me, preempt);
    }
  }

  lemma IdlePass(s: Sched, me: Slot, op: Op)
    requires Started(s) && !CurrentRuns(s) && IsPass(op) && (op.Tick? || s.current.Some?)
    requires Candidate(s.tasks[me]) && Candidate(Step(s, op).tasks[me])
    ensures WaitBound(Step(s, op), me) + 1 <= IdleBound(s, me)
  {
    if s.current.Some? {
      StepAdvances(s, me, op);
    } else {
      WakeKeeps(s);
      WakeSame(s, me);
      assert Wake(s).tasks[s.rrLast] == WakeTask(s, s.tasks[s.rrLast]);
      FirstReschedule(Wake(s), me, true);
    }
  }

  lemma IdleStays(s: Sched, me: Slot, op: Op)
    requires Started(s) && Ordinary(op) && !(IsPass(op) && (op.Tick? || s.current.Some?))
    ensures var r := Step(s, op);
      Started(r) && CurrentRuns(r) == CurrentRuns(s) && IdleBound(r, me) == IdleBound(s, me)
  {
    StepKeeps(s, op);
  }

  /** The same from any started state, counting ticks. */
  lemma {:induction false} WaitsAtMostTicks(s: Sched, ops: seq<Op>, me: Slot)
    requires Started(s) && !CurrentRuns(s) && forall k :: 0 <= k < |ops| ==> Ordinary(ops[k])
    ensures Waits(s, ops, me) ==> Ticks(ops) <= IdleBound(s, me)
    decreases |ops|
  {
    if ops != [] && Waits(s, ops, me) {
      var r := Step(s, ops[0]);
      assert Waits(r, ops[1..], me);
      if IsPass(ops[0]) && (ops[0].Tick? || s.current.Some?) {
        PassTurns(s, me, ops[0]);
        IdlePass(s, me, ops[0]);
        WaitsAtMost(r, ops[1..], me);
      } else {
        IdleStays(s, me, ops[0]);
        WaitsAtMostTicks(r, ops[1..], me);
      }
    }
  }

  /**
   A ready task is dispatched: among any ordinary calls, more ticks, yields and
   sleeps than WaitBound, or from an idle CPU more ticks than IdleBound, contain
   the moment it runs.
   */
  lemma DispatchedInTime(s: Sched, ops: seq<Op>, me: Slot)
    requires Started(s) && Candidate(s.tasks[me]) && forall k :: 0 <= k < |ops| ==> Ordinary(ops[k])
    ensures CurrentRuns(s) && Passes(ops) > WaitBound(s, me) ==> Runs(s, ops, me)
    ensures !CurrentRuns(s) && Ticks(ops) > IdleBound(s, me) ==> Runs(s, ops, me)
  {
    WaitsOrRuns(s, ops, me);
    if CurrentRuns(s) { WaitsAtMost(s, ops, me); } else { WaitsAtMostTicks(s, ops, me); }
  }
}
