/**
 A task that leaves the CPU by preemption or yield is resumed with exactly the
 34-word frame it left with, however many other tasks run in between.
 */
module RegisterPreservation {
  import opened Words
  import opened Tasks
  import opened Scheduler
  import Eevdf

  lemma ChooseKeepsContexts(s: Sched)
    ensures Choose(s).s.frame == s.frame && Choose(s).s.current == s.current
    ensures forall i: Slot :: Choose(s).s.tasks[i].context == s.tasks[i].context
    ensures Choose(s).next.None? ==> forall i: Slot :: Choose(s).s.tasks[i].state == s.tasks[i].state
  {
    forall i: Slot
      ensures Choose(s).s.tasks[i].context == s.tasks[i].context && Choose(s).s.tasks[i].state == s.tasks[i].state {
      if s.policy == EEVDF { Eevdf.PickFrame(s.tasks, s.vsys, s.current, i); }
    }
  }

  /** Dispatching keeps every saved context and loads the new task's, or leaves the frame alone. */
  lemma RescheduleFrame(s: Sched, preempt: bool)
    ensures var r := Reschedule(s, preempt);
      && (forall i: Slot :: r.tasks[i].context == s.tasks[i].context)
      && (if r.current == s.current then r.frame == s.frame
          else r.current.Some? && r.frame == Load(s.tasks[r.current.value].context))
  {
    ChooseKeepsContexts(s);
    DispatchFrame(Choose(s).s, Choose(s).next, preempt);
  }

  lemma DispatchFrame(s: Sched, next: Option<Slot>, preempt: bool)
    ensures var r := Dispatch(s, next, preempt);
      && (forall i: Slot :: r.tasks[i].context == s.tasks[i].context)
      && (if r.current == s.current then r.frame == s.frame
          else r.current.Some? && r.frame == Load(s.tasks[r.current.value].context))
  {
  }

  lemma WakeKeepsContexts(s: Sched)
    ensures Wake(s).frame == s.frame
    ensures forall i: Slot :: Wake(s).tasks[i].context == s.tasks[i].context
    ensures CurrentRuns(Wake(s)) <==> CurrentRuns(s)
  {
  }

  /** One pass: other contexts stay, and a task that gives up the CPU while running saves its frame. */
  lemma DoScheduleFrame(s: Sched, preempt: bool)
    ensures var r := DoSchedule(s, preempt);
      && (forall i: Slot :: s.current != Some(i) ==> r.tasks[i].context == s.tasks[i].context)
      && (if r.current == s.current then r.frame == s.frame
          else r.current.Some? && r.frame == Load(s.tasks[r.current.value].context))
      && (r.current != s.current && CurrentRuns(s) ==> r.tasks[s.current.value].context == Save(s.frame))
  {
    if s.active {
      var w := Wake(s);
      WakeKeepsContexts(s);
      if CurrentRuns(w) {
        var q := Requeue(Charge(w));
        RescheduleFrame(q, preempt);
        assert forall i: Slot :: w.current != Some(i) ==> q.tasks[i].context == w.tasks[i].context;
      } else {
        RescheduleFrame(w, preempt);
      }
    }
  }

  /** The same from the call itself: yield and sleep touch no context before the pass. */
  lemma PassFrame(s: Sched, op: Op)
    requires IsPass(op)
    ensures var r := Step(s, op);
      && (forall i: Slot :: s.current != Some(i) ==> r.tasks[i].context == s.tasks[i].context)
      && (if r.current == s.current then r.frame == s.frame
          else r.current.Some? && r.frame == Load(s.tasks[r.current.value].context))
      && (r.current != s.current && CurrentRuns(s) && !op.Sleep? ==> r.tasks[s.current.value].context == Save(s.frame))
  {
    var e := Enter(s, op);
    EnterFrame(s, op);
    if op.Tick? || s.current.Some? {
      DoScheduleFrame(e, op.Tick?);
      FrameFrom(s, e, DoSchedule(e, op.Tick?));
      assert Step(s, op) == DoSchedule(e, op.Tick?);
    }
  }

  lemma FrameFrom(s: Sched, e: Sched, r: Sched)
    requires e.current == s.current && e.frame == s.frame && forall i: Slot :: e.tasks[i].context == s.tasks[i].context
    requires forall i: Slot :: e.current != Some(i) ==> r.tasks[i].context == e.tasks[i].context
    requires if r.current == e.current then r.frame == e.frame
             else r.current.Some? && r.frame == Load(e.tasks[r.current.value].context)
    ensures forall i: Slot :: s.current != Some(i) ==> r.tasks[i].context == s.tasks[i].context
    ensures if r.current == s.current then r.frame == s.frame
            else r.current.Some? && r.frame == Load(s.tasks[r.current.value].context)
  {
  }

  lemma EnterFrame(s: Sched, op: Op)
    requires IsPass(op)
    ensures var e := Enter(s, op);
      && e.current == s.current && e.frame == s.frame && (forall i: Slot :: e.tasks[i].context == s.tasks[i].context)
      && (!op.Sleep? ==> CurrentRuns(e) == CurrentRuns(s))
  {
  }

  /** Leaving by preemption or yield stores the frame. */
  lemma LeaveSaves(s: Sched, op: Op, me: Slot)
    requires op in {Tick, Yield} && s.current == Some(me) && CurrentRuns(s) && Step(s, op).current != Some(me)
    ensures Load(Step(s, op).tasks[me].context) == s.frame
  {
    PassFrame(s, op);
    SaveLoad(s.frame);
  }

  /** While off the CPU and live, a task's context is untouched by every call but init. */
  lemma OffCpuKeeps(s: Sched, op: Op, me: Slot)
    requires !op.Init? && s.current != Some(me) && !Free(s.tasks[me])
    ensures Step(s, op).tasks[me].context == s.tasks[me].context
    ensures Step(s, op).current == Some(me) ==> IsPass(op) && Step(s, op).frame == Load(s.tasks[me].context)
  {
    if IsPass(op) { PassFrame(s, op); } else { TableOpFrame(s, op, me); }
  }

  lemma TableOpFrame(s: Sched, op: Op, me: Slot)
    requires !IsPass(op) && !op.Init? && !Free(s.tasks[me])
    ensures Step(s, op).tasks[me].context == s.tasks[me].context
    ensures Step(s, op).current == Some(me) ==> s.current == Some(me)
  {
  }

  ghost predicate OffCpu(s: Sched, ops: seq<Op>, me: Slot)
    decreases |ops|
  {
    && s.current != Some(me) && !Free(s.tasks[me])
    && (ops == [] || (!ops[0].Init? && OffCpu(Step(s, ops[0]), ops[1..], me)))
  }

  lemma {:induction false} AbsenceKeeps(s: Sched, ops: seq<Op>, me: Slot)
    requires OffCpu(s, ops, me)
    ensures Run(s, ops).tasks[me].context == s.tasks[me].context
    ensures Run(s, ops).current != Some(me) && !Free(Run(s, ops).tasks[me])
    decreases |ops|
  {
    if ops != [] {
      OffCpuKeeps(s, ops[0], me);
      AbsenceKeeps(Step(s, ops[0]), ops[1..], me);
    }
  }

  /**
   Register preservation.  A running task leaves by a tick or a yield, any calls
   follow while it is off the CPU, and the call that makes it current again
   installs the very frame it left with.
   */
  lemma ResumedWithItsFrame(s: Sched, leave: Op, away: seq<Op>, back: Op, me: Slot)
    requires leave in {Tick, Yield} && s.current == Some(me) && CurrentRuns(s) && !back.Init?
    ensures var gone := Run(Step(s, leave), away);
      OffCpu(Step(s, leave), away, me) && Step(gone, back).current == Some(me) ==> Step(gone, back).frame == s.frame
  {
    if OffCpu(Step(s, leave), away, me) {
      LeaveSaves(s, leave, me);
      AbsenceKeeps(Step(s, leave), away, me);
      OffCpuKeeps(Run(Step(s, leave), away), back, me);
    }
  }

  /** Whatever registers user code leaves behind are the ones it is resumed with. */
  lemma UserFrameSurvives(s: Sched, f: TrapFrame, leave: Op, away: seq<Op>, back: Op, me: Slot)
    requires leave in {Tick, Yield} && s.current == Some(me) && CurrentRuns(s) && !back.Init?
    ensures var u := Step(s, User(f));
      var gone := Run(Step(u, leave), away);
      OffCpu(Step(u, leave), away, me) && Step(gone, back).current == Some(me) ==> Step(gone, back).frame == f
  {
    ResumedWithItsFrame(Step(s, User(f)), leave, away, back, me);
  }

  /** A task that keeps the CPU through a tick or a yield keeps its frame. */
  lemma StaysWithItsFrame(s: Sched, op: Op, me: Slot)
    requires op in {Tick, Yield} && s.current == Some(me) && Step(s, op).current == Some(me)
    ensures Step(s, op).frame == s.frame
  {
    PassFrame(s, op);
  }

  /** A new task starts at its entry point, on its own stack, with zeroed registers, however late it is dispatched. */
  lemma NewTaskStartsFresh(s: Sched, service: u32, domain: u32, pc: u64, sp: u64, away: seq<Op>, back: Op, me: Slot)
    requires FirstFree(s.tasks, 0) == Some(me) && !back.Init?
    ensures var c := Step(s, Create(service, domain, pc, sp));
      var r := Step(Run(c, away), back);
      OffCpu(c, away, me) && r.current == Some(me) ==> r.frame == StartFrame(pc, sp)
  {
    var c := Step(s, Create(service, domain, pc, sp));
    if OffCpu(c, away, me) {
      AbsenceKeeps(c, away, me);
      OffCpuKeeps(Run(c, away), back, me);
      StartContext(pc, sp);
      assert c.tasks[me].context == TaskContext(ZeroRegs(), sp, pc, 0);
    }
  }
}
