/**
 Why the wait bound counts ticks and yields but not sleeps: a running task that
 sleeps for zero ticks is woken, and may be chosen again, without being charged.
 */
module EevdfSleep {
  import opened Words
  import opened Tasks
  import opened Scheduler
  import opened SchedulerSafety
  import opened SchedulerBounds
  import opened EevdfLiveness
  import Eevdf

  /** The virtual deadline a task gets when it is woken at system time. */
  function WokenDeadline(s: Sched, c: Slot): nat {
    s.vsys + Eevdf.VSlice(s.tasks[c])
  }

  /** Task i would lose to task c if c were woken now. */
  predicate Loses(s: Sched, c: Slot, i: Slot) {
    Eevdf.Eligible(s.tasks[i], s.vsys) ==>
      WokenDeadline(s, c) < Eevdf.EffectiveDeadline(s.tasks[i])
      || (WokenDeadline(s, c) == Eevdf.EffectiveDeadline(s.tasks[i]) && c < i)
  }

  /** Task c runs, is not ahead of system time, and nobody sleeps. */
  predicate Calm(s: Sched, c: Slot) {
    && UnderEevdf(s) && s.active && s.now < TWO64
    && s.current == Some(c) && CurrentRuns(s) && s.tasks[c].vruntime <= s.vsys
    && (forall i: Slot :: s.tasks[i].state != Sleeping)
  }

  /** In addition every other ready task loses to a woken c. */
  predicate Hogs(s: Sched, c: Slot) {
    Calm(s, c) && forall i: Slot :: i != c ==> Loses(s, c, i)
  }

  /** The table just before selection when c sleeps for zero ticks. */
  lemma SleepZeroWakes(s: Sched, c: Slot)
    requires Calm(s, c)
    ensures var w := Wake(Enter(s, Sleep(0)));
      && !CurrentRuns(w) && Parked(w) && Fits(w) && w.vsys == s.vsys && w.charged == s.charged && w.current == s.current
      && w.policy == EEVDF && w.now == s.now && w.active
      && w.tasks[c] ==
         s.tasks[c].(state := Ready, wakeAt := s.now, vruntime := s.vsys, vdeadline := WokenDeadline(s, c))
      && forall i: Slot :: i != c ==> w.tasks[i] == s.tasks[i]
  {
    var e := Enter(s, Sleep(0));
    EnterKeeps(s, Sleep(0));
    EnterFits(s, Sleep(0));
    WakeKeeps(e);
    WakeFits(e);
    var w := Wake(e);
    forall i: Slot ensures w.tasks[i] == WakeTask(e, e.tasks[i]) {
    }
    WokenAtOnce(s, c);
  }

  /** The sleeper itself is due in the same pass, and is placed at system time. */
  lemma WokenAtOnce(s: Sched, c: Slot)
    requires Calm(s, c)
    ensures var e := Enter(s, Sleep(0));
      && WakeTask(e, e.tasks[c]) ==
         s.tasks[c].(state := Ready, wakeAt := s.now, vruntime := s.vsys, vdeadline := WokenDeadline(s, c))
      && forall i: Slot :: i != c ==> WakeTask(e, e.tasks[i]) == s.tasks[i]
  {
    var e := Enter(s, Sleep(0));
    AddSmall(s.now, 0);
    assert TaskOk(s.tasks[c]) && TaskFits(s.tasks[c], s.charged);
    var t := e.tasks[c].(state := Ready, vruntime := s.vsys);
    assert TaskFits(t, s.charged);
    DeadlineExact(t, s.charged);
    assert Eevdf.VSlice(t) == Eevdf.VSlice(s.tasks[c]);
  }

  /** What selecting the earliest eligible task does to the whole state. */
  ghost predicate Dispatches(w: Sched, r: Sched, n: Slot) {
    && r.current == Some(n) && r.vsys == w.vsys && r.charged == w.charged && r.policy == w.policy && r.now == w.now
    && r.tasks[n] ==
       w.tasks[n].(state := Running, remaining := w.tasks[n].slice, vdeadline := Eevdf.Deadline(w.tasks[n]))
    && forall i: Slot :: i != n ==> r.tasks[i] == Eevdf.RefreshTask(w.tasks[i], w.vsys)
  }

  lemma Selects(w: Sched, n: Slot, preempt: bool)
    requires Parked(w) && Fits(w) && w.policy == EEVDF && Eevdf.EarliestEligible(w.tasks, w.vsys, 16, n)
    ensures Dispatches(w, Reschedule(w, preempt), n)
    ensures Inv(Reschedule(w, preempt)) && Fits(Reschedule(w, preempt))
  {
    RescheduleKeeps(w, preempt);
    RescheduleFits(w, preempt);
    assert TaskOk(w.tasks[n]);
    ChoosesEarliest(w, n);
    DispatchesChosen(Choose(w).s, n, preempt);
  }

  lemma ChoosesEarliest(w: Sched, n: Slot)
    requires Parked(w) && Fits(w) && w.policy == EEVDF && Eevdf.EarliestEligible(w.tasks, w.vsys, 16, n)
    ensures var p := Choose(w).s;
      && Choose(w).next == Some(n) && p == w.(tasks := p.tasks)
      && p.tasks[n] == w.tasks[n].(remaining := w.tasks[n].slice, vdeadline := Eevdf.Deadline(w.tasks[n]))
      && forall i: Slot :: i != n ==> p.tasks[i] == Eevdf.RefreshTask(w.tasks[i], w.vsys)
  {
    FitsBelowMax(w);
    Eevdf.PicksEarliest(w.tasks, w.vsys, w.current, n);
    forall i: Slot ensures i != n ==> Choose(w).s.tasks[i] == Eevdf.RefreshTask(w.tasks[i], w.vsys) {
      Eevdf.PickFrame(w.tasks, w.vsys, w.current, i);
    }
    Eevdf.PickFrame(w.tasks, w.vsys, w.current, n);
  }

  lemma DispatchesChosen(p: Sched, n: Slot, preempt: bool)
    requires p.tasks[n].remaining == p.tasks[n].quantum
    ensures var r := Dispatch(p, Some(n), preempt);
      && r.current == Some(n) && r.vsys == p.vsys && r.charged == p.charged && r.policy == p.policy && r.now == p.now
      && r.tasks == p.tasks[n := p.tasks[n].(state := Running)]
  {
  }

  lemma SleepZeroReschedules(s: Sched, c: Slot)
    requires s.active && s.current == Some(c) && !CurrentRuns(Wake(Enter(s, Sleep(0))))
    ensures Step(s, Sleep(0)) == Reschedule(Wake(Enter(s, Sleep(0))), false)
    ensures Step(s, Sleep(0)).active
  {
  }

  lemma RefreshKeepsDeadline(t: Task, vsys: nat, n: nat)
    requires TaskOk(t) && TaskFits(t, n) && n < TICK_LIMIT
    ensures Eevdf.EffectiveDeadline(Eevdf.RefreshTask(t, vsys)) == Eevdf.EffectiveDeadline(t)
  {
  }

  lemma HogWins(s: Sched, c: Slot)
    requires Hogs(s, c)
    ensures var w := Wake(Enter(s, Sleep(0))); Eevdf.EarliestEligible(w.tasks, w.vsys, 16, c)
  {
    var w := Wake(Enter(s, Sleep(0)));
    SleepZeroWakes(s, c);
    assert TaskOk(s.tasks[c]);
    forall i: Slot | i != c && Eevdf.Eligible(w.tasks[i], w.vsys)
      ensures Eevdf.EffectiveDeadline(w.tasks[c]) <= Eevdf.EffectiveDeadline(w.tasks[i])
           && (i < c ==> Eevdf.EffectiveDeadline(w.tasks[c]) < Eevdf.EffectiveDeadline(w.tasks[i]))
    {
      assert Loses(s, c, i) && w.tasks[i] == s.tasks[i];
    }
  }

  /** A hog that sleeps for zero ticks keeps the CPU and stays a hog, and nothing is charged. */
  lemma SleepZeroKeepsCpu(s: Sched, c: Slot)
    requires Hogs(s, c)
    ensures var r := Step(s, Sleep(0));
      && Hogs(r, c) && r.charged == s.charged
      && forall i: Slot :: Candidate(s.tasks[i]) ==> Candidate(r.tasks[i])
  {
    var w := Wake(Enter(s, Sleep(0)));
    SleepZeroWakes(s, c);
    HogWins(s, c);
    Selects(w, c, false);
    SleepZeroReschedules(s, c);
    var r := Reschedule(w, false);
    forall i: Slot | i != c ensures Loses(r, c, i) && r.tasks[i].state == s.tasks[i].state {
      LosesAgain(s, c, r, i);
    }
  }

  /** A loser that is only refreshed loses again, and stays as ready as it was. */
  lemma LosesAgain(s: Sched, c: Slot, r: Sched, i: Slot)
    requires Fits(s) && TaskOk(s.tasks[i]) && Loses(s, c, i)
    requires r.vsys == s.vsys && r.tasks[i] == Eevdf.RefreshTask(s.tasks[i], s.vsys)
    requires r.tasks[c].slice == s.tasks[c].slice && r.tasks[c].weight == s.tasks[c].weight
    ensures Loses(r, c, i) && r.tasks[i].state == s.tasks[i].state
  {
    assert TaskFits(s.tasks[i], s.charged);
    assert Eevdf.VSlice(r.tasks[c]) == Eevdf.VSlice(s.tasks[c]);
    RefreshKeepsDeadline(s.tasks[i], s.vsys, s.charged);
  }

  lemma WinnerBeatsAll(s: Sched, c: Slot)
    requires Calm(s, c)
    requires var w := Wake(Enter(s, Sleep(0))); Eevdf.EarliestEligible(w.tasks, w.vsys, 16, c)
    ensures Hogs(s, c)
  {
    var w := Wake(Enter(s, Sleep(0)));
    SleepZeroWakes(s, c);
    forall i: Slot | i != c ensures Loses(s, c, i) {
      assert w.tasks[i] == s.tasks[i];
    }
  }

  /** Selection leaves c in place: it wins, or nobody is ready. */
  ghost predicate Stays(w: Sched, c: Slot) {
    Eevdf.Wins(w.tasks, w.vsys, c) || forall i: Slot :: !Candidate(w.tasks[i])
  }

  lemma ChoosesExactly(w: Sched, c: Slot)
    requires Parked(w) && Fits(w) && w.policy == EEVDF && w.current == Some(c)
    ensures Choose(w).next in {None, Some(c)} <==> Stays(w, c)
  {
    FitsBelowMax(w);
    Eevdf.PicksExactly(w.tasks, w.vsys, Some(c), c);
  }

  /**
   In every EEVDF state and for every length, a sleep leaves its caller current
   exactly when the scheduler is inactive or selection, after the wake-ups of that
   pass, leaves it in place.
   */
  lemma SleepKeepsCpuIff(s: Sched, c: Slot, n: u64)
    requires UnderEevdf(s) && s.current == Some(c)
    ensures Step(s, Sleep(n)).current == Some(c) <==> !s.active || Stays(Wake(Enter(s, Sleep(n))), c)
  {
    if s.active {
      var e := Enter(s, Sleep(n));
      var w := Wake(e);
      EnterKeeps(s, Sleep(n));
      EnterFits(s, Sleep(n));
      WakeKeeps(e);
      WakeFits(e);
      assert !CurrentRuns(w) by { assert w.tasks[c] == WakeTask(e, e.tasks[c]); }
      ChooseKeeps(w);
      ChoosesExactly(w, c);
    }
  }

  /** A task that sleeps for zero ticks keeps the CPU exactly when every other eligible task loses to it. */
  lemma SleepZeroKeepsCpuIff(s: Sched, c: Slot)
    requires Calm(s, c)
    ensures Step(s, Sleep(0)).current == Some(c) <==> forall i: Slot :: i != c ==> Loses(s, c, i)
  {
    var w := Wake(Enter(s, Sleep(0)));
    SleepZeroWakes(s, c);
    FitsBelowMax(w);
    assert TaskOk(s.tasks[c]) && Eevdf.Eligible(w.tasks[c], w.vsys);
    Eevdf.BestIsEarliest(w.tasks, w.vsys, 16);
    var b := Eevdf.BestEligible(w.tasks, w.vsys, 16).value;
    Selects(w, b, false);
    SleepZeroReschedules(s, c);
    if b == c {
      WinnerBeatsAll(s, c);
    } else if Hogs(s, c) {
      HogWins(s, c);
    }
  }

  function SleepsOfZero(n: nat): seq<Op> {
    seq(n, i => Sleep(0))
  }

  /** Without charges there is no bound: beside a hog, a ready task waits through any number of zero-tick sleeps. */
  lemma {:induction false} SleepZeroStarves(s: Sched, c: Slot, me: Slot, n: nat)
    requires Hogs(s, c) && Candidate(s.tasks[me])
    ensures Waits(s, SleepsOfZero(n), me) && Run(s, SleepsOfZero(n)).charged == s.charged
    decreases n
  {
    if n > 0 {
      var ops := SleepsOfZero(n);
      SleepZeroKeepsCpu(s, c);
      SleepZeroStarves(Step(s, Sleep(0)), c, me, n - 1);
      assert ops[0] == Sleep(0) && ops[1..] == SleepsOfZero(n - 1);
    }
  }

  // ----- such a state is reachable -----

  /** Two default tasks at virtual time zero; slot c runs, the other is ready with effective deadline d. */
  predicate Duo(s: Sched, c: Slot, d: nat) {
    && UnderEevdf(s) && s.active && s.now < TWO64 && s.vsys == 0 && c <= 1
    && s.current == Some(c) && s.tasks[c].state == Running && s.tasks[1 - c].state == Ready
    && Eevdf.EffectiveDeadline(s.tasks[1 - c]) == d
    && (forall i: Slot :: i <= 1 ==>
          s.tasks[i].generation == 1 && s.tasks[i].vruntime == 0 && s.tasks[i].weight == 1024 && s.tasks[i].slice == 5)
    && (forall i: Slot :: 2 <= i ==> s.tasks[i].state == Unused)
  }

  lemma OtherWins(s: Sched, c: Slot, d: nat)
    requires Duo(s, c, d) && (d < 320 || (d == 320 && c == 1))
    ensures var w := Wake(Enter(s, Sleep(0))); Eevdf.EarliestEligible(w.tasks, w.vsys, 16, 1 - c)
    ensures Eevdf.VSlice(s.tasks[c]) == 320
  {
    var w, o := Wake(Enter(s, Sleep(0))), 1 - c;
    SleepZeroWakes(s, c);
    DefaultSlice(s.tasks[c]);
    assert w.tasks[o] == s.tasks[o] && Eevdf.Eligible(w.tasks[o], 0);
    assert Eevdf.EffectiveDeadline(w.tasks[c]) == 320;
    forall i: Slot ensures Eevdf.Eligible(w.tasks[i], 0) ==> i == c || i == o {
      assert i <= 1 || w.tasks[i] == s.tasks[i];
    }
  }

  lemma DefaultSlice(t: Task)
    requires t.weight == 1024 && t.slice == 5
    ensures Eevdf.VSlice(t) == 320
  {
  }

  /** One zero-tick sleep hands the CPU to the other task if its deadline comes first. */
  lemma DuoSwaps(s: Sched, c: Slot, d: nat)
    requires Duo(s, c, d) && (d < 320 || (d == 320 && c == 1))
    ensures Duo(Step(s, Sleep(0)), 1 - c, 320)
  {
    var w := Wake(Enter(s, Sleep(0)));
    SleepZeroWakes(s, c);
    OtherWins(s, c, d);
    Selects(w, 1 - c, false);
    SleepZeroReschedules(s, c);
    SwapsTo(s, c, d, w, Reschedule(w, false));
  }

  lemma SwapsTo(s: Sched, c: Slot, d: nat, w: Sched, r: Sched)
    requires Duo(s, c, d) && Dispatches(w, r, 1 - c) && Inv(r) && Fits(r) && r.active && w.policy == EEVDF
    requires w.vsys == 0 && w.now == s.now && (forall i: Slot :: i != c ==> w.tasks[i] == s.tasks[i])
    requires w.tasks[c] == s.tasks[c].(state := Ready, wakeAt := s.now, vruntime := 0, vdeadline := 320)
    ensures Duo(r, 1 - c, 320)
  {
    assert w.tasks[1 - c] == s.tasks[1 - c];
  }

  lemma DuoHogs(s: Sched)
    requires Duo(s, 0, 320)
    ensures Hogs(s, 0) && Candidate(s.tasks[1])
  {
  }

  function Prologue(): seq<Op> {
    [SetPolicy(EEVDF), Create(1, 100, 0, 0), Create(2, 100, 0, 0), Start, Tick]
  }

  /** After the first tick slot 0 runs and slot 1, never dispatched, has the zero deadline it was created with. */
  predicate Ticked(s: Sched) {
    Duo(s, 0, 0) && s.charged == 0 && s.tasks[0].remaining == 5 && forall i: Slot :: s.tasks[i].vruntime == 0
  }

  lemma PrologueReaches(s: Sched)
    requires Initial(s) && s.now < TWO64
    ensures Ticked(Run(s, Prologue()))
  {
    var ops := Prologue();
    var s1 := Step(s, ops[0]);
    var s2 := Step(s1, ops[1]);
    var s3 := Step(s2, ops[2]);
    var s4 := Step(s3, ops[3]);
    assert Run(s, ops) == Step(s4, ops[4]) by {
      assert ops[1..] == [ops[1], ops[2], ops[3], ops[4]];
      assert ops[1..][1..] == [ops[2], ops[3], ops[4]];
      assert ops[1..][1..][1..] == [ops[3], ops[4]];
      assert ops[1..][1..][1..][1..] == [ops[4]];
    }
    SetsUp(s, s1, s2, s3, s4);
    FirstTick(s4);
  }

  lemma SetsUp(s: Sched, s1: Sched, s2: Sched, s3: Sched, s4: Sched)
    requires Initial(s) && s.now < TWO64
    requires s1 == Step(s, Prologue()[0]) && s2 == Step(s1, Prologue()[1])
    requires s3 == Step(s2, Prologue()[2]) && s4 == Step(s3, Prologue()[3])
    ensures Started(s4)
  {
    assert FirstFree(s1.tasks, 0) == Some(0);
    assert FirstFree(s2.tasks, 0) == Some(1);
  }

  /** Init under EEVDF, two tasks created, the scheduler started. */
  predicate Started(s: Sched) {
    && s.policy == EEVDF && s.active && s.now < TWO64 && s.vsys == 0 && s.current == None && s.charged == 0
    && s.switches == 0 && s.sameDomain == 0 && s.crossDomain == 0 && s.preempts == 0 && s.preemptLimit == 0
    && s.tasks[0] == NewTask(FreshTask(), 0, 1, 100, 0, 0) && s.tasks[1] == NewTask(FreshTask(), 1, 2, 100, 0, 0)
    && forall i: Slot :: 2 <= i ==> s.tasks[i] == FreshTask()
  }

  lemma StartedWakesNobody(s: Sched)
    requires Started(s)
    ensures var w := Wake(s); w == s && Parked(s) && Fits(s) && Eevdf.EarliestEligible(s.tasks, 0, 16, 0)
  {
    assert Wake(s).tasks == s.tasks by {
      forall i: Slot ensures Wake(s).tasks[i] == s.tasks[i] {
        assert Wake(s).tasks[i] == WakeTask(s, s.tasks[i]);
      }
    }
  }

  lemma FirstTick(s: Sched)
    requires Started(s)
    ensures Ticked(Step(s, Tick))
  {
    StartedWakesNobody(s);
    Selects(s, 0, true);
    TickReschedules(s);
  }

  lemma TickReschedules(s: Sched)
    requires s.active && s.current == None && s.preemptLimit == 0
    ensures Step(s, Tick) == Reschedule(Wake(s), true) && Step(s, Tick).active
  {
  }

  lemma {:induction false} StarvesFromDuo(d: Sched, n: nat)
    requires Duo(d, 0, 0)
    ensures var h := Step(Step(d, Sleep(0)), Sleep(0)); Waits(h, SleepsOfZero(n), 1)
  {
    var e := Step(d, Sleep(0));
    DuoSwaps(d, 0, 0);
    var h := Step(e, Sleep(0));
    DuoSwaps(e, 1, 320);
    DuoHogs(h);
    SleepZeroStarves(h, 0, 1, n);
  }

  /** From init, two tasks, one tick and two zero-tick sleeps reach a state where the second task starves for good. */
  lemma {:induction false} StarvationReachable(s: Sched, n: nat)
    requires Initial(s) && s.now < TWO64
    ensures Waits(Step(Step(Run(s, Prologue()), Sleep(0)), Sleep(0)), SleepsOfZero(n), 1)
  {
    PrologueReaches(s);
    StarvesFromDuo(Run(s, Prologue()), n);
  }
}
