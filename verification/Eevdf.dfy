/**
 The EEVDF policy of kernel/scheduler/eevdf.c: fixed-point virtual time,
 charging, and selection of the eligible task of earliest virtual deadline.
 */
module Eevdf {
  import opened Words
  import opened Sums
  import opened Tasks

  const SCALE: nat := 65536

  function Weight(t: Task): (w: nat)
    ensures w > 0
  {
    if t.weight > 0 then t.weight else BASE_WEIGHT
  }

  /** The virtual length of a task's requested slice. */
  function VSlice(t: Task): nat {
    var slice := if t.slice > 0 then t.slice else DEFAULT_SLICE;
    slice * SCALE / Weight(t)
  }

  function Deadline(t: Task): nat {
    Add64(t.vruntime, VSlice(t))
  }

  /** Virtual runtime charged for one tick. */
  function TickCost(t: Task): nat {
    SCALE / Weight(t)
  }

  /** A slice is worth at least its ticks at the rounded per-tick charge. */
  lemma SliceCoversTicks(t: Task)
    requires 1 <= t.weight <= MAX_WEIGHT && 1 <= t.slice
    ensures 6 <= TickCost(t) <= SCALE
    ensures t.slice * TickCost(t) <= VSlice(t) <= t.slice * SCALE
  {
    var w, c := t.weight, TickCost(t);
    assert c * w <= SCALE;
    DivideBound(6, SCALE, w);
    assert t.slice * c * w <= t.slice * SCALE by { assert t.slice * (c * w) <= t.slice * SCALE; }
    DivideBound(t.slice * c, t.slice * SCALE, w);
  }

  lemma DivideBound(a: nat, b: nat, w: nat)
    requires w > 0 && a * w <= b
    ensures a <= b / w <= b
  {
    var q := b / w;
    assert b == q * w + b % w;
    assert (q + 1) * w == q * w + w;
    MulMonotone(1, w, q);
    if q < a {
      MulMonotone(q + 1, a, w);
    }
  }

  lemma MulMonotone(a: nat, b: nat, w: nat)
    requires a <= b
    ensures a * w <= b * w
    ensures w * a <= w * b
  {
  }

  predicate Counts(t: Task) {
    Visible(t) && (t.state == Ready || t.state == Running)
  }

  /** get_active_weight_sum over the first n slots, in 32-bit arithmetic. */
  function WeightSum(ts: TaskTable, n: nat): nat
    requires n <= 16
  {
    if n == 0 then 0
    else if Counts(ts[n - 1]) then Add32(WeightSum(ts, n - 1), Weight(ts[n - 1]))
    else WeightSum(ts, n - 1)
  }

  function ActiveWeight(ts: TaskTable): (w: nat)
    ensures w > 0
  {
    var total := WeightSum(ts, 16);
    if total > 0 then total else BASE_WEIGHT
  }

  /** What a task weighs in the sharing of the CPU: its weight if it is ready or running in a probed generation. */
  function LiveWeight(t: Task): nat {
    if 1 <= t.generation <= 10 && (t.state == Ready || t.state == Running) then t.weight else 0
  }

  function LiveWeights(ts: TaskTable): (r: seq<nat>)
    ensures |r| == 16 && forall i: Slot :: r[i] == LiveWeight(ts[i])
  {
    seq(16, i requires 0 <= i < 16 => LiveWeight(ts[i]))
  }

  /** The 32-bit weight sum never wraps: it is the true sum of the live weights, at most 163840. */
  lemma {:induction false} WeightSumExact(ts: TaskTable, n: nat)
    requires n <= 16
    requires forall i: Slot :: 1 <= ts[i].weight <= MAX_WEIGHT
    ensures WeightSum(ts, n) == Sum(LiveWeights(ts)[..n]) <= n * MAX_WEIGHT
  {
    if n > 0 {
      WeightSumExact(ts, n - 1);
      assert LiveWeights(ts)[..n][..n - 1] == LiveWeights(ts)[..n - 1];
      assert WeightSum(ts, n - 1) + LiveWeights(ts)[n - 1] < TWO32;
    }
  }

  /** While some live task has weight, one tick gains V_sys 65536 divided by the sum of the live weights. */
  lemma GainExact(ts: TaskTable, c: Slot)
    requires forall i: Slot :: 1 <= ts[i].weight <= MAX_WEIGHT
    requires LiveWeights(ts)[c] > 0
    ensures Sum(LiveWeights(ts)) > 0 && SystemGain(ts) == 65536 / Sum(LiveWeights(ts))
  {
    WeightSumExact(ts, 16);
    assert LiveWeights(ts)[..16] == LiveWeights(ts);
    SumAtLeast(LiveWeights(ts), c);
  }

  /** The system time gained by one tick. */
  function SystemGain(ts: TaskTable): (g: nat)
    ensures g <= SCALE
  {
    DivideBound(0, SCALE, ActiveWeight(ts));
    SCALE / ActiveWeight(ts)
  }

  predicate Eligible(t: Task, vsys: nat) {
    Candidate(t) && t.vruntime <= vsys
  }

  /** The deadline selection compares: recomputed when it lags the runtime. */
  function EffectiveDeadline(t: Task): nat {
    if t.vdeadline < t.vruntime then Deadline(t) else t.vdeadline
  }

  function RefreshTask(t: Task, vsys: nat): Task {
    if Eligible(t, vsys) && t.vdeadline < t.vruntime then t.(vdeadline := Deadline(t)) else t
  }

  function Refresh(ts: TaskTable, vsys: nat): (r: TaskTable)
    ensures forall i: Slot :: r[i] == RefreshTask(ts[i], vsys)
  {
    seq(16, i requires 0 <= i < 16 => RefreshTask(ts[i], vsys))
  }

  function Renew(t: Task): Task {
    t.(remaining := t.slice, vdeadline := Deadline(t))
  }

  /** b is the lowest of the eligible slots below n that share the least deadline. */
  ghost predicate EarliestEligible(ts: TaskTable, vsys: nat, n: nat, b: Slot) {
    && b < n && Eligible(ts[b], vsys)
    && forall i: Slot :: i < n && Eligible(ts[i], vsys) ==>
        EffectiveDeadline(ts[b]) <= EffectiveDeadline(ts[i])
        && (i < b ==> EffectiveDeadline(ts[b]) < EffectiveDeadline(ts[i]))
  }

  /** m is the lowest of the candidate slots below n that share the least runtime. */
  ghost predicate LeastVruntime(ts: TaskTable, n: nat, m: Slot) {
    && m < n && Candidate(ts[m])
    && forall i: Slot :: i < n && Candidate(ts[i]) ==>
        ts[m].vruntime <= ts[i].vruntime && (i < m ==> ts[m].vruntime < ts[i].vruntime)
  }

  /** The scan's best eligible slot; a deadline of UINT64_MAX never wins. */
  function BestEligible(ts: TaskTable, vsys: nat, n: nat): Option<Slot>
    requires n <= 16
  {
    if n == 0 then None
    else
      var b := BestEligible(ts, vsys, n - 1);
      var bar := if b.None? then UINT64_MAX else EffectiveDeadline(ts[b.value]);
      if Eligible(ts[n - 1], vsys) && EffectiveDeadline(ts[n - 1]) < bar then Some(n - 1) else b
  }

  /** The scan's slot of least runtime; a runtime of UINT64_MAX never wins. */
  function MinVruntime(ts: TaskTable, n: nat): Option<Slot>
    requires n <= 16
  {
    if n == 0 then None
    else
      var m := MinVruntime(ts, n - 1);
      var bar := if m.None? then UINT64_MAX else ts[m.value].vruntime;
      if Candidate(ts[n - 1]) && ts[n - 1].vruntime < bar then Some(n - 1) else m
  }

  /** The scan finds the earliest eligible deadline below UINT64_MAX, at the lowest slot. */
  lemma {:induction false} BestIsEarliest(ts: TaskTable, vsys: nat, n: nat)
    requires n <= 16
    ensures var r := BestEligible(ts, vsys, n);
      if r.Some? then EarliestEligible(ts, vsys, n, r.value) && EffectiveDeadline(ts[r.value]) < UINT64_MAX
      else forall i: Slot :: i < n && Eligible(ts[i], vsys) ==> UINT64_MAX <= EffectiveDeadline(ts[i])
  {
    if n > 0 { BestIsEarliest(ts, vsys, n - 1); }
  }

  /** Likewise for the least runtime. */
  lemma {:induction false} MinIsLeast(ts: TaskTable, n: nat)
    requires n <= 16
    ensures var r := MinVruntime(ts, n);
      if r.Some? then LeastVruntime(ts, n, r.value) && ts[r.value].vruntime < UINT64_MAX
      else forall i: Slot :: i < n && Candidate(ts[i]) ==> UINT64_MAX <= ts[i].vruntime
  {
    if n > 0 { MinIsLeast(ts, n - 1); }
  }

  datatype Choice = Choice(tasks: TaskTable, vsys: nat, next: Option<Slot>)

  predicate IsRunning(ts: TaskTable, c: Option<Slot>) {
    c.Some? && ts[c.value].state == Running
  }

  /** eevdf_pick_next. */
  function Pick(ts: TaskTable, vsys: nat, curr: Option<Slot>): Choice {
    var rs := Refresh(ts, vsys);
    match BestEligible(ts, vsys, 16)
    case Some(b) => Choice(rs[b := Renew(rs[b])], vsys, Some(b))
    case None =>
      match MinVruntime(ts, 16)
      case Some(m) => Choice(rs[m := Renew(rs[m])], ts[m].vruntime, Some(m))
      case None =>
        if IsRunning(ts, curr) then Choice(rs[curr.value := Renew(rs[curr.value])], vsys, curr)
        else Choice(rs, vsys, None)
  }

  ghost predicate BelowMax(ts: TaskTable) {
    forall i: Slot :: ts[i].vruntime < UINT64_MAX && EffectiveDeadline(ts[i]) < UINT64_MAX
  }

  /** eevdf_pick_next against what the policy promises. */
  lemma PickRefines(ts: TaskTable, vsys: nat, curr: Option<Slot>)
    requires BelowMax(ts)
    ensures var r := Pick(ts, vsys, curr);
      && (forall b: Slot :: EarliestEligible(ts, vsys, 16, b) ==> r.next == Some(b) && r.vsys == vsys)
      && ((exists i: Slot :: Eligible(ts[i], vsys)) <==> exists b: Slot :: EarliestEligible(ts, vsys, 16, b))
      && ((forall i: Slot :: !Eligible(ts[i], vsys)) ==>
           forall m: Slot :: LeastVruntime(ts, 16, m) ==>
             r.next == Some(m) && r.vsys == ts[m].vruntime && vsys < r.vsys)
      && ((exists i: Slot :: Candidate(ts[i])) <==> exists m: Slot :: LeastVruntime(ts, 16, m))
      && ((forall i: Slot :: !Candidate(ts[i])) ==> r.next == (if IsRunning(ts, curr) then curr else None))
      && (r.next.None? <==> (forall i: Slot :: !Candidate(ts[i])) && !IsRunning(ts, curr))
      && (r.next.Some? && Candidate(ts[r.next.value]) ==> Eligible(r.tasks[r.next.value], r.vsys))
      && vsys <= r.vsys
  {
    var r := Pick(ts, vsys, curr);
    var e, m := BestEligible(ts, vsys, 16), MinVruntime(ts, 16);
    BestIsEarliest(ts, vsys, 16);
    MinIsLeast(ts, 16);
    if e.Some? {
      assert Candidate(ts[e.value]);
      assert m.Some? && LeastVruntime(ts, 16, m.value);
    } else if m.Some? {
      assert !Eligible(ts[m.value], vsys);
    }
  }

  /** Slot b has the earliest deadline, or the least runtime when nobody is eligible. */
  ghost predicate Wins(ts: TaskTable, vsys: nat, b: Slot) {
    if exists i: Slot :: Eligible(ts[i], vsys) then EarliestEligible(ts, vsys, 16, b) else LeastVruntime(ts, 16, b)
  }

  /** With nothing running, a slot is picked exactly when it wins. */
  lemma PicksExactly(ts: TaskTable, vsys: nat, curr: Option<Slot>, b: Slot)
    requires BelowMax(ts) && forall i: Slot :: ts[i].state != Running
    ensures Pick(ts, vsys, curr).next == Some(b) <==> Wins(ts, vsys, b)
    ensures Pick(ts, vsys, curr).next.None? <==> forall i: Slot :: !Candidate(ts[i])
  {
    var e, m := BestEligible(ts, vsys, 16), MinVruntime(ts, 16);
    BestIsEarliest(ts, vsys, 16);
    MinIsLeast(ts, 16);
    if e.Some? {
      assert Eligible(ts[e.value], vsys);
    } else {
      assert forall i: Slot :: !Eligible(ts[i], vsys);
    }
  }

  /** Selection never turns system time back, and whatever ready task it picks has not run past it. */
  lemma PickKeepsTime(ts: TaskTable, vsys: nat, curr: Option<Slot>)
    requires BelowMax(ts)
    ensures var r := Pick(ts, vsys, curr);
      vsys <= r.vsys && (r.next.Some? && Candidate(ts[r.next.value]) ==> ts[r.next.value].vruntime <= r.vsys)
  {
    BestIsEarliest(ts, vsys, 16);
    MinIsLeast(ts, 16);
  }

  lemma PicksEarliest(ts: TaskTable, vsys: nat, curr: Option<Slot>, b: Slot)
    requires BelowMax(ts) && EarliestEligible(ts, vsys, 16, b)
    ensures Pick(ts, vsys, curr).next == Some(b) && Pick(ts, vsys, curr).vsys == vsys
  {
    BestIsEarliest(ts, vsys, 16);
  }

  lemma PickIsCandidate(ts: TaskTable, vsys: nat, curr: Option<Slot>)
    requires !IsRunning(ts, curr)
    ensures var r := Pick(ts, vsys, curr); r.next.Some? ==> Candidate(ts[r.next.value])
  {
    BestIsEarliest(ts, vsys, 16);
    MinIsLeast(ts, 16);
  }

  /** Selection touches nothing but two deadlines and one remaining slice. */
  lemma PickFrame(ts: TaskTable, vsys: nat, curr: Option<Slot>, i: Slot)
    ensures var r := Pick(ts, vsys, curr);
      && r.tasks[i] == ts[i].(remaining := r.tasks[i].remaining, vdeadline := r.tasks[i].vdeadline)
      && (r.next == Some(i) ==> r.tasks[i].remaining == ts[i].slice && r.tasks[i].vdeadline == Deadline(ts[i]))
      && (r.next != Some(i) ==> r.tasks[i] == RefreshTask(ts[i], vsys))
  {
  }

  /** eevdf_on_task_ready and eevdf_on_task_wake. */
  function Align(t: Task, vsys: nat): (r: Task)
    ensures r.vruntime == Max(t.vruntime, vsys)
  {
    var u := t.(vruntime := if t.vruntime < vsys then vsys else t.vruntime);
    u.(vdeadline := Deadline(u))
  }

  /** The part of eevdf_on_tick that changes the running task. */
  function ChargeTask(t: Task): Task {
    t.(ticksRun := Add64(t.ticksRun, 1),
       vruntime := Add64(t.vruntime, TickCost(t)),
       remaining := if t.remaining >= 1 then t.remaining - 1 else 0)
  }
}
