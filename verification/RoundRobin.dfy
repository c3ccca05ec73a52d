/** The Round-Robin policy of kernel/scheduler/rr.c: a rotating scan of the task table. */
module RoundRobin {
  import opened Words
  import opened Tasks

  /** The slot probed k steps after the last pick. */
  function At(last: Slot, k: nat): Slot {
    (last + k) % 16
  }

  /** How many probes after the last pick a slot is reached, from 1 to 16. */
  function Distance(last: Slot, s: Slot): (d: nat)
    ensures 1 <= d <= 16 && At(last, d) == s
    ensures forall k: nat :: 1 <= k <= 16 && At(last, k) == s ==> k == d
  {
    if last < s then s - last else s + 16 - last
  }

  /** The first probe offset from i that meets a candidate, or stop. */
  function Scan(ts: TaskTable, last: Slot, i: nat, stop: nat): (k: nat)
    requires i <= stop
    ensures i <= k <= stop
    ensures k < stop ==> Candidate(ts[At(last, k)])
    ensures forall j: nat :: i <= j < k ==> !Candidate(ts[At(last, j)])
    decreases stop - i
  {
    if i == stop || Candidate(ts[At(last, i)]) then i
    else Scan(ts, last, i + 1, stop)
  }

  function Start(curr: Option<Slot>): nat {
    if curr.None? then 0 else 1
  }

  /** The slot rr_pick_next finds among the candidates. */
  function Next(ts: TaskTable, last: Slot, curr: Option<Slot>): (r: Option<Slot>)
    ensures r.Some? ==> Candidate(ts[r.value])
  {
    var start := Start(curr);
    var k := Scan(ts, last, start, start + 16);
    if k == start + 16 then None else Some(At(last, k))
  }

  /** Sixteen probes from any start reach every slot. */
  lemma EverySlotProbed(last: Slot, start: nat, i: Slot) returns (k: nat)
    requires start <= 1
    ensures start <= k < start + 16 && At(last, k) == i
  {
    k := Distance(last, i);
    if k == 16 && start == 0 {
      k := 0;
    }
  }

  /** A choice exists exactly when some slot is a candidate, whatever the start offset. */
  lemma NextExists(ts: TaskTable, last: Slot, curr: Option<Slot>)
    ensures Next(ts, last, curr).None? <==> forall i: Slot :: !Candidate(ts[i])
  {
    forall i: Slot | Candidate(ts[i]) ensures Next(ts, last, curr).Some? {
      var k := EverySlotProbed(last, Start(curr), i);
    }
  }

  /** With a current task, the nearest candidate after the last pick is chosen. */
  lemma NextIsNearest(ts: TaskTable, last: Slot, curr: Option<Slot>, i: Slot)
    requires curr.Some? && Candidate(ts[i])
    ensures var r := Next(ts, last, curr);
      r.Some? && Candidate(ts[r.value]) && Distance(last, r.value) <= Distance(last, i)
  {
    var k := Scan(ts, last, 1, 17);
    assert At(last, Distance(last, i)) == i;
    assert k <= Distance(last, i);
    assert k == Distance(last, At(last, k));
  }

  /** Without one the scan starts at the last pick itself. */
  lemma NextFromIdle(ts: TaskTable, last: Slot, i: Slot)
    requires Candidate(ts[i])
    ensures var r := Next(ts, last, None);
      r.Some? && Candidate(ts[r.value]) && (r.value == last || Distance(last, r.value) <= Distance(last, i))
  {
    var k, d := Scan(ts, last, 0, 16), Distance(last, i);
    AtWraps(last);
    if d == 16 {
      assert i == last && k == 0;
    } else {
      assert At(last, d) == i && k <= d;
      if k > 0 { assert k == Distance(last, At(last, k)); }
    }
  }

  lemma AtWraps(last: Slot)
    ensures At(last, 0) == last && At(last, 16) == last
  {
  }

  /** From slot 0, with nothing current, the lowest candidate is picked. */
  lemma NextFromZero(ts: TaskTable, n: Slot)
    requires Candidate(ts[n]) && forall i: Slot :: i < n ==> !Candidate(ts[i])
    ensures Next(ts, 0, None) == Some(n)
  {
    var k := Scan(ts, 0, 0, 16);
    forall j: nat | j < 16 ensures At(0, j) == j {
    }
    assert k <= n < 16 by { assert At(0, n) == n; }
  }
}
