/**
 The SVC machine and the MMU model are about the same two registers: every run of
 exceptions is a run of domain switches, so what holds of the TLB and of user
 rights holds along every SVC run.
 */
module SvcTlb {
  import opened Words
  import opened Mmu
  import opened Tlb
  import Gates
  import Svc

  /** The domain an id names, if it is one of the three. */
  function DomainOf(id: nat): Option<Domain> {
    if id == Svc.DOMAIN_A then Some(A)
    else if id == Svc.DOMAIN_B then Some(B)
    else if id == Svc.DOMAIN_C then Some(C)
    else None
  }

  /** The handler was booted with the roots of this layout. */
  predicate RootsMatch(c: Svc.Config, y: Layout) {
    c.rootA == Root(y, A) && c.rootB == Root(y, B) && c.rootC == Root(y, C)
  }

  /** Both models have the same recorded domain and the same TTBR0. */
  predicate Linked(m: Svc.Machine, s: Cpu) {
    s.current == DomainOf(m.k.domain) && s.ttbr == m.ttbr
  }

  /** What the hardware does on its own. */
  predicate Unprompted(op: CpuOp) {
    op.Fill? || op.Evict?
  }

  /** A machine step, with what the hardware does inside an elevator switch; or a hardware step. */
  datatype SystemOp = Machine(op: Svc.MachineOp, pause: seq<CpuOp>) | Hardware(step: CpuOp)

  predicate Legal(op: SystemOp) {
    match op
    case Machine(_, pause) => forall k :: 0 <= k < |pause| ==> Unprompted(pause[k])
    case Hardware(step) => Unprompted(step) || step.Store?
  }

  function SwitchTo(c: Svc.Config, p: Gates.Path, id: nat, pause: seq<CpuOp>): seq<CpuOp> {
    if p == Gates.Elevator && c.useAsm then [Record(DomainOf(id))] + pause + [Install] else [Enter(DomainOf(id))]
  }

  /** The register accesses behind one machine step. */
  function Accesses(c: Svc.Config, m: Svc.Machine, op: Svc.MachineOp, pause: seq<CpuOp>): seq<CpuOp> {
    match op
    case CallOp(p) =>
      var v := Gates.Validate(m.k, p, Svc.Request(m.frame));
      if v.Refused? || |m.stack| >= Svc.MAX_DEPTH then [] else SwitchTo(c, p, v.target.domain, pause)
    case ReturnOp => if m.stack == [] then [] else [Enter(DomainOf(m.stack[|m.stack| - 1].domain))]
    case _ => []
  }

  function AccessesOf(c: Svc.Config, m: Svc.Machine, op: SystemOp): seq<CpuOp> {
    match op
    case Machine(o, pause) => Accesses(c, m, o, pause)
    case Hardware(step) => [step]
  }

  function MachineAfter(c: Svc.Config, m: Svc.Machine, op: SystemOp): Svc.Machine {
    if op.Machine? then Svc.MachineStep(c, m, op.op) else m
  }

  function SystemRun(c: Svc.Config, m: Svc.Machine, ops: seq<SystemOp>): Svc.Machine
    decreases |ops|
  {
    if ops == [] then m else SystemRun(c, MachineAfter(c, m, ops[0]), ops[1..])
  }

  /** All register accesses of a run, in order. */
  function Trace(c: Svc.Config, m: Svc.Machine, ops: seq<SystemOp>): seq<CpuOp>
    decreases |ops|
  {
    if ops == [] then [] else AccessesOf(c, m, ops[0]) + Trace(c, MachineAfter(c, m, ops[0]), ops[1..])
  }

  // ----- one step -----

  lemma EnterLinked(c: Svc.Config, y: Layout, m: Svc.Machine, s: Cpu, id: nat)
    requires RootsMatch(c, y) && Linked(m, s)
    ensures Linked(Svc.MmuEnter(c, m, id), CpuStep(y, s, Enter(DomainOf(id))))
  {
  }

  lemma {:induction false} PauseKeeps(y: Layout, s: Cpu, ops: seq<CpuOp>)
    requires forall k :: 0 <= k < |ops| ==> Unprompted(ops[k])
    ensures CpuRun(y, s, ops).current == s.current && CpuRun(y, s, ops).ttbr == s.ttbr
    decreases |ops|
  {
    if ops != [] { PauseKeeps(y, CpuStep(y, s, ops[0]), ops[1..]); }
  }

  lemma {:induction false} RunConcat(y: Layout, s: Cpu, a: seq<CpuOp>, b: seq<CpuOp>)
    ensures CpuRun(y, s, a + b) == CpuRun(y, CpuRun(y, s, a), b)
    decreases |a|
  {
    if a == [] {
      assert a + b == b;
    } else {
      assert (a + b)[1..] == a[1..] + b;
      RunConcat(y, CpuStep(y, s, a[0]), a[1..], b);
    }
  }

  lemma RunOne(y: Layout, s: Cpu, op: CpuOp)
    ensures CpuRun(y, s, [op]) == CpuStep(y, s, op)
  {
    assert [op][1..] == [];
  }

  /** Recording a domain and installing its root, with anything unprompted in between. */
  lemma ElevatorAccesses(y: Layout, s: Cpu, d: Option<Domain>, pause: seq<CpuOp>)
    requires forall k :: 0 <= k < |pause| ==> Unprompted(pause[k])
    ensures var r := CpuRun(y, s, [Record(d)] + pause + [Install]); r.current == d && r.ttbr == RootOf(y, d)
  {
    var t := CpuStep(y, s, Record(d));
    RunConcat(y, s, [Record(d)] + pause, [Install]);
    RunConcat(y, s, [Record(d)], pause);
    RunOne(y, s, Record(d));
    PauseKeeps(y, t, pause);
    RunOne(y, CpuRun(y, t, pause), Install);
  }

  lemma CallLinked(c: Svc.Config, y: Layout, m: Svc.Machine, s: Cpu, p: Gates.Path, pause: seq<CpuOp>)
    requires RootsMatch(c, y) && Linked(m, s) && forall k :: 0 <= k < |pause| ==> Unprompted(pause[k])
    ensures Linked(Svc.SvcCall(c, m, p), CpuRun(y, s, Accesses(c, m, Svc.CallOp(p), pause)))
  {
    var v := Gates.Validate(m.k, p, Svc.Request(m.frame));
    if v.Admitted? && |m.stack| < Svc.MAX_DEPTH {
      var id := v.target.domain;
      if p == Gates.Elevator && c.useAsm {
        ElevatorAccesses(y, s, DomainOf(id), pause);
        assert Svc.Root(c, id) == RootOf(y, DomainOf(id));
      } else {
        EnterLinked(c, y, Svc.Push(c, m), s, id);
        RunOne(y, s, Enter(DomainOf(id)));
      }
    }
  }

  lemma StepLinked(c: Svc.Config, y: Layout, m: Svc.Machine, s: Cpu, op: SystemOp)
    requires RootsMatch(c, y) && Linked(m, s) && Legal(op)
    ensures Linked(MachineAfter(c, m, op), CpuRun(y, s, AccessesOf(c, m, op)))
  {
    if op.Hardware? {
      RunOne(y, s, op.step);
    } else if op.op.CallOp? {
      CallLinked(c, y, m, s, op.op.path, op.pause);
    } else if op.op.ReturnOp? && m.stack != [] {
      var n := |m.stack| - 1;
      EnterLinked(c, y, m.(stack := m.stack[..n]), s, m.stack[n].domain);
      RunOne(y, s, Enter(DomainOf(m.stack[n].domain)));
    }
  }

  // ----- whole runs -----

  lemma {:induction false} PairedConcat(a: seq<CpuOp>, b: seq<CpuOp>)
    requires Paired(b)
    ensures Paired(a) ==> Paired(a + b)
    ensures AwaitsInstall(a) ==> AwaitsInstall(a + b)
    decreases |a|
  {
    if a == [] {
      assert a + b == b;
    } else {
      assert (a + b)[1..] == a[1..] + b;
      PairedConcat(a[1..], b);
    }
  }

  lemma {:induction false} PauseAwaits(pause: seq<CpuOp>)
    requires forall k :: 0 <= k < |pause| ==> Unprompted(pause[k])
    ensures AwaitsInstall(pause + [Install])
    decreases |pause|
  {
    var ops := pause + [Install];
    if pause == [] {
      assert ops[1..] == [];
    } else {
      assert ops[1..] == pause[1..] + [Install];
      PauseAwaits(pause[1..]);
    }
  }

  lemma StepPaired(c: Svc.Config, m: Svc.Machine, op: SystemOp)
    requires Legal(op)
    ensures Paired(AccessesOf(c, m, op))
  {
    var ops := AccessesOf(c, m, op);
    if ops != [] && ops[0].Record? {
      PauseAwaits(op.pause);
      assert ops[1..] == op.pause + [Install];
    } else if ops != [] {
      assert ops[1..] == [];
    }
  }

  /** Every SVC run is a paired run of domain switches that leaves the same domain recorded and the same TTBR0. */
  lemma {:induction false} SystemIsPairedRun(c: Svc.Config, y: Layout, m: Svc.Machine, s: Cpu, ops: seq<SystemOp>)
    requires RootsMatch(c, y) && Linked(m, s) && forall k :: 0 <= k < |ops| ==> Legal(ops[k])
    ensures Paired(Trace(c, m, ops)) && Linked(SystemRun(c, m, ops), CpuRun(y, s, Trace(c, m, ops)))
    decreases |ops|
  {
    if ops != [] {
      var first, n := AccessesOf(c, m, ops[0]), MachineAfter(c, m, ops[0]);
      StepLinked(c, y, m, s, ops[0]);
      StepPaired(c, m, ops[0]);
      SystemIsPairedRun(c, y, n, CpuRun(y, s, first), ops[1..]);
      PairedConcat(first, Trace(c, n, ops[1..]));
      RunConcat(y, s, first, Trace(c, n, ops[1..]));
    }
  }

  /** The machine as lettuce_mmu_init leaves it. */
  predicate AtBoot(y: Layout, m: Svc.Machine) {
    m.k.domain == Svc.DOMAIN_A && m.ttbr == Root(y, A)
  }

  /**
   User rights along SVC runs.  After any exceptions, kernel actions, fills,
   evictions and user stores from boot, whether an access hits the TLB or walks the
   tables, user code reads, writes and executes exactly the pages of the domain it
   runs in, and nothing at all in an unknown one.
   */
  lemma UserReach(c: Svc.Config, y: Layout, m: Svc.Machine, ops: seq<SystemOp>, page: Page, via: Option<Entry>)
    requires RootsMatch(c, y) && LayoutOk(y) && TablesApart(y) && 0 !in Memory(y) && AtBoot(y, m)
    requires forall k :: 0 <= k < |ops| ==> Legal(ops[k])
    ensures var r, s := SystemRun(c, m, ops), CpuRun(y, Booted(y), Trace(c, m, ops));
      var d, leaf := DomainOf(r.k.domain), Through(s, page, via);
      && s.ttbr == r.ttbr == RootOf(y, d) && s.mem == Memory(y)
      && (d.Some? ==> leaf == Walk(s.mem, r.ttbr, page))
      && (UserReads(leaf) <==> d.Some? && page in ReadablePages(d.value))
      && (UserWrites(leaf) <==> d.Some? && page in WritablePages(d.value))
      && (UserExecutes(leaf) <==> d.Some? && page == At(CODE))
  {
    var ts := Trace(c, m, ops);
    var r, s := SystemRun(c, m, ops), CpuRun(y, Booted(y), ts);
    SystemIsPairedRun(c, y, m, Booted(y), ops);
    RootFollowsDomain(y, Booted(y), ts);
    assert CpuOk(y, Booted(y));
    CpuRunOk(y, Booted(y), ts);
    var d := DomainOf(r.k.domain);
    if d.Some? {
      RootsNonzero(y, d.value);
      ThroughIsWalk(y, s, d.value, page, via);
      ReachExactly(y, d.value, page);
    } else {
      UnknownReachesNothing(y, s, page, via);
    }
  }
}
