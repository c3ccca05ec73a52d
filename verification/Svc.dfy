/**
 The ARM64 form of mediated calls: an SVC handler with a stack of eight
 continuation frames (kernel/arch/arm64/cpu.c), where call and return are separate
 exceptions.  It refines the portable gates.
 */
module Svc {
  import opened Words
  import opened Status
  import opened Tasks
  import opened Registry
  import opened Gates

  const DOMAIN_A: nat := 100
  const DOMAIN_B: nat := 200
  const DOMAIN_C: nat := 300
  const MAX_DEPTH: nat := 8

  /** Boot-time choices: the TTBR0 words, the elevator variant, and pointer authentication as two functions. */
  datatype Config = Config(
    rootA: nat, rootB: nat, rootC: nat, useAsm: bool,
    pac: bool, sign: (nat, nat) -> nat, auth: (nat, nat) -> nat)

  ghost predicate ConfigOk(c: Config) {
    c.pac ==> forall p: nat, salt: nat :: c.auth(c.sign(p, salt), salt) == p
  }

  datatype Saved = Saved(service: nat, domain: nat, elr: nat, spsr: nat, spEl0: nat)

  datatype Machine = Machine(k: Kernel, ttbr: nat, frame: TrapFrame, stack: seq<Saved>)

  predicate BuiltIn(d: nat) {
    d == DOMAIN_A || d == DOMAIN_B || d == DOMAIN_C
  }

  /** lettuce_arch_domain_ttbr0_val. */
  function Root(c: Config, d: nat): nat {
    if d == DOMAIN_A then c.rootA else if d == DOMAIN_B then c.rootB else if d == DOMAIN_C then c.rootC else 0
  }

  /** lettuce_arch_domain_stack_top. */
  function StackTop(d: nat): nat {
    if d == DOMAIN_A then 0x41002000 else if d == DOMAIN_B then 0x41102000 else if d == DOMAIN_C then 0x41182000 else 0
  }

  /** lettuce_mmu_enter: no write when the domain is unchanged, invalid or unknown. */
  function MmuEnter(c: Config, m: Machine, d: nat): Machine {
    if d == m.k.domain || !BuiltIn(d) then m
    else m.(ttbr := Root(c, d), k := m.k.(domain := d))
  }

  function SetX(f: TrapFrame, i: nat, v: nat): TrapFrame
    requires i < 30
  {
    f.(x := f.x[i := v])
  }

  /** The request registers x0..x3, truncated to 32 bits. */
  function Request(f: TrapFrame): Message {
    Message(f.x[0] % TWO32, f.x[1] % TWO32, f.x[2] % TWO32, f.x[3] % TWO32)
  }

  function Push(c: Config, m: Machine): Machine {
    var elr := if c.pac then c.sign(m.frame.elr, m.k.service) else m.frame.elr;
    m.(stack := m.stack + [Saved(m.k.service, m.k.domain, elr, m.frame.spsr, m.frame.spEl0)])
  }

  /** The C transition: lettuce_mmu_enter, then the service id and the frame. */
  function TransitionC(c: Config, m: Machine, target: Descriptor, entry: nat): Machine {
    var e := MmuEnter(c, m, target.domain);
    e.(k := e.k.(service := target.id),
       frame := e.frame.(elr := entry, spEl0 := StackTop(target.domain), spsr := 0))
  }

  /** The elevator transition: the domain is recorded, and elevator.S writes TTBR0 and the frame unconditionally. */
  function TransitionAsm(c: Config, m: Machine, target: Descriptor, entry: nat): Machine {
    var e := m.(k := m.k.(service := target.id, domain := target.domain));
    e.(ttbr := Root(c, target.domain),
       frame := e.frame.(elr := entry, spsr := 0, spEl0 := StackTop(target.domain)))
  }

  function SvcCall(c: Config, m: Machine, p: Path): Machine {
    match Validate(m.k, p, Request(m.frame))
    case Refused(st) => m.(frame := SetX(m.frame, 0, st))
    case Admitted(target, entry) =>
      if |m.stack| >= MAX_DEPTH then m.(frame := SetX(m.frame, 0, OVERFLOW))
      else if p == Elevator && c.useAsm then TransitionAsm(c, Push(c, m), target, entry)
      else TransitionC(c, Push(c, m), target, entry)
  }

  /** A return with an empty stack leaves EL0 for the kernel harness and is not a step of this machine. */
  function SvcReturn(c: Config, m: Machine): Machine {
    if m.stack == [] then m
    else
      var s := m.stack[|m.stack| - 1];
      var e := MmuEnter(c, m.(stack := m.stack[..|m.stack| - 1]), s.domain);
      e.(k := e.k.(service := s.service),
         frame := e.frame.(elr := if c.pac then c.auth(s.elr, s.service) else s.elr, spsr := s.spsr, spEl0 := s.spEl0))
  }

  // ----- invariant -----

  predicate ServicesBuiltIn(ts: ServiceTable) {
    forall i :: 0 <= i < SERVICES ==> ts[i].desc.id != 0 ==> BuiltIn(ts[i].desc.domain)
  }

  predicate ActionOk(a: Action) {
    a.AddService? ==> BuiltIn(a.desc.domain)
  }

  /** TTBR0 matches the recorded domain, every domain in play is built in, and at most eight frames are stacked. */
  predicate MachineOk(c: Config, m: Machine) {
    && BuiltIn(m.k.domain) && m.ttbr == Root(c, m.k.domain)
    && |m.stack| <= MAX_DEPTH && (forall i :: 0 <= i < |m.stack| ==> BuiltIn(m.stack[i].domain))
    && ServicesBuiltIn(m.k.services)
  }

  lemma ActKeeps(c: Config, m: Machine, a: Action)
    requires MachineOk(c, m) && ActionOk(a)
    ensures MachineOk(c, m.(k := Act(m.k, a)))
    ensures Act(m.k, a).service == m.k.service && Act(m.k, a).domain == m.k.domain
  {
  }

  lemma TargetBuiltIn(k: Kernel, p: Path, m: Message)
    requires ServicesBuiltIn(k.services) && Validate(k, p, m).Admitted?
    ensures BuiltIn(Validate(k, p, m).target.domain)
  {
  }

  lemma CallKeeps(c: Config, m: Machine, p: Path)
    requires MachineOk(c, m)
    ensures MachineOk(c, SvcCall(c, m, p))
  {
    if Validate(m.k, p, Request(m.frame)).Admitted? { TargetBuiltIn(m.k, p, Request(m.frame)); }
  }

  lemma ReturnKeeps(c: Config, m: Machine)
    requires MachineOk(c, m)
    ensures MachineOk(c, SvcReturn(c, m))
  {
  }

  /** The request is x0 to x3, in this order, each cut to 32 bits. */
  lemma RequestIsX0ToX3(f: TrapFrame)
    ensures var q := Request(f);
      [q.target, q.operation, q.resource, q.capability] ==
        [f.x[0] % 0x1_0000_0000, f.x[1] % 0x1_0000_0000, f.x[2] % 0x1_0000_0000, f.x[3] % 0x1_0000_0000]
  {
  }

  /** A refused call, by validation or by a full stack, sets x0 to the refusing status and changes nothing else. */
  lemma RefusedCallOnlySetsX0(c: Config, m: Machine, p: Path)
    ensures var r, v := SvcCall(c, m, p), Validate(m.k, p, Request(m.frame));
      |r.stack| == |m.stack| ==>
        r == m.(frame := m.frame.(x := m.frame.x[0 := if v.Refused? then v.status else 10])) && r.frame.x[0] != 0
    ensures |SvcCall(c, m, p).stack| == |m.stack| <==>
      Validate(m.k, p, Request(m.frame)).Refused? || |m.stack| >= MAX_DEPTH
  {
  }

  // ----- the two elevator variants -----

  /**
   The assembly and the C transition agree exactly when, for a built-in target
   domain already current, TTBR0 already holds its root; for an unknown domain
   they agree only if it is already recorded with a zero TTBR0.
   */
  lemma ElevatorVariantsAgree(c: Config, m: Machine, target: Descriptor, entry: nat)
    ensures TransitionAsm(c, m, target, entry) == TransitionC(c, m, target, entry) <==>
      if BuiltIn(target.domain) then m.k.domain == target.domain ==> m.ttbr == Root(c, target.domain)
      else m.k.domain == target.domain && m.ttbr == 0
  {
  }

  /** From every good state the whole elevator call is the same under either variant. */
  lemma ElevatorCallAgrees(c: Config, m: Machine)
    requires MachineOk(c, m)
    ensures SvcCall(c.(useAsm := true), m, Elevator) == SvcCall(c.(useAsm := false), m, Elevator)
  {
  }

  /** A return restores the saved domain exactly when it is built in or already current. */
  lemma ReturnRestoresDomainIff(c: Config, m: Machine)
    requires m.stack != []
    ensures SvcReturn(c, m).k.domain == m.stack[|m.stack| - 1].domain <==>
      BuiltIn(m.stack[|m.stack| - 1].domain) || m.stack[|m.stack| - 1].domain == m.k.domain
  {
  }

  // ----- balanced sequences of exceptions -----

  datatype MachineOp = CallOp(path: Path) | ReturnOp | ActionOp(action: Action) | UserOp(frame: TrapFrame)

  predicate OpOk(op: MachineOp) {
    op.ActionOp? ==> ActionOk(op.action)
  }

  function MachineStep(c: Config, m: Machine, op: MachineOp): Machine {
    match op
    case CallOp(p) => SvcCall(c, m, p)
    case ReturnOp => SvcReturn(c, m)
    case ActionOp(a) => m.(k := Act(m.k, a))
    case UserOp(f) => m.(frame := f)
  }

  function MachineRun(c: Config, m: Machine, ops: seq<MachineOp>): Machine
    decreases |ops|
  {
    if ops == [] then m else MachineRun(c, MachineStep(c, m, ops[0]), ops[1..])
  }

  /** Every state of the run has at least n frames stacked. */
  ghost predicate StaysAbove(c: Config, m: Machine, ops: seq<MachineOp>, n: nat)
    decreases |ops|
  {
    n <= |m.stack| && (ops == [] || StaysAbove(c, MachineStep(c, m, ops[0]), ops[1..], n))
  }

  lemma StepKeeps(c: Config, m: Machine, op: MachineOp)
    requires MachineOk(c, m) && OpOk(op)
    ensures MachineOk(c, MachineStep(c, m, op))
  {
    match op
    case CallOp(p) => CallKeeps(c, m, p);
    case ReturnOp => ReturnKeeps(c, m);
    case ActionOp(a) => ActKeeps(c, m, a);
    case UserOp(_) =>
  }

  /** Frames below the lowest depth reached are never touched, and no more than eight are ever stacked. */
  lemma {:induction false} FramesKept(c: Config, m: Machine, ops: seq<MachineOp>, n: nat)
    requires |m.stack| <= MAX_DEPTH && StaysAbove(c, m, ops, n)
    ensures var r := MachineRun(c, m, ops); n <= |r.stack| <= MAX_DEPTH && r.stack[..n] == m.stack[..n]
    decreases |ops|
  {
    if ops != [] {
      var e := MachineStep(c, m, ops[0]);
      assert |e.stack| <= MAX_DEPTH && e.stack[..n] == m.stack[..n];
      FramesKept(c, e, ops[1..], n);
    }
  }

  /** While services are registered in built-in domains only, TTBR0 follows the recorded domain. */
  lemma {:induction false} RunKeeps(c: Config, m: Machine, ops: seq<MachineOp>)
    requires MachineOk(c, m) && forall k :: 0 <= k < |ops| ==> OpOk(ops[k])
    ensures MachineOk(c, MachineRun(c, m, ops))
    decreases |ops|
  {
    if ops != [] {
      StepKeeps(c, m, ops[0]);
      RunKeeps(c, MachineStep(c, m, ops[0]), ops[1..]);
    }
  }

  /** What a return gives back of the caller; the domain exactly if it is built in or still current. */
  ghost predicate GivesBack(c: Config, m: Machine, last: Machine, r: Machine) {
    && r.stack == m.stack && r.k.service == m.k.service
    && r.frame.elr == m.frame.elr && r.frame.spsr == m.frame.spsr && r.frame.spEl0 == m.frame.spEl0
    && r.frame.x == last.frame.x
    && (r.k.domain == m.k.domain <==> BuiltIn(m.k.domain) || last.k.domain == m.k.domain)
    && (MachineOk(c, m) && MachineOk(c, last) ==> r.ttbr == m.ttbr)
  }

  /** The matching return brings back what the call pushed. */
  lemma ReturnGivesBack(c: Config, m: Machine, e: Machine)
    requires ConfigOk(c) && e.stack == Push(c, m).stack
    ensures GivesBack(c, m, e, SvcReturn(c, e))
    ensures SvcReturn(c, e).k == e.k.(service := m.k.service, domain := SvcReturn(c, e).k.domain)
  {
    assert e.stack[..|m.stack|] == m.stack;
  }

  lemma CalleeDepth(c: Config, m: Machine, p: Path, ops: seq<MachineOp>)
    requires |m.stack| < MAX_DEPTH && |SvcCall(c, m, p).stack| == |m.stack| + 1
    requires StaysAbove(c, SvcCall(c, m, p), ops, |m.stack| + 1)
    requires |MachineRun(c, SvcCall(c, m, p), ops).stack| == |m.stack| + 1
    ensures MachineRun(c, SvcCall(c, m, p), ops).stack == Push(c, m).stack
  {
    DepthKept(c, SvcCall(c, m, p), ops);
  }

  /** A run that never goes below its first depth and ends there ends with its first stack. */
  lemma DepthKept(c: Config, d: Machine, ops: seq<MachineOp>)
    requires |d.stack| <= MAX_DEPTH && StaysAbove(c, d, ops, |d.stack|) && |MachineRun(c, d, ops).stack| == |d.stack|
    ensures MachineRun(c, d, ops).stack == d.stack
  {
    FramesKept(c, d, ops, |d.stack|);
    var last := MachineRun(c, d, ops);
    assert last.stack[..|d.stack|] == last.stack && d.stack[..|d.stack|] == d.stack;
  }

  /**
   Balanced calls.  After an admitted call, any run of calls, returns, kernel
   actions and user code that comes back to the callee's own depth, followed by
   its return, gives the caller back its elr, spsr, sp_el0 and service, with the
   callee's x0; and its domain and TTBR0 while all domains in play are built in.
   */
  lemma BalancedRestores(c: Config, m: Machine, p: Path, ops: seq<MachineOp>)
    requires ConfigOk(c) && |m.stack| < MAX_DEPTH && |SvcCall(c, m, p).stack| == |m.stack| + 1
    requires StaysAbove(c, SvcCall(c, m, p), ops, |m.stack| + 1)
    requires |MachineRun(c, SvcCall(c, m, p), ops).stack| == |m.stack| + 1
    ensures var last := MachineRun(c, SvcCall(c, m, p), ops);
      && GivesBack(c, m, last, SvcReturn(c, last))
      && (MachineOk(c, m) && (forall k :: 0 <= k < |ops| ==> OpOk(ops[k])) ==> MachineOk(c, last))
  {
    var d := SvcCall(c, m, p);
    CalleeDepth(c, m, p, ops);
    ReturnGivesBack(c, m, MachineRun(c, d, ops));
    if MachineOk(c, m) && forall k :: 0 <= k < |ops| ==> OpOk(ops[k]) {
      CallKeeps(c, m, p);
      RunKeeps(c, d, ops);
    }
  }

  // ----- refinement of the gates -----

  function SetRequest(f: TrapFrame, m: Message): (g: TrapFrame)
    ensures Request(g) == m && g.elr == f.elr && g.spsr == f.spsr && g.spEl0 == f.spEl0
  {
    SetX(SetX(SetX(SetX(f, 0, m.target), 1, m.operation), 2, m.resource), 3, m.capability)
  }

  /** A body carried out as SVC exceptions; the status is left in x0. */
  function RunBody(c: Config, m: Machine, b: Body): Machine
    decreases b, 0
  {
    match b
    case Done(st) => m.(frame := SetX(m.frame, 0, st))
    case Do(a, rest) => RunBody(c, m.(k := Act(m.k, a)), rest)
    case Compute(f, rest) => RunBody(c, m.(frame := f), rest)
    case Call(p, msg, callee, rest) => RunBody(c, RunCall(c, m, p, msg, callee), rest)
  }

  function RunCall(c: Config, m: Machine, p: Path, msg: Message, callee: Body): Machine
    decreases callee, 1
  {
    var d := SvcCall(c, m.(frame := SetRequest(m.frame, msg)), p);
    if |d.stack| == |m.stack| then d else SvcReturn(c, RunBody(c, d, callee))
  }

  /** Bodies register services in built-in domains only. */
  predicate BodyOk(b: Body) {
    match b
    case Done(_) => true
    case Do(a, rest) => ActionOk(a) && BodyOk(rest)
    case Compute(_, rest) => BodyOk(rest)
    case Call(_, _, callee, rest) => BodyOk(callee) && BodyOk(rest)
  }

  function Room(m: Machine): Option<nat>
    requires |m.stack| <= MAX_DEPTH
  {
    Some(MAX_DEPTH - |m.stack|)
  }

  /**
   An admitted call with a free frame pushes the caller and starts the entry at EL0
   as the target service.  The domain is the target's, except that the C path
   ignores an unknown one; while all domains in play are built in, TTBR0 is its root.
   */
  lemma AdmittedEnters(c: Config, m: Machine, p: Path)
    requires Validate(m.k, p, Request(m.frame)).Admitted? && |m.stack| < MAX_DEPTH
    ensures var v, d := Validate(m.k, p, Request(m.frame)), SvcCall(c, m, p);
      var known, asm := BuiltIn(v.target.domain), p == Elevator && c.useAsm;
      && d.stack == Push(c, m).stack && SameButDomain(d.k, m.k.(service := v.target.id))
      && d.frame == m.frame.(elr := v.entry, spsr := 0, spEl0 := StackTop(v.target.domain))
      && d.k.domain == (if known || asm then v.target.domain else m.k.domain)
      && d.ttbr == (if asm || (known && v.target.domain != m.k.domain) then Root(c, v.target.domain) else m.ttbr)
      && (MachineOk(c, m) ==>
            MachineOk(c, d) && d.k == EnterContext(m.k, v.target.id, v.target.domain) && d.ttbr == Root(c, d.k.domain))
  {
    if MachineOk(c, m) {
      CallKeeps(c, m, p);
      TargetBuiltIn(m.k, p, Request(m.frame));
    }
  }

  /** Equal tables and service; the recorded domains may differ. */
  predicate SameButDomain(k: Kernel, j: Kernel) {
    k == j.(domain := k.domain)
  }

  /** What a finished call must have done, next to what the gate did. */
  ghost predicate Agrees(m: Machine, r: Machine, g: Outcome) {
    && SameButDomain(r.k, g.k) && r.frame.x[0] == g.status && r.stack == m.stack
    && r.frame.elr == m.frame.elr && r.frame.spsr == m.frame.spsr && r.frame.spEl0 == m.frame.spEl0
  }

  /** An admitted call pushes the caller and enters the target, whatever its domain. */
  lemma AdmittedPushes(c: Config, m: Machine, k: Kernel, p: Path)
    requires SameButDomain(m.k, k) && Validate(k, p, Request(m.frame)).Admitted? && |m.stack| < MAX_DEPTH
    ensures var v, d := Validate(k, p, Request(m.frame)), SvcCall(c, m, p);
      d.stack == Push(c, m).stack && SameButDomain(d.k, EnterContext(k, v.target.id, v.target.domain))
  {
    assert Validate(k, p, Request(m.frame)) == Validate(m.k, p, Request(m.frame));
  }

  lemma RefusalAgrees(c: Config, m: Machine, k: Kernel, p: Path, msg: Message, callee: Body, chain: seq<nat>)
    requires |m.stack| <= MAX_DEPTH && SameButDomain(m.k, k) && (Validate(k, p, msg).Refused? || |m.stack| == MAX_DEPTH)
    ensures Agrees(m, RunCall(c, m, p, msg, callee), Gate(k, p, msg, callee, chain, Room(m)))
  {
    assert Validate(k, p, msg) == Validate(m.k, p, msg);
  }

  /** The matching returns of machine and gate keep the agreement their bodies ended in. */
  lemma CallReturns(c: Config, a: Machine, k: Kernel, r: Machine, o: Outcome)
    requires ConfigOk(c) && |a.stack| < MAX_DEPTH && SameButDomain(a.k, k) && r.stack == Push(c, a).stack
    requires SameButDomain(r.k, o.k) && r.frame.x[0] == o.status
    ensures Agrees(a, SvcReturn(c, r), o.(k := LeaveContext(o.k, k.service, k.domain)))
  {
    ReturnGivesBack(c, a, r);
  }

  /** An admitted call, machine and gate side by side. */
  lemma CallUnfolds(c: Config, m: Machine, k: Kernel, p: Path, msg: Message, callee: Body, chain: seq<nat>)
    requires |m.stack| < MAX_DEPTH && Validate(k, p, msg).Admitted?
    requires |SvcCall(c, m.(frame := SetRequest(m.frame, msg)), p).stack| == |m.stack| + 1
    ensures var d := SvcCall(c, m.(frame := SetRequest(m.frame, msg)), p);
      var t := Validate(k, p, msg).target;
      var o := Exec(EnterContext(k, t.id, t.domain), callee, chain + [t.id], Some(MAX_DEPTH - |m.stack| - 1));
      && RunCall(c, m, p, msg, callee) == SvcReturn(c, RunBody(c, d, callee))
      && Gate(k, p, msg, callee, chain, Room(m)).k == LeaveContext(o.k, k.service, k.domain)
      && Gate(k, p, msg, callee, chain, Room(m)).status == o.status
  {
  }

  lemma {:induction false} CallAgrees(
    c: Config, m: Machine, k: Kernel, p: Path, msg: Message, callee: Body, chain: seq<nat>)
    requires ConfigOk(c) && |m.stack| <= MAX_DEPTH && SameButDomain(m.k, k)
    ensures Agrees(m, RunCall(c, m, p, msg, callee), Gate(k, p, msg, callee, chain, Room(m)))
    decreases callee, 1
  {
    var v := Validate(k, p, msg);
    if v.Refused? || |m.stack| == MAX_DEPTH {
      RefusalAgrees(c, m, k, p, msg, callee, chain);
    } else {
      var a := m.(frame := SetRequest(m.frame, msg));
      var d, e := SvcCall(c, a, p), EnterContext(k, v.target.id, v.target.domain);
      AdmittedPushes(c, a, k, p);
      BodyAgrees(c, d, e, callee, chain + [v.target.id]);
      CallReturns(c, a, k, RunBody(c, d, callee), Exec(e, callee, chain + [v.target.id], Room(d)));
      CallUnfolds(c, m, k, p, msg, callee, chain);
    }
  }

  lemma {:induction false} BodyAgrees(c: Config, m: Machine, k: Kernel, b: Body, chain: seq<nat>)
    requires ConfigOk(c) && |m.stack| <= MAX_DEPTH && SameButDomain(m.k, k)
    ensures var r, o := RunBody(c, m, b), Exec(k, b, chain, Room(m));
      SameButDomain(r.k, o.k) && r.frame.x[0] == o.status && r.stack == m.stack
    decreases b, 0
  {
    match b
    case Done(_) =>
    case Do(a, rest) => BodyAgrees(c, m.(k := Act(m.k, a)), Act(k, a), rest, chain);
    case Compute(f, rest) => BodyAgrees(c, m.(frame := f), k, rest, chain);
    case Call(p, msg, callee, rest) =>
      CallAgrees(c, m, k, p, msg, callee, chain);
      BodyAgrees(c, RunCall(c, m, p, msg, callee), Gate(k, p, msg, callee, chain, Room(m)).k, rest, chain);
  }

  /** While all domains in play are built in, a call also hands back the domain, and with it TTBR0. */
  lemma {:induction false} CallKeepsDomain(c: Config, m: Machine, p: Path, msg: Message, callee: Body)
    requires ConfigOk(c) && MachineOk(c, m) && BodyOk(callee)
    ensures var r := RunCall(c, m, p, msg, callee);
      MachineOk(c, r) && r.k.domain == m.k.domain && r.stack == m.stack
    decreases callee, 1
  {
    var a := m.(frame := SetRequest(m.frame, msg));
    var d := SvcCall(c, a, p);
    CallKeeps(c, a, p);
    if |d.stack| != |m.stack| {
      BodyKeepsDomain(c, d, callee);
      var e := RunBody(c, d, callee);
      ReturnGivesBack(c, a, e);
      ReturnKeeps(c, e);
    }
  }

  lemma {:induction false} BodyKeepsDomain(c: Config, m: Machine, b: Body)
    requires ConfigOk(c) && MachineOk(c, m) && BodyOk(b)
    ensures var r := RunBody(c, m, b); MachineOk(c, r) && r.k.domain == m.k.domain && r.stack == m.stack
    decreases b, 0
  {
    match b
    case Done(_) =>
    case Do(a, rest) =>
      ActKeeps(c, m, a);
      BodyKeepsDomain(c, m.(k := Act(m.k, a)), rest);
    case Compute(f, rest) => BodyKeepsDomain(c, m.(frame := f), rest);
    case Call(p, msg, callee, rest) =>
      CallKeepsDomain(c, m, p, msg, callee);
      BodyKeepsDomain(c, RunCall(c, m, p, msg, callee), rest);
  }

  /**
   The SVC machine refines the gates: one call with its whole nested execution
   leaves the tables and service the gate leaves, delivers the gate's status in
   x0, and restores the caller's return state and stack.  It also leaves the
   gate's domain and restores TTBR0 while all domains in play are built in.
   */
  lemma {:induction false} CallRefines(c: Config, m: Machine, p: Path, msg: Message, callee: Body, chain: seq<nat>)
    requires ConfigOk(c) && |m.stack| <= MAX_DEPTH
    ensures var r, g := RunCall(c, m, p, msg, callee), Gate(m.k, p, msg, callee, chain, Room(m));
      && Agrees(m, r, g)
      && (MachineOk(c, m) && BodyOk(callee) ==> r.k == g.k && r.ttbr == m.ttbr && MachineOk(c, r))
  {
    CallAgrees(c, m, m.k, p, msg, callee, chain);
    if MachineOk(c, m) && BodyOk(callee) {
      CallKeepsDomain(c, m, p, msg, callee);
      GateRestores(m.k, p, msg, callee, chain, Room(m));
    }
  }

  /** On every call tree that fits the free frames, the machine does what the unbounded gate does. */
  lemma CallRefinesUnbounded(c: Config, m: Machine, p: Path, msg: Message, callee: Body, chain: seq<nat>)
    requires ConfigOk(c) && |m.stack| <= MAX_DEPTH
    requires WithinDepth(Gate(m.k, p, msg, callee, chain, None).trace, |chain| + MAX_DEPTH - |m.stack|)
    ensures var r, g := RunCall(c, m, p, msg, callee), Gate(m.k, p, msg, callee, chain, None);
      Agrees(m, r, g) && (MachineOk(c, m) && BodyOk(callee) ==> r.k == g.k)
  {
    GateRoomSuffices(m.k, p, msg, callee, chain, MAX_DEPTH - |m.stack|);
    CallRefines(c, m, p, msg, callee, chain);
  }
}
