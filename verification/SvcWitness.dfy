/** A run from boot in which a service in an unknown domain is called, and called back. */
module SvcWitness {
  import opened Words
  import opened Capabilities
  import opened Registry
  import opened Gates
  import opened Svc

  const UNKNOWN: nat := 999
  const FIRST: Descriptor := Descriptor(1, 0, DOMAIN_A, {ACTIVE})
  const SECOND: Descriptor := Descriptor(2, 0, UNKNOWN, {ACTIVE})

  /** The right of one service to call operation 1 of another through the elevator. */
  function CallGrant(owner: nat, target: nat): Grant {
    Grant(owner, target, 1, 1, CALL + CRITICAL)
  }

  /** The tables as init leaves them, with service 1 executing in domain A. */
  ghost predicate Fresh(k: Kernel) {
    && k.service == 1 && k.domain == DOMAIN_A
    && (forall i :: 0 <= i < SERVICES ==> k.services[i] == Vacant())
    && TableOk(k.caps) && Grants(k.caps) == map[]
  }

  function Setup(): seq<MachineOp> {
    [ActionOp(AddService(FIRST)), ActionOp(AddService(SECOND)),
     ActionOp(AddOperation(1, 1, 7)), ActionOp(AddOperation(2, 1, 7)),
     ActionOp(CreateCap(CallGrant(1, 2))), ActionOp(CreateCap(CallGrant(2, 1)))]
  }

  /** Both services can be called by each other. */
  ghost predicate Ready(k: Kernel, h12: u32, h21: u32) {
    && Lookup(k.services, 1) == Some(FIRST) && Lookup(k.services, 2) == Some(SECOND)
    && Registry.Dispatch(k.services, 1, 1) == Some(Entry(7, true))
    && Registry.Dispatch(k.services, 2, 1) == Some(Entry(7, true))
    && h12 in Grants(k.caps) && Grants(k.caps)[h12] == CallGrant(1, 2)
    && h21 in Grants(k.caps) && Grants(k.caps)[h21] == CallGrant(2, 1)
  }

  lemma ServicesSetUp(ts: ServiceTable)
    requires forall i :: 0 <= i < SERVICES ==> ts[i] == Vacant()
    ensures var us := RegisterOperation(
        RegisterOperation(Register(Register(ts, FIRST).0, SECOND).0, 1, 1, 7).0, 2, 1, 7).0;
      && Lookup(us, 1) == Some(FIRST) && Lookup(us, 2) == Some(SECOND)
      && Registry.Dispatch(us, 1, 1) == Registry.Dispatch(us, 2, 1) == Some(Entry(7, true))
  {
  }

  lemma GrantsSetUp(t: CapTable) returns (h12: u32, h21: u32)
    requires TableOk(t) && Grants(t) == map[]
    ensures var u := Capabilities.Create(Capabilities.Create(t, CallGrant(1, 2)).0, CallGrant(2, 1)).0;
      && h12 in Grants(u) && Grants(u)[h12] == CallGrant(1, 2)
      && h21 in Grants(u) && Grants(u)[h21] == CallGrant(2, 1)
  {
    var (u, a) := Capabilities.Create(t, CallGrant(1, 2));
    CreateRefines(t, CallGrant(1, 2));
    assert a != 0 && |Grants(u)| == |Grants(t)[a := CallGrant(1, 2)]| == 1;
    var (v, b) := Capabilities.Create(u, CallGrant(2, 1));
    CreateRefines(u, CallGrant(2, 1));
    assert Grants(v) == Grants(u)[b := CallGrant(2, 1)];
    h12, h21 := a, b;
  }

  lemma SetUp(c: Config, m: Machine) returns (h12: u32, h21: u32)
    requires Fresh(m.k)
    ensures var r := MachineRun(c, m, Setup());
      Ready(r.k, h12, h21) && r == m.(k := r.k) && r.k.service == 1 && r.k.domain == DOMAIN_A
  {
    RunSix(c, m, AddService(FIRST), AddService(SECOND), AddOperation(1, 1, 7), AddOperation(2, 1, 7),
           CreateCap(CallGrant(1, 2)), CreateCap(CallGrant(2, 1)));
    TablesSetUp(m.k);
    ServicesSetUp(m.k.services);
    h12, h21 := GrantsSetUp(m.k.caps);
  }

  /** The first four actions change the services only, the last two the grants only. */
  lemma TablesSetUp(k: Kernel)
    ensures var r := Act(Act(Act(Act(Act(Act(k, AddService(FIRST)), AddService(SECOND)), AddOperation(1, 1, 7)),
                                 AddOperation(2, 1, 7)), CreateCap(CallGrant(1, 2))), CreateCap(CallGrant(2, 1)));
      && r.service == k.service && r.domain == k.domain
      && r.services == RegisterOperation(RegisterOperation(Register(Register(k.services, FIRST).0, SECOND).0,
                                                           1, 1, 7).0, 2, 1, 7).0
      && r.caps == Capabilities.Create(Capabilities.Create(k.caps, CallGrant(1, 2)).0, CallGrant(2, 1)).0
  {
  }

  lemma RunSix(c: Config, m: Machine, a: Action, b: Action, d: Action, e: Action, f: Action, g: Action)
    ensures MachineRun(c, m, [ActionOp(a), ActionOp(b), ActionOp(d), ActionOp(e), ActionOp(f), ActionOp(g)]) ==
      m.(k := Act(Act(Act(Act(Act(Act(m.k, a), b), d), e), f), g))
  {
    var k := m.k;
    RunFirst(c, m, a, [ActionOp(b), ActionOp(d), ActionOp(e), ActionOp(f), ActionOp(g)]);
    RunFirst(c, m.(k := Act(k, a)), b, [ActionOp(d), ActionOp(e), ActionOp(f), ActionOp(g)]);
    RunFirst(c, m.(k := Act(Act(k, a), b)), d, [ActionOp(e), ActionOp(f), ActionOp(g)]);
    RunFirst(c, m.(k := Act(Act(Act(k, a), b), d)), e, [ActionOp(f), ActionOp(g)]);
    RunFirst(c, m.(k := Act(Act(Act(Act(k, a), b), d), e)), f, [ActionOp(g)]);
    RunFirst(c, m.(k := Act(Act(Act(Act(Act(k, a), b), d), e), f)), g, []);
  }

  lemma RunFirst(c: Config, m: Machine, a: Action, rest: seq<MachineOp>)
    ensures MachineRun(c, m, [ActionOp(a)] + rest) == MachineRun(c, m.(k := Act(m.k, a)), rest)
  {
    assert ([ActionOp(a)] + rest)[1..] == rest;
  }

  function Ask(target: u32, h: u32): Message {
    Message(target, 1, 1, h)
  }

  lemma CallsAdmitted(k: Kernel, h12: u32, h21: u32)
    requires Ready(k, h12, h21)
    ensures k.service == 1 ==> Validate(k, Elevator, Ask(2, h12)) == Admitted(SECOND, 7)
    ensures k.service == 2 ==> Validate(k, Elevator, Ask(1, h21)) == Admitted(FIRST, 7)
  {
    AdmittedIffAuthorised(k, Elevator, Ask(2, h12), SECOND, 7);
    AdmittedIffAuthorised(k, Elevator, Ask(1, h21), FIRST, 7);
  }

  /** A call with the request already in the registers. */
  function CallWith(c: Config, m: Machine, msg: Message): Machine {
    SvcCall(c, m.(frame := SetRequest(m.frame, msg)), Elevator)
  }

  /**
   From boot, six kernel actions set up two services.  The elevator call to the one
   in an unknown domain records it with a zero TTBR0 in assembly and leaves both
   registers alone in C; and after the unknown service has called back, its return
   finds it in domain A.
   */
  lemma UnknownDomainRun(c: Config, m: Machine) returns (h12: u32, h21: u32)
    requires Fresh(m.k) && m.ttbr == Root(c, DOMAIN_A) && m.stack == []
    ensures var ready := MachineRun(c, m, Setup());
      var asm := CallWith(c.(useAsm := true), ready, Ask(2, h12));
      var plain := CallWith(c.(useAsm := false), ready, Ask(2, h12));
      && (asm.k.service, asm.k.domain, asm.ttbr) == (2, UNKNOWN, 0)
      && (plain.k.service, plain.k.domain, plain.ttbr) == (2, DOMAIN_A, m.ttbr)
      && var back := SvcReturn(c, CallWith(c.(useAsm := true), asm, Ask(1, h21)));
         (back.k.service, back.k.domain, back.ttbr) == (2, DOMAIN_A, Root(c, DOMAIN_A))
  {
    h12, h21 := SetUp(c, m);
    var ready := MachineRun(c, m, Setup());
    EntersUnknown(c, ready, h12, h21);
    CallsBack(c, CallWith(c.(useAsm := true), ready, Ask(2, h12)), h12, h21);
  }

  lemma EntersUnknown(c: Config, m: Machine, h12: u32, h21: u32)
    requires Ready(m.k, h12, h21) && m.k.service == 1 && m.k.domain == DOMAIN_A && |m.stack| < MAX_DEPTH
    ensures var asm := CallWith(c.(useAsm := true), m, Ask(2, h12));
      var plain := CallWith(c.(useAsm := false), m, Ask(2, h12));
      && (asm.k.service, asm.k.domain, asm.ttbr) == (2, UNKNOWN, 0)
      && (plain.k.service, plain.k.domain, plain.ttbr) == (2, DOMAIN_A, m.ttbr)
      && Ready(asm.k, h12, h21) && |asm.stack| == |m.stack| + 1
  {
    var a := m.(frame := SetRequest(m.frame, Ask(2, h12)));
    CallsAdmitted(m.k, h12, h21);
    AdmittedEnters(c.(useAsm := true), a, Elevator);
    AdmittedEnters(c.(useAsm := false), a, Elevator);
  }

  lemma CallsBack(c: Config, m: Machine, h12: u32, h21: u32)
    requires Ready(m.k, h12, h21) && m.k.service == 2 && m.k.domain == UNKNOWN && |m.stack| < MAX_DEPTH
    ensures var back := SvcReturn(c, CallWith(c.(useAsm := true), m, Ask(1, h21)));
      (back.k.service, back.k.domain, back.ttbr) == (2, DOMAIN_A, Root(c, DOMAIN_A))
  {
    var a := m.(frame := SetRequest(m.frame, Ask(1, h21)));
    CallsAdmitted(m.k, h12, h21);
    AdmittedEnters(c.(useAsm := true), a, Elevator);
    var called := CallWith(c.(useAsm := true), m, Ask(1, h21));
    assert called.stack[|called.stack| - 1].domain == UNKNOWN && called.stack[|called.stack| - 1].service == 2;
  }
}
