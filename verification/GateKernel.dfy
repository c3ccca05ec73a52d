/**
 The gates as the kernel runs them: shared registry and capability objects, and
 globals for the executing service and domain that are saved, replaced and
 restored around each entry.
 */
module GateKernel {
  import opened Words
  import opened Status
  import opened Capabilities
  import opened Registry
  import opened Gates

  class Supervisor {
    const registry: ServiceRegistry
    const caps: CapabilityTable
    var service: nat
    var domain: nat

    ghost predicate Valid()
      reads this, caps, caps.entries, caps.freeSlots
    {
      registry.Valid() && caps.Valid()
    }

    ghost function View(): Kernel
      requires Valid()
      reads this, registry.table, caps, caps.entries, caps.freeSlots
    {
      Kernel(registry.View(), caps.View(), service, domain)
    }

    constructor ()
      ensures Valid() && service == 0 && domain == 0
      ensures fresh(registry) && fresh(registry.table) && fresh(caps) && fresh(caps.entries) && fresh(caps.freeSlots)
    {
      registry := new ServiceRegistry();
      caps := new CapabilityTable();
      service, domain := 0, 0;
    }

    /** lettuce_protection_enter on the host. */
    method EnterDomain(d: nat)
      modifies this`domain
      ensures domain == if d != 0 then d else old(domain)
    {
      if d != 0 {
        domain := d;
      }
    }

    method Enter(target: nat, d: nat) returns (previousService: nat, previousDomain: nat)
      requires Valid()
      modifies this
      ensures Valid() && View() == EnterContext(old(View()), target, d)
      ensures previousService == old(service) && previousDomain == old(domain)
    {
      previousService, previousDomain := service, domain;
      service := target;
      EnterDomain(d);
    }

    method Leave(previousService: nat, previousDomain: nat)
      requires Valid()
      modifies this
      ensures Valid() && View() == LeaveContext(old(View()), previousService, previousDomain)
    {
      domain := previousDomain;
      service := previousService;
    }

    method ValidateCall(p: Path, m: Message) returns (v: Verdict)
      requires Valid()
      ensures v == Validate(View(), p, m)
    {
      match p
      case SameLayer => v := ValidateSameLayerCall(m);
      case CrossLayer => v := ValidateCrossLayerCall(m);
      case Elevator => v := ValidateElevatorCall(m);
    }

    method ValidateSameLayerCall(m: Message) returns (v: Verdict)
      requires Valid()
      ensures v == ValidateSameLayer(View(), m)
    {
      if service == 0 { return Refused(INVALID_SERVICE); }
      var caller := registry.LookupCall(service);
      if caller.None? { return Refused(INVALID_SERVICE); }
      if !IsActive(caller.value) { return Refused(INACTIVE_SERVICE); }
      if m.target == 0 { return Refused(INVALID_SERVICE); }
      var target := registry.LookupCall(m.target);
      if target.None? { return Refused(INVALID_SERVICE); }
      if !IsActive(target.value) { return Refused(INACTIVE_SERVICE); }
      if caller.value.layer != target.value.layer { return Refused(DIFFERENT_LAYER); }
      if m.operation == 0 { return Refused(INVALID_OPERATION); }
      if m.resource == 0 { return Refused(INVALID_RESOURCE); }
      if m.capability == 0 { return Refused(CAPABILITY_DENIED); }
      var ok := caps.CheckCall(service, m.capability, m.target, m.operation, CALL, m.resource);
      if !ok { return Refused(CAPABILITY_DENIED); }
      var e := registry.DispatchCall(m.target, m.operation);
      if e.None? { return Refused(INVALID_OPERATION); }
      if e.value.entry == 0 { return Refused(INVALID_TARGET_ENTRY); }
      return Admitted(target.value, e.value.entry);
    }

    method ValidateCrossLayerCall(m: Message) returns (v: Verdict)
      requires Valid()
      ensures v == ValidateCrossLayer(View(), m)
    {
      var caller := registry.LookupCall(service);
      if caller.None? { return Refused(INVALID_SERVICE); }
      if !IsActive(caller.value) { return Refused(INACTIVE_SERVICE); }
      var target := registry.LookupCall(m.target);
      if target.None? { return Refused(INVALID_SERVICE); }
      if !IsActive(target.value) { return Refused(INACTIVE_SERVICE); }
      if caller.value.layer == target.value.layer { return Refused(INVALID_STATE); }
      if m.operation == 0 { return Refused(INVALID_OPERATION); }
      if m.resource == 0 { return Refused(INVALID_RESOURCE); }
      var ok := caps.CheckCall(service, m.capability, m.target, m.operation, CALL, m.resource);
      if !ok { return Refused(CAPABILITY_DENIED); }
      var e := registry.DispatchCall(m.target, m.operation);
      if e.None? || e.value.entry == 0 { return Refused(INVALID_TARGET_ENTRY); }
      return Admitted(target.value, e.value.entry);
    }

    method ValidateElevatorCall(m: Message) returns (v: Verdict)
      requires Valid()
      ensures v == ValidateElevator(View(), m)
    {
      var caller := registry.LookupCall(service);
      var target := registry.LookupCall(m.target);
      if caller.None? || target.None? { return Refused(INVALID_SERVICE); }
      if !IsActive(caller.value) || !IsActive(target.value) { return Refused(INACTIVE_SERVICE); }
      if m.operation == 0 { return Refused(INVALID_OPERATION); }
      if m.resource == 0 { return Refused(INVALID_RESOURCE); }
      var ok := caps.CheckCall(service, m.capability, m.target, m.operation, CALL + CRITICAL, m.resource);
      if !ok { return Refused(CAPABILITY_DENIED); }
      var e := registry.DispatchCall(m.target, m.operation);
      if e.None? || e.value.entry == 0 { return Refused(INVALID_TARGET_ENTRY); }
      return Admitted(target.value, e.value.entry);
    }

    method ActCall(a: Action)
      requires Valid()
      modifies registry.table, caps, caps.entries, caps.freeSlots
      ensures Valid() && View() == Act(old(View()), a)
    {
      match a
      case CreateCap(g) => var h := caps.CreateCall(g);
      case RevokeCap(h) => var ok := caps.RevokeCall(h);
      case AddService(d) => var ok := registry.RegisterCall(d);
      case DropService(id) => var ok := registry.UnregisterCall(id);
      case AddOperation(id, op, e) => var ok := registry.RegisterOperationCall(id, op, e);
      case DropOperation(id, op) => var ok := registry.UnregisterOperationCall(id, op);
    }

    /** A gate of any path around whatever its entry does. */
    method GateCall(p: Path, m: Message, callee: Body) returns (status: nat)
      requires Valid()
      modifies this, registry.table, caps, caps.entries, caps.freeSlots
      ensures Valid()
      ensures forall chain :: var g := Gate(old(View()), p, m, callee, chain, None); View() == g.k && status == g.status
      ensures service == old(service) && domain == old(domain)
      decreases callee, 1
    {
      var v := ValidateCall(p, m);
      if v.Refused? {
        return v.status;
      }
      ghost var k := View();
      var previousService, previousDomain := Enter(v.target.id, v.target.domain);
      ghost var entered := View();
      status := ExecCall(callee);
      ghost var left := View();
      Leave(previousService, previousDomain);
      forall chain: seq<nat> ensures var g := Gate(k, p, m, callee, chain, None); View() == g.k && status == g.status {
        var r := Exec(entered, callee, chain + [v.target.id], None);
        assert left == r.k && status == r.status;
      }
    }

    method ExecCall(b: Body) returns (status: nat)
      requires Valid()
      modifies this, registry.table, caps, caps.entries, caps.freeSlots
      ensures Valid()
      ensures forall chain :: var r := Exec(old(View()), b, chain, None); View() == r.k && status == r.status
      decreases b, 0
    {
      match b
      case Done(st) => status := st;
      case Do(a, rest) =>
        ActCall(a);
        status := ExecCall(rest);
      case Compute(_, rest) =>
        status := ExecCall(rest);
      case Call(p, m, callee, rest) =>
        ghost var k := View();
        var result := GateCall(p, m, callee);
        ghost var mid := View();
        status := ExecCall(rest);
        forall chain: seq<nat> ensures var r := Exec(k, b, chain, None); View() == r.k && status == r.status {
          assert mid == Gate(k, p, m, callee, chain, None).k;
          assert View() == Exec(mid, rest, chain, None).k;
        }
    }
  }
}
