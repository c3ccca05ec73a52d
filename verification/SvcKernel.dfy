/** The SVC handler as cpu.c keeps it: an array of eight continuation frames, a depth, and the trap frame in place. */
module SvcKernel {
  import opened Status
  import opened Tasks
  import opened Registry
  import opened Gates
  import opened Svc

  class Handler {
    const config: Config
    const contexts: array<Saved>
    var depth: nat
    var k: Kernel
    var ttbr: nat
    var frame: TrapFrame

    ghost predicate Valid()
      reads this
    {
      contexts.Length == 8 && depth <= 8
    }

    ghost function View(): Machine
      requires Valid()
      reads this, contexts
    {
      Machine(k, ttbr, frame, contexts[..depth])
    }

    /** The state after lettuce_mmu_init: domain A installed, no continuation stacked. */
    constructor (config: Config, k: Kernel, frame: TrapFrame)
      requires k.domain == DOMAIN_A && ServicesBuiltIn(k.services)
      ensures Valid() && this.config == config && fresh(contexts)
      ensures this.k == k && this.frame == frame && MachineOk(config, View())
    {
      this.config := config;
      contexts := new Saved[8](i => Saved(0, 0, 0, 0, 0));
      depth, ttbr := 0, Root(config, DOMAIN_A);
      this.k, this.frame := k, frame;
    }

    /** lettuce_arch_context_push. */
    method PushContext() returns (ok: bool)
      requires Valid()
      modifies this`depth, contexts
      ensures Valid() && ok == (old(depth) < MAX_DEPTH)
      ensures View() == if ok then Push(config, old(View())) else old(View())
    {
      if depth >= MAX_DEPTH {
        return false;
      }
      var elr := if config.pac then config.sign(frame.elr, k.service) else frame.elr;
      contexts[depth] := Saved(k.service, k.domain, elr, frame.spsr, frame.spEl0);
      depth := depth + 1;
      return true;
    }

    /** lettuce_mmu_enter. */
    method EnterDomain(d: nat)
      requires Valid()
      modifies this`ttbr, this`k
      ensures View() == MmuEnter(config, old(View()), d)
    {
      if d == k.domain || d == 0 {
        return;
      }
      if BuiltIn(d) {
        ttbr := Root(config, d);
        k := k.(domain := d);
      }
    }

    /** lettuce_elevator_asm_transition, after the handler has recorded service and domain. */
    method ElevatorTransition(target: Descriptor, entry: nat)
      requires Valid()
      modifies this`ttbr, this`k, this`frame
      ensures View() == TransitionAsm(config, old(View()), target, entry)
    {
      k := k.(service := target.id);
      k := k.(domain := target.domain);
      ttbr := Root(config, target.domain);
      frame := frame.(elr := entry);
      frame := frame.(spsr := 0);
      frame := frame.(spEl0 := StackTop(target.domain));
    }

    method SvcCallHandler(p: Path)
      requires Valid()
      modifies this, contexts
      ensures Valid() && View() == SvcCall(config, old(View()), p)
    {
      var v := Validate(k, p, Request(frame));
      if v.Refused? {
        frame := SetX(frame, 0, v.status);
        return;
      }
      var pushed := PushContext();
      if !pushed {
        frame := SetX(frame, 0, OVERFLOW);
        return;
      }
      if p == Elevator && config.useAsm {
        ElevatorTransition(v.target, v.entry);
        return;
      }
      EnterDomain(v.target.domain);
      k := k.(service := v.target.id);
      frame := frame.(elr := v.entry);
      frame := frame.(spEl0 := StackTop(v.target.domain));
      frame := frame.(spsr := 0);
    }

    method SvcReturnHandler()
      requires Valid()
      modifies this, contexts
      ensures Valid() && View() == SvcReturn(config, old(View()))
    {
      if depth == 0 {
        return;
      }
      ghost var m := View();
      depth := depth - 1;
      var caller := contexts[depth];
      assert View() == m.(stack := m.stack[..|m.stack| - 1]);
      var elr := if config.pac then config.auth(caller.elr, caller.service) else caller.elr;
      EnterDomain(caller.domain);
      k := k.(service := caller.service);
      var status := frame.x[0];
      frame := frame.(elr := elr, spsr := caller.spsr, spEl0 := caller.spEl0);
      frame := SetX(frame, 0, status);
      assert frame.x == m.frame.x;
    }
  }
}
