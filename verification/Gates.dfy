/**
 The three mediated call paths: same-layer, cross-layer and elevator.  A service
 body is a tree of kernel actions and nested calls, so a theorem over all bodies
 covers every depth and every mix of paths.
 */
module Gates {
  import opened Words
  import opened Status
  import opened Tasks
  import opened Capabilities
  import opened Registry

  datatype Message = Message(target: u32, operation: u32, resource: u32, capability: u32)

  datatype Path = SameLayer | CrossLayer | Elevator

  /** Registry, capabilities, and who is executing where. */
  datatype Kernel = Kernel(services: ServiceTable, caps: CapTable, service: nat, domain: nat)

  datatype Verdict = Refused(status: nat) | Admitted(target: Descriptor, entry: nat)

  // ----- validation, check by check -----

  /** lettuce_same_layer_validate and the null-entry test of its gate. */
  function ValidateSameLayer(k: Kernel, m: Message): Verdict {
    if k.service == 0 then Refused(INVALID_SERVICE)
    else
      match Lookup(k.services, k.service)
      case None => Refused(INVALID_SERVICE)
      case Some(caller) =>
        if !IsActive(caller) then Refused(INACTIVE_SERVICE)
        else if m.target == 0 then Refused(INVALID_SERVICE)
        else
          match Lookup(k.services, m.target)
          case None => Refused(INVALID_SERVICE)
          case Some(target) =>
            if !IsActive(target) then Refused(INACTIVE_SERVICE)
            else if caller.layer != target.layer then Refused(DIFFERENT_LAYER)
            else if m.operation == 0 then Refused(INVALID_OPERATION)
            else if m.resource == 0 then Refused(INVALID_RESOURCE)
            else if m.capability == 0 then Refused(CAPABILITY_DENIED)
            else if !Check(k.caps, k.service, m.capability, m.target, m.operation, CALL, m.resource)
            then Refused(CAPABILITY_DENIED)
            else
              match Registry.Dispatch(k.services, m.target, m.operation)
              case None => Refused(INVALID_OPERATION)
              case Some(e) => if e.entry == 0 then Refused(INVALID_TARGET_ENTRY) else Admitted(target, e.entry)
  }

  /** lettuce_cross_layer_validate. */
  function ValidateCrossLayer(k: Kernel, m: Message): Verdict {
    match Lookup(k.services, k.service)
    case None => Refused(INVALID_SERVICE)
    case Some(caller) =>
      if !IsActive(caller) then Refused(INACTIVE_SERVICE)
      else
        match Lookup(k.services, m.target)
        case None => Refused(INVALID_SERVICE)
        case Some(target) =>
          if !IsActive(target) then Refused(INACTIVE_SERVICE)
          else if caller.layer == target.layer then Refused(INVALID_STATE)
          else if m.operation == 0 then Refused(INVALID_OPERATION)
          else if m.resource == 0 then Refused(INVALID_RESOURCE)
          else if !Check(k.caps, k.service, m.capability, m.target, m.operation, CALL, m.resource)
          then Refused(CAPABILITY_DENIED)
          else ResolveEntry(k, m, target)
  }

  /** lettuce_elevator_policy. */
  function ValidateElevator(k: Kernel, m: Message): Verdict {
    var caller, target := Lookup(k.services, k.service), Lookup(k.services, m.target);
    if caller.None? || target.None? then Refused(INVALID_SERVICE)
    else if !IsActive(caller.value) || !IsActive(target.value) then Refused(INACTIVE_SERVICE)
    else if m.operation == 0 then Refused(INVALID_OPERATION)
    else if m.resource == 0 then Refused(INVALID_RESOURCE)
    else if !Check(k.caps, k.service, m.capability, m.target, m.operation, CALL + CRITICAL, m.resource)
    then Refused(CAPABILITY_DENIED)
    else ResolveEntry(k, m, target.value)
  }

  function ResolveEntry(k: Kernel, m: Message, target: Descriptor): Verdict {
    match Registry.Dispatch(k.services, m.target, m.operation)
    case None => Refused(INVALID_TARGET_ENTRY)
    case Some(e) => if e.entry == 0 then Refused(INVALID_TARGET_ENTRY) else Admitted(target, e.entry)
  }

  function Validate(k: Kernel, p: Path, m: Message): Verdict {
    match p
    case SameLayer => ValidateSameLayer(k, m)
    case CrossLayer => ValidateCrossLayer(k, m)
    case Elevator => ValidateElevator(k, m)
  }

  // ----- what a call must have to be let through -----

  /** Permission bit 0 is CALL and bit 5 is CRITICAL. */
  function Required(p: Path): Mask {
    if p == Elevator then {0, 5} else {0}
  }

  /** Flag bit 0 marks a service as active. */
  predicate Flagged(d: Descriptor) {
    0 in d.flags
  }

  predicate LayersAgree(p: Path, caller: Descriptor, target: Descriptor) {
    match p
    case SameLayer => caller.layer == target.layer
    case CrossLayer => caller.layer != target.layer
    case Elevator => true
  }

  /** The executing service holds a live grant for exactly this target, operation and resource. */
  ghost predicate Holds(k: Kernel, p: Path, m: Message) {
    && m.capability in Grants(k.caps)
    && var g := Grants(k.caps)[m.capability];
       g == Grant(k.service, m.target, m.operation, m.resource, g.permissions) && Required(p) <= g.permissions
  }

  ghost predicate Authorised(k: Kernel, p: Path, m: Message, target: Descriptor, entry: nat) {
    var caller := Lookup(k.services, k.service);
    && caller.Some? && Flagged(caller.value)
    && Lookup(k.services, m.target) == Some(target) && Flagged(target) && target.id == m.target
    && LayersAgree(p, caller.value, target)
    && m.operation != 0 && m.resource != 0
    && Holds(k, p, m)
    && Registry.Dispatch(k.services, m.target, m.operation) == Some(Entry(entry, true)) && entry != 0
  }

  /** Validation admits a call exactly when it is authorised, to exactly the authorised entry. */
  lemma AdmittedIffAuthorised(k: Kernel, p: Path, m: Message, target: Descriptor, entry: nat)
    ensures Validate(k, p, m) == Admitted(target, entry) <==> Authorised(k, p, m, target, entry)
  {
  }

  /** Both parties are registered, active, and on layers the path allows. */
  ghost predicate PartiesFit(k: Kernel, p: Path, m: Message) {
    var caller, target := Lookup(k.services, k.service), Lookup(k.services, m.target);
    && caller.Some? && target.Some? && Flagged(caller.value) && Flagged(target.value)
    && LayersAgree(p, caller.value, target.value)
  }

  /**
   Each status is given exactly under its own condition.  The elevator looks both
   parties up before it asks whether they are active; the other paths finish with
   the caller first.  Only the same-layer path answers a missing operation as invalid.
   */
  lemma RefusalExactly(k: Kernel, p: Path, m: Message)
    ensures var st := if Validate(k, p, m).Refused? then Validate(k, p, m).status else OK;
      var caller, target := Lookup(k.services, k.service), Lookup(k.services, m.target);
      var entry := Registry.Dispatch(k.services, m.target, m.operation);
      var both := caller.Some? && target.Some?;
      var active := both && Flagged(caller.value) && Flagged(target.value);
      var asked := PartiesFit(k, p, m) && m.operation != 0 && m.resource != 0;
      && (st == INVALID_SERVICE <==>
            caller.None? || (target.None? && (p == Elevator || Flagged(caller.value))))
      && (st == INACTIVE_SERVICE <==>
            if p == Elevator then both && !active
            else caller.Some? && (!Flagged(caller.value) || (target.Some? && !Flagged(target.value))))
      && (st == DIFFERENT_LAYER <==> p == SameLayer && active && caller.value.layer != target.value.layer)
      && (st == INVALID_STATE <==> p == CrossLayer && active && caller.value.layer == target.value.layer)
      && (st == INVALID_RESOURCE <==> PartiesFit(k, p, m) && m.operation != 0 && m.resource == 0)
      && (st == CAPABILITY_DENIED <==> asked && !Holds(k, p, m))
      && (st == INVALID_OPERATION <==>
            (PartiesFit(k, p, m) && m.operation == 0) || (asked && Holds(k, p, m) && p == SameLayer && entry.None?))
      && (st == INVALID_TARGET_ENTRY <==>
            asked && Holds(k, p, m) && if entry.None? then p != SameLayer else entry.value.entry == 0)
      && (st == OK <==> asked && Holds(k, p, m) && entry.Some? && entry.value.entry != 0)
      && st in {OK, INVALID_SERVICE, INACTIVE_SERVICE, DIFFERENT_LAYER, INVALID_STATE, INVALID_RESOURCE,
                CAPABILITY_DENIED, INVALID_OPERATION, INVALID_TARGET_ENTRY}
  {
    HoldsIsCheck(k, p, m);
  }

  /** The check each path makes of the caller's capability. */
  lemma HoldsIsCheck(k: Kernel, p: Path, m: Message)
    ensures k.service != 0 ==>
      (Holds(k, p, m) <==> Check(k.caps, k.service, m.capability, m.target, m.operation,
                                 if p == Elevator then CALL + CRITICAL else CALL, m.resource))
    ensures k.service == 0 ==> Lookup(k.services, k.service).None?
    ensures m.capability == 0 ==> !Holds(k, p, m)
  {
    CheckRefines(k.caps, k.service, m.capability, m.target, m.operation,
                 if p == Elevator then CALL + CRITICAL else CALL, m.resource);
  }

  // ----- bodies and calls -----

  datatype Action =
    | CreateCap(grant: Grant)
    | RevokeCap(handle: u32)
    | AddService(desc: Descriptor)
    | DropService(id: nat)
    | AddOperation(id: nat, op: nat, entry: nat)
    | DropOperation(id: nat, op: nat)

  function Act(k: Kernel, a: Action): Kernel {
    match a
    case CreateCap(g) => k.(caps := Capabilities.Create(k.caps, g).0)
    case RevokeCap(h) => k.(caps := Revoke(k.caps, h).0)
    case AddService(d) => k.(services := Register(k.services, d).0)
    case DropService(id) => k.(services := Unregister(k.services, id).0)
    case AddOperation(id, op, e) => k.(services := RegisterOperation(k.services, id, op, e).0)
    case DropOperation(id, op) => k.(services := UnregisterOperation(k.services, id, op).0)
  }

  /** Removing a service and registering another under its id. */
  function Replaced(k: Kernel, d: Descriptor): Kernel {
    Act(Act(k, DropService(d.id)), AddService(d))
  }

  /**
   Removal revokes nothing: every grant outlives its owner and its target, so a
   service registered under a reused id makes the calls its predecessor was
   granted, as soon as it is active and on a fitting layer.
   */
  lemma GrantsOutliveServices(k: Kernel, d: Descriptor, p: Path, m: Message, target: Descriptor, entry: nat)
    requires RegistryOk(k.services) && InRange(d.id) && d.layer <= TOP_LAYER
    ensures var r := Replaced(k, d);
      && Grants(r.caps) == Grants(k.caps) && (Holds(r, p, m) <==> Holds(k, p, m)) && Lookup(r.services, d.id) == Some(d)
      && (k.service == d.id != m.target && Authorised(k, p, m, target, entry) ==>
            (Authorised(r, p, m, target, entry) <==> Flagged(d) && LayersAgree(p, d, target)))
  {
    var mid := Act(k, DropService(d.id));
    forall id: nat, op: nat | id != d.id
      ensures Lookup(Replaced(k, d).services, id) == Lookup(k.services, id)
      ensures Registry.Dispatch(Replaced(k, d).services, id, op) == Registry.Dispatch(k.services, id, op)
    {
      UnregisterExact(k.services, d.id, id, op);
      RegisterExact(mid.services, d, id, op);
    }
    UnregisterExact(k.services, d.id, d.id, 1);
    RegisterExact(mid.services, d, d.id, 1);
  }

  /** What an entry does when it runs: actions, user computation, nested calls, and a status. */
  datatype Body =
    | Done(status: u32)
    | Do(action: Action, rest: Body)
    | Compute(frame: TrapFrame, rest: Body)
    | Call(path: Path, msg: Message, callee: Body, rest: Body)

  /** An entry that ran: the kernel as its check saw it, and the services whose calls enclose it. */
  datatype Event = Ran(path: Path, before: Kernel, msg: Message, target: Descriptor, entry: nat, chain: seq<nat>)

  datatype Outcome = Outcome(k: Kernel, status: nat, trace: seq<Event>)

  /** lettuce_context_enter; protection.c ignores the invalid domain. */
  function EnterContext(k: Kernel, service: nat, domain: nat): Kernel {
    k.(service := service, domain := if domain != 0 then domain else k.domain)
  }

  /** lettuce_context_leave. */
  function LeaveContext(k: Kernel, service: nat, domain: nat): Kernel {
    k.(domain := domain, service := service)
  }

  /** room bounds the further nested calls: None for the portable gates, the free continuation frames on ARM64. */
  function Gate(k: Kernel, p: Path, m: Message, callee: Body, chain: seq<nat>, room: Option<nat>): Outcome
    decreases callee, 1
  {
    match Validate(k, p, m)
    case Refused(st) => Outcome(k, st, [])
    case Admitted(target, entry) =>
      if room == Some(0) then Outcome(k, OVERFLOW, [])
      else
        var r := Exec(EnterContext(k, target.id, target.domain), callee, chain + [target.id],
                      if room.Some? then Some(room.value - 1) else None);
        Outcome(LeaveContext(r.k, k.service, k.domain), r.status, [Ran(p, k, m, target, entry, chain)] + r.trace)
  }

  function Exec(k: Kernel, b: Body, chain: seq<nat>, room: Option<nat>): Outcome
    decreases b, 0
  {
    match b
    case Done(st) => Outcome(k, st, [])
    case Do(a, rest) => Exec(Act(k, a), rest, chain, room)
    case Compute(_, rest) => Exec(k, rest, chain, room)
    case Call(p, m, callee, rest) =>
      var g := Gate(k, p, m, callee, chain, room);
      var r := Exec(g.k, rest, chain, room);
      Outcome(r.k, r.status, g.trace + r.trace)
  }

  /** Every gate and every body hands back the caller's service id and domain. */
  lemma {:induction false} ContextRestored(k: Kernel, b: Body, chain: seq<nat>, room: Option<nat>)
    ensures Exec(k, b, chain, room).k.service == k.service && Exec(k, b, chain, room).k.domain == k.domain
    decreases b
  {
    match b
    case Done(_) =>
    case Do(a, rest) => ContextRestored(Act(k, a), rest, chain, room);
    case Compute(_, rest) => ContextRestored(k, rest, chain, room);
    case Call(p, m, callee, rest) =>
      GateRestores(k, p, m, callee, chain, room);
      ContextRestored(Gate(k, p, m, callee, chain, room).k, rest, chain, room);
  }

  lemma GateRestores(k: Kernel, p: Path, m: Message, callee: Body, chain: seq<nat>, room: Option<nat>)
    ensures var r := Gate(k, p, m, callee, chain, room).k; r.service == k.service && r.domain == k.domain
  {
  }

  ghost predicate TablesOk(k: Kernel) {
    TableOk(k.caps) && RegistryOk(k.services)
  }

  lemma ActKeepsTables(k: Kernel, a: Action)
    requires TablesOk(k)
    ensures TablesOk(Act(k, a))
  {
    match a
    case CreateCap(g) => CreateKeeps(k.caps, g);
    case RevokeCap(h) => RevokeKeeps(k.caps, h);
    case AddService(d) => RegisterExact(k.services, d, 0, 0);
    case DropService(id) => UnregisterExact(k.services, id, 0, 0);
    case AddOperation(id, op, e) => OperationsExact(k.services, id, op, e, 0, 0);
    case DropOperation(id, op) => OperationsExact(k.services, id, op, 0, 0, 0);
  }

  /** No call tree breaks the registry or the capability table, whatever it changes on the way. */
  lemma {:induction false} TablesKept(k: Kernel, b: Body, chain: seq<nat>, room: Option<nat>)
    requires TablesOk(k)
    ensures TablesOk(Exec(k, b, chain, room).k)
    decreases b, 0
  {
    match b
    case Done(_) =>
    case Do(a, rest) =>
      ActKeepsTables(k, a);
      TablesKept(Act(k, a), rest, chain, room);
    case Compute(_, rest) => TablesKept(k, rest, chain, room);
    case Call(p, m, callee, rest) =>
      GateKeepsTables(k, p, m, callee, chain, room);
      TablesKept(Gate(k, p, m, callee, chain, room).k, rest, chain, room);
  }

  lemma {:induction false} GateKeepsTables(
    k: Kernel, p: Path, m: Message, callee: Body, chain: seq<nat>, room: Option<nat>)
    requires TablesOk(k)
    ensures TablesOk(Gate(k, p, m, callee, chain, room).k)
    decreases callee, 1
  {
    var v := Validate(k, p, m);
    if v.Admitted? && room != Some(0) {
      TablesKept(EnterContext(k, v.target.id, v.target.domain), callee, chain + [v.target.id],
                 if room.Some? then Some(room.value - 1) else None);
    }
  }

  /** An entry was authorised by the tables as they stood at its check, for its direct caller. */
  ghost predicate Justified(e: Event) {
    && Authorised(e.before, e.path, e.msg, e.target, e.entry)
    && |e.chain| > 0 && e.before.service == e.chain[|e.chain| - 1]
  }

  /**
   Mediation.  Over every call tree, whatever its bodies create, revoke, register
   or unregister, each entry that ran was authorised at its check, and the
   service charged with the call is the target of the enclosing one.
   */
  lemma {:induction false} EveryEntryJustified(k: Kernel, b: Body, chain: seq<nat>, room: Option<nat>)
    requires |chain| > 0 && k.service == chain[|chain| - 1]
    ensures forall i :: 0 <= i < |Exec(k, b, chain, room).trace| ==> Justified(Exec(k, b, chain, room).trace[i])
    decreases b, 0
  {
    match b
    case Done(_) =>
    case Do(a, rest) => EveryEntryJustified(Act(k, a), rest, chain, room);
    case Compute(_, rest) => EveryEntryJustified(k, rest, chain, room);
    case Call(p, m, callee, rest) =>
      var g := Gate(k, p, m, callee, chain, room);
      GateJustified(k, p, m, callee, chain, room);
      GateRestores(k, p, m, callee, chain, room);
      EveryEntryJustified(g.k, rest, chain, room);
  }

  lemma {:induction false} GateJustified(
    k: Kernel, p: Path, m: Message, callee: Body, chain: seq<nat>, room: Option<nat>)
    requires |chain| > 0 && k.service == chain[|chain| - 1]
    ensures var g := Gate(k, p, m, callee, chain, room);
      forall i :: 0 <= i < |g.trace| ==> Justified(g.trace[i])
    decreases callee, 1
  {
    var v := Validate(k, p, m);
    if v.Admitted? && room != Some(0) {
      AdmittedIffAuthorised(k, p, m, v.target, v.entry);
      var inner := chain + [v.target.id];
      var left := if room.Some? then Some(room.value - 1) else None;
      EveryEntryJustified(EnterContext(k, v.target.id, v.target.domain), callee, inner, left);
    }
  }

  /** A refused call changes nothing and runs nothing. */
  lemma RefusalIsInert(k: Kernel, p: Path, m: Message, callee: Body, chain: seq<nat>, room: Option<nat>)
    ensures (forall t, e :: !Authorised(k, p, m, t, e)) <==> Validate(k, p, m).Refused?
    ensures Validate(k, p, m).Refused? ==>
      Gate(k, p, m, callee, chain, room) == Outcome(k, Validate(k, p, m).status, []) && Validate(k, p, m).status != OK
  {
    var v := Validate(k, p, m);
    if v.Admitted? {
      AdmittedIffAuthorised(k, p, m, v.target, v.entry);
    } else {
      forall t, e ensures !Authorised(k, p, m, t, e) {
        AdmittedIffAuthorised(k, p, m, t, e);
      }
    }
  }

  /** The deepest chain a trace records is what a bounded continuation stack must hold. */
  ghost predicate WithinDepth(trace: seq<Event>, depth: nat) {
    forall i :: 0 <= i < |trace| ==> |trace[i].chain| < depth
  }

  /** A bounded stack behaves like an unbounded one on every call tree that fits it. */
  lemma {:induction false} RoomSuffices(k: Kernel, b: Body, chain: seq<nat>, n: nat)
    requires WithinDepth(Exec(k, b, chain, None).trace, |chain| + n)
    ensures Exec(k, b, chain, Some(n)) == Exec(k, b, chain, None)
    decreases b, 0
  {
    match b
    case Done(_) =>
    case Do(a, rest) => RoomSuffices(Act(k, a), rest, chain, n);
    case Compute(_, rest) => RoomSuffices(k, rest, chain, n);
    case Call(p, m, callee, rest) =>
      var g := Gate(k, p, m, callee, chain, None);
      var t := Exec(k, b, chain, None).trace;
      var r := Exec(g.k, rest, chain, None);
      assert t == g.trace + r.trace;
      assert WithinDepth(g.trace, |chain| + n) by {
        forall i | 0 <= i < |g.trace| ensures |g.trace[i].chain| < |chain| + n { assert t[i] == g.trace[i]; }
      }
      assert WithinDepth(r.trace, |chain| + n) by {
        forall i | 0 <= i < |r.trace| ensures |r.trace[i].chain| < |chain| + n {
          assert t[|g.trace| + i] == r.trace[i]; }
      }
      GateRoomSuffices(k, p, m, callee, chain, n);
      RoomSuffices(g.k, rest, chain, n);
  }

  lemma {:induction false} GateRoomSuffices(k: Kernel, p: Path, m: Message, callee: Body, chain: seq<nat>, n: nat)
    requires WithinDepth(Gate(k, p, m, callee, chain, None).trace, |chain| + n)
    ensures Gate(k, p, m, callee, chain, Some(n)) == Gate(k, p, m, callee, chain, None)
    decreases callee, 1
  {
    var v := Validate(k, p, m);
    if v.Admitted? {
      var g := Gate(k, p, m, callee, chain, None);
      var e := EnterContext(k, v.target.id, v.target.domain);
      var r := Exec(e, callee, chain + [v.target.id], None);
      assert g.trace[0].chain == chain && n > 0;
      assert WithinDepth(r.trace, |chain| + 1 + (n - 1)) by {
        forall i | 0 <= i < |r.trace| ensures |r.trace[i].chain| < |chain| + n { assert g.trace[i + 1] == r.trace[i]; }
      }
      RoomSuffices(e, callee, chain + [v.target.id], n - 1);
    }
  }
}
