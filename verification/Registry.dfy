/** The service registry of kernel/main/kernel.c and the dispatch table of kernel/main/dispatch.c. */
module Registry {
  import opened Words
  import opened Capabilities

  const SERVICES: nat := 256
  const OPERATIONS: nat := 64
  const TOP_LAYER: nat := 4
  /** LETTUCE_SERVICE_FLAG_ACTIVE, as a bit position. */
  const ACTIVE: nat := 0

  datatype Descriptor = Descriptor(id: nat, layer: nat, domain: nat, flags: Mask)
  /** A dispatch entry; entry 0 is the null pointer. */
  datatype Entry = Entry(entry: nat, active: bool)

  type Operations = s: seq<Entry> | |s| == 64 witness seq(64, i => Entry(0, false))
  datatype Service = Service(desc: Descriptor, ops: Operations)

  function NoOperations(): Operations {
    seq(64, i => Entry(0, false))
  }

  function Vacant(): Service {
    Service(Descriptor(0, 0, 0, {}), NoOperations())
  }

  type ServiceTable = s: seq<Service> | |s| == 256 witness seq(256, i => Vacant())

  predicate InRange(id: nat) {
    id != 0 && id < SERVICES
  }

  predicate IsActive(d: Descriptor) {
    ACTIVE in d.flags
  }

  /** lettuce_service_registry_lookup. */
  function Lookup(ts: ServiceTable, id: nat): Option<Descriptor> {
    if InRange(id) && ts[id].desc.id == id then Some(ts[id].desc) else None
  }

  function Register(ts: ServiceTable, d: Descriptor): (ServiceTable, bool) {
    if !InRange(d.id) || d.layer > TOP_LAYER || ts[d.id].desc.id != 0 then (ts, false)
    else (ts[d.id := ts[d.id].(desc := d)], true)
  }

  function Unregister(ts: ServiceTable, id: nat): (ServiceTable, bool) {
    if !InRange(id) || ts[id].desc.id == 0 then (ts, false)
    else (ts[id := Vacant()], true)
  }

  predicate OperationInRange(op: nat) {
    op != 0 && op < OPERATIONS
  }

  function RegisterOperation(ts: ServiceTable, id: nat, op: nat, entry: nat): (ServiceTable, bool) {
    if id == 0 || !OperationInRange(op) || entry == 0 then (ts, false)
    else if Lookup(ts, id).None? || !IsActive(ts[id].desc) || ts[id].ops[op].active then (ts, false)
    else (ts[id := ts[id].(ops := ts[id].ops[op := Entry(entry, true)])], true)
  }

  function UnregisterOperation(ts: ServiceTable, id: nat, op: nat): (ServiceTable, bool) {
    if !OperationInRange(op) || Lookup(ts, id).None? || !ts[id].ops[op].active then (ts, false)
    else (ts[id := ts[id].(ops := ts[id].ops[op := Entry(0, false)])], true)
  }

  /** lettuce_dispatch_lookup. */
  function Dispatch(ts: ServiceTable, id: nat, op: nat): Option<Entry> {
    if !OperationInRange(op) || Lookup(ts, id).None? || !ts[id].ops[op].active then None
    else Some(ts[id].ops[op])
  }

  /** Records sit in their own slots, vacant records dispatch nothing, and live entries are never null. */
  predicate RegistryOk(ts: ServiceTable) {
    forall i :: 0 <= i < SERVICES ==>
      && (ts[i].desc.id == 0 || ts[i].desc.id == i)
      && forall op :: 0 <= op < OPERATIONS && ts[i].ops[op].active ==> ts[i].desc.id != 0 && ts[i].ops[op].entry != 0
  }

  /** Registering makes exactly one service visible, with no operation left over from an earlier tenant. */
  lemma RegisterExact(ts: ServiceTable, d: Descriptor, id: nat, op: nat)
    requires RegistryOk(ts)
    ensures var (us, ok) := Register(ts, d);
      && RegistryOk(us)
      && (ok <==> 0 < d.id < 256 && d.layer <= 4 && Lookup(ts, d.id).None?)
      && Lookup(us, id) == (if ok && id == d.id then Some(d) else Lookup(ts, id))
      && (ok && id == d.id ==> Dispatch(us, id, op).None?)
      && (id != d.id ==> Dispatch(us, id, op) == Dispatch(ts, id, op))
  {
  }

  /** Unregistering removes the service and all its operations and nothing else. */
  lemma UnregisterExact(ts: ServiceTable, gone: nat, id: nat, op: nat)
    requires RegistryOk(ts)
    ensures var (us, ok) := Unregister(ts, gone);
      && RegistryOk(us)
      && (ok <==> Lookup(ts, gone).Some?)
      && Lookup(us, id) == (if id == gone then None else Lookup(ts, id))
      && Dispatch(us, id, op) == (if id == gone then None else Dispatch(ts, id, op))
  {
  }

  /** Operation registration and removal change one dispatch entry of one registered service. */
  lemma OperationsExact(ts: ServiceTable, svc: nat, o: nat, entry: nat, id: nat, op: nat)
    requires RegistryOk(ts)
    ensures var (us, ok) := RegisterOperation(ts, svc, o, entry);
      && RegistryOk(us) && Lookup(us, id) == Lookup(ts, id)
      && (ok <==> 0 < o < 64 && entry != 0 && Lookup(ts, svc).Some? && 0 in Lookup(ts, svc).value.flags
                  && Dispatch(ts, svc, o).None?)
      && Dispatch(us, id, op) == (if ok && (id, op) == (svc, o) then Some(Entry(entry, true)) else Dispatch(ts, id, op))
    ensures var (us, ok) := UnregisterOperation(ts, svc, o);
      && RegistryOk(us) && Lookup(us, id) == Lookup(ts, id)
      && (ok <==> Dispatch(ts, svc, o).Some?)
      && Dispatch(us, id, op) == (if (id, op) == (svc, o) then None else Dispatch(ts, id, op))
  {
  }

  class ServiceRegistry {
    const table: array<Service>

    ghost predicate Valid() {
      table.Length == 256
    }

    ghost function View(): ServiceTable
      requires Valid()
      reads table
    {
      table[..]
    }

    /** lettuce_service_registry_init. */
    constructor ()
      ensures Valid() && fresh(table) && RegistryOk(View())
      ensures forall i :: 0 <= i < SERVICES ==> table[i] == Vacant()
    {
      table := new Service[256](i => Vacant());
    }

    method LookupCall(id: nat) returns (r: Option<Descriptor>)
      requires Valid()
      ensures r == Lookup(View(), id)
    {
      if id == 0 || id >= SERVICES {
        return None;
      }
      return if table[id].desc.id == id then Some(table[id].desc) else None;
    }

    method RegisterCall(d: Descriptor) returns (ok: bool)
      requires Valid()
      modifies table
      ensures (View(), ok) == Register(old(View()), d)
    {
      if d.id == 0 || d.id >= SERVICES || d.layer > TOP_LAYER {
        return false;
      }
      if table[d.id].desc.id != 0 {
        return false;
      }
      table[d.id] := table[d.id].(desc := d);
      return true;
    }

    method UnregisterCall(id: nat) returns (ok: bool)
      requires Valid()
      modifies table
      ensures (View(), ok) == Unregister(old(View()), id)
    {
      if id == 0 || id >= SERVICES || table[id].desc.id == 0 {
        return false;
      }
      ghost var ts := View();
      table[id] := table[id].(desc := Descriptor(0, 0, 0, {}));
      var ops: seq<Entry> := table[id].ops;
      for op := 0 to OPERATIONS
        invariant |ops| == 64
        invariant forall k :: 0 <= k < op ==> ops[k] == Entry(0, false)
      {
        ops := ops[op := Entry(0, false)];
      }
      assert ops == NoOperations();
      table[id] := table[id].(ops := ops);
      assert View() == ts[id := Vacant()];
      return true;
    }

    method DispatchCall(id: nat, op: nat) returns (r: Option<Entry>)
      requires Valid()
      ensures r == Dispatch(View(), id, op)
    {
      if op == 0 || op >= OPERATIONS {
        return None;
      }
      var d := LookupCall(id);
      if d.None? || !table[id].ops[op].active {
        return None;
      }
      return Some(table[id].ops[op]);
    }

    method RegisterOperationCall(id: nat, op: nat, entry: nat) returns (ok: bool)
      requires Valid()
      modifies table
      ensures (View(), ok) == RegisterOperation(old(View()), id, op, entry)
    {
      if id == 0 || op == 0 || op >= OPERATIONS || entry == 0 {
        return false;
      }
      var d := LookupCall(id);
      if d.None? || !IsActive(table[id].desc) || table[id].ops[op].active {
        return false;
      }
      table[id] := table[id].(ops := table[id].ops[op := Entry(entry, true)]);
      return true;
    }

    method UnregisterOperationCall(id: nat, op: nat) returns (ok: bool)
      requires Valid()
      modifies table
      ensures (View(), ok) == UnregisterOperation(old(View()), id, op)
    {
      if op == 0 || op >= OPERATIONS {
        return false;
      }
      var d := LookupCall(id);
      if d.None? || !table[id].ops[op].active {
        return false;
      }
      table[id] := table[id].(ops := table[id].ops[op := Entry(0, false)]);
      return true;
    }
  }
}
