/**
 What the actions inside a call tree do to later calls: a revoked capability is
 never used again, a removed service or operation is never entered, and what is
 granted or registered can be called.
 */
module GateLaws {
  import opened Words
  import opened Status
  import opened Generations
  import opened Capabilities
  import opened Registry
  import opened Gates

  // ----- one action and the next call -----

  /** After a revocation no path admits a call with the revoked handle; every other grant stands. */
  lemma RevokedIsRefused(k: Kernel, h: u32, p: Path, m: Message)
    requires TablesOk(k)
    ensures var r := Act(k, RevokeCap(h));
      && r == k.(caps := r.caps) && Grants(r.caps) == Grants(k.caps) - {h}
      && (m.capability == h ==> Validate(r, p, m).Refused?)
      && (m.capability != h ==> Validate(r, p, m) == Validate(k, p, m))
  {
    var r := Act(k, RevokeCap(h));
    RevokeRefines(k.caps, h);
    RefusalExactly(r, p, m);
    if m.capability != h {
      HoldsIsCheck(k, p, m);
      HoldsIsCheck(r, p, m);
      assert Holds(r, p, m) <==> Holds(k, p, m);
      SameHoldsSameVerdict(k, r, p, m);
    }
  }

  lemma SameHoldsSameVerdict(k: Kernel, r: Kernel, p: Path, m: Message)
    requires r == k.(caps := r.caps) && (Holds(r, p, m) <==> Holds(k, p, m))
    ensures Validate(r, p, m) == Validate(k, p, m)
  {
    HoldsIsCheck(k, p, m);
    HoldsIsCheck(r, p, m);
  }

  /** A legal grant, while the table has room, is held by its owner at once. */
  lemma GrantedIsHeld(k: Kernel, g: Grant, p: Path) returns (h: u32)
    requires TablesOk(k) && Grantable(g) && |Grants(k.caps)| < 4096
    ensures var r := Act(k, CreateCap(g));
      && r == k.(caps := r.caps) && h !in Grants(k.caps) && Grants(r.caps) == Grants(k.caps)[h := g]
      && (k.service == g.owner && g.target < TWO32 && g.operation < TWO32 && g.resource < TWO32 ==>
            (Holds(r, p, Message(g.target, g.operation, g.resource, h)) <==> Required(p) <= g.permissions))
  {
    CreateRefines(k.caps, g);
    h := Capabilities.Create(k.caps, g).1;
  }

  /** A removed operation is never entered; a registered one is, by whoever may call it. */
  lemma OperationsDecideEntry(k: Kernel, id: nat, op: nat, entry: nat, p: Path, m: Message)
    requires TablesOk(k)
    ensures var r := Act(k, DropOperation(id, op));
      r == k.(services := r.services) && ((m.target, m.operation) == (id, op) ==> Validate(r, p, m).Refused?)
    ensures var r := Act(k, AddOperation(id, op, entry));
      && r == k.(services := r.services)
      && ((m.target, m.operation) == (id, op) && PartiesFit(k, p, m) && 0 < op < 64 && entry != 0 && m.resource != 0
          && Registry.Dispatch(k.services, id, op).None? ==>
            if Holds(k, p, m) then Validate(r, p, m) == Admitted(Lookup(k.services, id).value, entry)
            else Validate(r, p, m) == Refused(CAPABILITY_DENIED))
  {
    OperationsExact(k.services, id, op, entry, m.target, m.operation);
    OperationsExact(k.services, id, op, entry, k.service, m.operation);
    RefusalExactly(Act(k, DropOperation(id, op)), p, m);
    var r := Act(k, AddOperation(id, op, entry));
    RefusalExactly(r, p, m);
    if Lookup(k.services, m.target).Some? {
      AdmittedIffAuthorised(r, p, m, Lookup(k.services, m.target).value, entry);
    }
  }

  /** A removed service neither calls nor is called; a registered one is found as it was described. */
  lemma ServicesDecideParties(k: Kernel, id: nat, d: Descriptor, p: Path, m: Message)
    requires TablesOk(k)
    ensures var r := Act(k, DropService(id));
      && r == k.(services := r.services)
      && (k.service == id || m.target == id ==> Validate(r, p, m).Refused?)
      && (k.service == id ==> Validate(r, p, m) == Refused(INVALID_SERVICE))
    ensures var r := Act(k, AddService(d));
      && r == k.(services := r.services)
      && (0 < d.id < 256 && d.layer <= 4 && Lookup(k.services, d.id).None? ==>
            Lookup(r.services, d.id) == Some(d) && (m.target == d.id ==> Validate(r, p, m).Refused?))
  {
    var u, v := Act(k, DropService(id)), Act(k, AddService(d));
    UnregisterExact(k.services, id, k.service, m.operation);
    UnregisterExact(k.services, id, m.target, m.operation);
    RefusalExactly(u, p, m);
    RegisterExact(k.services, d, m.target, m.operation);
    RegisterExact(k.services, d, d.id, m.operation);
    RefusalExactly(v, p, m);
  }

  // ----- what a body answers -----

  /** The status at the end of a body. */
  function Answer(b: Body): nat {
    match b
    case Done(st) => st
    case Do(_, rest) => Answer(rest)
    case Compute(_, rest) => Answer(rest)
    case Call(_, _, _, rest) => Answer(rest)
  }

  lemma {:induction false} BodyAnswers(k: Kernel, b: Body, chain: seq<nat>, room: Option<nat>)
    ensures Exec(k, b, chain, room).status == Answer(b)
    decreases b
  {
    match b
    case Done(_) =>
    case Do(a, rest) => BodyAnswers(Act(k, a), rest, chain, room);
    case Compute(_, rest) => BodyAnswers(k, rest, chain, room);
    case Call(p, m, callee, rest) => BodyAnswers(Gate(k, p, m, callee, chain, room).k, rest, chain, room);
  }

  /** A gate runs the callee exactly with authority and, if frames are bounded, room; then it answers its status. */
  lemma GateAnswers(k: Kernel, p: Path, m: Message, callee: Body, chain: seq<nat>, room: Option<nat>)
    ensures var g := Gate(k, p, m, callee, chain, room);
      && (g.trace != [] <==> (exists t, e :: Authorised(k, p, m, t, e)) && room != Some(0))
      && (g.trace != [] ==> g.status == Answer(callee) && g.trace[0].chain == chain && g.trace[0].msg == m)
      && (g.trace == [] && (exists t, e :: Authorised(k, p, m, t, e)) ==> g.status == 10)
  {
    RefusalIsInert(k, p, m, callee, chain, room);
    var v := Validate(k, p, m);
    if v.Admitted? && room != Some(0) {
      BodyAnswers(EnterContext(k, v.target.id, v.target.domain), callee, chain + [v.target.id],
                  if room.Some? then Some(room.value - 1) else None);
    }
  }

  /** Calls a body makes directly are made as its service and in its domain; deeper ones have longer chains. */
  ghost predicate DirectFrom(trace: seq<Event>, chain: seq<nat>, service: nat, domain: nat) {
    forall i :: 0 <= i < |trace| ==>
      && |trace[i].chain| >= |chain|
      && (trace[i].chain == chain ==> trace[i].before.service == service && trace[i].before.domain == domain)
  }

  lemma {:induction false} DirectCalls(k: Kernel, b: Body, chain: seq<nat>, room: Option<nat>)
    ensures DirectFrom(Exec(k, b, chain, room).trace, chain, k.service, k.domain)
    decreases b, 0
  {
    match b
    case Done(_) =>
    case Do(a, rest) => DirectCalls(Act(k, a), rest, chain, room);
    case Compute(_, rest) => DirectCalls(k, rest, chain, room);
    case Call(p, m, callee, rest) =>
      var g := Gate(k, p, m, callee, chain, room);
      GateDirectCalls(k, p, m, callee, chain, room);
      GateRestores(k, p, m, callee, chain, room);
      DirectCalls(g.k, rest, chain, room);
  }

  lemma {:induction false} GateDirectCalls(
    k: Kernel, p: Path, m: Message, callee: Body, chain: seq<nat>, room: Option<nat>)
    ensures DirectFrom(Gate(k, p, m, callee, chain, room).trace, chain, k.service, k.domain)
    decreases callee, 1
  {
    var v := Validate(k, p, m);
    if v.Admitted? && room != Some(0) {
      DirectCalls(EnterContext(k, v.target.id, v.target.domain), callee, chain + [v.target.id],
                  if room.Some? then Some(room.value - 1) else None);
    }
  }

  /** A callee makes its calls as the target service in the target's domain, or in its caller's if that one is null. */
  lemma CalleeContext(k: Kernel, p: Path, m: Message, callee: Body, chain: seq<nat>, room: Option<nat>, i: nat)
    requires Validate(k, p, m).Admitted? && i < |Gate(k, p, m, callee, chain, room).trace|
    ensures var t, e := Validate(k, p, m).target, Gate(k, p, m, callee, chain, room).trace[i];
      e.chain == chain + [t.id] ==>
        e.before.service == t.id && e.before.domain == if t.domain != 0 then t.domain else k.domain
  {
    var t := Validate(k, p, m).target;
    DirectCalls(EnterContext(k, t.id, t.domain), callee, chain + [t.id],
                if room.Some? && room.value > 0 then Some(room.value - 1) else None);
  }

  // ----- revoked capabilities over whole call trees -----

  predicate Revokes(k: Kernel, a: Action, slot: CapSlot) {
    a.RevokeCap? && Live(k.caps, a.handle) == Some(slot)
  }

  /** How often an execution revokes what a slot holds. */
  function Revocations(k: Kernel, b: Body, room: Option<nat>, slot: CapSlot): nat
    decreases b, 0
  {
    match b
    case Done(_) => 0
    case Do(a, rest) => (if Revokes(k, a, slot) then 1 else 0) + Revocations(Act(k, a), rest, room, slot)
    case Compute(_, rest) => Revocations(k, rest, room, slot)
    case Call(p, m, callee, rest) =>
      GateRevocations(k, p, m, callee, room, slot) + Revocations(Gate(k, p, m, callee, [], room).k, rest, room, slot)
  }

  function GateRevocations(k: Kernel, p: Path, m: Message, callee: Body, room: Option<nat>, slot: CapSlot): nat
    decreases callee, 1
  {
    match Validate(k, p, m)
    case Refused(_) => 0
    case Admitted(target, _) =>
      if room == Some(0) then 0
      else Revocations(EnterContext(k, target.id, target.domain), callee,
                       if room.Some? then Some(room.value - 1) else None, slot)
  }

  /** The chain a call tree runs under is only recorded. */
  lemma {:induction false} ChainIsRecorded(k: Kernel, b: Body, chain: seq<nat>, other: seq<nat>, room: Option<nat>)
    ensures Exec(k, b, chain, room).k == Exec(k, b, other, room).k
    decreases b, 0
  {
    match b
    case Done(_) =>
    case Do(a, rest) => ChainIsRecorded(Act(k, a), rest, chain, other, room);
    case Compute(_, rest) => ChainIsRecorded(k, rest, chain, other, room);
    case Call(p, m, callee, rest) =>
      GateChainIsRecorded(k, p, m, callee, chain, other, room);
      ChainIsRecorded(Gate(k, p, m, callee, chain, room).k, rest, chain, other, room);
  }

  lemma {:induction false} GateChainIsRecorded(
    k: Kernel, p: Path, m: Message, callee: Body, chain: seq<nat>, other: seq<nat>, room: Option<nat>)
    ensures Gate(k, p, m, callee, chain, room).k == Gate(k, p, m, callee, other, room).k
    decreases callee, 1
  {
    var v := Validate(k, p, m);
    if v.Admitted? && room != Some(0) {
      ChainIsRecorded(EnterContext(k, v.target.id, v.target.domain), callee, chain + [v.target.id],
                      other + [v.target.id], if room.Some? then Some(room.value - 1) else None);
    }
  }

  lemma ActGeneration(k: Kernel, a: Action, slot: CapSlot, g: nat)
    requires k.caps.entries[slot].generation == g
    ensures Act(k, a).caps.entries[slot].generation == if Revokes(k, a, slot) then NextGeneration(g) else g
  {
    if a.RevokeCap? { ApplyGeneration(k.caps, RevokeOp(a.handle), slot); }
    if a.CreateCap? { ApplyGeneration(k.caps, GrantOp(a.grant), slot); }
  }

  /** Neither g nor any of its next c successors is the generation past. */
  predicate Avoids(g: nat, past: nat, c: nat)
    decreases c
  {
    g != past && (c == 0 || Avoids(NextGeneration(g), past, c - 1))
  }

  /** A generation does not come back within 65534 releases. */
  lemma {:induction false} AvoidsUntilWrap(j: nat, r: nat, c: nat)
    requires 0 < r && r + c < 65535
    ensures Avoids(Generation(j + r), Generation(j), c)
    decreases c
  {
    GenerationRepeats(j, r);
    SmallMultiple(r);
    if c > 0 {
      NextIsGeneration(j + r);
      AvoidsUntilWrap(j, r + 1, c - 1);
    }
  }

  /** No event of the trace was admitted on the handle. */
  ghost predicate NeverUses(trace: seq<Event>, h: nat) {
    forall i :: 0 <= i < |trace| ==> trace[i].msg.capability != h
  }

  /** A handle of another generation than its slot's is not in the grant map. */
  lemma MovedOn(t: CapTable, slot: CapSlot, past: u16)
    requires t.entries[slot].generation != past
    ensures Handle(slot, past) !in Grants(t)
  {
    HandleRoundTrip(slot, past, SIZE, 1);
    LiveIsHandle(t, Handle(slot, past));
  }

  lemma RevocationsOfCall(k: Kernel, b: Body, chain: seq<nat>, room: Option<nat>, slot: CapSlot)
    requires b.Call?
    ensures Revocations(k, b, room, slot) == GateRevocations(k, b.path, b.msg, b.callee, room, slot) +
      Revocations(Gate(k, b.path, b.msg, b.callee, chain, room).k, b.rest, room, slot)
  {
    GateChainIsRecorded(k, b.path, b.msg, b.callee, chain, [], room);
  }

  /** While the slot cannot get back to the past generation, no call is admitted on its handle. */
  lemma {:induction false} StaysUnused(
    k: Kernel, b: Body, chain: seq<nat>, room: Option<nat>, slot: CapSlot, past: u16, c: nat)
    requires Avoids(k.caps.entries[slot].generation, past, c) && Revocations(k, b, room, slot) <= c
    ensures var o := Exec(k, b, chain, room);
      && NeverUses(o.trace, Handle(slot, past))
      && Avoids(o.k.caps.entries[slot].generation, past, c - Revocations(k, b, room, slot))
    decreases b, 0
  {
    match b
    case Done(_) =>
    case Do(a, rest) =>
      ActGeneration(k, a, slot, k.caps.entries[slot].generation);
      StaysUnused(Act(k, a), rest, chain, room, slot, past, c - if Revokes(k, a, slot) then 1 else 0);
    case Compute(_, rest) => StaysUnused(k, rest, chain, room, slot, past, c);
    case Call(p, m, callee, rest) =>
      var g, n := Gate(k, p, m, callee, chain, room), GateRevocations(k, p, m, callee, room, slot);
      RevocationsOfCall(k, b, chain, room, slot);
      GateStaysUnused(k, p, m, callee, chain, room, slot, past, c);
      StaysUnused(g.k, rest, chain, room, slot, past, c - n);
      BothUnused(g.trace, Exec(g.k, rest, chain, room).trace, Handle(slot, past));
  }

  lemma BothUnused(a: seq<Event>, b: seq<Event>, h: nat)
    requires NeverUses(a, h) && NeverUses(b, h)
    ensures NeverUses(a + b, h)
  {
  }

  lemma AdmittedUses(k: Kernel, p: Path, m: Message)
    ensures Validate(k, p, m).Admitted? ==> m.capability in Grants(k.caps)
  {
    RefusalExactly(k, p, m);
  }

  lemma {:induction false} GateStaysUnused(
    k: Kernel, p: Path, m: Message, callee: Body, chain: seq<nat>, room: Option<nat>, slot: CapSlot, past: u16, c: nat)
    requires Avoids(k.caps.entries[slot].generation, past, c) && GateRevocations(k, p, m, callee, room, slot) <= c
    ensures var o := Gate(k, p, m, callee, chain, room);
      && NeverUses(o.trace, Handle(slot, past))
      && Avoids(o.k.caps.entries[slot].generation, past, c - GateRevocations(k, p, m, callee, room, slot))
    decreases callee, 1
  {
    var v := Validate(k, p, m);
    if v.Admitted? && room != Some(0) {
      var e, left := EnterContext(k, v.target.id, v.target.domain), if room.Some? then Some(room.value - 1) else None;
      AdmittedUses(k, p, m);
      MovedOn(k.caps, slot, past);
      StaysUnused(e, callee, chain + [v.target.id], left, slot, past, c);
      BothUnused([Ran(p, k, m, v.target, v.entry, chain)], Exec(e, callee, chain + [v.target.id], left).trace,
                 Handle(slot, past));
    }
  }

  /**
   Revocation is final within a call tree.  Once an action has revoked a live
   capability, no call of the rest of the tree, at any depth, is admitted on it, as
   long as its slot is revoked fewer than 65534 more times.
   */
  lemma RevokedIsNeverUsed(k: Kernel, h: u32, rest: Body, chain: seq<nat>, room: Option<nat>)
    requires TablesOk(k) && h in Grants(k.caps)
    requires Revocations(Act(k, RevokeCap(h)), rest, room, h % 65536 - 1) < 65534
    ensures NeverUses(Exec(k, Do(RevokeCap(h), rest), chain, room).trace, h)
  {
    LiveIsHandle(k.caps, h);
    var slot := Live(k.caps, h).value;
    var g := k.caps.entries[slot].generation;
    ActGeneration(k, RevokeCap(h), slot, g);
    NextIsGeneration(g - 1);
    var c := Revocations(Act(k, RevokeCap(h)), rest, room, slot);
    AvoidsUntilWrap(g - 1, 1, c);
    StaysUnused(Act(k, RevokeCap(h)), rest, chain, room, slot, g, c);
  }
}
