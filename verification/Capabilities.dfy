/**
 The supervisor capability table of kernel/main/capability.c: 4096 entries and
 a stack of free slots, refining a finite map from handles to grants.
 */
module Capabilities {
  import opened Words
  import opened Generations

  const SIZE: nat := 4096

  type CapSlot = i: nat | i < 4096

  /** A permission mask, as the set of its bit positions. */
  type Mask = set<nat>

  const CALL: Mask := {0}
  const READ: Mask := {1}
  const WRITE: Mask := {2}
  const CRITICAL: Mask := {5}
  /** CALL, READ, WRITE, MAP, SIGNAL and CRITICAL. */
  const KNOWN: Mask := {0, 1, 2, 3, 4, 5}

  datatype CapEntry = CapEntry(
    generation: nat, active: bool, owner: nat, target: nat, operation: nat, resource: nat, permissions: Mask)

  function Blank(generation: nat): CapEntry {
    CapEntry(generation, false, 0, 0, 0, 0, {})
  }

  type CapEntries = s: seq<CapEntry> | |s| == 4096 witness seq(4096, i => Blank(1))

  /** The table and the live part of the free stack, top last. */
  datatype CapTable = CapTable(entries: CapEntries, free: seq<CapSlot>)

  datatype Grant = Grant(owner: nat, target: nat, operation: nat, resource: nat, permissions: Mask)

  predicate ValidGrant(g: Grant) {
    && g.owner != 0 && g.target != 0 && g.operation != 0 && g.resource != 0
    && g.permissions != {} && g.permissions <= KNOWN
  }

  function Install(generation: nat, g: Grant): CapEntry {
    CapEntry(generation, true, g.owner, g.target, g.operation, g.resource, g.permissions)
  }

  /** lettuce_capability_create: the new table and the handle, 0 on refusal. */
  function Create(t: CapTable, g: Grant): (CapTable, nat) {
    if !ValidGrant(g) || t.free == [] then (t, 0)
    else
      var slot := t.free[|t.free| - 1];
      var gen := t.entries[slot].generation;
      (CapTable(t.entries[slot := Install(gen, g)], t.free[..|t.free| - 1]), Handle(slot, gen))
  }

  /** The slot a handle is live in. */
  function Live(t: CapTable, h: u32): Option<CapSlot> {
    match Decode(h, SIZE)
    case Bad => None
    case Good(slot, gen) => if t.entries[slot].active && t.entries[slot].generation == gen then Some(slot) else None
  }

  /** lettuce_capability_revoke. */
  function Revoke(t: CapTable, h: u32): (CapTable, bool) {
    match Live(t, h)
    case None => (t, false)
    case Some(slot) =>
      (CapTable(t.entries[slot := Blank(NextGeneration(t.entries[slot].generation))], t.free + [slot]), true)
  }

  /** lettuce_capability_check for the service the kernel says is calling. */
  predicate Check(t: CapTable, caller: nat, h: u32, target: nat, operation: nat, permission: Mask, resource: nat) {
    && permission != {}
    && Live(t, h).Some?
    && caller != 0
    && var e := t.entries[Live(t, h).value];
       && e.owner == caller && e.target == target && e.operation == operation && resource == e.resource
       && permission <= e.permissions
  }

  /** The free stack has no duplicates and holds exactly the inactive slots. */
  ghost predicate TableOk(t: CapTable) {
    && (forall i :: 0 <= i < SIZE ==> 1 <= t.entries[i].generation < TWO16)
    && (forall k :: 0 <= k < |t.free| ==> !t.entries[t.free[k]].active)
    && (forall a, b :: 0 <= a < b < |t.free| ==> t.free[a] != t.free[b])
    && (forall i :: 0 <= i < SIZE && !t.entries[i].active ==> i in t.free)
  }

  // ----- the finite map -----

  ghost function Handles(t: CapTable): set<nat> {
    set i | 0 <= i < SIZE && t.entries[i].active :: Handle(i, t.entries[i].generation)
  }

  ghost function Grants(t: CapTable): map<nat, Grant>
  {
    map h | h in Handles(t) :: GrantAt(t, h)
  }

  ghost function GrantAt(t: CapTable, h: nat): Grant
    requires h in Handles(t)
  {
    var e := t.entries[h % TWO16 - 1];
    Grant(e.owner, e.target, e.operation, e.resource, e.permissions)
  }

  lemma LiveIsHandle(t: CapTable, h: u32)
    ensures Live(t, h).Some? <==> h in Handles(t)
    ensures Live(t, h).Some? ==>
      Live(t, h).value == h % TWO16 - 1 && h == Handle(Live(t, h).value, t.entries[Live(t, h).value].generation)
  {
  }

  /** No field is null, and the permissions are a nonempty choice of bits 0 to 5. */
  predicate Grantable(g: Grant) {
    && 0 !in {g.owner, g.target, g.operation, g.resource}
    && g.permissions != {} && g.permissions <= {0, 1, 2, 3, 4, 5}
  }

  /** Create adds one fresh key; for valid arguments it fails only on a full table. */
  lemma CreateRefines(t: CapTable, g: Grant)
    requires TableOk(t)
    ensures var (u, h) := Create(t, g);
      && TableOk(u)
      && (h == 0 <==> !Grantable(g) || |Grants(t)| == 4096)
      && (h == 0 ==> u == t)
      && (h != 0 ==> h < TWO32 && h !in Grants(t) && Grants(u) == Grants(t)[h := g])
  {
    Occupancy(t);
    if ValidGrant(g) && t.free != [] {
      CreateKeeps(t, g);
      CreateAddsHandle(t, g);
    }
  }

  lemma CreateAddsHandle(t: CapTable, g: Grant)
    requires TableOk(t) && ValidGrant(g) && t.free != []
    ensures var (u, h) := Create(t, g); h !in Handles(t) && Handles(u) == Handles(t) + {h} && GrantAt(u, h) == g
    ensures var (u, h) := Create(t, g); forall k :: k in Handles(t) ==> GrantAt(u, k) == GrantAt(t, k)
  {
    var (u, h) := Create(t, g);
    var slot := t.free[|t.free| - 1];
    assert u.entries[slot].active;
    forall i | 0 <= i < SIZE && t.entries[i].active ensures Handle(i, t.entries[i].generation) in Handles(u) {
      assert u.entries[i] == t.entries[i];
    }
    forall k | k in Handles(t) ensures k % TWO16 - 1 != slot && GrantAt(u, k) == GrantAt(t, k) {
    }
  }

  lemma CreateKeeps(t: CapTable, g: Grant)
    requires TableOk(t)
    ensures TableOk(Create(t, g).0)
  {
  }

  /** Revoke removes exactly the key it is given, if it is there. */
  lemma RevokeRefines(t: CapTable, h: u32)
    requires TableOk(t)
    ensures var (u, ok) := Revoke(t, h);
      && TableOk(u)
      && (ok <==> h in Grants(t))
      && Grants(u) == Grants(t) - {h}
      && (!ok ==> u == t)
  {
    LiveIsHandle(t, h);
    var (u, ok) := Revoke(t, h);
    if ok {
      var slot := Live(t, h).value;
      RevokeKeeps(t, h);
      assert Handles(u) == Handles(t) - {h} by {
        forall i | 0 <= i < SIZE && t.entries[i].active && i != slot
          ensures Handle(i, t.entries[i].generation) in Handles(u) && Handle(i, t.entries[i].generation) != h
        {
          assert u.entries[i] == t.entries[i];
        }
      }
    }
  }

  lemma RevokeKeeps(t: CapTable, h: u32)
    requires TableOk(t)
    ensures TableOk(Revoke(t, h).0)
  {
  }

  /** Check is a lookup: owner, target, operation, resource and every requested permission bit. */
  lemma CheckRefines(t: CapTable, caller: nat, h: u32, target: nat, operation: nat, permission: Mask, resource: nat)
    ensures Check(t, caller, h, target, operation, permission, resource) <==>
      && permission != {} && caller != 0 && h in Grants(t)
      && var g := Grants(t)[h];
         g == Grant(caller, target, operation, resource, g.permissions) && permission <= g.permissions
  {
  }

  // ----- occupancy -----

  ghost function HandlesBelow(t: CapTable, n: nat): set<nat>
    requires n <= SIZE
  {
    set i | 0 <= i < n && t.entries[i].active :: Handle(i, t.entries[i].generation)
  }

  ghost function InactiveBelow(t: CapTable, n: nat): set<nat>
    requires n <= SIZE
  {
    set i | 0 <= i < n && !t.entries[i].active
  }

  lemma ActiveSlotAdds(t: CapTable, n: CapSlot)
    requires t.entries[n].active
    ensures var h := Handle(n, t.entries[n].generation);
      HandlesBelow(t, n + 1) == HandlesBelow(t, n) + {h} && h !in HandlesBelow(t, n)
    ensures InactiveBelow(t, n + 1) == InactiveBelow(t, n)
  {
  }

  lemma InactiveSlotAdds(t: CapTable, n: CapSlot)
    requires !t.entries[n].active
    ensures HandlesBelow(t, n + 1) == HandlesBelow(t, n)
    ensures InactiveBelow(t, n + 1) == InactiveBelow(t, n) + {n} && n !in InactiveBelow(t, n)
  {
  }

  lemma {:induction false} CountBelow(t: CapTable, n: nat)
    requires n <= SIZE
    ensures |HandlesBelow(t, n)| + |InactiveBelow(t, n)| == n
  {
    if n == 0 {
      assert HandlesBelow(t, 0) == {} && InactiveBelow(t, 0) == {};
    } else {
      CountBelow(t, n - 1);
      if t.entries[n - 1].active {
        ActiveSlotAdds(t, n - 1);
      } else {
        InactiveSlotAdds(t, n - 1);
      }
    }
  }

  ghost function Elements(s: seq<CapSlot>): set<nat> {
    set x | x in s
  }

  lemma {:induction false} DistinctCount(s: seq<CapSlot>)
    requires forall a, b :: 0 <= a < b < |s| ==> s[a] != s[b]
    ensures |Elements(s)| == |s|
  {
    if s != [] {
      var n := |s| - 1;
      DistinctCount(s[..n]);
      assert s == s[..n] + [s[n]];
      assert Elements(s) == Elements(s[..n]) + {s[n]};
    }
  }

  /** Grants and free slots always add up to the whole table. */
  lemma Occupancy(t: CapTable)
    requires TableOk(t)
    ensures |Grants(t)| + |t.free| == SIZE
  {
    CountBelow(t, SIZE);
    DistinctCount(t.free);
    assert Grants(t).Keys == Handles(t) == HandlesBelow(t, SIZE);
    assert Elements(t.free) == InactiveBelow(t, SIZE);
  }

  // ----- staleness over whole runs -----

  datatype CapOp = GrantOp(grant: Grant) | RevokeOp(handle: u32)

  function Apply(t: CapTable, op: CapOp): CapTable {
    match op
    case GrantOp(g) => Create(t, g).0
    case RevokeOp(h) => Revoke(t, h).0
  }

  lemma ApplyKeeps(t: CapTable, op: CapOp)
    requires TableOk(t)
    ensures TableOk(Apply(t, op))
  {
  }

  function Run(t: CapTable, ops: seq<CapOp>): CapTable
    decreases |ops|
  {
    if ops == [] then t else Run(Apply(t, ops[0]), ops[1..])
  }

  /** How often a run revokes what a slot holds. */
  function Revocations(t: CapTable, ops: seq<CapOp>, slot: CapSlot): nat
    decreases |ops|
  {
    if ops == [] then 0
    else (if Ends(t, ops[0], slot) then 1 else 0) + Revocations(Apply(t, ops[0]), ops[1..], slot)
  }

  predicate Ends(t: CapTable, op: CapOp, slot: CapSlot) {
    op.RevokeOp? && Live(t, op.handle) == Some(slot)
  }

  /** Only a successful revocation moves a slot's generation. */
  lemma ApplyGeneration(t: CapTable, op: CapOp, slot: CapSlot)
    ensures Apply(t, op).entries[slot].generation ==
      if Ends(t, op, slot) then NextGeneration(t.entries[slot].generation) else t.entries[slot].generation
  {
  }

  /** A slot's generation counts its revocations, modulo 65535. */
  lemma {:induction false} GenerationCounts(t: CapTable, ops: seq<CapOp>, slot: CapSlot, k: nat)
    requires t.entries[slot].generation == Generation(k)
    ensures Run(t, ops).entries[slot].generation == Generation(k + Revocations(t, ops, slot))
    decreases |ops|
  {
    if ops != [] {
      ApplyGeneration(t, ops[0], slot);
      NextIsGeneration(k);
      GenerationCounts(Apply(t, ops[0]), ops[1..], slot, k + if Ends(t, ops[0], slot) then 1 else 0);
    }
  }

  /**
   A handle issued for a slot is live later exactly when the slot is occupied and
   the number of revocations in between is a multiple of 65535; in particular a
   revoked handle stays dead for the next 65534 revocations of its slot.
   */
  lemma {:induction false} HandleLifetime(t: CapTable, ops: seq<CapOp>, slot: CapSlot, k: nat)
    requires t.entries[slot].generation == Generation(k)
    ensures Handle(slot, Generation(k)) in Grants(Run(t, ops)) <==>
      Run(t, ops).entries[slot].active && Revocations(t, ops, slot) % 65535 == 0
    ensures 0 < Revocations(t, ops, slot) < 65535 ==> Handle(slot, Generation(k)) !in Grants(Run(t, ops))
  {
    GenerationCounts(t, ops, slot, k);
    GenerationRepeats(k, Revocations(t, ops, slot));
    SmallMultiple(Revocations(t, ops, slot));
    LiveIsHandle(Run(t, ops), Handle(slot, Generation(k)));
  }

  /** Every reachable table satisfies the invariant. */
  lemma {:induction false} RunKeeps(t: CapTable, ops: seq<CapOp>)
    requires TableOk(t)
    ensures TableOk(Run(t, ops))
    decreases |ops|
  {
    if ops != [] {
      ApplyKeeps(t, ops[0]);
      RunKeeps(Apply(t, ops[0]), ops[1..]);
    }
  }

  // ----- the table as the kernel keeps it -----

  class CapabilityTable {
    const entries: array<CapEntry>
    const freeSlots: array<CapSlot>
    var freeCount: nat

    ghost predicate Valid()
      reads this, entries, freeSlots
    {
      && entries.Length == 4096 && freeSlots.Length == 4096 && freeCount <= 4096
      && TableOk(CapTable(entries[..], freeSlots[..freeCount]))
    }

    ghost function View(): CapTable
      requires entries.Length == 4096 && freeSlots.Length == 4096 && freeCount <= 4096
      reads this, entries, freeSlots
    {
      CapTable(entries[..], freeSlots[..freeCount])
    }

    /** lettuce_capability_init. */
    constructor ()
      ensures Valid() && fresh(entries) && fresh(freeSlots) && Grants(View()) == map[]
      ensures forall i :: 0 <= i < SIZE ==> entries[i].generation == Generation(0)
    {
      entries := new CapEntry[4096](i => Blank(1));
      freeSlots := new CapSlot[4096](i requires 0 <= i < 4096 => 4095 - i);
      freeCount := 4096;
      new;
      forall i | 0 <= i < SIZE ensures i in freeSlots[..freeCount] {
        assert freeSlots[..freeCount][4095 - i] == i;
      }
      assert Handles(View()) == {};
    }

    method CreateCall(g: Grant) returns (h: nat)
      requires Valid()
      modifies this, entries
      ensures Valid()
      ensures (View(), h) == Create(old(View()), g)
    {
      CreateKeeps(View(), g);
      if g.owner == 0 || g.target == 0 || g.operation == 0 || g.resource == 0 {
        return 0;
      }
      if g.permissions == {} || g.permissions - KNOWN != {} {
        return 0;
      }
      if freeCount == 0 {
        return 0;
      }
      ghost var t := View();
      assert t.free != [] && t.free[|t.free| - 1] == freeSlots[freeCount - 1];
      freeCount := freeCount - 1;
      var slot := freeSlots[freeCount];
      entries[slot] := Install(entries[slot].generation, g);
      assert View() == Create(t, g).0;
      h := Handle(slot, entries[slot].generation);
    }

    method RevokeCall(h: u32) returns (ok: bool)
      requires Valid()
      modifies this, entries, freeSlots
      ensures Valid()
      ensures (View(), ok) == Revoke(old(View()), h)
    {
      RevokeKeeps(View(), h);
      Occupancy(View());
      var d := Decode(h, SIZE);
      if d.Bad? || !entries[d.slot].active || entries[d.slot].generation != d.generation {
        return false;
      }
      ghost var t := View();
      assert |Grants(t)| > 0 by {
        LiveIsHandle(t, h);
        assert h in Grants(t);
      }
      entries[d.slot] := Blank((entries[d.slot].generation + 1) % TWO16);
      if entries[d.slot].generation == 0 {
        entries[d.slot] := entries[d.slot].(generation := 1);
      }
      freeSlots[freeCount] := d.slot;
      freeCount := freeCount + 1;
      assert View() == Revoke(t, h).0;
      return true;
    }

    method CheckCall(caller: nat, h: u32, target: nat, operation: nat, permission: Mask, resource: nat)
      returns (ok: bool)
      requires Valid()
      ensures ok == Check(View(), caller, h, target, operation, permission, resource)
    {
      if permission == {} {
        return false;
      }
      var d := Decode(h, SIZE);
      if d.Bad? || !entries[d.slot].active || entries[d.slot].generation != d.generation || caller == 0 {
        return false;
      }
      var e := entries[d.slot];
      return e.owner == caller && e.target == target && e.operation == operation && resource == e.resource
        && permission <= e.permissions;
    }
  }
}
