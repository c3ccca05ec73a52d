/**
 The shared buffers of memory/shared/buffer.c: sixteen slots behind generational
 handles and capability checks, refining a finite map from handles to contents.
 */
module SharedBuffers {
  import opened Words
  import opened Status
  import opened Generations
  import Cap = Capabilities

  const COUNT: nat := 16
  const BYTES: nat := 4096
  const READ_OPERATION: nat := 0x100
  const WRITE_OPERATION: nat := 0x101

  type Payload = d: seq<nat> | |d| == 4096 witness seq(4096, i => 0)
  type Index = i: nat | i < 16

  function Zeroed(): Payload {
    seq(4096, i => 0)
  }

  datatype Buffer = Buffer(
    size: u64, resource: u32, readCap: u32, writeCap: u32, owner: u32, generation: nat, active: bool, data: Payload)

  type Buffers = b: seq<Buffer> | |b| == 16 witness seq(16, i => Buffer(0, 0, 0, 0, 0, 1, false, seq(4096, j => 0)))

  /** What a caller asks for. */
  datatype Request = Request(owner: u32, resource: u32, size: u64, readCap: u32, writeCap: u32)

  predicate Valid(q: Request) {
    q.owner != 0 && q.resource != 0 && q.size != 0 && q.size <= BYTES
  }

  /** The lowest free slot at or above n. */
  function FreeSlot(b: Buffers, n: nat): (r: Option<Index>)
    ensures r.Some? ==> n <= r.value && !b[r.value].active && forall i: Index :: n <= i < r.value ==> b[i].active
    ensures r.None? ==> forall i: Index :: n <= i ==> b[i].active
    decreases 16 - n
  {
    if n >= 16 then None else if !b[n].active then Some(n) else FreeSlot(b, n + 1)
  }

  function NewBuffer(previous: Buffer, q: Request): Buffer {
    Buffer(q.size, q.resource, q.readCap, q.writeCap, q.owner,
           if previous.generation == 0 then 1 else previous.generation, true, Zeroed())
  }

  /** The buffer carries the owner, resource, size and two capabilities it was requested with. */
  predicate Bound(u: Buffer, q: Request) {
    Request(u.owner, u.resource, u.size, u.readCap, u.writeCap) == q
  }

  datatype Created = Created(buffers: Buffers, status: nat, handle: nat)

  /** lettuce_shared_buffer_create on behalf of the executing service. */
  function Create(b: Buffers, caller: nat, q: Request): Created {
    if !Valid(q) then Created(b, INVALID_ARGUMENT, 0)
    else if caller != q.owner then Created(b, DENIED, 0)
    else
      match FreeSlot(b, 0)
      case None => Created(b, UNAVAILABLE, 0)
      case Some(i) =>
        var n := NewBuffer(b[i], q);
        Created(b[i := n], OK, Handle(i, n.generation))
  }

  /** lettuce_shared_buffer_init: clears every slot and keeps its generation. */
  function InitBuffers(b: Buffers): (c: Buffers)
    ensures forall i: Index ::
      c[i] == Buffer(0, 0, 0, 0, 0, if b[i].generation == 0 then 1 else b[i].generation, false, Zeroed())
  {
    seq(16, i requires 0 <= i < 16 =>
      Buffer(0, 0, 0, 0, 0, if b[i].generation == 0 then 1 else b[i].generation, false, Zeroed()))
  }

  /** The slot a handle is live in. */
  function Live(b: Buffers, h: u32): Option<Index> {
    match Decode(h, COUNT)
    case Bad => None
    case Good(i, gen) => if b[i].active && b[i].generation == gen then Some(i) else None
  }

  /** lettuce_shared_buffer_access: the status, and on success the slot whose payload is exposed. */
  function Access(b: Buffers, caps: Cap.CapTable, caller: nat, h: u32, cap: u32, write: bool): (nat, Option<Index>) {
    if Decode(h, COUNT).Bad? then (INVALID_ARGUMENT, None)
    else
      match Live(b, h)
      case None => (NOT_FOUND, None)
      case Some(i) =>
        var operation := if write then WRITE_OPERATION else READ_OPERATION;
        var permission := if write then Cap.WRITE else Cap.READ;
        if cap != (if write then b[i].writeCap else b[i].readCap)
           || !Cap.Check(caps, caller, cap, b[i].owner, operation, permission, b[i].resource)
        then (CAPABILITY_DENIED, None)
        else (OK, Some(i))
  }

  /** A write of one byte through the pointer a write access returns. */
  function Store(b: Buffers, caps: Cap.CapTable, caller: nat, h: u32, cap: u32, offset: nat, byte: nat): Buffers {
    var a := Access(b, caps, caller, h, cap, true).1;
    if a.Some? && offset < b[a.value].size && offset < BYTES
    then b[a.value := b[a.value].(data := b[a.value].data[offset := byte])] else b
  }

  /** lettuce_shared_buffer_revoke. */
  function Revoke(b: Buffers, caller: nat, h: u32): (Buffers, nat) {
    if Decode(h, COUNT).Bad? then (b, INVALID_ARGUMENT)
    else
      match Live(b, h)
      case None => (b, NOT_FOUND)
      case Some(i) =>
        if caller != b[i].owner then (b, DENIED)
        else (b[i := b[i].(active := false, generation := NextGeneration(b[i].generation), data := Zeroed())], OK)
  }

  // ----- the finite map -----

  predicate GenerationsOk(b: Buffers) {
    forall i: Index :: 1 <= b[i].generation < TWO16
  }

  ghost function Handles(b: Buffers): set<nat> {
    set i | 0 <= i < COUNT && b[i].active :: Handle(i, b[i].generation)
  }

  /** The buffers that live handles name. */
  ghost function Contents(b: Buffers): map<nat, Buffer>
  {
    map h | h in Handles(b) :: BufferAt(b, h)
  }

  ghost function BufferAt(b: Buffers, h: nat): Buffer
    requires h in Handles(b)
  {
    b[h % TWO16 - 1]
  }

  lemma LiveIsKey(b: Buffers, h: u32)
    ensures Live(b, h).Some? <==> h in Contents(b)
    ensures Live(b, h).Some? ==>
      Contents(b)[h] == b[Live(b, h).value] && h == Handle(Live(b, h).value, b[Live(b, h).value].generation)
  {
  }

  /** Handles of other slots, and what they name, survive a change of one slot. */
  lemma OtherSlots(b: Buffers, i: Index, n: Buffer, h: nat)
    requires h % TWO16 != i + 1
    ensures h in Handles(b) <==> h in Handles(b[i := n])
    ensures h in Handles(b) ==> BufferAt(b[i := n], h) == BufferAt(b, h)
  {
    var c := b[i := n];
    if h in Handles(b) {
      var j :| 0 <= j < COUNT && b[j].active && h == Handle(j, b[j].generation);
      assert c[j] == b[j];
    }
    if h in Handles(c) {
      var j :| 0 <= j < COUNT && c[j].active && h == Handle(j, c[j].generation);
      assert c[j] == b[j];
    }
  }

  /** The low half of a handle is a slot number counted from one. */
  predicate Encoded(h: u32) {
    1 <= h % 65536 <= 16
  }

  /** A slot has at most one live handle. */
  lemma OneHandlePerSlot(b: Buffers, i: Index, h: nat)
    requires h % TWO16 == i + 1
    ensures h in Handles(b) <==> b[i].active && h == Handle(i, b[i].generation)
  {
  }

  /** Create adds one fresh handle, all zeros; valid requests by the owner fail only when all slots are live. */
  lemma CreateRefines(b: Buffers, caller: nat, q: Request)
    requires GenerationsOk(b)
    ensures var r := Create(b, caller, q);
      var valid := q.owner != 0 && q.resource != 0 && 0 < q.size <= 4096;
      && GenerationsOk(r.buffers)
      && (r.status == INVALID_ARGUMENT <==> !valid)
      && (r.status == DENIED <==> valid && caller != q.owner)
      && (r.status == UNAVAILABLE <==> valid && caller == q.owner && forall i: Index :: b[i].active)
      && (r.status == OK <==> valid && caller == q.owner && exists i: Index :: !b[i].active)
      && (r.status != OK ==> r.buffers == b)
      && (r.status == OK ==>
            && r.handle !in Contents(b) && r.handle in Contents(r.buffers)
            && Contents(r.buffers)[r.handle].data == Zeroed()
            && Bound(Contents(r.buffers)[r.handle], q)
            && Contents(r.buffers) == Contents(b)[r.handle := Contents(r.buffers)[r.handle]])
  {
    var r := Create(b, caller, q);
    if r.status == OK {
      var i: nat := FreeSlot(b, 0).value;
      var c := r.buffers;
      OneHandlePerSlot(b, i, r.handle);
      OneHandlePerSlot(c, i, r.handle);
      forall h: nat ensures h in Handles(c) <==> h in Handles(b) || h == r.handle {
        if h % TWO16 == i + 1 {
          OneHandlePerSlot(b, i, h);
          OneHandlePerSlot(c, i, h);
        } else {
          OtherSlots(b, i, c[i], h);
        }
      }
      forall h | h in Handles(b) ensures BufferAt(c, h) == BufferAt(b, h) {
        if h % TWO16 == i + 1 { OneHandlePerSlot(b, i, h); } else { OtherSlots(b, i, c[i], h); }
      }
      assert Contents(c).Keys == Contents(b).Keys + {r.handle};
    }
  }

  /** A store through one handle changes that handle's payload at that offset and nothing else. */
  lemma StoreRefines(b: Buffers, caps: Cap.CapTable, caller: nat, h: u32, cap: u32, offset: nat, byte: nat, k: nat)
    ensures var c := Store(b, caps, caller, h, cap, offset, byte);
      && (k in Contents(c) <==> k in Contents(b))
      && (k in Contents(b) ==>
            var u := Contents(b)[k];
            Contents(c)[k] ==
            if k == h && Access(b, caps, caller, h, cap, true).0 == OK && offset < u.size && offset < BYTES
            then u.(data := u.data[offset := byte]) else u)
  {
    var a := Access(b, caps, caller, h, cap, true).1;
    LiveIsKey(b, h);
    if a.Some? && offset < b[a.value].size && offset < BYTES {
      var i: nat := a.value;
      var c := Store(b, caps, caller, h, cap, offset, byte);
      if k % TWO16 == i + 1 {
        OneHandlePerSlot(b, i, k);
        OneHandlePerSlot(c, i, k);
      } else {
        OtherSlots(b, i, c[i], k);
      }
    }
  }

  /** Revoke removes exactly the handle it is given, only for the owner, and leaves no byte of its payload behind. */
  lemma RevokeRefines(b: Buffers, caller: nat, h: u32)
    requires GenerationsOk(b)
    ensures var (c, st) := Revoke(b, caller, h);
      && GenerationsOk(c)
      && (st == INVALID_ARGUMENT <==> !Encoded(h))
      && (st == NOT_FOUND <==> Encoded(h) && h !in Contents(b))
      && (st == DENIED <==> h in Contents(b) && Contents(b)[h].owner != caller)
      && (st == OK <==> h in Contents(b) && Contents(b)[h].owner == caller)
      && Contents(c) == (if st == OK then Contents(b) - {h} else Contents(b))
      && (st == OK ==> Live(b, h).Some? && !c[Live(b, h).value].active && c[Live(b, h).value].data == Zeroed())
  {
    var (c, st) := Revoke(b, caller, h);
    LiveIsKey(b, h);
    if st == OK {
      var i: nat := Live(b, h).value;
      forall k: nat ensures k in Handles(c) <==> k in Handles(b) && k != h {
        if k % TWO16 == i + 1 {
          OneHandlePerSlot(b, i, k);
          OneHandlePerSlot(c, i, k);
        } else {
          OtherSlots(b, i, c[i], k);
        }
      }
      forall k | k in Handles(c) ensures BufferAt(c, k) == BufferAt(b, k) {
        if k % TWO16 == i + 1 { OneHandlePerSlot(c, i, k); } else { OtherSlots(b, i, c[i], k); }
      }
      assert Contents(c).Keys == Contents(b).Keys - {h};
    }
  }

  /** The caller holds the buffer's own capability for the access, from its owner, for operation 0x100 or 0x101. */
  ghost predicate MayAccess(u: Buffer, caps: Cap.CapTable, caller: nat, cap: u32, write: bool) {
    && cap == (if write then u.writeCap else u.readCap)
    && caller != 0 && cap in Cap.Grants(caps)
    && var g := Cap.Grants(caps)[cap];
       && g == Cap.Grant(caller, u.owner, if write then 0x101 else 0x100, u.resource, g.permissions)
       && (if write then 2 else 1) in g.permissions
  }

  /**
   Access exposes the payload of exactly the buffer its handle names, and only to a
   caller with the buffer's own capability; every refusal exposes nothing.
   */
  lemma AccessRefines(b: Buffers, caps: Cap.CapTable, caller: nat, h: u32, cap: u32, write: bool)
    ensures var (st, slot) := Access(b, caps, caller, h, cap, write);
      && (st == INVALID_ARGUMENT <==> !Encoded(h))
      && (st == NOT_FOUND <==> Encoded(h) && h !in Contents(b))
      && (st == CAPABILITY_DENIED <==> h in Contents(b) && !MayAccess(Contents(b)[h], caps, caller, cap, write))
      && (st == OK <==> h in Contents(b) && MayAccess(Contents(b)[h], caps, caller, cap, write))
      && (st == OK <==> slot.Some?)
      && (slot.Some? ==> h in Contents(b) && b[slot.value] == Contents(b)[h])
  {
    LiveIsKey(b, h);
    DecodesIff(h);
  }

  lemma DecodesIff(h: u32)
    ensures Decode(h, COUNT).Good? <==> Encoded(h)
  {
  }

  // ----- what a read returns -----

  /** A read of one byte through the pointer a read access returns. */
  function Fetch(b: Buffers, caps: Cap.CapTable, caller: nat, h: u32, cap: u32, offset: nat): Option<nat> {
    var a := Access(b, caps, caller, h, cap, false).1;
    if a.Some? && offset < b[a.value].size && offset < BYTES then Some(b[a.value].data[offset]) else None
  }

  /** The call writes the byte at this offset of the buffer under this handle. */
  ghost predicate Writes(b: Buffers, op: BufferOp, h: u32, offset: nat) {
    && op.StoreOp? && op.handle == h && op.offset == offset && h in Contents(b)
    && MayAccess(Contents(b)[h], op.caps, op.writer, op.cap, true) && offset < Contents(b)[h].size && offset < 4096
  }

  /** The last byte a run writes there, or the one it started from. */
  ghost function LastWritten(b: Buffers, ops: seq<BufferOp>, h: u32, offset: nat, byte: nat): nat
    decreases |ops|
  {
    if ops == [] then byte
    else LastWritten(Apply(b, ops[0]), ops[1..], h, offset, if Writes(b, ops[0], h, offset) then ops[0].byte else byte)
  }

  /** The handle is live in every state of the run. */
  ghost predicate StaysLive(b: Buffers, ops: seq<BufferOp>, h: u32)
    decreases |ops|
  {
    h in Contents(b) && (ops == [] || StaysLive(Apply(b, ops[0]), ops[1..], h))
  }

  /** While a handle stays live, no call changes its buffer but a store through it, and that only one byte. */
  lemma ApplyKeepsBuffer(b: Buffers, op: BufferOp, h: u32, offset: nat)
    requires GenerationsOk(b) && h in Contents(b) && h in Contents(Apply(b, op)) && offset < 4096
    ensures GenerationsOk(Apply(b, op))
    ensures var u, v := Contents(b)[h], Contents(Apply(b, op))[h];
      v.data[offset] == (if Writes(b, op, h, offset) then op.byte else u.data[offset]) && v == u.(data := v.data)
  {
    match op
    case CreateOp(c, q) => CreateRefines(b, c, q);
    case StoreOp(t, c, k, cap, o, byte) => StoreKeepsBuffer(b, op, h, offset);
    case RevokeOp(c, k) => RevokeRefines(b, c, k);
    case InitOp => InitEmpties(b);
  }

  lemma StoreKeepsBuffer(b: Buffers, op: BufferOp, h: u32, offset: nat)
    requires GenerationsOk(b) && h in Contents(b) && offset < 4096 && op.StoreOp?
    ensures GenerationsOk(Apply(b, op)) && h in Contents(Apply(b, op))
    ensures var u, v := Contents(b)[h], Contents(Apply(b, op))[h];
      v.data[offset] == (if Writes(b, op, h, offset) then op.byte else u.data[offset]) && v == u.(data := v.data)
  {
    StoreRefines(b, op.caps, op.writer, op.handle, op.cap, op.offset, op.byte, h);
    AccessRefines(b, op.caps, op.writer, op.handle, op.cap, true);
  }

  lemma InitEmpties(b: Buffers)
    ensures Contents(InitBuffers(b)) == map[]
  {
    assert Handles(InitBuffers(b)) == {};
  }

  lemma {:induction false} RunKeepsBuffer(b: Buffers, ops: seq<BufferOp>, h: u32, offset: nat)
    requires GenerationsOk(b) && StaysLive(b, ops, h) && offset < 4096
    ensures h in Contents(Run(b, ops))
    ensures var u, v := Contents(b)[h], Contents(Run(b, ops))[h];
      v.data[offset] == LastWritten(b, ops, h, offset, u.data[offset]) && v == u.(data := v.data)
    decreases |ops|
  {
    if ops != [] {
      ApplyKeepsBuffer(b, ops[0], h, offset);
      RunKeepsBuffer(Apply(b, ops[0]), ops[1..], h, offset);
    }
  }

  /** A read returns the last byte stored at that offset through the handle since the buffer was created, or zero. */
  lemma ReadsLastWrite(
    b: Buffers, creator: nat, q: Request, ops: seq<BufferOp>,
    caps: Cap.CapTable, caller: nat, cap: u32, offset: nat)
    requires GenerationsOk(b) && Create(b, creator, q).status == OK
    ensures var c := Create(b, creator, q);
      && c.handle < TWO32
      && (StaysLive(c.buffers, ops, c.handle) && offset < q.size ==>
            && c.handle in Contents(Run(c.buffers, ops))
            && Fetch(Run(c.buffers, ops), caps, caller, c.handle, cap, offset) ==
               if MayAccess(Contents(Run(c.buffers, ops))[c.handle], caps, caller, cap, false)
               then Some(LastWritten(c.buffers, ops, c.handle, offset, 0)) else None)
  {
    var c := Create(b, creator, q);
    CreateRefines(b, creator, q);
    HandleRoundTrip(FreeSlot(b, 0).value, NewBuffer(b[FreeSlot(b, 0).value], q).generation, COUNT, 1);
    if StaysLive(c.buffers, ops, c.handle) && offset < q.size {
      RunKeepsBuffer(c.buffers, ops, c.handle, offset);
      AccessRefines(Run(c.buffers, ops), caps, caller, c.handle, cap, false);
    }
  }

  // ----- staleness over whole runs -----

  datatype BufferOp =
    | CreateOp(creator: nat, request: Request)
    | StoreOp(caps: Cap.CapTable, writer: nat, handle: u32, cap: u32, offset: nat, byte: nat)
    | RevokeOp(revoker: nat, target: u32)
    | InitOp

  function Apply(b: Buffers, op: BufferOp): Buffers {
    match op
    case CreateOp(c, q) => Create(b, c, q).buffers
    case StoreOp(t, c, h, k, o, v) => Store(b, t, c, h, k, o, v)
    case RevokeOp(c, h) => Revoke(b, c, h).0
    case InitOp => InitBuffers(b)
  }

  function Run(b: Buffers, ops: seq<BufferOp>): Buffers
    decreases |ops|
  {
    if ops == [] then b else Run(Apply(b, ops[0]), ops[1..])
  }

  predicate Ends(b: Buffers, op: BufferOp, i: Index) {
    op.RevokeOp? && Live(b, op.target) == Some(i) && op.revoker == b[i].owner
  }

  function Revocations(b: Buffers, ops: seq<BufferOp>, i: Index): nat
    decreases |ops|
  {
    if ops == [] then 0 else (if Ends(b, ops[0], i) then 1 else 0) + Revocations(Apply(b, ops[0]), ops[1..], i)
  }

  lemma ApplyGeneration(b: Buffers, op: BufferOp, i: Index)
    requires GenerationsOk(b)
    ensures GenerationsOk(Apply(b, op))
    ensures Apply(b, op)[i].generation == if Ends(b, op, i) then NextGeneration(b[i].generation) else b[i].generation
  {
  }

  lemma {:induction false} RunGeneration(b: Buffers, ops: seq<BufferOp>, i: Index)
    requires GenerationsOk(b)
    ensures Run(b, ops)[i].generation == After(b[i].generation, Revocations(b, ops, i))
    decreases |ops|
  {
    if ops != [] {
      ApplyGeneration(b, ops[0], i);
      RunGeneration(Apply(b, ops[0]), ops[1..], i);
    }
  }

  lemma {:induction false} GenerationCounts(b: Buffers, ops: seq<BufferOp>, i: Index, k: nat)
    requires GenerationsOk(b) && b[i].generation == Generation(k)
    ensures Run(b, ops)[i].generation == Generation(k + Revocations(b, ops, i))
  {
    RunGeneration(b, ops, i);
    AfterCounts(k, Revocations(b, ops, i));
  }

  /**
   A buffer handle is live later exactly when its slot is occupied after a multiple
   of 65535 revocations.  An init is no revocation: it empties the slot, and the
   next buffer there brings the handle back.
   */
  lemma {:induction false} HandleLifetime(b: Buffers, ops: seq<BufferOp>, i: Index, k: nat)
    requires GenerationsOk(b) && b[i].generation == Generation(k)
    ensures Handle(i, Generation(k)) in Contents(Run(b, ops)) <==>
      Run(b, ops)[i].active && Revocations(b, ops, i) % 65535 == 0
    ensures 0 < Revocations(b, ops, i) < 65535 ==> Handle(i, Generation(k)) !in Contents(Run(b, ops))
  {
    GenerationCounts(b, ops, i, k);
    GenerationRepeats(k, Revocations(b, ops, i));
    SmallMultiple(Revocations(b, ops, i));
    HandleRoundTrip(i, Generation(k), COUNT, Handle(i, Generation(k)));
    LiveIsKey(Run(b, ops), Handle(i, Generation(k)));
  }

  /** An init ends every handle, and the first buffer created after it is given the handle slot 0 was live under. */
  lemma InitReissues(b: Buffers, h: u32, caller: nat, q: Request)
    requires GenerationsOk(b) && Live(b, h) == Some(0) && Valid(q) && caller == q.owner
    ensures Contents(InitBuffers(b)) == map[]
    ensures var r := Create(InitBuffers(b), caller, q);
      r.status == OK && r.handle == h && h in Contents(r.buffers) && Bound(Contents(r.buffers)[h], q)
  {
    var c := InitBuffers(b);
    assert Handles(c) == {};
    LiveIsKey(b, h);
    CreateRefines(c, caller, q);
    assert FreeSlot(c, 0) == Some(0) && b[0].generation == c[0].generation;
  }

  // ----- the buffers as the kernel keeps them -----

  class BufferTable {
    const slots: array<Buffer>

    ghost function View(): Buffers
      requires slots.Length == 16
      reads slots
    {
      slots[..]
    }

    constructor ()
      ensures slots.Length == 16 && fresh(slots) && GenerationsOk(View()) && Contents(View()) == map[]
    {
      slots := new Buffer[16](i => Buffer(0, 0, 0, 0, 0, 1, false, Zeroed()));
      new;
      assert Handles(View()) == {};
    }

    method InitCall()
      requires slots.Length == 16
      modifies slots
      ensures View() == InitBuffers(old(View()))
    {
      for i := 0 to 16
        invariant forall j: Index :: slots[j] == if j < i then InitBuffers(old(View()))[j] else old(slots[j])
      {
        slots[i] := Buffer(
          0, 0, 0, 0, 0, if slots[i].generation == 0 then 1 else slots[i].generation, false, Zeroed());
      }
    }

    /** The byte loop that clears a payload. */
    method ZeroPayload(i: Index)
      requires slots.Length == 16
      modifies slots
      ensures View() == old(View())[i := old(slots[i]).(data := Zeroed())]
    {
      var d: seq<nat> := slots[i].data;
      for b := 0 to 4096
        invariant |d| == 4096
        invariant forall k :: 0 <= k < b ==> d[k] == 0
      {
        d := d[b := 0];
      }
      assert d == Zeroed();
      slots[i] := slots[i].(data := d);
    }

    method CreateCall(caller: nat, q: Request) returns (status: nat, handle: nat)
      requires slots.Length == 16
      modifies slots
      ensures Created(View(), status, handle) == Create(old(View()), caller, q)
    {
      if q.owner == 0 || q.resource == 0 || q.size == 0 || q.size > BYTES {
        return INVALID_ARGUMENT, 0;
      }
      if caller != q.owner {
        return DENIED, 0;
      }
      ghost var b := View();
      for i := 0 to 16
        invariant View() == b && FreeSlot(b, i) == FreeSlot(b, 0)
      {
        if !slots[i].active {
          var gen := if slots[i].generation == 0 then 1 else slots[i].generation;
          slots[i] := Buffer(q.size, q.resource, q.readCap, q.writeCap, q.owner, gen, true, slots[i].data);
          ZeroPayload(i);
          assert slots[i] == NewBuffer(b[i], q);
          return OK, Handle(i, gen);
        }
      }
      return UNAVAILABLE, 0;
    }

    method AccessCall(caps: Cap.CapTable, caller: nat, h: u32, cap: u32, write: bool)
      returns (status: nat, slot: Option<Index>)
      requires slots.Length == 16
      ensures (status, slot) == Access(View(), caps, caller, h, cap, write)
    {
      var d := Decode(h, COUNT);
      if d.Bad? {
        return INVALID_ARGUMENT, None;
      }
      if !slots[d.slot].active || slots[d.slot].generation != d.generation {
        return NOT_FOUND, None;
      }
      var expected := if write then slots[d.slot].writeCap else slots[d.slot].readCap;
      if cap != expected {
        return CAPABILITY_DENIED, None;
      }
      if !Cap.Check(caps, caller, cap, slots[d.slot].owner, if write then WRITE_OPERATION else READ_OPERATION,
                    if write then Cap.WRITE else Cap.READ, slots[d.slot].resource) {
        return CAPABILITY_DENIED, None;
      }
      return OK, Some(d.slot);
    }

    method RevokeCall(caller: nat, h: u32) returns (status: nat)
      requires slots.Length == 16
      modifies slots
      ensures (View(), status) == Revoke(old(View()), caller, h)
    {
      var d := Decode(h, COUNT);
      if d.Bad? {
        return INVALID_ARGUMENT;
      }
      ghost var b := View();
      var i := d.slot;
      if !slots[i].active || slots[i].generation != d.generation {
        return NOT_FOUND;
      }
      if caller != slots[i].owner {
        return DENIED;
      }
      slots[i] := slots[i].(active := false);
      var next := (slots[i].generation + 1) % TWO16;
      if next == 0 {
        next := 1;
      }
      slots[i] := slots[i].(generation := next);
      ZeroPayload(i);
      assert View() == Revoke(b, caller, h).0;
      return OK;
    }
  }
}
