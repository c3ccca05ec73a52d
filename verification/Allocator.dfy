/**
 The page pool of memory/allocator/fixed.c: first fit over 64 pages, with the
 block record copied into every page of the block.
 */
module Allocator {
  import opened Words
  import opened Status
  import opened Generations

  const PAGES: nat := 64

  datatype Record = Record(first: nat, count: nat, domain: nat, generation: nat, active: bool)

  type Pool = p: seq<Record> | |p| == 64 witness seq(64, i => Record(0, 0, 0, 1, false))

  type Index = i: nat | i < 64

  /** (size + 4095) / 4096 in 64-bit arithmetic. */
  function PagesFor(size: u64): nat {
    Add64(size, 4095) / 4096
  }

  ghost predicate SpanFree(p: Pool, start: nat, n: nat) {
    start + n <= 64 && forall i: Index :: start <= i < start + n ==> !p[i].active
  }

  /** Whether n pages from start are all free; requires them to be in the pool. */
  predicate AllFree(p: Pool, start: nat, n: nat)
    requires start + n <= 64
    ensures AllFree(p, start, n) <==> SpanFree(p, start, n)
    decreases n
  {
    n == 0 || (!p[start].active && AllFree(p, start + 1, n - 1))
  }

  /** The lowest start at or above from of n free pages. */
  function FirstFit(p: Pool, n: nat, from: nat): (r: Option<Index>)
    ensures r.Some? ==> from <= r.value && SpanFree(p, r.value, n)
    ensures r.Some? ==> forall s :: from <= s < r.value ==> !SpanFree(p, s, n)
    ensures r.None? ==> forall s :: from <= s < 64 ==> !SpanFree(p, s, n)
    decreases 65 - from
  {
    if from >= 64 || from + n > 64 then None
    else if AllFree(p, from, n) then Some(from)
    else FirstFit(p, n, from + 1)
  }

  /** n copies of a record from start. */
  function Fill(p: Pool, start: nat, n: nat, r: Record): (q: Pool)
    ensures forall i: Index :: q[i] == if start <= i < start + n then r else p[i]
  {
    seq(64, i requires 0 <= i < 64 => if start <= i < start + n then r else p[i])
  }

  datatype Allocation = Allocation(pool: Pool, status: nat, handle: nat)

  function HeadGeneration(p: Pool, start: Index): nat {
    if p[start].generation == 0 then 1 else p[start].generation
  }

  function NewRecord(p: Pool, start: Index, n: nat, domain: nat): Record {
    Record(start, n, domain, HeadGeneration(p, start), true)
  }

  /** lettuce_memory_allocate. */
  function Allocate(p: Pool, domain: u32, size: u64): Allocation {
    if domain == 0 || size == 0 then Allocation(p, INVALID_ARGUMENT, 0)
    else
      var n := PagesFor(size);
      if n > 65535 then Allocation(p, OVERFLOW, 0)
      else
        match FirstFit(p, n, 0)
        case None => Allocation(p, UNAVAILABLE, 0)
        case Some(start) =>
          Allocation(Fill(p, start, n, NewRecord(p, start, n, domain)), OK, Handle(start, HeadGeneration(p, start)))
  }

  /** lettuce_memory_init: frees every page and keeps its generation. */
  function InitPool(p: Pool): (q: Pool)
    ensures forall i: Index :: q[i] == Record(0, 0, 0, HeadGeneration(p, i), false)
  {
    seq(64, i requires 0 <= i < 64 => Record(0, 0, 0, HeadGeneration(p, i), false))
  }

  datatype Lookup = Found(page: Index) | Rejected(status: nat)

  /** The checks release and data share. */
  function Resolve(p: Pool, h: u32, domain: u32): Lookup {
    if domain == 0 then Rejected(INVALID_ARGUMENT)
    else
      match Decode(h, PAGES)
      case Bad => Rejected(INVALID_ARGUMENT)
      case Good(start, gen) =>
        if !p[start].active || p[start].generation != gen then Rejected(NOT_FOUND)
        else if p[start].first != start then Rejected(NOT_FOUND)
        else if p[start].domain != domain then Rejected(DENIED)
        else Found(start)
  }

  /** lettuce_memory_release. */
  function Release(p: Pool, h: u32, domain: u32): (Pool, nat) {
    match Resolve(p, h, domain)
    case Rejected(st) => (p, st)
    case Found(start) =>
      (Fill(p, start, p[start].count, Record(0, 0, 0, NextGeneration(p[start].generation), false)), OK)
  }

  // ----- the tiling -----

  /** Page i lies in a block of identical records that starts at its first page and ends inside the pool. */
  ghost predicate InBlock(p: Pool, i: Index) {
    var r := p[i];
    && r.first <= i < r.first + r.count <= 64
    && forall j: Index :: r.first <= j < r.first + r.count ==> p[j] == r
  }

  ghost predicate Tiled(p: Pool) {
    forall i: Index :: p[i].active ==> InBlock(p, i)
  }

  /** Every reachable pool: tiled, with live generations, and no block owned by the null domain. */
  ghost predicate PoolOk(p: Pool) {
    Tiled(p) && forall i: Index :: 1 <= p[i].generation < TWO16 && (p[i].active ==> 0 < p[i].domain < TWO32)
  }

  /** Two active pages are in the same block or in disjoint ones. */
  lemma BlocksDisjoint(p: Pool, i: Index, j: Index)
    requires Tiled(p) && p[i].active && p[j].active
    ensures p[i].first == p[j].first ==> p[i] == p[j]
    ensures p[i].first < p[j].first ==> p[i].first + p[i].count <= p[j].first
  {
    var f: Index := p[j].first;
    assert InBlock(p, i) && InBlock(p, j);
    assert p[f] == p[j];
  }

  /** Sizes the allocator rounds up without wrapping. */
  predicate Sound(size: u64) {
    size + 4095 < TWO64
  }

  lemma SoundPages(size: u64)
    requires size != 0 && Sound(size)
    ensures PagesFor(size) == (size + 4095) / 4096 >= 1
  {
  }

  /** The span taken by a successful allocation is the lowest free one of its length. */
  ghost predicate LowestFit(p: Pool, s: nat, n: nat) {
    SpanFree(p, s, n) && forall lower :: 0 <= lower < s ==> !SpanFree(p, lower, n)
  }

  /**
   An allocation with valid arguments takes the lowest free span of the rounded
   length, and is refused only if there is none; a refused one changes nothing.
   */
  lemma AllocateExact(p: Pool, domain: u32, size: u64)
    requires Tiled(p)
    ensures var n, r := PagesFor(size), Allocate(p, domain, size);
      && Tiled(r.pool)
      && (r.status == INVALID_ARGUMENT <==> domain == 0 || size == 0)
      && (r.status == OVERFLOW <==> domain != 0 && size != 0 && n > 65535)
      && (r.status == UNAVAILABLE <==> domain != 0 && size != 0 && n <= 65535 && forall s :: !SpanFree(p, s, n))
      && (r.status == OK <==> domain != 0 && size != 0 && exists s :: SpanFree(p, s, n))
      && (r.status != OK ==> r.pool == p && r.handle == 0)
      && (r.status == OK ==>
            var s := r.handle % TWO16 - 1;
            s < 64 && LowestFit(p, s, n) && r.pool == Fill(p, s, n, NewRecord(p, s, n, domain)))
    ensures size != 0 && Sound(size) ==> PagesFor(size) == (size + 4095) / 4096 >= 1
  {
    var n, r := PagesFor(size), Allocate(p, domain, size);
    if size != 0 && Sound(size) { SoundPages(size); }
    var f := FirstFit(p, n, 0);
    if f.Some? {
      assert n <= 64 && SpanFree(p, f.value, n);
      AllocateKeeps(p, f.value, n, NewRecord(p, f.value, n, domain));
    } else {
      forall s ensures !SpanFree(p, s, n) {
      }
    }
  }

  /**
   The handle of a successful allocation resolves for its own domain and is denied
   to every other; a wrapped size gets the handle of whatever page 0 holds.
   */
  lemma AllocatedHandleResolves(p: Pool, domain: u32, size: u64, other: u32)
    requires PoolOk(p) && other != 0
    ensures var r := Allocate(p, domain, size);
      r.status == OK ==>
        && r.handle < TWO32
        && Resolve(r.pool, r.handle, other) ==
           if !Sound(size) then Resolve(p, Handle(0, p[0].generation), other)
           else if other == domain then Found(r.handle % TWO16 - 1) else Rejected(DENIED)
  {
    var r := Allocate(p, domain, size);
    if r.status == OK {
      WrappedSizeReservesNothing(p, domain, size);
      assert 1 <= p[0].generation < TWO16;
      if Sound(size) {
        AllocateExact(p, domain, size);
        SoundPages(size);
        var s: Index := r.handle % TWO16 - 1;
        HandleRoundTrip(s, HeadGeneration(p, s), PAGES, 1);
      } else {
        HandleRoundTrip(0, p[0].generation, PAGES, 1);
      }
    }
  }

  lemma AllocateKeeps(p: Pool, s: nat, n: nat, r: Record)
    requires Tiled(p) && SpanFree(p, s, n) && r.first == s && r.count == n && r.active
    ensures Tiled(Fill(p, s, n, r))
  {
  }

  /** The handle's page is the head of a live block, under the handle's generation. */
  predicate Heads(p: Pool, h: u32)
    requires 1 <= h % 65536 <= 64
  {
    var r := p[h % 65536 - 1];
    r.active && r.first == h % 65536 - 1 && r.generation == h / 65536
  }

  /** A release frees exactly the block its handle heads; a rejected one changes nothing. */
  lemma ReleaseExact(p: Pool, h: u32, domain: u32)
    requires Tiled(p)
    ensures var (q, st) := Release(p, h, domain);
      && Tiled(q)
      && (st == INVALID_ARGUMENT <==> domain == 0 || !(1 <= h % 65536 <= 64))
      && (st == NOT_FOUND <==> domain != 0 && 1 <= h % 65536 <= 64 && !Heads(p, h))
      && (st == DENIED <==> domain != 0 && 1 <= h % 65536 <= 64 && Heads(p, h) && p[h % 65536 - 1].domain != domain)
      && (st == OK <==> domain != 0 && 1 <= h % 65536 <= 64 && Heads(p, h) && p[h % 65536 - 1].domain == domain)
      && (st != OK ==> q == p)
      && (st == OK ==>
            var s := h % TWO16 - 1;
            && s < 64 && p[s].active && p[s].first == s && p[s].domain == domain && h == Handle(s, p[s].generation)
            && (forall i: Index :: (p[i].active && p[i].first == s) <==> s <= i < s + p[s].count)
            && (forall i: Index :: if s <= i < s + p[s].count
                                   then !q[i].active && q[i].generation == NextGeneration(p[s].generation)
                                   else q[i] == p[i]))
  {
  }

  // ----- conservation -----

  function FreeFrom(p: Pool, i: nat): nat
    requires i <= 64
    decreases 64 - i
  {
    if i == 64 then 0 else (if p[i].active then 0 else 1) + FreeFrom(p, i + 1)
  }

  /** The sizes of the blocks whose head is at or above i. */
  function BlocksFrom(p: Pool, i: nat): nat
    requires i <= 64
    decreases 64 - i
  {
    if i == 64 then 0 else (if p[i].active && p[i].first == i then p[i].count else 0) + BlocksFrom(p, i + 1)
  }

  /** Past a block's head, neither sum moves until the block ends. */
  lemma {:induction false} SkipBlock(p: Pool, h: Index, i: nat)
    requires Tiled(p) && p[h].active && p[h].first == h && h < i <= h + p[h].count <= 64
    ensures FreeFrom(p, i) == FreeFrom(p, h + p[h].count) && BlocksFrom(p, i) == BlocksFrom(p, h + p[h].count)
    decreases 64 - i
  {
    if i < h + p[h].count {
      assert InBlock(p, h);
      assert p[i] == p[h];
      SkipBlock(p, h, i + 1);
    }
  }

  lemma {:induction false} CoverFrom(p: Pool, i: nat)
    requires Tiled(p) && i <= 64 && (i < 64 && p[i].active ==> p[i].first == i)
    ensures FreeFrom(p, i) + BlocksFrom(p, i) == 64 - i
    decreases 64 - i
  {
    if i < 64 {
      if p[i].active {
        assert InBlock(p, i);
        var e := i + p[i].count;
        SkipBlock(p, i, i + 1);
        if e < 64 && p[e].active {
          NextIsHead(p, i, e);
        }
        CoverFrom(p, e);
      } else {
        if i + 1 < 64 && p[i + 1].active {
          assert InBlock(p, i + 1);
        }
        CoverFrom(p, i + 1);
      }
    }
  }

  lemma NextIsHead(p: Pool, i: Index, e: Index)
    requires Tiled(p) && p[i].active && p[i].first == i && e == i + p[i].count && p[e].active
    ensures p[e].first == e
  {
    assert InBlock(p, i) && InBlock(p, e);
    var last: Index := e - 1;
    assert p[last] == p[i];
  }

  /** Free pages and block sizes always add up to the pool. */
  lemma PoolConserved(p: Pool)
    requires Tiled(p)
    ensures FreeFrom(p, 0) + BlocksFrom(p, 0) == PAGES
  {
    if p[0].active { assert InBlock(p, 0); }
    CoverFrom(p, 0);
  }

  // ----- handles over whole runs -----

  datatype PoolOp = AllocateOp(domain: u32, size: u64) | ReleaseOp(handle: u32, owner: u32) | InitOp

  function Apply(p: Pool, op: PoolOp): Pool {
    match op
    case AllocateOp(d, n) => Allocate(p, d, n).pool
    case ReleaseOp(h, d) => Release(p, h, d).0
    case InitOp => InitPool(p)
  }

  function Run(p: Pool, ops: seq<PoolOp>): Pool
    decreases |ops|
  {
    if ops == [] then p else Run(Apply(p, ops[0]), ops[1..])
  }

  lemma ApplyKeeps(p: Pool, op: PoolOp)
    requires Tiled(p)
    ensures Tiled(Apply(p, op))
  {
    if op.AllocateOp? {
      AllocateExact(p, op.domain, op.size);
    } else if op.ReleaseOp? {
      ReleaseExact(p, op.handle, op.owner);
    }
  }

  /** The pool is a disjoint tiling in every reachable state. */
  lemma {:induction false} RunKeepsTiling(p: Pool, ops: seq<PoolOp>)
    requires Tiled(p)
    ensures Tiled(Run(p, ops)) && FreeFrom(Run(p, ops), 0) + BlocksFrom(Run(p, ops), 0) == PAGES
    ensures PoolOk(p) ==> PoolOk(Run(p, ops))
    decreases |ops|
  {
    if ops == [] {
      PoolConserved(p);
    } else {
      ApplyKeeps(p, ops[0]);
      if PoolOk(p) { ApplyKeepsOk(p, ops[0]); }
      RunKeepsTiling(Apply(p, ops[0]), ops[1..]);
    }
  }

  lemma ApplyKeepsOk(p: Pool, op: PoolOp)
    requires PoolOk(p)
    ensures PoolOk(Apply(p, op))
  {
    ApplyKeeps(p, op);
  }

  // ----- when a generation can drop -----

  /** Where the span an allocation takes starts, if it takes any. */
  function Taken(p: Pool, op: PoolOp): Option<Index> {
    if op.AllocateOp? && op.domain != 0 && op.size != 0 then FirstFit(p, PagesFor(op.size), 0) else None
  }

  /** The call allocates a span with page i behind its head, and the head's generation is below g. */
  predicate Drags(p: Pool, op: PoolOp, i: Index, g: nat) {
    var t := Taken(p, op);
    t.Some? && t.value < i < t.value + PagesFor(op.size) && p[t.value].generation < g
  }

  /** The call releases the block of page i under the last generation. */
  predicate Wraps(p: Pool, op: PoolOp, i: Index) {
    op.ReleaseOp? && p[i].active && p[i].generation == 65535 &&
    var found := Resolve(p, op.handle, op.owner);
    found.Found? && found.page == p[i].first
  }

  lemma AllocatedPage(p: Pool, op: PoolOp, i: Index)
    requires PoolOk(p) && op.AllocateOp?
    ensures var t, q := Taken(p, op), Apply(p, op)[i];
      if t.Some? && t.value <= i < t.value + PagesFor(op.size)
      then !p[i].active && q.active && q.first == t.value && q.generation == p[t.value].generation
      else q == p[i]
  {
  }

  lemma AllocationLowers(p: Pool, op: PoolOp, i: Index)
    requires PoolOk(p) && op.AllocateOp?
    ensures Apply(p, op)[i].generation < p[i].generation <==> Drags(p, op, i, p[i].generation)
  {
    AllocatedPage(p, op, i);
  }

  lemma ReleaseLowers(p: Pool, op: PoolOp, i: Index)
    requires PoolOk(p) && op.ReleaseOp?
    ensures Apply(p, op)[i].generation < p[i].generation <==> Wraps(p, op, i)
  {
    ReleaseExact(p, op.handle, op.owner);
  }

  /**
   A page's generation drops exactly when an allocation puts the page behind a
   head of lower generation, or a release wraps it.
   */
  lemma GenerationDropsIff(p: Pool, op: PoolOp, i: Index)
    requires PoolOk(p)
    ensures Apply(p, op)[i].generation < p[i].generation <==> Drags(p, op, i, p[i].generation) || Wraps(p, op, i)
  {
    match op
    case AllocateOp(_, _) => AllocationLowers(p, op, i);
    case ReleaseOp(_, _) => ReleaseLowers(p, op, i);
    case InitOp =>
  }

  // ----- dead handles -----

  /** The handle of page i under g is dead: the page is past g, or is inside a block of generation g. */
  predicate Dead(p: Pool, i: Index, g: nat) {
    g < p[i].generation || (p[i].generation == g && p[i].active && p[i].first != i)
  }

  lemma DeadThroughAllocation(p: Pool, op: PoolOp, i: Index, g: nat)
    requires PoolOk(p) && 1 <= g && Dead(p, i, g) && op.AllocateOp?
    ensures Dead(Apply(p, op), i, g) <==> !Drags(p, op, i, g)
  {
    AllocatedPage(p, op, i);
  }

  lemma DeadThroughRelease(p: Pool, op: PoolOp, i: Index, g: nat)
    requires PoolOk(p) && 1 <= g && Dead(p, i, g) && op.ReleaseOp?
    ensures Dead(Apply(p, op), i, g) <==> !Wraps(p, op, i)
  {
    ReleaseExact(p, op.handle, op.owner);
  }

  /** The call is an init that uncovers page i under exactly generation g. */
  predicate Uncovers(p: Pool, op: PoolOp, i: Index, g: nat) {
    op.InitOp? && p[i].generation == g
  }

  /** The three ways a call can give a dead handle its generation back. */
  predicate Endangers(p: Pool, op: PoolOp, i: Index, g: nat) {
    Drags(p, op, i, g) || Wraps(p, op, i) || Uncovers(p, op, i, g)
  }

  /** A dead handle stays dead through a call exactly unless the call endangers it. */
  lemma DeadStepIff(p: Pool, op: PoolOp, i: Index, g: nat)
    requires PoolOk(p) && 1 <= g && Dead(p, i, g)
    ensures Dead(Apply(p, op), i, g) <==> !Endangers(p, op, i, g)
  {
    match op
    case AllocateOp(_, _) => DeadThroughAllocation(p, op, i, g);
    case ReleaseOp(_, _) => DeadThroughRelease(p, op, i, g);
    case InitOp =>
  }

  /** No call of the run endangers the handle. */
  ghost predicate Guarded(p: Pool, ops: seq<PoolOp>, i: Index, g: nat)
    decreases |ops|
  {
    ops == [] || (!Endangers(p, ops[0], i, g) && Guarded(Apply(p, ops[0]), ops[1..], i, g))
  }

  lemma {:induction false} StaysDead(p: Pool, ops: seq<PoolOp>, i: Index, g: nat)
    requires PoolOk(p) && 1 <= g && Dead(p, i, g) && Guarded(p, ops, i, g)
    ensures PoolOk(Run(p, ops)) && Dead(Run(p, ops), i, g)
    decreases |ops|
  {
    if ops != [] {
      ApplyKeepsOk(p, ops[0]);
      DeadStepIff(p, ops[0], i, g);
      StaysDead(Apply(p, ops[0]), ops[1..], i, g);
    }
  }

  lemma DeadIsRejected(p: Pool, i: Index, g: u16, domain: u32)
    requires Dead(p, i, g)
    ensures Handle(i, g) < TWO32 && Resolve(p, Handle(i, g), domain).Rejected?
  {
    HandleRoundTrip(i, g, PAGES, 1);
  }

  /** A release leaves its own handle dead, short of the wrap. */
  lemma ReleaseKills(p: Pool, h: u32, owner: u32)
    requires PoolOk(p) && Resolve(p, h, owner).Found?
    ensures var i, q := Resolve(p, h, owner).page, Release(p, h, owner).0;
      PoolOk(q) && h == Handle(i, p[i].generation) && (p[i].generation < 65535 ==> Dead(q, i, p[i].generation))
  {
    ApplyKeepsOk(p, ReleaseOp(h, owner));
    ReleaseExact(p, h, owner);
  }

  /**
   Once released, a handle is rejected for every domain after any further calls,
   as long as none of them puts its page behind a head of lower generation than
   the handle's, wraps the generation, or is an init while the page lies in a
   block of the handle's own generation.
   */
  lemma ReleasedHandleRejected(p: Pool, h: u32, owner: u32, ops: seq<PoolOp>, domain: u32)
    requires PoolOk(p) && Resolve(p, h, owner).Found?
    ensures var i := Resolve(p, h, owner).page;
      var g, q := p[i].generation, Release(p, h, owner).0;
      g < 65535 && Guarded(q, ops, i, g) ==> Resolve(Run(q, ops), h, domain).Rejected?
  {
    var i := Resolve(p, h, owner).page;
    var g, q := p[i].generation, Release(p, h, owner).0;
    ReleaseKills(p, h, owner);
    if g < 65535 && Guarded(q, ops, i, g) {
      StaysDead(q, ops, i, g);
      DeadIsRejected(Run(q, ops), i, g, domain);
    }
  }

  // ----- the condition is exact: any other handle can be made live without such a call -----

  lemma {:induction false} FillLowersFree(p: Pool, f: Index, r: Record, i: nat)
    requires i <= 64 && !p[f].active && r.active
    ensures FreeFrom(Fill(p, f, 1, r), i) + (if i <= f then 1 else 0) == FreeFrom(p, i)
    decreases 64 - i
  {
    if i < 64 { FillLowersFree(p, f, r, i + 1); }
  }

  /** A request for one page. */
  predicate OnePage(op: PoolOp) {
    op.AllocateOp? && op.domain != 0 && 0 < op.size <= 4096
  }

  /** A one-page allocation takes the lowest free page, which is at or below any free one. */
  lemma TakesLowest(p: Pool, op: PoolOp, i: Index) returns (f: Index)
    requires PoolOk(p) && !p[i].active && OnePage(op)
    ensures f <= i && !p[f].active && Apply(p, op) == Fill(p, f, 1, Record(f, 1, op.domain, p[f].generation, true))
    ensures forall g: nat :: !Endangers(p, op, i, g)
  {
    assert SpanFree(p, i, 1);
    OnePageEach(op.size);
    var n := PagesFor(op.size);
    assert FirstFit(p, n, 0) == FirstFit(p, 1, 0);
    f := FirstFit(p, n, 0).value;
    assert n == 1;
    assert Taken(p, op) == Some(f);
  }

  lemma OnePageEach(size: u64)
    requires 0 < size <= 4096
    ensures PagesFor(size) == 1
  {
    SoundPages(size);
    assert 4096 <= size + 4095 < 2 * 4096;
  }

  /** Releasing the block page i lies in moves the page to the next generation. */
  lemma ReleasesBlock(p: Pool, i: Index) returns (op: PoolOp)
    requires PoolOk(p) && p[i].active && p[i].generation < 65535
    ensures op.ReleaseOp? && PoolOk(Apply(p, op)) && !Wraps(p, op, i)
    ensures !Apply(p, op)[i].active && Apply(p, op)[i].generation == p[i].generation + 1
  {
    assert InBlock(p, i);
    var head: Index := p[i].first;
    HandleRoundTrip(head, p[i].generation, PAGES, 1);
    op := ReleaseOp(Handle(head, p[i].generation), p[i].domain);
    assert p[head] == p[i];
    ApplyKeepsOk(p, op);
  }

  /** The call brings the handle nearer to life: a higher generation or fewer free pages, and no danger on the way. */
  ghost predicate Nears(p: Pool, op: PoolOp, i: Index, g: nat) {
    var q := Apply(p, op);
    && PoolOk(q) && !Dead(q, i, g) && !Endangers(p, op, i, g) && p[i].generation <= q[i].generation <= g
    && (q[i].generation == p[i].generation ==> FreeFrom(q, 0) < FreeFrom(p, 0))
  }

  lemma ReleasingNears(p: Pool, i: Index, g: u16) returns (op: PoolOp)
    requires PoolOk(p) && p[i].active && p[i].generation < g
    ensures Nears(p, op, i, g)
  {
    op := ReleasesBlock(p, i);
  }

  lemma TakingNears(p: Pool, op: PoolOp, i: Index, g: u16)
    requires PoolOk(p) && !p[i].active && p[i].generation <= g && OnePage(op)
    ensures Nears(p, op, i, g)
  {
    var f := TakesLowest(p, op, i);
    var r := Record(f, 1, op.domain, p[f].generation, true);
    FillLowersFree(p, f, r, 0);
    ApplyKeepsOk(p, op);
    assert Apply(p, op)[i] == if f == i then r else p[i];
  }

  lemma {:induction false} Revive(p: Pool, i: Index, g: u16) returns (ops: seq<PoolOp>, d: u32)
    requires PoolOk(p) && !Dead(p, i, g)
    ensures Handle(i, g) < TWO32 && Guarded(p, ops, i, g) && Resolve(Run(p, ops), Handle(i, g), d) == Found(i)
    decreases g - p[i].generation, FreeFrom(p, 0)
  {
    HandleRoundTrip(i, g, PAGES, 1);
    if p[i].active && p[i].generation == g {
      ops, d := [], p[i].domain;
    } else {
      var op := AllocateOp(1, 4096);
      if p[i].active { op := ReleasingNears(p, i, g); } else { TakingNears(p, op, i, g); }
      var rest;
      rest, d := Revive(Apply(p, op), i, g);
      ops := [op] + rest;
      assert ops[1..] == rest;
    }
  }

  /** A handle can become live in some guarded run exactly when it is not dead. */
  lemma RevivableIff(p: Pool, i: Index, g: u16)
    requires PoolOk(p) && 1 <= g
    ensures Handle(i, g) < TWO32
    ensures !Dead(p, i, g) <==>
      exists ops: seq<PoolOp>, d: u32 :: Guarded(p, ops, i, g) && Resolve(Run(p, ops), Handle(i, g), d) == Found(i)
  {
    HandleRoundTrip(i, g, PAGES, 1);
    if Dead(p, i, g) {
      forall ops: seq<PoolOp>, d: u32 | Guarded(p, ops, i, g)
        ensures Resolve(Run(p, ops), Handle(i, g), d) != Found(i) {
        StaysDead(p, ops, i, g);
        DeadIsRejected(Run(p, ops), i, g, d);
      }
    } else {
      var ops, d := Revive(p, i, g);
    }
  }

  /** After an init every handle is rejected, and exactly those not older than their page can be made live again. */
  lemma InitRevivesIff(p: Pool, i: Index, g: u16, domain: u32)
    requires PoolOk(p) && 1 <= g
    ensures Handle(i, g) < TWO32 && Resolve(InitPool(p), Handle(i, g), domain).Rejected?
    ensures p[i].generation <= g <==>
      exists ops: seq<PoolOp>, d: u32 ::
        Guarded(InitPool(p), ops, i, g) && Resolve(Run(InitPool(p), ops), Handle(i, g), d) == Found(i)
  {
    ApplyKeepsOk(p, InitOp);
    RevivableIff(InitPool(p), i, g);
  }

  /** The first allocation after an init is given the very handle that page 0 headed a block under before it. */
  lemma InitReissues(p: Pool, h: u32, owner: u32, domain: u32, size: u64)
    requires PoolOk(p) && Resolve(p, h, owner) == Found(0) && domain != 0 && 0 < size <= 64 * 4096
    ensures Allocate(InitPool(p), domain, size).status == OK && Allocate(InitPool(p), domain, size).handle == h
    ensures Resolve(Allocate(InitPool(p), domain, size).pool, h, domain) == Found(0)
  {
    var q, n := InitPool(p), PagesFor(size);
    SoundPages(size);
    assert SpanFree(q, 0, n);
    assert FirstFit(q, n, 0) == Some(0);
    assert h == Handle(0, p[0].generation);
  }

  // ----- a page that only ever heads its own blocks -----

  /** The page is free or heads its own block. */
  predicate NotInterior(p: Pool, i: Index) {
    p[i].active ==> p[i].first == i
  }

  /** The page is never an interior page of a block during the run. */
  ghost predicate NeverInterior(p: Pool, ops: seq<PoolOp>, i: Index)
    decreases |ops|
  {
    NotInterior(p, i) && (ops == [] || NeverInterior(Apply(p, ops[0]), ops[1..], i))
  }

  predicate Frees(p: Pool, op: PoolOp, i: Index) {
    op.ReleaseOp? && Resolve(p, op.handle, op.owner) == Found(i)
  }

  /** How often the run releases a block headed by the page. */
  function HeadReleases(p: Pool, ops: seq<PoolOp>, i: Index): nat
    decreases |ops|
  {
    if ops == [] then 0 else (if Frees(p, ops[0], i) then 1 else 0) + HeadReleases(Apply(p, ops[0]), ops[1..], i)
  }

  lemma ApplyGeneration(p: Pool, op: PoolOp, i: Index)
    requires Tiled(p) && NotInterior(p, i) && NotInterior(Apply(p, op), i) && p[i].generation != 0
    ensures Apply(p, op)[i].generation == if Frees(p, op, i) then NextGeneration(p[i].generation) else p[i].generation
  {
  }

  lemma ApplyCounts(p: Pool, op: PoolOp, i: Index, k: nat)
    requires Tiled(p) && NotInterior(p, i) && NotInterior(Apply(p, op), i) && p[i].generation == Generation(k)
    ensures Tiled(Apply(p, op)) && Apply(p, op)[i].generation == Generation(k + if Frees(p, op, i) then 1 else 0)
  {
    ApplyKeeps(p, op);
    ApplyGeneration(p, op, i);
    NextIsGeneration(k);
  }

  lemma {:induction false} GenerationCounts(p: Pool, ops: seq<PoolOp>, i: Index, k: nat)
    requires Tiled(p) && NeverInterior(p, ops, i) && p[i].generation == Generation(k)
    ensures Run(p, ops)[i].generation == Generation(k + HeadReleases(p, ops, i)) && NotInterior(Run(p, ops), i)
    decreases |ops|
  {
    if ops != [] {
      assert NeverInterior(Apply(p, ops[0]), ops[1..], i);
      ApplyCounts(p, ops[0], i, k);
      GenerationCounts(Apply(p, ops[0]), ops[1..], i, k + if Frees(p, ops[0], i) then 1 else 0);
    }
  }

  /**
   Where a page is never interior its generation only counts releases: a handle
   resolves later exactly for the owner of a block headed there after a multiple
   of 65535 releases, and a released one is dead for 65534 more.
   */
  lemma {:induction false} HeadHandleLifetime(p: Pool, ops: seq<PoolOp>, i: Index, k: nat, domain: u32)
    requires Tiled(p) && NeverInterior(p, ops, i) && p[i].generation == Generation(k)
    ensures var q, h := Run(p, ops), Handle(i, Generation(k));
      && h < TWO32
      && (Resolve(q, h, domain) == Found(i) <==>
            domain != 0 && q[i].active && q[i].domain == domain && HeadReleases(p, ops, i) % 65535 == 0)
      && (0 < HeadReleases(p, ops, i) < 65535 ==> Resolve(q, h, domain).Rejected?)
  {
    GenerationCounts(p, ops, i, k);
    GenerationRepeats(k, HeadReleases(p, ops, i));
    SmallMultiple(HeadReleases(p, ops, i));
    HandleRoundTrip(i, Generation(k), PAGES, 1);
  }

  // ----- a released handle that comes back -----

  lemma TakesOne(p: Pool, s: Index, g: nat)
    requires s <= 1 && !p[s].active && p[s].generation == g != 0 && (s == 1 ==> p[0].active)
    ensures Allocate(p, 1, 4096).pool == Fill(p, s, 1, Record(s, 1, 1, g, true))
  {
  }

  lemma Gives(p: Pool, s: Index, n: nat, g: nat)
    requires p[s] == Record(s, n, 1, g, true) && g < TWO16 - 1
    ensures Handle(s, g) < TWO32
    ensures Release(p, Handle(s, g), 1).0 == Fill(p, s, n, Record(0, 0, 0, g + 1, false))
  {
  }

  /** Take page 1 and give it back. */
  function Cycle(g: u16): seq<PoolOp> {
    [AllocateOp(1, 4096), ReleaseOp(Handle(1, g), 1)]
  }

  /** A two-page block drags page 1 back to page 0's younger generation. */
  function DragBack(): seq<PoolOp> {
    [ReleaseOp(Handle(0, 1), 1), AllocateOp(1, 8192), ReleaseOp(Handle(0, 2), 1),
     AllocateOp(1, 4096), AllocateOp(1, 4096)]
  }

  /** Page 0 is held under its first generation and page 1 is free with generation g. */
  predicate Worn(p: Pool, g: nat) {
    p[0] == Record(0, 1, 1, 1, true) && !p[1].active && p[1].generation == g
  }

  lemma CycleWears(p: Pool, g: u16)
    requires Worn(p, g) && 0 < g < TWO16 - 1
    ensures Worn(Run(p, Cycle(g)), g + 1)
  {
    var ops := Cycle(g);
    var q := Apply(p, ops[0]);
    TakesOne(p, 1, g);
    Gives(q, 1, 1, g);
    assert ops[1..] == [ops[1]];
    assert Run(p, ops) == Run(q, ops[1..]) == Apply(q, ops[1]);
  }

  lemma DragBackRevives(p: Pool)
    requires Worn(p, 4)
    ensures var q := Run(p, DragBack()); q[1] == Record(1, 1, 1, 3, true)
  {
  }

  /**
   The staleness condition is needed.  From a fresh pool, page 1 is taken and
   released under generations 1, 2 and 3; the handle of generation 3 is dead, and
   live again once page 1 has been inside a two-page block.
   */
  lemma ReleasedHandleRevives(p: Pool)
    requires forall i: Index :: p[i] == Record(0, 0, 0, 1, false)
    ensures var worn := Run(Run(Run(Run(p, [AllocateOp(1, 4096)]), Cycle(1)), Cycle(2)), Cycle(3));
      Resolve(worn, Handle(1, 3), 1).Rejected? && Resolve(Run(worn, DragBack()), Handle(1, 3), 1) == Found(1)
  {
    var first := [AllocateOp(1, 4096)];
    TakesOne(p, 0, 1);
    var q := Run(p, first);
    assert q == Apply(p, first[0]);
    CycleWears(q, 1);
    CycleWears(Run(q, Cycle(1)), 2);
    CycleWears(Run(Run(q, Cycle(1)), Cycle(2)), 3);
    DragBackRevives(Run(Run(Run(q, Cycle(1)), Cycle(2)), Cycle(3)));
    HandleRoundTrip(1, 3, PAGES, Handle(1, 3));
  }

  /** The rounding wraps exactly for the top 4095 sizes, and then an allocation succeeds without reserving a page. */
  lemma WrappedSizeReservesNothing(p: Pool, domain: u32, size: u64)
    requires domain != 0 && size != 0
    ensures PagesFor(size) == 0 <==> !Sound(size)
    ensures !Sound(size) ==> Allocate(p, domain, size) == Allocation(p, OK, Handle(0, HeadGeneration(p, 0)))
  {
    if !Sound(size) { assert Fill(p, 0, 0, NewRecord(p, 0, 0, domain)) == p; }
  }

  // ----- the pool as the kernel keeps it -----

  class PagePool {
    const records: array<Record>

    ghost predicate Valid()
      reads records
    {
      records.Length == 64 && Tiled(records[..])
    }

    ghost function View(): Pool
      requires records.Length == 64
      reads records
    {
      records[..]
    }

    constructor ()
      ensures Valid() && fresh(records)
      ensures forall i: Index :: records[i] == Record(0, 0, 0, Generation(0), false)
    {
      records := new Record[64](i => Record(0, 0, 0, 1, false));
    }

    method InitCall()
      requires Valid()
      modifies records
      ensures Valid() && View() == InitPool(old(View()))
    {
      for i := 0 to 64
        invariant forall j: Index :: records[j] == if j < i then InitPool(old(View()))[j] else old(records[j])
      {
        records[i] := Record(0, 0, 0, if records[i].generation == 0 then 1 else records[i].generation, false);
      }
    }

    method SpanIsFree(start: nat, n: nat) returns (free: bool)
      requires records.Length == 64 && start + n <= 64
      ensures free == SpanFree(View(), start, n)
    {
      for page := 0 to n
        invariant forall i: Index :: start <= i < start + page ==> !records[i].active
      {
        if records[start + page].active {
          return false;
        }
      }
      return true;
    }

    method FillSpan(start: nat, n: nat, r: Record)
      requires records.Length == 64 && start + n <= 64
      modifies records
      ensures View() == Fill(old(View()), start, n, r)
    {
      for page := 0 to n
        invariant forall i: Index :: records[i] == if start <= i < start + page then r else old(records[i])
      {
        records[start + page] := r;
      }
    }

    method AllocateCall(domain: u32, size: u64) returns (status: nat, handle: nat)
      requires Valid()
      modifies records
      ensures Valid() && Allocation(View(), status, handle) == Allocate(old(View()), domain, size)
    {
      handle := 0;
      if domain == 0 || size == 0 {
        return INVALID_ARGUMENT, 0;
      }
      ApplyKeeps(View(), AllocateOp(domain, size));
      var n := PagesFor(size);
      if n > 65535 {
        return OVERFLOW, 0;
      }
      ghost var p := View();
      var start := 0;
      while start + n <= 64
        invariant View() == p
        invariant start <= 64 && (n == 0 ==> start == 0) && FirstFit(p, n, start) == FirstFit(p, n, 0)
      {
        var free := SpanIsFree(start, n);
        if free {
          var gen := if records[start].generation == 0 then 1 else records[start].generation;
          FillSpan(start, n, Record(start, n, domain, gen, true));
          return OK, Handle(start, gen);
        }
        start := start + 1;
      }
      return UNAVAILABLE, 0;
    }

    method ResolveCall(h: u32, domain: u32) returns (r: Lookup)
      requires records.Length == 64
      ensures r == Resolve(View(), h, domain)
    {
      if domain == 0 {
        return Rejected(INVALID_ARGUMENT);
      }
      var d := Decode(h, PAGES);
      if d.Bad? {
        return Rejected(INVALID_ARGUMENT);
      }
      if !records[d.slot].active || records[d.slot].generation != d.generation || records[d.slot].first != d.slot {
        return Rejected(NOT_FOUND);
      }
      if records[d.slot].domain != domain {
        return Rejected(DENIED);
      }
      return Found(d.slot);
    }

    method ReleaseCall(h: u32, domain: u32) returns (status: nat)
      requires Valid()
      modifies records
      ensures Valid() && (View(), status) == Release(old(View()), h, domain)
    {
      ReleaseExact(View(), h, domain);
      var r := ResolveCall(h, domain);
      if r.Rejected? {
        return r.status;
      }
      assert InBlock(View(), r.page);
      var next := (records[r.page].generation + 1) % TWO16;
      if next == 0 {
        next := 1;
      }
      FillSpan(r.page, records[r.page].count, Record(0, 0, 0, next, false));
      return OK;
    }
  }
}
