/**
 Isolation of the domains' address spaces, and agreement of the TLB with the
 tables although domains are switched without any flush.
 */
module Tlb {
  import opened Words
  import opened Mmu

  // ----- what user code can reach -----

  predicate UserReads(w: Leaf) {
    w.Leaf? && Has(w.desc, EL0)
  }

  predicate UserWrites(w: Leaf) {
    UserReads(w) && !Has(w.desc, READ_ONLY)
  }

  predicate UserExecutes(w: Leaf) {
    w.Leaf? && !Has(w.desc, UXN)
  }

  function Translate(y: Layout, d: Domain, page: Page): Leaf {
    Walk(Memory(y), Root(y, d), page)
  }

  /** Page 0x41000 is the first of the service region. */
  function At(i: nat): nat {
    0x41000 + i
  }

  function WritablePages(d: Domain): set<nat> {
    {At(Private(d)), At(Stack(d)), At(SHARED)}
  }

  function ReadablePages(d: Domain): set<nat> {
    WritablePages(d) + {At(CODE)} + if d == A then {At(RO)} else {}
  }

  /** The access rights of the page at an L3 index, by what the domain keeps there. */
  lemma UserPageRights(y: Layout, d: Domain, i: nat)
    requires LayoutOk(y) && i < 512
    ensures var u := UserPage(y, d, i);
      && (UserReads(u) <==> At(i) in ReadablePages(d))
      && (UserWrites(u) <==> At(i) in WritablePages(d))
      && (UserExecutes(u) <==> i == CODE)
  {
    PageBits(RegionOf(y, d).privatePa, USER_RW);
    PageBits(RegionOf(y, d).stackPa, USER_RW);
    PageBits(y.code, USER_CODE);
    PageBits(y.shared, USER_RW);
    PageBits(y.readOnly, USER_RO);
  }

  /** For every page: user code of a domain reads, writes and executes exactly the pages it was given. */
  lemma ReachExactly(y: Layout, d: Domain, page: Page)
    requires LayoutOk(y)
    ensures UserReads(Translate(y, d, page)) <==> page in ReadablePages(d)
    ensures UserWrites(Translate(y, d, page)) <==> page in WritablePages(d)
    ensures UserExecutes(Translate(y, d, page)) <==> page == At(CODE)
  {
    WalkIsMapping(y, d, page);
    assert page == page / 512 * 512 + page % 512;
    if page / 512 == 520 {
      UserPageRights(y, d, page % 512);
    } else {
      BlocksSupervised();
      assert forall i :: i in ReadablePages(d) ==> i / 512 == 520;
    }
  }

  /** Kernel RAM and the device windows are mapped for the supervisor only, identically in every domain. */
  lemma SupervisorOnly(y: Layout, d: Domain, page: Page)
    requires LayoutOk(y) && page / 512 in {64, 72, 512}
    ensures var w := Translate(y, d, page);
      w.Leaf? && !UserReads(w) && !UserExecutes(w) && forall e: Domain :: Translate(y, e, page) == w
  {
    WalkIsMapping(y, d, page);
    forall e: Domain ensures Translate(y, e, page) == Translate(y, d, page) {
      WalkIsMapping(y, e, page);
    }
    BlocksSupervised();
  }

  /** How many pages a leaf covers. */
  function Span(level: nat): (n: nat)
    ensures n > 0
  {
    if level == 1 then 0x4_0000 else if level == 2 then 512 else 1
  }

  /** Where the pages of the service region are, by virtual address, and what backs them. */
  function BackedBy(y: Layout, d: Domain, va: nat): Option<nat> {
    if va == 0x4105_0000 then Some(y.code)
    else if va == 0x411C_0000 then Some(y.shared)
    else
      match d
      case A =>
        if va == 0x4100_0000 then Some(y.a.privatePa) else if va == 0x4100_1000 then Some(y.a.stackPa)
        else if va == 0x411E_0000 then Some(y.readOnly) else None
      case B => if va == 0x4110_0000 then Some(y.b.privatePa) else if va == 0x4110_1000 then Some(y.b.stackPa) else None
      case C => if va == 0x4118_0000 then Some(y.c.privatePa) else if va == 0x4118_1000 then Some(y.c.stackPa) else None
  }

  /** The physical address an access to a page reaches, if it is mapped. */
  function Physical(y: Layout, d: Domain, page: Page): Option<nat> {
    PhysicalOf(Translate(y, d, page), page)
  }

  function PhysicalOf(w: Leaf, page: Page): Option<nat> {
    if w.Fault? then None else Some(Address(w.desc) + page % Span(w.level) * 0x1000)
  }

  /**
   The address space of every domain, page by page: kernel RAM, the interrupt
   controller and the UART at their own physical addresses, the pages of the service
   region on their frames, and nothing else.
   */
  lemma PhysicalExactly(y: Layout, d: Domain, page: Page)
    requires LayoutOk(y)
    ensures var va := page * 0x1000;
      Physical(y, d, page) ==
        if 0x0800_0000 <= va < 0x0820_0000 || 0x0900_0000 <= va < 0x0920_0000 || 0x4000_0000 <= va < 0x4020_0000
        then Some(va)
        else BackedBy(y, d, va)
  {
    BlockOfPage(page);
    if page / 512 == 520 {
      UserPhysical(y, d, page);
    } else {
      BlockPhysical(y, d, page);
      OnlyUserPages(y, d, page * 0x1000);
    }
  }

  lemma BlockPhysical(y: Layout, d: Domain, page: Page)
    requires LayoutOk(y) && page / 512 != 520
    ensures Physical(y, d, page) == if page / 512 in {64, 72, 512} then Some(page * 0x1000) else None
  {
    WalkIsMapping(y, d, page);
    BlockAddresses();
    if page / 512 in {64, 72, 512} { BlockLeafPhysical(Mapping(y, d, page), page); }
  }

  lemma BlockLeafPhysical(w: Leaf, page: Page)
    requires w.Leaf? && w.level == 2 && Address(w.desc) == page / 512 * 0x20_0000
    ensures PhysicalOf(w, page) == Some(page * 0x1000)
  {
    BlockOfPage(page);
  }

  lemma UserPhysical(y: Layout, d: Domain, page: Page)
    requires LayoutOk(y) && page / 512 == 520
    ensures Physical(y, d, page) == BackedBy(y, d, page * 0x1000)
  {
    var i := page % 512;
    WalkIsMapping(y, d, page);
    UserFrames(y, d, i);
    RegionAddress(page);
    LeafPhysical(UserPage(y, d, i), page);
  }

  lemma LeafPhysical(w: Leaf, page: Page)
    requires w.Leaf? ==> w.level == 3
    ensures PhysicalOf(w, page) == if w.Fault? then None else Some(Address(w.desc))
  {
    OnePageSpan(page);
  }

  lemma RegionAddress(page: Page)
    requires page / 512 == 520
    ensures page * 0x1000 == 0x4100_0000 + page % 512 * 0x1000
  {
    assert page == 520 * 512 + page % 512;
  }

  lemma OnePageSpan(page: Page)
    ensures page % Span(3) * 0x1000 == 0
  {
  }

  /** Which 2 MB block a page lies in. */
  lemma BlockOfPage(page: Page)
    ensures var va := page * 0x1000;
      && va == page / 512 * 0x20_0000 + page % 512 * 0x1000
      && (0x0800_0000 <= va < 0x0820_0000 <==> page / 512 == 64)
      && (0x0900_0000 <= va < 0x0920_0000 <==> page / 512 == 72)
      && (0x4000_0000 <= va < 0x4020_0000 <==> page / 512 == 512)
      && (0x4100_0000 <= va < 0x4120_0000 <==> page / 512 == 520)
      && (va < 0x4000_0000 <==> page / 512 < 512)
  {
    assert page == page / 512 * 512 + page % 512;
  }

  lemma OnlyUserPages(y: Layout, d: Domain, va: nat)
    requires !(0x4100_0000 <= va < 0x4120_0000)
    ensures BackedBy(y, d, va) == None
  {
  }

  lemma UserFrames(y: Layout, d: Domain, i: nat)
    requires LayoutOk(y) && i < 512
    ensures var u := UserPage(y, d, i);
      BackedBy(y, d, 0x4100_0000 + i * 0x1000) == if u.Fault? then None else Some(Address(u.desc))
    ensures var u := UserPage(y, d, i); u.Leaf? ==> u.level == 3
  {
    PageBits(RegionOf(y, d).privatePa, USER_RW);
    PageBits(RegionOf(y, d).stackPa, USER_RW);
    PageBits(y.code, USER_CODE);
    PageBits(y.shared, USER_RW);
    PageBits(y.readOnly, USER_RO);
  }

  /** The memory attributes of every mapped page, read off the leaf the walk ends in. */
  lemma AttributesExactly(y: Layout, d: Domain, page: Page)
    requires LayoutOk(y)
    ensures var w, va := Translate(y, d, page), page * 0x1000;
      var device, kernel := va < 0x4000_0000, 0x4000_0000 <= va < 0x4020_0000;
      w.Leaf? ==>
        && Has(w.desc, AF)
        && MemoryType(w.desc) == (if device then 1 else 0) && Shareability(w.desc) == (if device then 0 else 3)
        && (Has(w.desc, PXN) <==> device || va == 0x4105_0000)
        && (Has(w.desc, EL0) <==> !device && !kernel) && (Has(w.desc, NG) <==> !device && !kernel)
        && (Has(w.desc, READ_ONLY) <==> va == 0x4105_0000 || (d == A && va == 0x411E_0000))
        && (Has(w.desc, UXN) <==> va != 0x4105_0000)
  {
    WalkIsMapping(y, d, page);
    BlockOfPage(page);
    if page / 512 == 520 { UserAttributes(y, d, page % 512); } else { BlockBits(); }
  }

  lemma UserAttributes(y: Layout, d: Domain, i: nat)
    requires LayoutOk(y) && i < 512
    ensures var u, va := UserPage(y, d, i), 0x4100_0000 + i * 0x1000;
      u.Leaf? ==>
        && Has(u.desc, AF) && MemoryType(u.desc) == 0 && Shareability(u.desc) == 3
        && Has(u.desc, EL0) && Has(u.desc, NG) && (Has(u.desc, PXN) <==> va == 0x4105_0000)
        && (Has(u.desc, READ_ONLY) <==> va == 0x4105_0000 || (d == A && va == 0x411E_0000))
        && (Has(u.desc, UXN) <==> va != 0x4105_0000)
  {
    PageBits(RegionOf(y, d).privatePa, USER_RW);
    PageBits(RegionOf(y, d).stackPa, USER_RW);
    PageBits(y.code, USER_CODE);
    PageBits(y.shared, USER_RW);
    PageBits(y.readOnly, USER_RO);
  }

  /** The private, stack and shared pages are backed by seven different frames. */
  predicate DistinctFrames(y: Layout) {
    var fs := [y.a.privatePa, y.a.stackPa, y.b.privatePa, y.b.stackPa, y.c.privatePa, y.c.stackPa, y.shared];
    forall i, j :: 0 <= i < j < |fs| ==> fs[i] != fs[j]
  }

  lemma WritableFrame(y: Layout, d: Domain, page: Page)
    requires LayoutOk(y)
    ensures UserWrites(Translate(y, d, page)) ==>
      Address(Translate(y, d, page).desc) in {RegionOf(y, d).privatePa, RegionOf(y, d).stackPa, y.shared}
  {
    ReachExactly(y, d, page);
    WalkIsMapping(y, d, page);
    PageBits(RegionOf(y, d).privatePa, USER_RW);
    PageBits(RegionOf(y, d).stackPa, USER_RW);
    PageBits(y.shared, USER_RW);
  }

  /** Two domains can write the same physical page only if it is the shared buffer. */
  lemma WritableFramesMeetInShared(y: Layout, d: Domain, e: Domain, p: Page, q: Page)
    requires LayoutOk(y) && DistinctFrames(y) && d != e
    ensures var v, w := Translate(y, d, p), Translate(y, e, q);
      UserWrites(v) && UserWrites(w) && Address(v.desc) == Address(w.desc) ==> Address(v.desc) == y.shared
  {
    WritableFrame(y, d, p);
    WritableFrame(y, e, q);
    var fs := [y.a.privatePa, y.a.stackPa, y.b.privatePa, y.b.stackPa, y.c.privatePa, y.c.stackPa, y.shared];
    assert fs[0] == y.a.privatePa && fs[1] == y.a.stackPa && fs[2] == y.b.privatePa && fs[3] == y.b.stackPa;
    assert fs[4] == y.c.privatePa && fs[5] == y.c.stackPa && fs[6] == y.shared;
  }

  /** The 4 KB frame a page has in the span of its leaf. */
  function Frame(w: Leaf, page: Page): nat
    requires w.Leaf?
  {
    Address(w.desc) + page % Span(w.level) * 0x1000
  }

  function WritableFrames(y: Layout): set<nat> {
    {y.a.privatePa, y.a.stackPa, y.b.privatePa, y.b.stackPa, y.c.privatePa, y.c.stackPa, y.shared}
  }

  /** No page user code may write is backed by a translation table. */
  predicate TablesApart(y: Layout) {
    forall pa :: pa in WritableFrames(y) ==> pa !in Memory(y)
  }

  /** User code of the domain can write a translation table through the page. */
  predicate TableWritable(y: Layout, d: Domain, page: Page) {
    var w := Translate(y, d, page);
    UserWrites(w) && Frame(w, page) in Memory(y)
  }

  /** User code of no domain can change a translation table: no frame it can write holds one. */
  lemma TablesOutOfReach(y: Layout, d: Domain, page: Page)
    requires LayoutOk(y) && TablesApart(y)
    ensures !TableWritable(y, d, page)
  {
    WritableFrame(y, d, page);
    if UserWrites(Translate(y, d, page)) { UserPageLevel(y, d, page); }
  }

  lemma UserPageLevel(y: Layout, d: Domain, page: Page)
    requires LayoutOk(y) && UserWrites(Translate(y, d, page))
    ensures Translate(y, d, page).level == 3
      && Frame(Translate(y, d, page), page) == Address(Translate(y, d, page).desc)
  {
    ReachExactly(y, d, page);
    WalkIsMapping(y, d, page);
  }

  lemma WritableFrameReached(y: Layout, d: Domain, i: nat)
    requires LayoutOk(y) && i in {Private(d), Stack(d), SHARED}
    ensures UserWrites(Translate(y, d, At(i)))
    ensures Frame(Translate(y, d, At(i)), At(i)) ==
      if i == Private(d) then RegionOf(y, d).privatePa else if i == Stack(d) then RegionOf(y, d).stackPa else y.shared
  {
    ReachExactly(y, d, At(i));
    WalkIsMapping(y, d, At(i));
    PageBits(RegionOf(y, d).privatePa, USER_RW);
    PageBits(RegionOf(y, d).stackPa, USER_RW);
    PageBits(y.shared, USER_RW);
  }

  /** Which page of which domain is backed by a given writable frame. */
  lemma Backs(y: Layout, pa: nat) returns (d: Domain, i: nat)
    requires LayoutOk(y) && pa in WritableFrames(y)
    ensures i in {Private(d), Stack(d), SHARED} && TableWritable(y, d, At(i)) == (pa in Memory(y))
  {
    d := if pa in {y.a.privatePa, y.a.stackPa, y.shared} then A
         else if pa in {y.b.privatePa, y.b.stackPa} then B else C;
    i := if pa == RegionOf(y, d).privatePa then Private(d)
         else if pa == RegionOf(y, d).stackPa then Stack(d) else SHARED;
    WritableFrameReached(y, d, i);
  }

  /** The condition on the layout is exact: a table sharing a frame with a writable page is writable by its domain. */
  lemma TablesOutOfReachIff(y: Layout)
    requires LayoutOk(y)
    ensures TablesApart(y) <==> forall d: Domain, page: Page :: !TableWritable(y, d, page)
  {
    if TablesApart(y) {
      forall d: Domain, page: Page ensures !TableWritable(y, d, page) {
        TablesOutOfReach(y, d, page);
      }
    } else {
      var pa :| pa in WritableFrames(y) && pa in Memory(y);
      var d, i := Backs(y, pa);
      assert TableWritable(y, d, At(i));
    }
  }

  // ----- the TLB -----

  /** A cached leaf.  A global entry has no ASID; the entry covers the span of its level. */
  datatype Entry = Entry(page: Page, level: nat, asid: Option<nat>, desc: nat)

  /** The hardware's match: the page lies in the span, and the entry is global or carries the current ASID. */
  predicate Hit(e: Entry, ttbr: nat, page: Page) {
    page / Span(e.level) == e.page / Span(e.level) && (e.asid.None? || e.asid.value == AsidOf(ttbr))
  }

  /** What the hardware caches after a successful walk. */
  function Cached(page: Page, w: Leaf, ttbr: nat): Entry
    requires w.Leaf?
  {
    Entry(page, w.level, if Has(w.desc, NG) then Some(AsidOf(ttbr)) else None, w.desc)
  }

  /** A cached leaf is right for every domain whose accesses it can serve. */
  ghost predicate EntryOk(y: Layout, e: Entry) {
    && e.asid != Some(0) && (e.asid.None? ==> !Has(e.desc, NG))
    && forall d: Domain, page: Page :: Hit(e, Root(y, d), page) ==> Translate(y, d, page) == Leaf(e.desc, e.level)
  }

  lemma AsidsUnique(y: Layout, d: Domain, e: Domain)
    requires LayoutOk(y)
    ensures AsidOf(Root(y, d)) == AsidOf(Root(y, e)) <==> d == e
  {
  }

  lemma MappingShape(y: Layout, d: Domain, page: Page, e: Domain, other: Page)
    requires LayoutOk(y) && Mapping(y, d, page).Leaf?
    ensures var w := Mapping(y, d, page);
      && w.level in {2, 3}
      && (other / Span(w.level) == page / Span(w.level) ==> Mapping(y, d, other) == w)
      && (!Has(w.desc, NG) ==> Mapping(y, e, page) == w)
  {
    if page / 512 == 520 { UserPageBits(y, d, page % 512); }
  }

  /** Every leaf is uniform over its span; non-global ones are level-3 pages, global ones the same in all domains. */
  lemma LeafShape(y: Layout, d: Domain, page: Page, e: Domain, other: Page)
    requires LayoutOk(y)
    ensures var w := Translate(y, d, page); w.Leaf? ==>
      && w.level in {2, 3}
      && (other / Span(w.level) == page / Span(w.level) ==> Translate(y, d, other) == w)
      && (!Has(w.desc, NG) ==> Translate(y, e, page) == w)
  {
    WalkIsMapping(y, d, page);
    WalkIsMapping(y, d, other);
    WalkIsMapping(y, e, page);
    if Mapping(y, d, page).Leaf? { MappingShape(y, d, page, e, other); }
  }

  /** Filling from a valid root caches only entries that are right wherever they can hit. */
  lemma FillOk(y: Layout, d: Domain, page: Page)
    requires LayoutOk(y)
    ensures var w := Translate(y, d, page); w.Leaf? ==> EntryOk(y, Cached(page, w, Root(y, d)))
  {
    var w := Translate(y, d, page);
    if w.Leaf? {
      var c := Cached(page, w, Root(y, d));
      forall e: Domain, p: Page | Hit(c, Root(y, e), p) ensures Translate(y, e, p) == Leaf(c.desc, c.level) {
        AsidsUnique(y, e, d);
        LeafShape(y, d, page, e, p);
        if !Has(w.desc, NG) { LeafShape(y, e, page, d, p); }
      }
    }
  }

  // ----- switching domains without a flush -----

  /** current is what the kernel records, ttbr what the hardware uses, cache the TLB, mem the tables as they now are. */
  datatype Cpu = Cpu(current: Option<Domain>, ttbr: nat, cache: set<Entry>, mem: map<nat, Table>)

  datatype CpuOp =
    | Enter(domain: Option<Domain>)   // lettuce_mmu_enter and leave; None stands for an unknown id
    | Record(target: Option<Domain>)  // lettuce_mmu_set_current_domain, first half of the elevator
    | Install                         // elevator.S: write the recorded domain's root, or zero for an unknown id
    | Fill(page: Page)                // the hardware caches a walk, at any time
    | Evict(gone: set<Entry>)         // the hardware drops entries, or an invalidation does
    | Store(at: Page, word: nat, value: nat, via: Option<Entry>) // user code writes a word, through a hit or a walk

  /** The leaf a user access goes through: the given entry if it hits, or a fresh walk. */
  function Through(s: Cpu, page: Page, via: Option<Entry>): Leaf {
    if via.Some? && via.value in s.cache && Hit(via.value, s.ttbr, page) then Leaf(via.value.desc, via.value.level)
    else Walk(s.mem, s.ttbr, page)
  }

  /** lettuce_arch_domain_ttbr0_val. */
  function RootOf(y: Layout, d: Option<Domain>): nat {
    if d.Some? then Root(y, d.value) else 0
  }

  function CpuStep(y: Layout, s: Cpu, op: CpuOp): Cpu {
    match op
    case Enter(d) => if d.None? || d == s.current then s else s.(ttbr := Root(y, d.value), current := d)
    case Record(d) => s.(current := d)
    case Install => s.(ttbr := RootOf(y, s.current))
    case Fill(page) =>
      var w := Walk(s.mem, s.ttbr, page);
      if w.Fault? then s else s.(cache := s.cache + {Cached(page, w, s.ttbr)})
    case Evict(gone) => s.(cache := s.cache - gone)
    case Store(page, i, v, via) =>
      var w := Through(s, page, via);
      if UserWrites(w) && i < 512 && Frame(w, page) in s.mem
      then s.(mem := s.mem[Frame(w, page) := s.mem[Frame(w, page)][i := v]]) else s
  }

  function CpuRun(y: Layout, s: Cpu, ops: seq<CpuOp>): Cpu
    decreases |ops|
  {
    if ops == [] then s else CpuRun(y, CpuStep(y, s, ops[0]), ops[1..])
  }

  ghost predicate CpuOk(y: Layout, s: Cpu) {
    && (s.ttbr == 0 || exists d: Domain :: s.ttbr == Root(y, d))
    && (s.ttbr == 0 || s.current.None? ==> 0 !in Memory(y))
    && s.mem == Memory(y)
    && forall e :: e in s.cache ==> EntryOk(y, e)
  }

  /** lettuce_mmu_init: one invalidation, then domain A. */
  function Booted(y: Layout): Cpu {
    Cpu(Some(A), Root(y, A), {}, Memory(y))
  }

  lemma RootsNonzero(y: Layout, d: Domain)
    ensures Root(y, d) != 0
  {
  }

  lemma NothingAtZero(y: Layout, page: Page)
    requires 0 !in Memory(y)
    ensures Walk(Memory(y), 0, page) == Fault
  {
    NoRootAtZero(Memory(y), page / 0x4_0000, page / 512 % 512, page % 512);
  }

  lemma NoRootAtZero(mem: map<nat, Table>, i1: nat, i2: nat, i3: nat)
    requires 0 !in mem && i1 < 512 && i2 < 512 && i3 < 512
    ensures WalkAt(mem, 0, i1, i2, i3) == Fault
  {
  }

  /** An access goes where the tables send it; under a zero TTBR0, through a global entry or nowhere. */
  /** Where a table does share a frame with a writable page, a user store rewrites it. */
  lemma StoreHitsTables(y: Layout, page: Page, word: nat, value: nat)
    requires TableWritable(y, A, page) && word < 512
    ensures var w, r := Translate(y, A, page), CpuStep(y, Booted(y), Store(page, word, value, None));
      Frame(w, page) in r.mem && r.mem[Frame(w, page)][word] == value
  {
  }

  lemma ThroughIsWalk(y: Layout, s: Cpu, d: Domain, page: Page, via: Option<Entry>)
    requires CpuOk(y, s) && (s.ttbr == 0 || s.ttbr == Root(y, d))
    ensures Through(s, page, via) == Translate(y, d, page) || (s.ttbr == 0 && Through(s, page, via) == Fault)
  {
    if via.Some? && via.value in s.cache && Hit(via.value, s.ttbr, page) {
      assert EntryOk(y, via.value);
      assert Hit(via.value, Root(y, d), page);
    } else if s.ttbr == 0 {
      NothingAtZero(y, page);
    }
  }

  /** A global leaf is a supervisor block. */
  lemma GlobalIsSupervisor(y: Layout, d: Domain, page: Page)
    requires LayoutOk(y)
    ensures var w := Translate(y, d, page); w.Leaf? && !Has(w.desc, NG) ==> !UserReads(w) && !UserExecutes(w)
  {
    WalkIsMapping(y, d, page);
    if page / 512 == 520 { UserPageBits(y, d, page % 512); } else { BlocksSupervised(); }
  }

  /** With TTBR0 zero only a global entry can hit, so user code reaches nothing. */
  lemma UnknownReachesNothing(y: Layout, s: Cpu, page: Page, via: Option<Entry>)
    requires LayoutOk(y) && CpuOk(y, s) && s.ttbr == 0
    ensures !UserReads(Through(s, page, via)) && !UserExecutes(Through(s, page, via))
  {
    GlobalIsSupervisor(y, A, page);
    if via.Some? && via.value in s.cache && Hit(via.value, s.ttbr, page) {
      assert EntryOk(y, via.value);
      assert Hit(via.value, Root(y, A), page);
    } else {
      NothingAtZero(y, page);
    }
  }

  /** A user store, even through a cached entry, leaves every table alone. */
  lemma StoreMissesTables(y: Layout, s: Cpu, op: CpuOp)
    requires LayoutOk(y) && TablesApart(y) && CpuOk(y, s) && op.Store?
    ensures CpuStep(y, s, op) == s
  {
    var d: Domain :| s.ttbr == 0 || s.ttbr == Root(y, d);
    ThroughIsWalk(y, s, d, op.at, op.via);
    TablesOutOfReach(y, d, op.at);
  }

  /** What a step asks of the layout: a store, tables out of user reach; an unknown id, no table at address zero. */
  predicate Safe(y: Layout, op: CpuOp) {
    (op.Store? ==> TablesApart(y)) && (op == Record(None) ==> 0 !in Memory(y))
  }

  lemma FillStepOk(y: Layout, s: Cpu, page: Page)
    requires LayoutOk(y) && CpuOk(y, s)
    ensures CpuOk(y, CpuStep(y, s, Fill(page)))
  {
    if s.ttbr == 0 {
      NothingAtZero(y, page);
    } else {
      var d: Domain :| s.ttbr == Root(y, d);
      if Walk(Memory(y), s.ttbr, page).Leaf? { FillOk(y, d, page); }
    }
  }

  lemma CpuStepOk(y: Layout, s: Cpu, op: CpuOp)
    requires LayoutOk(y) && CpuOk(y, s) && Safe(y, op)
    ensures CpuOk(y, CpuStep(y, s, op))
  {
    var r := CpuStep(y, s, op);
    if op.Fill? {
      FillStepOk(y, s, op.page);
    } else if op.Store? {
      StoreMissesTables(y, s, op);
    } else if r.ttbr != s.ttbr && r.ttbr != 0 {
      assert r.current.Some? && r.ttbr == Root(y, r.current.value);
    }
  }

  lemma {:induction false} CpuRunOk(y: Layout, s: Cpu, ops: seq<CpuOp>)
    requires LayoutOk(y) && CpuOk(y, s) && forall k :: 0 <= k < |ops| ==> Safe(y, ops[k])
    ensures CpuOk(y, CpuRun(y, s, ops))
    decreases |ops|
  {
    if ops != [] {
      CpuStepOk(y, s, ops[0]);
      CpuRunOk(y, CpuStep(y, s, ops[0]), ops[1..]);
    }
  }

  lemma HitAgreesIff(y: Layout, s: Cpu, e: Entry, page: Page)
    requires LayoutOk(y) && CpuOk(y, s) && e in s.cache && Hit(e, s.ttbr, page)
    ensures Walk(s.mem, s.ttbr, page) == Leaf(e.desc, e.level) <==> s.ttbr != 0
  {
    if s.ttbr == 0 {
      NothingAtZero(y, page);
    } else {
      var d: Domain :| s.ttbr == Root(y, d);
      assert EntryOk(y, e);
      assert Translate(y, d, page) == Leaf(e.desc, e.level);
    }
  }

  /**
   TLB agreement.  After any run of domain switches, elevator halves, fills,
   evictions and user stores from boot, and with no flush, the tables are as built
   and whatever entry hits returns exactly what a fresh walk from the current root
   returns, unless an elevator switch to an unknown domain has zeroed TTBR0.
   */
  lemma HitsAgreeWithWalks(y: Layout, ops: seq<CpuOp>, e: Entry, page: Page)
    requires LayoutOk(y) && forall k :: 0 <= k < |ops| ==> Safe(y, ops[k])
    ensures var s := CpuRun(y, Booted(y), ops);
      && s.mem == Memory(y)
      && (e in s.cache && Hit(e, s.ttbr, page) ==>
            (Walk(s.mem, s.ttbr, page) == Leaf(e.desc, e.level) <==> s.ttbr != 0))
  {
    assert CpuOk(y, Booted(y));
    CpuRunOk(y, Booted(y), ops);
    var s := CpuRun(y, Booted(y), ops);
    if e in s.cache && Hit(e, s.ttbr, page) { HitAgreesIff(y, s, e, page); }
  }

  /** Every entry that can hit agrees with a walk. */
  ghost predicate Coherent(s: Cpu) {
    forall e, page: Page :: e in s.cache && Hit(e, s.ttbr, page) ==> Walk(s.mem, s.ttbr, page) == Leaf(e.desc, e.level)
  }

  /** The TLB as a whole agrees with the tables exactly when TTBR0 holds a root or no global entry is cached. */
  lemma CoherentIff(y: Layout, ops: seq<CpuOp>)
    requires LayoutOk(y) && forall k :: 0 <= k < |ops| ==> Safe(y, ops[k])
    ensures var s := CpuRun(y, Booted(y), ops);
      Coherent(s) <==> s.ttbr != 0 || forall e :: e in s.cache ==> e.asid.Some?
  {
    assert CpuOk(y, Booted(y));
    CpuRunOk(y, Booted(y), ops);
    var s := CpuRun(y, Booted(y), ops);
    forall e, page: Page | e in s.cache && Hit(e, s.ttbr, page)
      ensures Walk(s.mem, s.ttbr, page) == Leaf(e.desc, e.level) <==> s.ttbr != 0
    {
      HitAgreesIff(y, s, e, page);
    }
    forall e | e in s.cache ensures e.asid.None? ==> Hit(e, s.ttbr, e.page) {
    }
    forall e | e in s.cache && s.ttbr == 0 && e.asid.Some? ensures forall page: Page :: !Hit(e, s.ttbr, page) {
      assert EntryOk(y, e);
    }
  }

  /** A page of kernel RAM. */
  const KERNEL_PAGE: Page := 0x40000

  /** Such a run: the kernel's own block is cached, then the elevator enters an unknown domain. */
  lemma UnknownDomainIncoherent(y: Layout)
    requires LayoutOk(y) && 0 !in Memory(y)
    ensures !Coherent(CpuRun(y, Booted(y), [Fill(KERNEL_PAGE), Record(None), Install]))
  {
    var ops := [Fill(KERNEL_PAGE), Record(None), Install];
    var f := CpuStep(y, Booted(y), ops[0]);
    var w := Walk(Memory(y), Root(y, A), KERNEL_PAGE);
    WalkIsMapping(y, A, KERNEL_PAGE);
    BlocksSupervised();
    var e := Cached(KERNEL_PAGE, w, Root(y, A));
    assert e in f.cache && e.asid.None?;
    assert ops[1..] == [Record(None), Install] && ops[1..][1..] == [Install] && ops[1..][1..][1..] == [];
    var s := CpuRun(y, Booted(y), ops);
    assert s == CpuRun(y, f, ops[1..]) == CpuRun(y, CpuStep(y, f, Record(None)), [Install]);
    assert s.cache == f.cache && s.ttbr == 0;
    CoherentIff(y, ops);
  }

  /** Outside the elevator's two halves, TTBR0 is always the recorded domain's root, zero for an unknown one. */
  predicate Settled(y: Layout, s: Cpu) {
    s.ttbr == RootOf(y, s.current)
  }

  /** The elevator's halves come in pairs, with nothing but the hardware's own fills and evictions between them. */
  predicate Paired(ops: seq<CpuOp>)
    decreases |ops|
  {
    if ops == [] then true
    else if ops[0].Install? then false
    else if ops[0].Record? then AwaitsInstall(ops[1..])
    else Paired(ops[1..])
  }

  predicate AwaitsInstall(ops: seq<CpuOp>)
    decreases |ops|
  {
    if ops == [] then false
    else if ops[0].Install? then Paired(ops[1..])
    else (ops[0].Fill? || ops[0].Evict?) && AwaitsInstall(ops[1..])
  }

  lemma {:induction false} RootFollowsDomain(y: Layout, s: Cpu, ops: seq<CpuOp>)
    requires (Settled(y, s) && Paired(ops)) || AwaitsInstall(ops)
    ensures Settled(y, CpuRun(y, s, ops))
    decreases |ops|
  {
    if ops != [] {
      RootFollowsDomain(y, CpuStep(y, s, ops[0]), ops[1..]);
    }
  }
}
