/**
 The translation tables of kernel/arch/arm64/mmu.c, the hardware walk over them
 (section D8.3 of Arm DDI 0487), and what user code can reach in each domain.
 */
module Mmu {

  // Descriptor fields.  The C code ors fields that do not overlap; the model adds them.
  const VALID: nat := 1
  const TABLE: nat := 2
  const ATTR_DEVICE: nat := 4
  const EL0: nat := 0x40
  const READ_ONLY: nat := 0x80
  const SH_INNER: nat := 0x300
  const AF: nat := 0x400
  const NG: nat := 0x800
  const PXN: nat := 0x20_0000_0000_0000
  const UXN: nat := 0x40_0000_0000_0000

  const GIC_PA: nat := 0x0800_0000
  const UART_PA: nat := 0x0900_0000
  const KERNEL_PA: nat := 0x4000_0000

  /** Whether the single-bit field b is set in a word. */
  predicate Has(w: nat, b: nat)
    requires b > 0
  {
    w / b % 2 == 1
  }

  /** Bits 47:12, the address field of tables, pages and TTBR0. */
  function Address(w: nat): nat {
    w / 0x1000 % 0x10_0000_0000 * 0x1000
  }

  predicate Aligned(pa: nat) {
    pa % 0x1000 == 0 && pa < 0x1_0000_0000_0000
  }

  /** Clears the low bits covered by a power-of-two size. */
  function AlignDown(pa: nat, size: nat): nat
    requires size > 0
  {
    pa - pa % size
  }

  function TableDescriptor(table: nat): nat {
    AlignDown(table, 0x1000) + VALID + TABLE
  }

  function DeviceBlock(pa: nat): nat {
    AlignDown(pa, 0x20_0000) + VALID + AF + ATTR_DEVICE + UXN + PXN
  }

  function KernelBlock(pa: nat): nat {
    AlignDown(pa, 0x20_0000) + VALID + AF + SH_INNER + UXN
  }

  function PageDescriptor(pa: nat, attributes: nat): nat {
    AlignDown(pa, 0x1000) + VALID + TABLE + AF + SH_INNER + attributes
  }

  const USER_RW: nat := EL0 + UXN + NG
  const USER_CODE: nat := EL0 + READ_ONLY + PXN + NG
  const USER_RO: nat := EL0 + READ_ONLY + UXN + NG

  function Ttbr(asid: nat, root: nat): nat {
    asid * 0x1_0000_0000_0000 + Address(root)
  }

  function AsidOf(ttbr: nat): nat {
    ttbr / 0x1_0000_0000_0000
  }

  // ----- what the descriptor bits mean -----

  // Dividing a word by a field's weight separates the address from the constant.

  lemma DivValid(f: nat, k: nat)
    ensures (0x1000 * f + k) / 1 == 2 * (0x800 * f) + k / 1
  {
  }

  lemma DivTable(f: nat, k: nat)
    ensures (0x1000 * f + k) / 2 == 2 * (0x400 * f) + k / 2
  {
  }

  lemma DivEl0(f: nat, k: nat)
    ensures (0x1000 * f + k) / 0x40 == 2 * (0x20 * f) + k / 0x40
  {
  }

  lemma DivReadOnly(f: nat, k: nat)
    ensures (0x1000 * f + k) / 0x80 == 2 * (0x10 * f) + k / 0x80
  {
  }

  lemma DivNg(f: nat, k: nat)
    ensures (0x1000 * f + k) / 0x800 == 2 * f + k / 0x800
  {
  }

  lemma EvenPart(m: nat, n: nat)
    ensures (2 * m + n) % 2 == n % 2
  {
  }

  /** A word is an aligned address plus a constant; its low fields are the constant's. */
  lemma LowFields(f: nat, k: nat)
    ensures Has(0x1000 * f + k, VALID) == Has(k, VALID) && Has(0x1000 * f + k, TABLE) == Has(k, TABLE)
    ensures Has(0x1000 * f + k, EL0) == Has(k, EL0) && Has(0x1000 * f + k, READ_ONLY) == Has(k, READ_ONLY)
    ensures Has(0x1000 * f + k, NG) == Has(k, NG)
  {
    DivValid(f, k);
    DivTable(f, k);
    DivEl0(f, k);
    DivReadOnly(f, k);
    DivNg(f, k);
    EvenPart(0x800 * f, k / 1);
    EvenPart(0x400 * f, k / 2);
    EvenPart(0x20 * f, k / 0x40);
    EvenPart(0x10 * f, k / 0x80);
    EvenPart(f, k / 0x800);
  }

  /** The address field of an aligned address plus low bits, under any bits from 48 up, is the address. */
  lemma AddressField(f: nat, low: nat, high: nat)
    requires f < 0x10_0000_0000 && low < 0x1000
    ensures Address(0x1000 * f + low + 0x1_0000_0000_0000 * high) == 0x1000 * f
  {
  }

  lemma ExecuteNeverField(f: nat, low: nat, high: nat)
    requires f < 0x10_0000_0000 && low < 0x1000 && 1 <= high <= 2
    ensures Has(0x1000 * f + low + 0x20_0000_0000_0000 * high, UXN) <==> high == 2
  {
  }

  lemma AlignedForm(pa: nat)
    requires Aligned(pa)
    ensures pa == 0x1000 * (pa / 0x1000) && pa / 0x1000 < 0x10_0000_0000
  {
  }

  lemma TableWord(f: nat)
    requires f < 0x10_0000_0000
    ensures var w := 0x1000 * f + 3; Has(w, VALID) && Has(w, TABLE) && Address(w) == 0x1000 * f
  {
    LowFields(f, 3);
    AddressField(f, 3, 0);
  }

  lemma TableBits(t: nat)
    requires Aligned(t)
    ensures Has(TableDescriptor(t), VALID) && Has(TableDescriptor(t), TABLE) && Address(TableDescriptor(t)) == t
  {
    var f := t / 0x1000;
    AlignedForm(t);
    TableWord(f);
    assert TableDescriptor(t) == 0x1000 * f + 3;
  }

  /** Bits 4:2, which select the memory type: 0 is normal memory, 1 is device memory. */
  function MemoryType(w: nat): nat {
    w / 4 % 8
  }

  /** Bits 9:8: 3 is inner shareable, 0 is not shareable. */
  function Shareability(w: nat): nat {
    w / 0x100 % 4
  }

  lemma TypeFields(f: nat, k: nat)
    ensures MemoryType(0x1000 * f + k) == MemoryType(k) && Shareability(0x1000 * f + k) == Shareability(k)
    ensures Has(0x1000 * f + k, AF) == Has(k, AF)
  {
    DivType(f, k);
    DivShare(f, k);
    DivAccess(f, k);
    EightsPart(0x80 * f, k / 4);
    FoursPart(4 * f, k / 0x100);
    EvenPart(2 * f, k / 0x400);
  }

  lemma DivType(f: nat, k: nat)
    ensures (0x1000 * f + k) / 4 == 8 * (0x80 * f) + k / 4
  {
  }

  lemma DivShare(f: nat, k: nat)
    ensures (0x1000 * f + k) / 0x100 == 4 * (4 * f) + k / 0x100
  {
  }

  lemma DivAccess(f: nat, k: nat)
    ensures (0x1000 * f + k) / 0x400 == 2 * (2 * f) + k / 0x400
  {
  }

  lemma EightsPart(m: nat, n: nat)
    ensures (8 * m + n) % 8 == n % 8
  {
  }

  lemma FoursPart(m: nat, n: nat)
    ensures (4 * m + n) % 4 == n % 4
  {
  }

  lemma PrivilegedField(f: nat, low: nat, high: nat)
    requires f < 0x10_0000_0000 && low < 0x1000 && 1 <= high <= 2
    ensures Has(0x1000 * f + low + 0x20_0000_0000_0000 * high, PXN) <==> high == 1
  {
  }

  /** The fields every user page word has besides its address. */
  function PageConstant(attributes: nat): nat {
    VALID + TABLE + AF + SH_INNER + attributes
  }

  /** Bits 53 and up of a page word: 1 is privileged, 2 is user execute-never. */
  function ExecuteNever(attributes: nat): nat {
    if attributes == USER_CODE then 1 else 2
  }

  lemma ConstantBits(attributes: nat)
    requires attributes in {USER_RW, USER_CODE, USER_RO}
    ensures var k := PageConstant(attributes);
      && Has(k, VALID) && Has(k, TABLE) && Has(k, NG) && Has(k, EL0)
      && (Has(k, READ_ONLY) <==> attributes != USER_RW)
      && Has(k, AF) && MemoryType(k) == 0 && Shareability(k) == 3
      && 0 <= k - 0x20_0000_0000_0000 * ExecuteNever(attributes) < 0x1000
  {
    if attributes == USER_RW {
      WritableConstant();
    } else if attributes == USER_CODE {
      CodeConstant();
    } else {
      ReadOnlyConstant();
    }
  }

  /** What every page constant has in common. */
  predicate PageFields(k: nat) {
    && Has(k, VALID) && Has(k, TABLE) && Has(k, NG) && Has(k, EL0)
    && Has(k, AF) && MemoryType(k) == 0 && Shareability(k) == 3
  }

  lemma WritableConstant()
    ensures var k := PageConstant(USER_RW);
      PageFields(k) && !Has(k, READ_ONLY) && 0 <= k - 0x20_0000_0000_0000 * ExecuteNever(USER_RW) < 0x1000
  {
  }

  lemma CodeConstant()
    ensures var k := PageConstant(USER_CODE);
      PageFields(k) && Has(k, READ_ONLY) && 0 <= k - 0x20_0000_0000_0000 * ExecuteNever(USER_CODE) < 0x1000
  {
  }

  lemma ReadOnlyConstant()
    ensures var k := PageConstant(USER_RO);
      PageFields(k) && Has(k, READ_ONLY) && 0 <= k - 0x20_0000_0000_0000 * ExecuteNever(USER_RO) < 0x1000
  {
  }

  /** A page word with the given attributes, field by field. */
  lemma PageBits(pa: nat, attributes: nat)
    requires Aligned(pa) && attributes in {USER_RW, USER_CODE, USER_RO}
    ensures var d := PageDescriptor(pa, attributes);
      && Has(d, VALID) && Has(d, TABLE) && Has(d, NG) && Has(d, EL0) && Address(d) == pa
      && (Has(d, READ_ONLY) <==> attributes != USER_RW)
      && (Has(d, UXN) <==> attributes != USER_CODE) && (Has(d, PXN) <==> attributes == USER_CODE)
      && Has(d, AF) && MemoryType(d) == 0 && Shareability(d) == 3
  {
    var k, high, f := PageConstant(attributes), ExecuteNever(attributes), pa / 0x1000;
    AlignedForm(pa);
    ConstantBits(attributes);
    LowFields(f, k);
    AddressField(f, k - 0x20_0000_0000_0000 * high, 0x20 * high);
    TypeFields(f, k);
    ExecuteNeverField(f, k - 0x20_0000_0000_0000 * high, high);
    PrivilegedField(f, k - 0x20_0000_0000_0000 * high, high);
    assert PageDescriptor(pa, attributes) == 0x1000 * f + k;
  }

  predicate SupervisorBlock(d: nat) {
    Has(d, VALID) && !Has(d, TABLE) && !Has(d, NG) && !Has(d, EL0) && Has(d, UXN)
  }

  /** A block of device memory at a physical address, never executable and not shared. */
  predicate DeviceAt(d: nat, pa: nat) {
    Address(d) == pa && Has(d, AF) && Has(d, PXN) && MemoryType(d) == 1 && Shareability(d) == 0
  }

  /** A block of normal memory at a physical address, executable by the kernel and inner shareable. */
  predicate KernelRamAt(d: nat, pa: nat) {
    Address(d) == pa && Has(d, AF) && !Has(d, PXN) && MemoryType(d) == 0 && Shareability(d) == 3
  }

  /** No block is reachable from user code, and all are global. */
  lemma BlocksSupervised()
    ensures SupervisorBlock(DeviceBlock(GIC_PA)) && SupervisorBlock(DeviceBlock(UART_PA))
      && SupervisorBlock(KernelBlock(KERNEL_PA))
  {
  }

  lemma BlockAddresses()
    ensures Address(DeviceBlock(GIC_PA)) == 64 * 0x20_0000 && Address(DeviceBlock(UART_PA)) == 72 * 0x20_0000
    ensures Address(KernelBlock(KERNEL_PA)) == 512 * 0x20_0000
  {
  }

  lemma BlockBits()
    ensures SupervisorBlock(DeviceBlock(GIC_PA)) && SupervisorBlock(DeviceBlock(UART_PA))
      && SupervisorBlock(KernelBlock(KERNEL_PA))
    ensures DeviceAt(DeviceBlock(GIC_PA), 0x0800_0000) && DeviceAt(DeviceBlock(UART_PA), 0x0900_0000)
    ensures KernelRamAt(KernelBlock(KERNEL_PA), 0x4000_0000)
    ensures !Has(DeviceBlock(GIC_PA), READ_ONLY) && !Has(DeviceBlock(UART_PA), READ_ONLY)
      && !Has(KernelBlock(KERNEL_PA), READ_ONLY)
  {
    GicBits();
    UartBits();
    KernelBits();
  }

  lemma GicBits()
    ensures var d := DeviceBlock(GIC_PA); SupervisorBlock(d) && DeviceAt(d, 0x0800_0000) && !Has(d, READ_ONLY)
  {
  }

  lemma UartBits()
    ensures var d := DeviceBlock(UART_PA); SupervisorBlock(d) && DeviceAt(d, 0x0900_0000) && !Has(d, READ_ONLY)
  {
  }

  lemma KernelBits()
    ensures var d := KernelBlock(KERNEL_PA); SupervisorBlock(d) && KernelRamAt(d, 0x4000_0000) && !Has(d, READ_ONLY)
  {
  }

  lemma TtbrBits(asid: nat, root: nat)
    requires Aligned(root)
    ensures Address(Ttbr(asid, root)) == root && AsidOf(Ttbr(asid, root)) == asid
  {
    AlignedForm(root);
    AddressField(root / 0x1000, 0, 0);
    AddressField(root / 0x1000, 0, asid);
    assert Ttbr(asid, root) == root + 0x1_0000_0000_0000 * asid;
  }

  // ----- tables -----

  datatype Domain = A | B | C

  type Table = t: seq<nat> | |t| == 512 witness seq(512, i => 0)

  /** Where the linker put the tables and pages of one domain. */
  datatype Region = Region(l1: nat, l2: nat, l3: nat, privatePa: nat, stackPa: nat)

  datatype Layout = Layout(device: nat, a: Region, b: Region, c: Region, code: nat, shared: nat, readOnly: nat)

  function RegionOf(y: Layout, d: Domain): Region {
    match d
    case A => y.a
    case B => y.b
    case C => y.c
  }

  function Asid(d: Domain): nat {
    match d
    case A => 1
    case B => 2
    case C => 3
  }

  function Root(y: Layout, d: Domain): nat {
    Ttbr(Asid(d), RegionOf(y, d).l1)
  }

  /** Every address is page-aligned and below 2^48, and no two tables share one. */
  ghost predicate LayoutOk(y: Layout) {
    && Aligned(y.device) && Aligned(y.code) && Aligned(y.shared) && Aligned(y.readOnly)
    && (forall d: Domain :: var r := RegionOf(y, d);
          Aligned(r.l1) && Aligned(r.l2) && Aligned(r.l3) && Aligned(r.privatePa) && Aligned(r.stackPa))
    && DistinctTables(y)
  }

  predicate DistinctTables(y: Layout) {
    var ts := [y.device, y.a.l1, y.a.l2, y.a.l3, y.b.l1, y.b.l2, y.b.l3, y.c.l1, y.c.l2, y.c.l3];
    forall i, j :: 0 <= i < j < |ts| ==> ts[i] != ts[j]
  }

  // Level 3 indices: (va >> 12) & 0x1ff of the pages in 0x41000000..0x411fffff.
  const CODE: nat := 0x50
  const SHARED: nat := 0x1C0
  const RO: nat := 0x1E0

  function Private(d: Domain): nat {
    match d
    case A => 0
    case B => 0x100
    case C => 0x180
  }

  function Stack(d: Domain): nat {
    Private(d) + 1
  }

  function Zeros(): Table {
    seq(512, i => 0)
  }

  function DeviceTable(): Table {
    Zeros()[64 := DeviceBlock(GIC_PA)][72 := DeviceBlock(UART_PA)]
  }

  function L1(y: Layout, d: Domain): Table {
    Zeros()[0 := TableDescriptor(y.device)][1 := TableDescriptor(RegionOf(y, d).l2)]
  }

  function L2(y: Layout, d: Domain): Table {
    Zeros()[0 := KernelBlock(KERNEL_PA)][8 := TableDescriptor(RegionOf(y, d).l3)]
  }

  function L3(y: Layout, d: Domain): Table {
    var t := Zeros()[Private(d) := PageDescriptor(RegionOf(y, d).privatePa, USER_RW)]
                    [Stack(d) := PageDescriptor(RegionOf(y, d).stackPa, USER_RW)]
                    [CODE := PageDescriptor(y.code, USER_CODE)]
                    [SHARED := PageDescriptor(y.shared, USER_RW)];
    if d == A then t[RO := PageDescriptor(y.readOnly, USER_RO)] else t
  }

  /** The words lettuce_mmu_init leaves in memory, by table address. */
  function Memory(y: Layout): map<nat, Table> {
    map[y.device := DeviceTable(),
        y.a.l1 := L1(y, A), y.a.l2 := L2(y, A), y.a.l3 := L3(y, A),
        y.b.l1 := L1(y, B), y.b.l2 := L2(y, B), y.b.l3 := L3(y, B),
        y.c.l1 := L1(y, C), y.c.l2 := L2(y, C), y.c.l3 := L3(y, C)]
  }

  lemma MemoryAt(y: Layout, d: Domain)
    requires LayoutOk(y)
    ensures var m, r := Memory(y), RegionOf(y, d);
      && y.device in m && m[y.device] == DeviceTable()
      && r.l1 in m && m[r.l1] == L1(y, d) && r.l2 in m && m[r.l2] == L2(y, d) && r.l3 in m && m[r.l3] == L3(y, d)
  {
    var ts := [y.device, y.a.l1, y.a.l2, y.a.l3, y.b.l1, y.b.l2, y.b.l3, y.c.l1, y.c.l2, y.c.l3];
    assert ts[0] == y.device && ts[1] == y.a.l1 && ts[2] == y.a.l2 && ts[3] == y.a.l3;
    assert ts[4] == y.b.l1 && ts[5] == y.b.l2 && ts[6] == y.b.l3;
    assert ts[7] == y.c.l1 && ts[8] == y.c.l2 && ts[9] == y.c.l3;
  }

  // ----- the walk -----

  /** A 4 KB page of the 39-bit address space. */
  type Page = p: nat | p < 0x800_0000

  datatype Leaf = Fault | Leaf(desc: nat, level: nat)

  /** A three-level walk from a TTBR0 value. */
  function Walk(mem: map<nat, Table>, ttbr: nat, page: Page): Leaf {
    WalkAt(mem, ttbr, page / 0x4_0000, page / 512 % 512, page % 512)
  }

  /** The walk by its three table indices. */
  function WalkAt(mem: map<nat, Table>, ttbr: nat, i1: nat, i2: nat, i3: nat): Leaf
    requires i1 < 512 && i2 < 512 && i3 < 512
  {
    var root := Address(ttbr);
    if root !in mem then Fault
    else
      var d1 := mem[root][i1];
      if !Has(d1, VALID) then Fault
      else if !Has(d1, TABLE) then Leaf(d1, 1)
      else if Address(d1) !in mem then Fault
      else
        var d2 := mem[Address(d1)][i2];
        if !Has(d2, VALID) then Fault
        else if !Has(d2, TABLE) then Leaf(d2, 2)
        else if Address(d2) !in mem then Fault
        else
          var d3 := mem[Address(d2)][i3];
          if !Has(d3, VALID) || !Has(d3, TABLE) then Fault else Leaf(d3, 3)
  }

  /** What a domain's own user page at an L3 index holds, if anything. */
  function UserPage(y: Layout, d: Domain, i: nat): Leaf {
    if i == Private(d) then Leaf(PageDescriptor(RegionOf(y, d).privatePa, USER_RW), 3)
    else if i == Stack(d) then Leaf(PageDescriptor(RegionOf(y, d).stackPa, USER_RW), 3)
    else if i == CODE then Leaf(PageDescriptor(y.code, USER_CODE), 3)
    else if i == SHARED then Leaf(PageDescriptor(y.shared, USER_RW), 3)
    else if i == RO && d == A then Leaf(PageDescriptor(y.readOnly, USER_RO), 3)
    else Fault
  }

  /** The address space each domain is meant to have, page by page. */
  function Mapping(y: Layout, d: Domain, page: Page): Leaf {
    var block := page / 512;
    if block == 64 then Leaf(DeviceBlock(GIC_PA), 2)
    else if block == 72 then Leaf(DeviceBlock(UART_PA), 2)
    else if block == 512 then Leaf(KernelBlock(KERNEL_PA), 2)
    else if block == 520 then UserPage(y, d, page % 512)
    else Fault
  }

  lemma L3Holds(y: Layout, d: Domain, i: nat)
    requires i < 512
    ensures L3(y, d)[i] == if UserPage(y, d, i).Fault? then 0 else UserPage(y, d, i).desc
  {
  }

  /** Each level reads as intended: the device table, the domain's L2, and its L3. */
  lemma UpperLevels(y: Layout, d: Domain)
    requires LayoutOk(y)
    ensures var m := Memory(y);
      && Address(Root(y, d)) in m && m[Address(Root(y, d))] == L1(y, d)
      && Has(L1(y, d)[0], VALID) && Has(L1(y, d)[0], TABLE)
      && Address(L1(y, d)[0]) in m && m[Address(L1(y, d)[0])] == DeviceTable()
      && Has(L1(y, d)[1], VALID) && Has(L1(y, d)[1], TABLE)
      && Address(L1(y, d)[1]) in m && m[Address(L1(y, d)[1])] == L2(y, d)
      && Has(L2(y, d)[8], VALID) && Has(L2(y, d)[8], TABLE)
      && Address(L2(y, d)[8]) in m && m[Address(L2(y, d)[8])] == L3(y, d)
  {
    var r := RegionOf(y, d);
    MemoryAt(y, d);
    TtbrBits(Asid(d), r.l1);
    TableBits(y.device);
    TableBits(r.l2);
    TableBits(r.l3);
  }

  lemma UserPageBits(y: Layout, d: Domain, i: nat)
    requires LayoutOk(y) && i < 512
    ensures var u := UserPage(y, d, i);
      if u.Fault? then L3(y, d)[i] == 0
      else L3(y, d)[i] == u.desc && Has(u.desc, VALID) && Has(u.desc, TABLE) && Has(u.desc, NG) && Has(u.desc, EL0)
  {
    L3Holds(y, d, i);
    PageBits(RegionOf(y, d).privatePa, USER_RW);
    PageBits(RegionOf(y, d).stackPa, USER_RW);
    PageBits(y.code, USER_CODE);
    PageBits(y.shared, USER_RW);
    PageBits(y.readOnly, USER_RO);
  }

  /** The first gigabyte: two device windows. */
  lemma LowWalk(y: Layout, d: Domain, i2: nat, i3: nat)
    requires LayoutOk(y) && i2 < 512 && i3 < 512
    ensures WalkAt(Memory(y), Root(y, d), 0, i2, i3) ==
      if i2 == 64 then Leaf(DeviceBlock(GIC_PA), 2) else if i2 == 72 then Leaf(DeviceBlock(UART_PA), 2) else Fault
  {
    UpperLevels(y, d);
    BlocksSupervised();
  }

  /** The second: kernel RAM and the service region. */
  lemma HighWalk(y: Layout, d: Domain, i2: nat, i3: nat)
    requires LayoutOk(y) && i2 < 512 && i3 < 512
    ensures WalkAt(Memory(y), Root(y, d), 1, i2, i3) ==
      if i2 == 0 then Leaf(KernelBlock(KERNEL_PA), 2) else if i2 == 8 then UserPage(y, d, i3) else Fault
  {
    UpperLevels(y, d);
    BlocksSupervised();
    if i2 == 8 { UserPageBits(y, d, i3); }
  }

  /** Nothing else is mapped. */
  lemma NoWalk(y: Layout, d: Domain, i1: nat, i2: nat, i3: nat)
    requires LayoutOk(y) && 2 <= i1 < 512 && i2 < 512 && i3 < 512
    ensures WalkAt(Memory(y), Root(y, d), i1, i2, i3) == Fault
  {
    UpperLevels(y, d);
  }

  lemma BlockIndices(page: Page)
    ensures var i1, i2 := page / 0x4_0000, page / 512 % 512; i1 < 512 && page / 512 == i1 * 512 + i2
  {
  }

  /** The tables built at init translate every page of every domain as intended. */
  lemma WalkIsMapping(y: Layout, d: Domain, page: Page)
    requires LayoutOk(y)
    ensures Walk(Memory(y), Root(y, d), page) == Mapping(y, d, page)
  {
    var i1, i2, i3 := page / 0x4_0000, page / 512 % 512, page % 512;
    BlockIndices(page);
    if i1 == 0 {
      LowWalk(y, d, i2, i3);
    } else if i1 == 1 {
      HighWalk(y, d, i2, i3);
    } else {
      NoWalk(y, d, i1, i2, i3);
    }
  }
}
