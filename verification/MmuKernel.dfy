/** Table construction and domain entry as mmu.c does them, over word arrays in place. */
module MmuKernel {
  import opened Words
  import opened Mmu
  import opened Tlb
  import Svc

  function PrivateVa(d: Domain): nat {
    match d
    case A => 0x41000000
    case B => 0x41100000
    case C => 0x41180000
  }

  function StackVa(d: Domain): nat {
    match d
    case A => 0x41001000
    case B => 0x41101000
    case C => 0x41181000
  }

  const CODE_VA: nat := 0x41050000
  const SHARED_VA: nat := 0x411c0000
  const RO_VA: nat := 0x411e0000

  /** (va >> 12) & 0x1ff and (va >> 21) & 0x1ff. */
  function L3Index(va: nat): nat {
    va / 0x1000 % 512
  }

  function L2Index(va: nat): nat {
    va / 0x20_0000 % 512
  }

  /** The zeroing loop every table starts from. */
  method Clear(t: array<nat>)
    requires t.Length == 512
    modifies t
    ensures t[..] == Zeros()
  {
    for i := 0 to 512
      invariant forall k :: 0 <= k < i ==> t[k] == 0
    {
      t[i] := 0;
    }
  }

  lemma Indices(d: Domain)
    ensures L3Index(PrivateVa(d)) == Private(d) && L3Index(StackVa(d)) == Stack(d)
    ensures L3Index(CODE_VA) == CODE && L3Index(SHARED_VA) == SHARED && L3Index(RO_VA) == RO
    ensures L2Index(PrivateVa(A)) == 8
  {
  }

  /** The page mappings of init_domain_tables. */
  method InitL3(y: Layout, d: Domain, l3: array<nat>)
    requires l3.Length == 512
    modifies l3
    ensures l3[..] == L3(y, d)
  {
    Indices(d);
    Clear(l3);
    l3[L3Index(PrivateVa(d))] := PageDescriptor(RegionOf(y, d).privatePa, USER_RW);
    l3[L3Index(StackVa(d))] := PageDescriptor(RegionOf(y, d).stackPa, USER_RW);
    l3[L3Index(CODE_VA)] := PageDescriptor(y.code, USER_CODE);
    l3[L3Index(SHARED_VA)] := PageDescriptor(y.shared, USER_RW);
    if d == A {
      l3[L3Index(RO_VA)] := PageDescriptor(y.readOnly, USER_RO);
    }
  }

  /** init_domain_tables. */
  method InitDomainTables(y: Layout, d: Domain, l1: array<nat>, l2: array<nat>, l3: array<nat>)
    requires l1.Length == 512 && l2.Length == 512 && l3.Length == 512
    requires l1 != l2 && l2 != l3 && l1 != l3
    modifies l1, l2, l3
    ensures l1[..] == L1(y, d) && l2[..] == L2(y, d) && l3[..] == L3(y, d)
  {
    Clear(l1);
    l1[0] := TableDescriptor(y.device);
    l1[1] := TableDescriptor(RegionOf(y, d).l2);
    Clear(l2);
    Indices(d);
    l2[0] := KernelBlock(KERNEL_PA);
    l2[L2Index(PrivateVa(A))] := TableDescriptor(RegionOf(y, d).l3);
    InitL3(y, d, l3);
  }

  method InitDeviceTable(t: array<nat>)
    requires t.Length == 512
    modifies t
    ensures t[..] == DeviceTable()
  {
    Clear(t);
    t[L2Index(GIC_PA)] := DeviceBlock(GIC_PA);
    t[L2Index(UART_PA)] := DeviceBlock(UART_PA);
  }

  function DomainId(d: Domain): nat {
    match d
    case A => Svc.DOMAIN_A
    case B => Svc.DOMAIN_B
    case C => Svc.DOMAIN_C
  }

  /** The stack pointer a call installs is the top of the target domain's stack page, writable in that domain only. */
  lemma StackTopIsMapped(y: Layout, d: Domain, e: Domain)
    requires LayoutOk(y)
    ensures Svc.BuiltIn(DomainId(d)) && Svc.StackTop(DomainId(d)) == StackVa(d) + 4096
    ensures StackVa(d) / 4096 == At(Stack(d))
    ensures UserWrites(Translate(y, e, At(Stack(d)))) <==> d == e
  {
    ReachExactly(y, e, At(Stack(d)));
  }

  /** The precomputed TTBR0 words and the two registers a switch changes. */
  class DomainSwitch {
    const layout: Layout
    var rootA: nat
    var rootB: nat
    var rootC: nat
    var current: Option<Domain>
    var ttbr: nat

    ghost predicate Valid()
      reads this
    {
      rootA == Root(layout, A) && rootB == Root(layout, B) && rootC == Root(layout, C)
    }

    /** The tail of lettuce_mmu_init: precompute the roots and install domain A. */
    constructor (y: Layout)
      ensures layout == y && Valid() && Cpu(current, ttbr, {}, Memory(y)) == Booted(y)
    {
      layout := y;
      rootA := Ttbr(1, y.a.l1);
      rootB := Ttbr(2, y.b.l1);
      rootC := Ttbr(3, y.c.l1);
      ttbr := Ttbr(1, y.a.l1);
      current := Some(A);
    }

    /** lettuce_mmu_enter: returns the previous domain. */
    method EnterCall(d: Option<Domain>, ghost s: Cpu) returns (previous: Option<Domain>)
      requires Valid() && s.current == current && s.ttbr == ttbr
      modifies this`current, this`ttbr
      ensures Valid() && previous == old(current)
      ensures s.(current := current, ttbr := ttbr) == CpuStep(layout, s, Enter(d))
    {
      previous := current;
      if d == previous || d.None? {
        return;
      }
      ttbr := match d.value case A => rootA case B => rootB case C => rootC;
      current := d;
    }

    /** Entering a domain and leaving for the previous one restores both registers, exactly if that one is known. */
    method EnterLeave(d: Domain)
      requires Valid() && Settled(layout, Cpu(current, ttbr, {}, map[]))
      modifies this`current, this`ttbr
      ensures Valid() && (current == old(current) && ttbr == old(ttbr) <==> old(current).Some?)
    {
      var previous := EnterCall(Some(d), Cpu(current, ttbr, {}, map[]));
      var back := EnterCall(previous, Cpu(current, ttbr, {}, map[]));
    }
  }
}
