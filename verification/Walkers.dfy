/** The three software page-table walkers, and the hardware walk of section 4.3.2 of the RISC-V Privileged
    Architecture 1.12 they are compared with. */
module Walkers {
  import opened Wrappers
  import opened Sv39
  import opened PageTree
  import opened PageMemory
  import opened PageTables

  // ---------------------------------------------------------------- the hardware walk

  datatype Translation = PageFault | Physical(pa: int)

  /** Steps 2 to 6 and 8 at level i, with table a. Accessed and dirty bits and access permissions are not checked here. */
  function HardwareWalk(mem: Memory, a: int, va: int, i: int): Translation
    requires 0 <= i <= 2
    decreases i
  {
    var vpn := va / PAGE_SIZE;
    var e := Entry(mem, a, Px(i, vpn));
    if !V(e) || (!R(e) && W(e)) then PageFault
    else if R(e) || X(e) then
      var span := if i == 2 then 0x4_0000 else if i == 1 then 512 else 1;
      if PteFrame(e) % span != 0 then PageFault
      else Physical(Addr(PteFrame(e) + vpn % span) + va % PAGE_SIZE)
    else if i == 0 then PageFault
    else HardwareWalk(mem, PteFrame(e), va, i - 1)
  }

  /** The low half of the 39-bit space; the canonical high half is never used by this kernel. */
  const HALF := 0x40_0000_0000

  function HardwareTranslate(mem: Memory, root: int, va: int): Translation {
    if 0 <= va < HALF then HardwareWalk(mem, root, va, 2) else PageFault
  }

  /** On a tree built by map_page the hardware finds no superpage: it ends at the level-0 entry, and accepts it
      when the entry is readable, or executable and not writable. */
  lemma HardwareReachesLeaf(mem: Memory, role: Roles, root: int, va: int)
    requires Tables(mem, role) && IsTable(role, root, 2) && 0 <= va < 0x40_0000_0000
    ensures var e := LeafPte(mem, root, Key(va));
            HardwareTranslate(mem, root, va)
            == if V(e) && (R(e) || (X(e) && !W(e))) then Physical(Addr(PteFrame(e)) + va % PAGE_SIZE) else PageFault
  {
    var v := Key(va);
    assert va / PAGE_SIZE == v;
    WalkStays(mem, role, root, v);
    BranchIsPointer(mem, role, root, Px(2, v));
    var m := MidTable(mem, root, v);
    if m != NONE {
      BranchIsPointer(mem, role, m, Px(1, v));
      assert HardwareTranslate(mem, root, va) == HardwareWalk(mem, m, va, 1);
      var t := LowTable(mem, root, v);
      if t != NONE {
        assert HardwareWalk(mem, m, va, 1) == HardwareWalk(mem, t, va, 0);
      }
    }
  }

  lemma BranchIsPointer(mem: Memory, role: Roles, t: int, k: int)
    requires Tables(mem, role) && IsBranch(role, t) && 0 <= k < ENTRIES
    ensures var e := Entry(mem, t, k); V(e) ==> !R(e) && !W(e) && !X(e)
    ensures t != NONE
  {
    assert BranchEntry(mem, role, t, k);
    PteRoundTrip(PteFrame(Entry(mem, t, k)), NO_PERMS);
  }

  // ---------------------------------------------------------------- the software walks

  /** PX(level, va) */
  function PxOf(level: int, va: int): (k: int)
    requires 0 <= level <= 2
    ensures 0 <= k < ENTRIES
  {
    (if level == 2 then va / 0x4000_0000 else if level == 1 then va / 0x20_0000 else va / 0x1000) % 512
  }

  /** walk_page: the physical address of the page that serves va, or 0. */
  method WalkPage(ram: PageMemory, root: int, va: int) returns (pa: int)
    requires Ready(ram) && IsTable(ram.role, root, 2) && 0 <= va
    ensures var e := LeafPte(ram.mem, root, Key(va)); pa == if V(e) then Addr(PteFrame(e)) else 0
  {
    IndicesOfAddress(va);
    WalkStays(ram.mem, ram.role, root, Key(va));
    var pagetable := root;
    var level := 2;
    while level > 0
      invariant 0 <= level <= 2
      invariant pagetable == TableAt(ram.mem, root, Key(va), level) != NONE
    {
      var pte := Entry(ram.mem, pagetable, PxOf(level, va));
      if !V(pte) {
        return 0;
      }
      pagetable := PteFrame(pte);
      level := level - 1;
    }
    var pte := Entry(ram.mem, pagetable, PxOf(0, va));
    if !V(pte) {
      return 0;
    }
    return Addr(PteFrame(pte));
  }

  /** Where a level-0 entry is stored. */
  datatype Slot = Slot(table: int, ix: int)

  /** walk with alloc = 0: the slot of the level-0 entry for va, or None for a null pointer. */
  method Walk(ram: PageMemory, root: int, va: int) returns (slot: Option<Slot>)
    requires Ready(ram) && IsTable(ram.role, root, 2)
    requires 0 <= va < MAXVA  // walk panics at MAXVA and above
    ensures var t := LowTable(ram.mem, root, Key(va));
            slot == if t == NONE then None else Some(Slot(t, Px(0, Key(va))))
  {
    IndicesOfAddress(va);
    WalkStays(ram.mem, ram.role, root, Key(va));
    var pagetable := root;
    var level := 2;
    while level > 0
      invariant 0 <= level <= 2
      invariant pagetable == TableAt(ram.mem, root, Key(va), level) != NONE
    {
      var pte := Entry(ram.mem, pagetable, PxOf(level, va));
      if !V(pte) {
        return None;
      }
      pagetable := PteFrame(pte);
      level := level - 1;
    }
    return Some(Slot(pagetable, PxOf(0, va)));
  }

  /** What walkaddr answers for an address below the kernel. */
  function UserAddress(mem: Memory, root: int, va: int): int {
    var e := LeafPte(mem, root, Key(va));
    if V(e) && Perm(e) then Addr(PteFrame(e)) + va % PAGE_SIZE else 0
  }

  /** walkaddr: the physical address of a user address, or 0. */
  method WalkAddr(ram: PageMemory, root: int, va: int, kernelBase: int) returns (pa: int)
    requires Ready(ram) && IsTable(ram.role, root, 2) && 0 <= va && kernelBase <= MAXVA
    ensures pa == if va >= kernelBase then 0 else UserAddress(ram.mem, root, va)
  {
    if va >= kernelBase {
      return 0;
    }
    var slot := Walk(ram, root, va);
    if slot.None? {
      return 0;
    }
    var pte := Entry(ram.mem, slot.value.table, slot.value.ix);
    if !V(pte) || !Perm(pte) {
      return 0;
    }
    return Addr(PteFrame(pte)) + va % PAGE_SIZE;
  }

  /** walkaddr and the hardware give the same answer for a user address, except on a leaf that is writable but not
      readable: the encoding is reserved, the hardware faults, and walkaddr still returns an address. */
  lemma WalkAddrAgreesWithHardware(mem: Memory, role: Roles, root: int, va: int)
    requires Tables(mem, role) && Leaves(mem, role) && IsTable(role, root, 2) && 0 <= va < 0x40_0000_0000
    ensures var e := LeafPte(mem, root, Key(va));
            var hw := HardwareTranslate(mem, root, va);
            UserAddress(mem, root, va) == (if hw.Physical? then hw.pa else 0) <==> !(V(e) && W(e) && !R(e))
  {
    HardwareReachesLeaf(mem, role, root, va);
    var v := Key(va);
    WalkStays(mem, role, root, v);
    var t := LowTable(mem, root, v);
    if t != NONE {
      assert LeafEntry(mem, role, t, Px(0, v));
    }
  }

  /** walkaddr answers exactly when a valid leaf with a permission bit exists, and then adds the page offset to
      what walk_page answers. */
  lemma WalkAddrExtendsWalkPage(mem: Memory, role: Roles, root: int, va: int)
    requires Tables(mem, role) && Leaves(mem, role) && IsTable(role, root, 2) && 0 <= va
    ensures var e := LeafPte(mem, root, Key(va));
            var page := if V(e) then Addr(PteFrame(e)) else 0;
            && (UserAddress(mem, root, va) != 0 <==> Key(va) in Translations(mem, root))
            && (page != 0 <==> Key(va) in Translations(mem, root))
            && (page != 0 ==> UserAddress(mem, root, va) == page + va % PAGE_SIZE)
  {
    var v := Key(va);
    WalkStays(mem, role, root, v);
    var t := LowTable(mem, root, v);
    if t != NONE {
      assert LeafEntry(mem, role, t, Px(0, v));
    }
  }
}
