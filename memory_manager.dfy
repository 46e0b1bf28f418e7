/**
 * The memory manager as the object the kernel holds: its tables are fields that the
 * methods update in place. Each method is proved against the matching function of
 * module PagedMemory, and each keeps the invariant Inv.
 */
module MemoryManager {
  import opened Wrappers
  import opened PagedMemory
  import MemoryLemmas

  class Memory {
    var pageSize: nat
    var totalPhysicalPages: nat
    var physicalPages: map<nat, seq<byte>>
    var freePageFrames: seq<nat>
    var processVm: map<int, AddressSpace>
    var kernelReservedPages: seq<nat>

    /** The abstract value of the manager. */
    function State(): MemState
      reads this
    {
      MemState(pageSize, totalPhysicalPages, physicalPages, freePageFrames, processVm, kernelReservedPages)
    }

    ghost predicate Valid()
      reads this
    {
      Inv(State())
    }

    /** `Memory(total_physical_pages, page_size)`: all frames free, then the kernel's reserved. */
    constructor (totalPhysicalPages: nat := DefaultTotalPhysicalPages, pageSize: nat := DefaultPageSize)
      requires pageSize > 0
      ensures Valid()
      ensures State() == Initial(totalPhysicalPages, pageSize)
    {
      this.pageSize := pageSize;
      this.totalPhysicalPages := totalPhysicalPages;
      physicalPages := map[];
      freePageFrames := Range(0, totalPhysicalPages);
      processVm := map[];
      kernelReservedPages := [];
      new;
      ghost var free := freePageFrames;
      var reserved := ReserveKernelMemory();
      kernelReservedPages := reserved;
      ghost var k := Min(KernelFrameCount, |free|);
      assert reserved == free[..k] && freePageFrames == free[k..];
      assert physicalPages == map pfn | pfn in free[..k] :: ReservedPage(pageSize);
      assert State() == Initial(totalPhysicalPages, pageSize);
      MemoryLemmas.InitialValid(totalPhysicalPages, pageSize);
    }

    /** Pops up to four frames from the head of the free list, gives each a reserved page,
      * and returns them in the order taken. */
    method ReserveKernelMemory() returns (kernelPages: seq<nat>)
      modifies this`freePageFrames, this`physicalPages
      ensures var k := Min(KernelFrameCount, |old(freePageFrames)|);
        && kernelPages == old(freePageFrames)[..k]
        && freePageFrames == old(freePageFrames)[k..]
        && physicalPages == old(physicalPages) + map pfn | pfn in kernelPages :: ReservedPage(pageSize)
    {
      kernelPages := [];
      ghost var free0 := freePageFrames;
      for i := 0 to KernelFrameCount
        invariant var k := Min(i, |free0|);
          kernelPages == free0[..k] && freePageFrames == free0[k..]
        invariant physicalPages == old(physicalPages) + map pfn | pfn in kernelPages :: ReservedPage(pageSize)
      {
        if |freePageFrames| > 0 {
          var pfn := freePageFrames[0];
          freePageFrames := freePageFrames[1..];
          kernelPages := kernelPages + [pfn];
          physicalPages := physicalPages[pfn := ReservedPage(pageSize)];
        }
      }
    }

    /** Gives `pid` an empty address space unless it already has one. */
    method CreateProcessVm(pid: int)
      requires Valid()
      modifies this`processVm
      ensures Valid()
      ensures State() == PagedMemory.CreateProcessVm(old(State()), pid)
    {
      if pid !in processVm {
        processVm := processVm[pid := AddressSpace(map[], map[])];
      }
      MemoryLemmas.CreateProcessVmPreserves(old(State()), pid);
    }

    /** Maps `vpn` of `pid` to a fresh zero-filled frame with `permission`; None when the pid
      * has no address space or no frame is free. */
    method AllocatePhysicalPage(pid: int, vpn: int, permission: string := DefaultAllocatePermission) returns (pfn: Option<nat>)
      requires Valid()
      modifies this`physicalPages, this`freePageFrames, this`processVm
      ensures Valid()
      ensures (pfn, State()) == Allocate(old(State()), pid, vpn, permission)
      ensures old(!IsMapped(State(), pid, vpn)) && old(NoLeak(State())) ==> NoLeak(State())
    {
      if pid !in processVm {
        return None;
      }
      if |freePageFrames| == 0 {
        return None;
      }
      var frame := freePageFrames[0];
      freePageFrames := freePageFrames[1..];
      physicalPages := physicalPages[frame := Zeros(pageSize)];
      var space := processVm[pid];
      processVm := processVm[pid := AddressSpace(space.pageTable[vpn := frame], space.permissions[vpn := permission])];
      MemoryLemmas.AllocatePreservesInv(old(State()), pid, vpn, permission);
      if old(!IsMapped(State(), pid, vpn)) && old(NoLeak(State())) {
        MemoryLemmas.AllocateConservesFrames(old(State()), pid, vpn, permission);
      }
      return Some(frame);
    }

    /** Unmaps `vpn` of `pid`; a non-reserved frame goes back to the tail of the free list and
      * loses its buffer. Nothing happens for an unknown pid or vpn. */
    method FreePhysicalPage(pid: int, vpn: int)
      requires Valid()
      modifies this`physicalPages, this`freePageFrames, this`processVm
      ensures Valid()
      ensures State() == Free(old(State()), pid, vpn)
      ensures old(NoLeak(State())) ==> NoLeak(State())
    {
      if pid !in processVm {
        return;
      }
      var space := processVm[pid];
      if vpn !in space.pageTable {
        return;
      }
      var pfn := space.pageTable[vpn];
      space := space.(pageTable := space.pageTable - {vpn});
      if pfn !in kernelReservedPages {
        freePageFrames := freePageFrames + [pfn];
        physicalPages := physicalPages - {pfn};
      }
      if vpn in space.permissions {
        space := space.(permissions := space.permissions - {vpn});
      }
      processVm := processVm[pid := space];
      MemoryLemmas.FreePreservesInv(old(State()), pid, vpn);
      if old(NoLeak(State())) {
        MemoryLemmas.FreeConservesFrames(old(State()), pid, vpn);
      }
    }

    /** (physical address, permission), or None for an unknown pid or an unmapped page. */
    method TranslateVirtualAddress(pid: int, virtualAddr: int) returns (t: Option<Translation>)
      requires Valid()
      ensures t == Translate(State(), pid, virtualAddr)
    {
      if pid !in processVm {
        return None;
      }
      var vpn := virtualAddr / pageSize;
      var offset := virtualAddr % pageSize;
      var pageTable := processVm[pid].pageTable;
      if vpn !in pageTable {
        return None;
      }
      var pfn := pageTable[vpn];
      var physicalAddr := pfn * pageSize + offset;
      var permissions := processVm[pid].permissions;
      var permission := if vpn in permissions then permissions[vpn] else DefaultPermission;
      return Some(Translation(physicalAddr, permission));
    }

    /** The unsigned little-endian value of up to `length` bytes at `virtualAddr`, cut at the
      * page end; 0 on a failed translation, a missing read permission or a missing frame. */
    method ReadMemory(pid: int, virtualAddr: int, length: nat := DefaultAccessLength) returns (value: nat)
      requires Valid()
      ensures value == Read(State(), pid, virtualAddr, length)
    {
      value := 0;
      var t := TranslateVirtualAddress(pid, virtualAddr);
      if t.None? || t.value.physicalAddr == 0 {
        return;
      }
      if t.value.permission !in ReadPermissions {
        return;
      }
      var pfn := t.value.physicalAddr / pageSize;
      if pfn in physicalPages {
        var pageData := physicalPages[pfn];
        var offset := t.value.physicalAddr % pageSize;
        var n := length;
        if offset + n > pageSize {
          n := pageSize - offset;
        }
        var readData := PySlice(pageData, offset, offset + n);
        value := FromBytes(readData);
      }
    }

    /** Writes `data` as `length` little-endian bytes at `virtualAddr`, cut at the page end.
      * Refused, changing nothing, on a failed translation, a permission other than "rw" or
      * a missing frame; OverflowRaised, changing nothing, when `data` does not fit. */
    method WriteMemory(pid: int, virtualAddr: int, data: int, length: nat := DefaultAccessLength) returns (status: WriteStatus)
      requires Valid()
      modifies this`physicalPages
      ensures Valid()
      ensures (status, State()) == Write(old(State()), pid, virtualAddr, data, length)
    {
      ghost var s0 := State();
      var t := TranslateVirtualAddress(pid, virtualAddr);
      if t.None? || t.value.physicalAddr == 0 {
        return Refused;
      }
      if t.value.permission != WritePermission {
        return Refused;
      }
      var pfn := t.value.physicalAddr / pageSize;
      if pfn !in physicalPages {
        return Refused;
      }
      var pageData := physicalPages[pfn];
      var offset := t.value.physicalAddr % pageSize;
      var n := length;
      if offset + n > pageSize {
        n := pageSize - offset;
      }
      assert n == ClampToPage(offset, length, pageSize);
      if data < 0 || data >= Pow256(n) {
        return OverflowRaised;
      }
      var dataBytes := ToBytes(data, n);
      pageData := PySplice(pageData, offset, offset + n, dataBytes);
      physicalPages := physicalPages[pfn := pageData];
      assert State() == s0.(physicalPages := s0.physicalPages[pfn := pageData]);
      MemoryLemmas.WritePreserves(s0, pid, virtualAddr, data, length);
      return Written;
    }

    /** Free physical memory in bytes: when nothing is leaked, every byte of the frames that
      * are neither kernel-reserved nor allocated to a process. */
    method GetFreeMemorySize() returns (size: nat)
      requires Valid()
      ensures size == FreeMemorySize(State())
      ensures NoLeak(State()) ==>
        size == (totalPhysicalPages - |kernelReservedPages| - |MappedFrames(State())|) * pageSize
    {
      size := |freePageFrames| * pageSize;
      if NoLeak(State()) {
        MemoryLemmas.FreeMemorySizeConserved(State());
      }
    }
  }
}
