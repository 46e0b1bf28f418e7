/**
 * Properties of the paged memory manager's specification (module PagedMemory):
 * the layout after construction, what each operation does and keeps, frame
 * conservation, and the write/read round trip.
 */
module MemoryLemmas {
  import opened Wrappers
  import opened PagedMemory
  import Arithmetic

  // ---------------------------------------------------------------------------
  // Construction
  // ---------------------------------------------------------------------------

  /** After construction min(4, total) frames are reserved: the lowest-numbered ones,
    * taken from the head of the free list, each holding a reserved page; the rest
    * stay free in order; no process has an address space. */
  lemma InitialLayout(total: nat, pageSize: nat)
    ensures var s := Initial(total, pageSize);
      var k := Min(KernelFrameCount, total);
      && s.kernelReservedPages == Range(0, k)
      && s.freePageFrames == Range(k, total)
      && (forall pfn: nat :: pfn in s.physicalPages <==> pfn < k)
      && (forall pfn :: pfn in s.physicalPages ==> s.physicalPages[pfn] == ReservedPage(pageSize))
      && s.processVm == map[]
  {
    var free := Range(0, total);
    var k := Min(KernelFrameCount, total);
    assert free[..k] == Range(0, k);
    assert free[k..] == Range(k, total);
    var s := Initial(total, pageSize);
    forall pfn: nat ensures pfn in s.physicalPages <==> pfn < k {
      assert pfn in free[..k] <==> pfn in Range(0, k);
    }
  }

  /** The state after construction satisfies the invariant and has leaked nothing. */
  lemma InitialValid(total: nat, pageSize: nat)
    requires pageSize > 0
    ensures Inv(Initial(total, pageSize)) && NoLeak(Initial(total, pageSize))
  {
    InitialLayout(total, pageSize);
    var s := Initial(total, pageSize);
    assert Distinct(s.freePageFrames);
  }

  // ---------------------------------------------------------------------------
  // Address spaces
  // ---------------------------------------------------------------------------

  /** Creating an address space is idempotent: an existing page table and permission
    * map are left untouched; a new pid gets empty ones; no other pid is affected. */
  lemma CreateProcessVmIdempotent(s: MemState, pid: int)
    ensures pid in s.processVm ==> CreateProcessVm(s, pid) == s
    ensures CreateProcessVm(CreateProcessVm(s, pid), pid) == CreateProcessVm(s, pid)
    ensures pid !in s.processVm ==> CreateProcessVm(s, pid).processVm[pid] == EmptySpace
    ensures CreateProcessVm(s, pid).processVm.Keys == s.processVm.Keys + {pid}
    ensures forall q :: q in s.processVm ==> CreateProcessVm(s, pid).processVm[q] == s.processVm[q]
  {
  }

  lemma CreateProcessVmPreserves(s: MemState, pid: int)
    requires Inv(s)
    ensures Inv(CreateProcessVm(s, pid))
    ensures NoLeak(s) ==> NoLeak(CreateProcessVm(s, pid))
  {
    var s' := CreateProcessVm(s, pid);
    if pid !in s.processVm {
      assert MappedFrames(s') == MappedFrames(s) by {
        forall pfn | pfn in MappedFrames(s') ensures pfn in MappedFrames(s) {
          var q, v :| q in s'.processVm && v in s'.processVm[q].pageTable && s'.processVm[q].pageTable[v] == pfn;
          assert q != pid;
        }
        forall pfn | pfn in MappedFrames(s) ensures pfn in MappedFrames(s') {
          var q, v :| q in s.processVm && v in s.processVm[q].pageTable && s.processVm[q].pageTable[v] == pfn;
          assert s'.processVm[q] == s.processVm[q];
        }
      }
    }
  }

  // ---------------------------------------------------------------------------
  // Allocation
  // ---------------------------------------------------------------------------

  /** Allocation fails, returning None and changing nothing, exactly when the pid has no
    * address space or the free list is empty. Otherwise it pops the head of the free
    * list, gives that frame a page of zeros, maps vpn to it with the permission, returns
    * it, and changes no other pid's address space. */
  lemma AllocateOutcome(s: MemState, pid: int, vpn: int, permission: string)
    ensures var (r, s') := Allocate(s, pid, vpn, permission);
      && (r.None? <==> pid !in s.processVm || s.freePageFrames == [])
      && (r.None? ==> s' == s)
      && (r.Some? ==>
            && r.value == s.freePageFrames[0]
            && s'.freePageFrames == s.freePageFrames[1..]
            && s'.physicalPages == s.physicalPages[r.value := Zeros(s.pageSize)]
            && |s'.physicalPages[r.value]| == s.pageSize
            && s'.processVm.Keys == s.processVm.Keys
            && s'.processVm[pid].pageTable == s.processVm[pid].pageTable[vpn := r.value]
            && s'.processVm[pid].permissions == s.processVm[pid].permissions[vpn := permission]
            && (forall q :: q in s.processVm && q != pid ==> s'.processVm[q] == s.processVm[q])
            && s'.kernelReservedPages == s.kernelReservedPages
            && s'.pageSize == s.pageSize && s'.totalPhysicalPages == s.totalPhysicalPages)
  {
  }

  /** The frame a successful allocation hands out was nobody's: not reserved, not mapped. */
  lemma AllocateTakesUnusedFrame(s: MemState, pid: int, vpn: int, permission: string)
    requires Inv(s)
    ensures var (r, _) := Allocate(s, pid, vpn, permission);
      r.Some? ==> r.value !in s.kernelReservedPages && r.value !in MappedFrames(s) && r.value < s.totalPhysicalPages
  {
    var (r, _) := Allocate(s, pid, vpn, permission);
    if r.Some? {
      var pfn := r.value;
      assert pfn in s.freePageFrames;
    }
  }

  lemma AllocatePreservesInv(s: MemState, pid: int, vpn: int, permission: string)
    requires Inv(s)
    ensures Inv(Allocate(s, pid, vpn, permission).1)
  {
    var (r, s') := Allocate(s, pid, vpn, permission);
    if r.Some? {
      var pfn := r.value;
      AllocateTakesUnusedFrame(s, pid, vpn, permission);
      assert pfn !in s.physicalPages;
      assert Distinct(s'.freePageFrames) by {
        forall i, j | 0 <= i < j < |s'.freePageFrames|
          ensures s'.freePageFrames[i] != s'.freePageFrames[j]
        {
          assert s'.freePageFrames[i] == s.freePageFrames[i + 1];
          assert s'.freePageFrames[j] == s.freePageFrames[j + 1];
        }
      }
      forall p | p in s'.freePageFrames
        ensures |s'.kernelReservedPages| <= p < s'.totalPhysicalPages && p !in s'.physicalPages
      {
        var i :| 0 <= i < |s'.freePageFrames| && s'.freePageFrames[i] == p;
        assert s.freePageFrames[i + 1] == p;
        assert s.freePageFrames[i + 1] in s.freePageFrames;
        assert p != pfn;
      }
      forall p: nat | p < s'.totalPhysicalPages && p !in s'.freePageFrames
        ensures p in s'.physicalPages
      {
        if p != pfn {
          assert p !in s.freePageFrames;
        }
      }
      forall q, v | q in s'.processVm && v in s'.processVm[q].pageTable
        ensures s'.processVm[q].pageTable[v] in s'.physicalPages
        ensures s'.processVm[q].pageTable[v] >= |s'.kernelReservedPages|
      {
        if q == pid && v == vpn {
          assert s'.processVm[q].pageTable[v] == pfn;
        } else {
          assert s'.processVm[q].pageTable[v] == s.processVm[q].pageTable[v];
        }
      }
      forall q, v, q', v' |
        q in s'.processVm && v in s'.processVm[q].pageTable &&
        q' in s'.processVm && v' in s'.processVm[q'].pageTable &&
        s'.processVm[q].pageTable[v] == s'.processVm[q'].pageTable[v']
        ensures q == q' && v == v'
      {
        var fresh1 := q == pid && v == vpn;
        var fresh2 := q' == pid && v' == vpn;
        if !fresh1 {
          assert s'.processVm[q].pageTable[v] == s.processVm[q].pageTable[v];
          assert s.processVm[q].pageTable[v] in MappedFrames(s);
        }
        if !fresh2 {
          assert s'.processVm[q'].pageTable[v'] == s.processVm[q'].pageTable[v'];
          assert s.processVm[q'].pageTable[v'] in MappedFrames(s);
        }
      }
    }
  }

  /** Allocating into an unmapped vpn conserves frames. */
  lemma AllocateConservesFrames(s: MemState, pid: int, vpn: int, permission: string)
    requires Inv(s) && NoLeak(s)
    requires !IsMapped(s, pid, vpn)
    ensures NoLeak(Allocate(s, pid, vpn, permission).1)
  {
    var (r, s') := Allocate(s, pid, vpn, permission);
    if r.Some? {
      forall p | p in s'.physicalPages
        ensures p in s'.kernelReservedPages || p in MappedFrames(s')
      {
        if p == r.value {
          assert s'.processVm[pid].pageTable[vpn] == p;
        } else if p !in s.kernelReservedPages {
          assert p in MappedFrames(s);
          var q, v :| q in s.processVm && v in s.processVm[q].pageTable && s.processVm[q].pageTable[v] == p;
          assert !(q == pid && v == vpn);
          assert s'.processVm[q].pageTable[v] == p;
        }
      }
    }
  }

  /** Allocating onto an already-mapped vpn (with a frame free) overwrites the mapping and the
    * frame it replaced is leaked: it is neither free, reserved nor mapped any more. */
  lemma AllocateOverMappedLeaks(s: MemState, pid: int, vpn: int, permission: string)
    requires Inv(s)
    requires IsMapped(s, pid, vpn) && s.freePageFrames != []
    ensures var s' := Allocate(s, pid, vpn, permission).1;
      var old_pfn := s.processVm[pid].pageTable[vpn];
      && old_pfn in s'.physicalPages
      && old_pfn !in s'.freePageFrames
      && old_pfn !in s'.kernelReservedPages
      && old_pfn !in MappedFrames(s')
      && !NoLeak(s')
  {
    var s' := Allocate(s, pid, vpn, permission).1;
    var oldPfn := s.processVm[pid].pageTable[vpn];
    var pfn := s.freePageFrames[0];
    assert oldPfn != pfn;
    assert oldPfn !in s'.freePageFrames by {
      assert forall i :: 0 <= i < |s'.freePageFrames| ==> s'.freePageFrames[i] == s.freePageFrames[i + 1];
    }
  }

  // ---------------------------------------------------------------------------
  // Freeing
  // ---------------------------------------------------------------------------

  /** Freeing is a no-op for an unknown pid or an unmapped vpn. Otherwise the mapping and its
    * permission go; a non-reserved frame is appended to the tail of the free list and loses
    * its buffer; a reserved frame is not touched. */
  lemma FreeOutcome(s: MemState, pid: int, vpn: int)
    ensures !IsMapped(s, pid, vpn) ==> Free(s, pid, vpn) == s
    ensures IsMapped(s, pid, vpn) ==>
      var s' := Free(s, pid, vpn);
      var pfn := s.processVm[pid].pageTable[vpn];
      && s'.processVm.Keys == s.processVm.Keys
      && s'.processVm[pid].pageTable == s.processVm[pid].pageTable - {vpn}
      && s'.processVm[pid].permissions == s.processVm[pid].permissions - {vpn}
      && (forall q :: q in s.processVm && q != pid ==> s'.processVm[q] == s.processVm[q])
      && (pfn !in s.kernelReservedPages ==>
            s'.freePageFrames == s.freePageFrames + [pfn] && s'.physicalPages == s.physicalPages - {pfn})
      && (pfn in s.kernelReservedPages ==>
            s'.freePageFrames == s.freePageFrames && s'.physicalPages == s.physicalPages)
  {
  }

  /** A reserved frame never reaches the free list. */
  lemma FreeNeverReleasesReserved(s: MemState, pid: int, vpn: int)
    requires Inv(s)
    ensures forall pfn :: pfn in Free(s, pid, vpn).freePageFrames ==> pfn !in s.kernelReservedPages
  {
    var s' := Free(s, pid, vpn);
    forall pfn | pfn in s'.freePageFrames ensures pfn !in s.kernelReservedPages {
      if pfn !in s.freePageFrames {
        assert pfn == s.processVm[pid].pageTable[vpn];
      }
    }
  }

  lemma FreePreservesInv(s: MemState, pid: int, vpn: int)
    requires Inv(s)
    ensures Inv(Free(s, pid, vpn))
  {
    if IsMapped(s, pid, vpn) {
      var s' := Free(s, pid, vpn);
      var pfn := s.processVm[pid].pageTable[vpn];
      assert pfn !in s.kernelReservedPages;
      assert s'.freePageFrames == s.freePageFrames + [pfn];
      assert pfn !in s.freePageFrames;
      assert Distinct(s'.freePageFrames);
      forall q, v | q in s'.processVm && v in s'.processVm[q].pageTable
        ensures s'.processVm[q].pageTable[v] in s'.physicalPages
      {
        assert s'.processVm[q].pageTable[v] == s.processVm[q].pageTable[v];
        assert !(q == pid && v == vpn);
      }
      forall p: nat | p < s'.totalPhysicalPages && p !in s'.freePageFrames
        ensures p in s'.physicalPages
      {
        assert p != pfn;
        assert p !in s.freePageFrames;
      }
    }
  }

  lemma FreeConservesFrames(s: MemState, pid: int, vpn: int)
    requires Inv(s) && NoLeak(s)
    ensures NoLeak(Free(s, pid, vpn))
  {
    if IsMapped(s, pid, vpn) {
      var s' := Free(s, pid, vpn);
      var pfn := s.processVm[pid].pageTable[vpn];
      forall p | p in s'.physicalPages
        ensures p in s'.kernelReservedPages || p in MappedFrames(s')
      {
        if p !in s.kernelReservedPages {
          var q, v :| q in s.processVm && v in s.processVm[q].pageTable && s.processVm[q].pageTable[v] == p;
          assert p != pfn;
          assert !(q == pid && v == vpn);
          assert s'.processVm[q].pageTable[v] == p;
        }
      }
    }
  }

  // ---------------------------------------------------------------------------
  // Frame conservation
  // ---------------------------------------------------------------------------

  lemma {:induction false} DistinctCard(xs: seq<nat>)
    requires Distinct(xs)
    ensures |set x: nat | x in xs| == |xs|
  {
    if |xs| > 0 {
      var rest := xs[1..];
      assert Distinct(rest) by {
        forall i, j | 0 <= i < j < |rest| ensures rest[i] != rest[j] {
          assert rest[i] == xs[i + 1] && rest[j] == xs[j + 1];
        }
      }
      DistinctCard(rest);
      assert xs[0] !in rest by {
        forall j | 0 <= j < |rest| ensures rest[j] != xs[0] {
          assert rest[j] == xs[j + 1];
        }
      }
      var tail := set x: nat | x in rest;
      assert (set x: nat | x in xs) == {xs[0]} + tail;
      assert xs[0] !in tail;
      assert |{xs[0]} + tail| == |tail| + 1;
      assert |tail| == |rest|;
      assert |set x: nat | x in xs| == |rest| + 1;
    }
  }

  /** The frames that hold a buffer are exactly the reserved ones and the mapped ones,
    * and no frame is both. */
  lemma PagesAreReservedOrMapped(s: MemState)
    requires Inv(s) && NoLeak(s)
    ensures var reserved := set x: nat | x in s.kernelReservedPages;
      s.physicalPages.Keys == reserved + MappedFrames(s) && reserved !! MappedFrames(s)
  {
    var reserved := set x: nat | x in s.kernelReservedPages;
    forall p | p in MappedFrames(s) ensures p in s.physicalPages && p !in reserved {
      var q, v :| q in s.processVm && v in s.processVm[q].pageTable && s.processVm[q].pageTable[v] == p;
    }
    forall p | p in reserved ensures p in s.physicalPages {
      assert p !in s.freePageFrames;
    }
  }

  /** The frames below the total are exactly the free ones and the ones holding a buffer,
    * and no frame is both. */
  lemma FramesAreFreeOrHeld(s: MemState)
    requires Inv(s)
    ensures var free := set x: nat | x in s.freePageFrames;
      (set x: nat | x in Range(0, s.totalPhysicalPages)) == free + s.physicalPages.Keys &&
      free !! s.physicalPages.Keys
  {
  }

  /** free frames + allocated frames + reserved frames = total frames, whenever nothing is leaked. */
  lemma FrameConservation(s: MemState)
    requires Inv(s) && NoLeak(s)
    ensures |s.freePageFrames| + |MappedFrames(s)| + |s.kernelReservedPages| == s.totalPhysicalPages
  {
    var free := set x: nat | x in s.freePageFrames;
    var reserved := set x: nat | x in s.kernelReservedPages;
    var frames := Range(0, s.totalPhysicalPages);
    var all := set x: nat | x in frames;
    DistinctCard(s.freePageFrames);
    assert Distinct(s.kernelReservedPages);
    DistinctCard(s.kernelReservedPages);
    assert Distinct(frames);
    DistinctCard(frames);
    PagesAreReservedOrMapped(s);
    FramesAreFreeOrHeld(s);
    assert |all| == |free| + |s.physicalPages.Keys|;
    assert |s.physicalPages.Keys| == |reserved| + |MappedFrames(s)|;
  }

  /** The free memory reported is the memory neither reserved nor allocated, whenever nothing
    * is leaked. */
  lemma FreeMemorySizeConserved(s: MemState)
    requires Inv(s) && NoLeak(s)
    ensures FreeMemorySize(s) == (s.totalPhysicalPages - |s.kernelReservedPages| - |MappedFrames(s)|) * s.pageSize
  {
    FrameConservation(s);
  }

  /** A new manager reports every frame but the reserved ones as free; with the default
    * arguments that is 60 frames of 4096 bytes. */
  lemma InitialFreeMemory(total: nat, pageSize: nat)
    ensures FreeMemorySize(Initial(total, pageSize)) == (total - Min(KernelFrameCount, total)) * pageSize
    ensures FreeMemorySize(Initial(DefaultTotalPhysicalPages, DefaultPageSize)) == 60 * 4096
  {
    InitialLayout(total, pageSize);
    InitialLayout(DefaultTotalPhysicalPages, DefaultPageSize);
  }

  // ---------------------------------------------------------------------------
  // Translation
  // ---------------------------------------------------------------------------

  /** Under the invariant a successful translation is never physical address 0 (frame 0 is
    * reserved whenever any frame exists), so the source's `if not physical_addr` test
    * rejects only failed translations. */
  lemma TranslateNeverZero(s: MemState, pid: int, virtualAddr: int)
    requires Inv(s)
    ensures var t := Translate(s, pid, virtualAddr);
      t.Some? ==> t.value.physicalAddr >= s.pageSize > 0
  {
    var t := Translate(s, pid, virtualAddr);
    if t.Some? {
      var vpn := virtualAddr / s.pageSize;
      var pfn := s.processVm[pid].pageTable[vpn];
      assert pfn in s.physicalPages;
      assert pfn >= 1;
      Arithmetic.MulAtLeast(pfn, s.pageSize);
    }
  }

  // ---------------------------------------------------------------------------
  // Reads and writes
  // ---------------------------------------------------------------------------

  /** A read returns 0 when the translation fails or the permission is not r, rw or rx. */
  lemma ReadRefused(s: MemState, pid: int, virtualAddr: int, length: nat)
    requires s.pageSize > 0
    ensures var t := Translate(s, pid, virtualAddr);
      (t.None? || t.value.permission !in ReadPermissions) ==> Read(s, pid, virtualAddr, length) == 0
  {
  }

  /** A write succeeds only on a translated "rw" page; any other permission refuses it and
    * changes nothing. */
  lemma WriteRefused(s: MemState, pid: int, virtualAddr: int, data: int, length: nat)
    requires s.pageSize > 0
    ensures var t := Translate(s, pid, virtualAddr);
      (t.None? || t.value.permission != WritePermission) ==> Write(s, pid, virtualAddr, data, length) == (Refused, s)
    ensures Write(s, pid, virtualAddr, data, length).0 != Written ==> Write(s, pid, virtualAddr, data, length).1 == s
  {
  }

  /** Only the written bytes of the one frame change: nothing else in the state, no other frame,
    * no byte of that frame outside [offset, offset + length), where length is cut at the page end. */
  lemma WriteLocality(s: MemState, pid: int, virtualAddr: int, data: int, length: nat)
    requires Inv(s)
    ensures var (status, s') := Write(s, pid, virtualAddr, data, length);
      && s'.freePageFrames == s.freePageFrames && s'.processVm == s.processVm
      && s'.kernelReservedPages == s.kernelReservedPages
      && s'.pageSize == s.pageSize && s'.totalPhysicalPages == s.totalPhysicalPages
      && s'.physicalPages.Keys == s.physicalPages.Keys
      && (status == Written ==>
            var vpn := virtualAddr / s.pageSize;
            var pfn := s.processVm[pid].pageTable[vpn];
            var offset := virtualAddr % s.pageSize;
            var n := ClampToPage(offset, length, s.pageSize);
            && (forall p :: p in s.physicalPages && p != pfn ==> s'.physicalPages[p] == s.physicalPages[p])
            && |s'.physicalPages[pfn]| == s.pageSize
            && s'.physicalPages[pfn][offset..offset + n] == ToBytes(data, n)
            && (forall i :: 0 <= i < s.pageSize && !(offset <= i < offset + n) ==>
                  s'.physicalPages[pfn][i] == s.physicalPages[pfn][i]))
  {
    var t := Translate(s, pid, virtualAddr);
    if t.Some? {
      TranslateNeverZero(s, pid, virtualAddr);
    }
  }

  lemma WritePreserves(s: MemState, pid: int, virtualAddr: int, data: int, length: nat)
    requires Inv(s)
    ensures Inv(Write(s, pid, virtualAddr, data, length).1)
    ensures NoLeak(s) ==> NoLeak(Write(s, pid, virtualAddr, data, length).1)
  {
    WriteLocality(s, pid, virtualAddr, data, length);
  }

  /** Write then read at the same address and length returns the value written. */
  lemma WriteThenRead(s: MemState, pid: int, virtualAddr: int, data: int, length: nat)
    requires Inv(s)
    requires Write(s, pid, virtualAddr, data, length).0 == Written
    ensures Read(Write(s, pid, virtualAddr, data, length).1, pid, virtualAddr, length) == data
  {
    var s' := Write(s, pid, virtualAddr, data, length).1;
    WriteLocality(s, pid, virtualAddr, data, length);
    TranslateNeverZero(s, pid, virtualAddr);
    var offset := virtualAddr % s.pageSize;
    var n := ClampToPage(offset, length, s.pageSize);
    assert Translate(s', pid, virtualAddr) == Translate(s, pid, virtualAddr);
    FromBytesToBytes(data, n);
  }

  /** On a mapped "rw" page, a value that fits in `length` bytes that do not cross the page end
    * is written, and reading it back returns it. */
  lemma WriteReadRoundTrip(s: MemState, pid: int, virtualAddr: int, data: nat, length: nat)
    requires Inv(s)
    requires IsMapped(s, pid, virtualAddr / s.pageSize)
    requires Translate(s, pid, virtualAddr).value.permission == WritePermission
    requires virtualAddr % s.pageSize + length <= s.pageSize
    requires data < Pow256(length)
    ensures Write(s, pid, virtualAddr, data, length).0 == Written
    ensures Read(Write(s, pid, virtualAddr, data, length).1, pid, virtualAddr, length) == data
  {
    TranslateNeverZero(s, pid, virtualAddr);
    WriteThenRead(s, pid, virtualAddr, data, length);
  }
}
