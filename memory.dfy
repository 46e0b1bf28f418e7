/**
 * The paged memory manager: physical frames that move between a FIFO free list,
 * per-process page tables and a small set of kernel-reserved frames; address
 * translation; permission-checked little-endian reads and writes.
 *
 * `MemState` is the abstract value of the manager and the functions over it are
 * its specification. Their properties are proved in module MemoryLemmas; the
 * class MemoryManager.Memory holds the same state in mutable fields and its
 * methods are proved against these functions.
 */
module PagedMemory {
  import opened Wrappers
  import Arithmetic

  newtype byte = b: int | 0 <= b < 256

  /** The default arguments: `Memory(total_physical_pages=64, page_size=4096)`,
    * `allocate_physical_page(..., permission="rw")` and `read_memory`/`write_memory(..., length=4)`. */
  const DefaultTotalPhysicalPages: nat := 64
  const DefaultPageSize: nat := 4096
  const DefaultAllocatePermission: string := "rw"
  const DefaultAccessLength: nat := 4
  /** The number of frames kept for the kernel. */
  const KernelFrameCount: nat := 4

  /** The permission a read accepts; a write accepts exactly "rw". */
  const ReadPermissions: set<string> := {"r", "rw", "rx"}
  const WritePermission: string := "rw"
  /** The permission reported for a mapped page that has no permission entry. */
  const DefaultPermission: string := "r"

  function Min(a: int, b: int): int { if a < b then a else b }

  // ---------------------------------------------------------------------------
  // Bytes and little-endian integers
  // ---------------------------------------------------------------------------

  /** 256^n: the number of values that fit in n bytes. */
  function Pow256(n: nat): (p: nat)
    ensures p >= 1
    ensures n > 0 ==> p >= 256
  {
    if n == 0 then 1 else 256 * Pow256(n - 1)
  }

  lemma {:induction false} Pow256Monotone(m: nat, n: nat)
    requires m <= n
    ensures Pow256(m) <= Pow256(n)
    decreases n - m
  {
    if m < n {
      Pow256Monotone(m + 1, n);
    }
  }

  /** Unsigned little-endian decoding, `int.from_bytes(bs, "little", signed=False)`. */
  function FromBytes(bs: seq<byte>): (v: nat)
    ensures v < Pow256(|bs|)
  {
    if |bs| == 0 then 0
    else
      var rest := FromBytes(bs[1..]);
      assert rest + 1 <= Pow256(|bs| - 1);
      assert 256 * (rest + 1) <= 256 * Pow256(|bs| - 1);
      bs[0] as nat + 256 * rest
  }

  /** Unsigned little-endian encoding into exactly n bytes, `v.to_bytes(n, "little")`,
    * which only exists when v fits. */
  function ToBytes(v: nat, n: nat): (bs: seq<byte>)
    requires v < Pow256(n)
    ensures |bs| == n
  {
    if n == 0 then [] else [(v % 256) as byte] + ToBytes(v / 256, n - 1)
  }

  /** Decoding undoes encoding. */
  lemma {:induction false} FromBytesToBytes(v: nat, n: nat)
    requires v < Pow256(n)
    ensures FromBytes(ToBytes(v, n)) == v
  {
    if n > 0 {
      FromBytesToBytes(v / 256, n - 1);
      assert ToBytes(v, n)[1..] == ToBytes(v / 256, n - 1);
    }
  }

  /** Encoding undoes decoding: every byte string is the encoding of its value. */
  lemma {:induction false} ToBytesFromBytes(bs: seq<byte>)
    ensures ToBytes(FromBytes(bs), |bs|) == bs
  {
    if |bs| > 0 {
      var rest := FromBytes(bs[1..]);
      ToBytesFromBytes(bs[1..]);
      assert FromBytes(bs) == bs[0] as nat + 256 * rest;
      assert FromBytes(bs) % 256 == bs[0] as nat;
      assert FromBytes(bs) / 256 == rest;
    }
  }

  /** `n` zero bytes; `b"\x00" * n`, which is empty for n <= 0. */
  function Zeros(n: int): (z: seq<byte>)
    ensures |z| == if n > 0 then n else 0
    ensures forall i :: 0 <= i < |z| ==> z[i] == 0
    decreases n
  {
    if n <= 0 then [] else [0] + Zeros(n - 1)
  }

  /** Python's `buf[lo:hi]` for 0 <= lo <= hi: both bounds are cut at the end of the buffer. */
  function PySlice(buf: seq<byte>, lo: nat, hi: nat): (r: seq<byte>)
    requires lo <= hi
    ensures hi <= |buf| ==> r == buf[lo..hi]
    ensures |r| <= hi - lo
  {
    buf[Min(lo, |buf|)..Min(hi, |buf|)]
  }

  /** Python's slice assignment `buf[lo:hi] = bs` for 0 <= lo <= hi. */
  function PySplice(buf: seq<byte>, lo: nat, hi: nat, bs: seq<byte>): (r: seq<byte>)
    requires lo <= hi
    ensures hi <= |buf| && |bs| == hi - lo ==>
      |r| == |buf| &&
      r[lo..hi] == bs &&
      (forall i :: 0 <= i < |buf| && !(lo <= i < hi) ==> r[i] == buf[i])
  {
    buf[..Min(lo, |buf|)] + bs + buf[Min(hi, |buf|)..]
  }

  /** The frame numbers lo, lo+1, ..., hi-1 in increasing order, `list(range(lo, hi))`. */
  function Range(lo: nat, hi: nat): (r: seq<nat>)
    ensures |r| == if lo <= hi then hi - lo else 0
    ensures forall i :: 0 <= i < |r| ==> r[i] == lo + i
    ensures forall x :: x in r <==> lo <= x < hi
    decreases hi - lo
  {
    if lo >= hi then [] else [lo] + Range(lo + 1, hi)
  }

  // ---------------------------------------------------------------------------
  // Kernel-reserved page contents
  // ---------------------------------------------------------------------------

  /** The ASCII bytes of "KERNEL_RESERVED" (15 bytes). */
  const KernelTag: seq<byte> := [75, 69, 82, 78, 69, 76, 95, 82, 69, 83, 69, 82, 86, 69, 68]

  /** A reserved frame's buffer as memory/memory.py:31 builds it: the tag followed by
    * page_size - 16 zero bytes. */
  function ReservedPageAsWritten(pageSize: nat): seq<byte>
  {
    KernelTag + Zeros(pageSize - 16)
  }

  /** The buffer is not one page long (except for a 15-byte page): the tag is 15 bytes, not
    * 16, so from 16 bytes on it is one byte short, and below 16 it is the bare tag. */
  lemma ReservedPageAsWrittenIsShort(pageSize: nat)
    ensures |ReservedPageAsWritten(pageSize)| == if pageSize >= 16 then pageSize - 1 else |KernelTag|
    ensures pageSize != |KernelTag| ==> |ReservedPageAsWritten(pageSize)| != pageSize
    ensures pageSize < 16 ==> ReservedPageAsWritten(pageSize) == KernelTag
  {
  }

  /** How the written buffer and the intended one relate: from 16 bytes on, the written buffer
    * is the intended page without its last (zero) byte. */
  lemma ReservedPageCorrection(pageSize: nat)
    requires pageSize >= 16
    ensures ReservedPageAsWritten(pageSize) == ReservedPage(pageSize)[..pageSize - 1]
    ensures ReservedPage(pageSize) == ReservedPageAsWritten(pageSize) + [0]
  {
    var w := ReservedPageAsWritten(pageSize);
    var p := ReservedPage(pageSize);
    assert |w| == pageSize - 1;
    forall i | 0 <= i < pageSize - 1
      ensures w[i] == p[i]
    {
      if i < |KernelTag| {
        assert p[..|KernelTag|][i] == KernelTag[i];
      }
    }
  }

  /** A reserved frame's buffer as intended: exactly one page, starting with the tag
    * (as much of it as fits) and padded with zeros. */
  function ReservedPage(pageSize: nat): (page: seq<byte>)
    ensures |page| == pageSize
    ensures page[..Min(|KernelTag|, pageSize)] == KernelTag[..Min(|KernelTag|, pageSize)]
    ensures forall i :: |KernelTag| <= i < pageSize ==> page[i] == 0
  {
    (KernelTag + Zeros(pageSize))[..pageSize]
  }

  // ---------------------------------------------------------------------------
  // The abstract state
  // ---------------------------------------------------------------------------

  /** A process's address space: page table vpn -> pfn and permission map vpn -> "r"/"rw"/"rx". */
  datatype AddressSpace = AddressSpace(pageTable: map<int, nat>, permissions: map<int, string>)

  const EmptySpace: AddressSpace := AddressSpace(map[], map[])

  datatype MemState = MemState(
    pageSize: nat,
    totalPhysicalPages: nat,
    physicalPages: map<nat, seq<byte>>,   // frame number -> frame buffer
    freePageFrames: seq<nat>,             // FIFO free list
    processVm: map<int, AddressSpace>,    // pid -> address space
    kernelReservedPages: seq<nat>)

  /** A successful translation: the physical address and the page's permission. */
  datatype Translation = Translation(physicalAddr: nat, permission: string)

  /** The outcome of a write: True, False, or the OverflowError that `to_bytes` raises
    * for a value that does not fit (or is negative). */
  datatype WriteStatus = Written | Refused | OverflowRaised

  ghost predicate Distinct(s: seq<nat>)
  {
    forall i, j :: 0 <= i < j < |s| ==> s[i] != s[j]
  }

  ghost predicate IsMapped(s: MemState, pid: int, vpn: int)
  {
    pid in s.processVm && vpn in s.processVm[pid].pageTable
  }

  /** The frames some page table maps: the frames allocated to processes. */
  ghost function MappedFrames(s: MemState): set<nat>
  {
    set pid, vpn | pid in s.processVm && vpn in s.processVm[pid].pageTable :: s.processVm[pid].pageTable[vpn]
  }

  /** Frame accounting: every frame below the total is either on the free list (once) or
    * holds a one-page buffer, never both; the reserved frames are the lowest ones and are
    * never on the free list. */
  ghost predicate FramesOk(s: MemState)
  {
    && s.pageSize > 0
    && s.kernelReservedPages == Range(0, Min(KernelFrameCount, s.totalPhysicalPages))
    && Distinct(s.freePageFrames)
    && (forall pfn :: pfn in s.freePageFrames ==>
          |s.kernelReservedPages| <= pfn < s.totalPhysicalPages && pfn !in s.physicalPages)
    && (forall pfn :: pfn in s.physicalPages ==> pfn < s.totalPhysicalPages && |s.physicalPages[pfn]| == s.pageSize)
    && (forall pfn: nat :: pfn < s.totalPhysicalPages && pfn !in s.freePageFrames ==> pfn in s.physicalPages)
  }

  /** Address spaces: a mapped vpn has a permission entry (and only a mapped one has), and a
    * frame that holds a buffer and is not reserved. */
  ghost predicate SpacesOk(s: MemState)
  {
    && (forall pid :: pid in s.processVm ==> s.processVm[pid].permissions.Keys == s.processVm[pid].pageTable.Keys)
    && (forall pid, vpn :: pid in s.processVm && vpn in s.processVm[pid].pageTable ==>
          s.processVm[pid].pageTable[vpn] in s.physicalPages &&
          s.processVm[pid].pageTable[vpn] >= |s.kernelReservedPages|)
  }

  /** No frame is mapped by two (pid, vpn) pairs. */
  ghost predicate MappingInjective(s: MemState)
  {
    forall pid, vpn, pid', vpn' ::
      pid in s.processVm && vpn in s.processVm[pid].pageTable &&
      pid' in s.processVm && vpn' in s.processVm[pid'].pageTable &&
      s.processVm[pid].pageTable[vpn] == s.processVm[pid'].pageTable[vpn'] ==>
        pid == pid' && vpn == vpn'
  }

  /** The invariant every operation keeps. */
  ghost predicate Inv(s: MemState)
  {
    FramesOk(s) && SpacesOk(s) && MappingInjective(s)
  }

  /** Frame conservation: every frame that is not free is reserved or mapped (nothing leaked). */
  ghost predicate NoLeak(s: MemState)
  {
    forall pfn :: pfn in s.physicalPages ==> pfn in s.kernelReservedPages || pfn in MappedFrames(s)
  }

  // ---------------------------------------------------------------------------
  // Operations, as functions of the state
  // ---------------------------------------------------------------------------

  /** The state right after construction: all frames free, then the first
    * min(4, total) of them popped from the head of the free list and reserved. */
  function Initial(totalPhysicalPages: nat, pageSize: nat): (s: MemState)
    ensures s.processVm == map[]
    ensures |s.kernelReservedPages| == Min(KernelFrameCount, totalPhysicalPages)
    ensures |s.kernelReservedPages| + |s.freePageFrames| == totalPhysicalPages
  {
    var free := Range(0, totalPhysicalPages);
    var k := Min(KernelFrameCount, |free|);
    MemState(pageSize, totalPhysicalPages,
             map pfn | pfn in free[..k] :: ReservedPage(pageSize),
             free[k..], map[], free[..k])
  }

  function CreateProcessVm(s: MemState, pid: int): (r: MemState)
    ensures r.processVm.Keys == s.processVm.Keys + {pid}
    ensures pid in s.processVm ==> r == s
  {
    if pid in s.processVm then s else s.(processVm := s.processVm[pid := EmptySpace])
  }

  /** Returns the allocated frame, or None, and the new state. */
  function Allocate(s: MemState, pid: int, vpn: int, permission: string): (r: (Option<nat>, MemState))
    ensures r.0.Some? <==> pid in s.processVm && |s.freePageFrames| > 0
    ensures r.0.None? ==> r.1 == s
    ensures r.0.Some? ==> |r.1.freePageFrames| == |s.freePageFrames| - 1
  {
    if pid !in s.processVm || |s.freePageFrames| == 0 then (None, s)
    else
      var pfn := s.freePageFrames[0];
      var space := s.processVm[pid];
      (Some(pfn),
       s.(physicalPages := s.physicalPages[pfn := Zeros(s.pageSize)],
          freePageFrames := s.freePageFrames[1..],
          processVm := s.processVm[pid := AddressSpace(space.pageTable[vpn := pfn],
                                                      space.permissions[vpn := permission])]))
  }

  function Free(s: MemState, pid: int, vpn: int): (r: MemState)
    ensures !IsMapped(s, pid, vpn) ==> r == s
    ensures IsMapped(s, pid, vpn) ==> !IsMapped(r, pid, vpn)
    ensures r.kernelReservedPages == s.kernelReservedPages
  {
    if pid !in s.processVm || vpn !in s.processVm[pid].pageTable then s
    else
      var space := s.processVm[pid];
      var pfn := space.pageTable[vpn];
      var unmapped := s.(processVm := s.processVm[pid := AddressSpace(space.pageTable - {vpn},
                                                                      space.permissions - {vpn})]);
      if pfn in s.kernelReservedPages then unmapped
      else unmapped.(freePageFrames := s.freePageFrames + [pfn],
                     physicalPages := s.physicalPages - {pfn})
  }

  function Translate(s: MemState, pid: int, virtualAddr: int): (t: Option<Translation>)
    requires s.pageSize > 0
    ensures t.None? <==> !IsMapped(s, pid, virtualAddr / s.pageSize)
    ensures t.Some? ==>
      var space := s.processVm[pid];
      var vpn := virtualAddr / s.pageSize;
      && t.value.physicalAddr / s.pageSize == space.pageTable[vpn]
      && t.value.physicalAddr % s.pageSize == virtualAddr % s.pageSize
      && t.value.permission == (if vpn in space.permissions then space.permissions[vpn] else DefaultPermission)
  {
    if pid !in s.processVm then None
    else
      var vpn := virtualAddr / s.pageSize;
      var offset := virtualAddr % s.pageSize;
      var space := s.processVm[pid];
      if vpn !in space.pageTable then None
      else
        var pfn := space.pageTable[vpn];
        FrameAddress(pfn, offset, s.pageSize);
        var permission := if vpn in space.permissions then space.permissions[vpn] else DefaultPermission;
        Some(Translation(pfn * s.pageSize + offset, permission))
  }

  lemma FrameAddress(pfn: nat, offset: nat, pageSize: nat)
    requires offset < pageSize
    ensures (pfn * pageSize + offset) / pageSize == pfn
    ensures (pfn * pageSize + offset) % pageSize == offset
  {
    Arithmetic.LemmaFundamentalDivMod(pfn * pageSize + offset, pageSize, pfn, offset);
  }

  /** The length actually transferred: cut so the access never crosses the page end. */
  function ClampToPage(offset: nat, length: nat, pageSize: nat): (n: nat)
    requires offset < pageSize
    ensures offset + n <= pageSize && n <= length
    ensures offset + length <= pageSize ==> n == length
  {
    if offset + length > pageSize then pageSize - offset else length
  }

  /** The value `read_memory` returns (0 on any failure). */
  function Read(s: MemState, pid: int, virtualAddr: int, length: nat): (v: nat)
    requires s.pageSize > 0
    ensures v < Pow256(length)
  {
    var t := Translate(s, pid, virtualAddr);
    if t.None? || t.value.physicalAddr == 0 then 0
    else if t.value.permission !in ReadPermissions then 0
    else
      var pfn := t.value.physicalAddr / s.pageSize;
      if pfn !in s.physicalPages then 0
      else
        var offset := t.value.physicalAddr % s.pageSize;
        var n := ClampToPage(offset, length, s.pageSize);
        var bytes := PySlice(s.physicalPages[pfn], offset, offset + n);
        Pow256Monotone(|bytes|, length);
        FromBytes(bytes)
  }

  /** The status `write_memory` returns and the state after it. */
  function Write(s: MemState, pid: int, virtualAddr: int, data: int, length: nat): (r: (WriteStatus, MemState))
    requires s.pageSize > 0
    ensures r.0 != Written ==> r.1 == s
    ensures r.1 == s.(physicalPages := r.1.physicalPages)
    ensures r.1.physicalPages.Keys == s.physicalPages.Keys
  {
    var t := Translate(s, pid, virtualAddr);
    if t.None? || t.value.physicalAddr == 0 then (Refused, s)
    else if t.value.permission != WritePermission then (Refused, s)
    else
      var pfn := t.value.physicalAddr / s.pageSize;
      if pfn !in s.physicalPages then (Refused, s)
      else
        var offset := t.value.physicalAddr % s.pageSize;
        var n := ClampToPage(offset, length, s.pageSize);
        if data < 0 || data >= Pow256(n) then (OverflowRaised, s)
        else
          var page := PySplice(s.physicalPages[pfn], offset, offset + n, ToBytes(data, n));
          (Written, s.(physicalPages := s.physicalPages[pfn := page]))
  }

  function FreeMemorySize(s: MemState): (size: nat)
    ensures s.pageSize > 0 ==> size / s.pageSize == |s.freePageFrames| && size % s.pageSize == 0
  {
    var size := |s.freePageFrames| * s.pageSize;
    assert s.pageSize > 0 ==> size / s.pageSize == |s.freePageFrames| && size % s.pageSize == 0 by {
      if s.pageSize > 0 {
        Arithmetic.LemmaFundamentalDivMod(size, s.pageSize, |s.freePageFrames|, 0);
      }
    }
    size
  }
}
