// The offline dump tool's 64-bit extraction helpers
// (test/offdumptool/exe/DumpExtract64.cpp): the check of the in-memory
// DUMP_HEADER64 and the bug check data it takes from the context, the ARM64
// virtual-to-physical translation through the page tables in the DDR
// sections, the read by virtual address built on it, and the choice of the
// CPU context section.
module OffdumpExtract64 {
  import opened Machine
  import opened Status
  import opened RawDumpDefs
  import opened DdrMemoryMap
  import OU = OffdumpUtil

  // ---------------------------------------------------------------- dump header

  /** DUMP_SIGNATURE64 ("PAGE") and DUMP_VALID_DUMP64 ("DU64") of the Windows headers. */
  const DUMP_SIGNATURE64: u32 := 0x4547_4150
  const DUMP_VALID_DUMP64: u32 := 0x3436_5544

  /** The fields of DUMP_HEADER64 the offline tool reads or updates. */
  datatype Header64 = Header64(
    signature: u32,
    validDump: u32,
    directoryTableBase: u64,
    bugCheckCode: u32,
    bugCheckParameter1: u64,
    bugCheckParameter2: u64,
    bugCheckParameter3: u64,
    bugCheckParameter4: u64)

  /** The bug check code and parameters the context holds (BugCheckCode is a UINT32, the parameters UINT64). */
  datatype BugCheckData = BugCheckData(code: u32, param1: u64, param2: u64, param3: u64, param4: u64)

  /** UPDATE_IF_ZERO(dst, src): dst keeps its value unless it is 0, when it takes src. */
  function UpdateIfZero(dst: u64, src: u64): (r: u64)
    ensures dst != 0 ==> r == dst
    ensures dst == 0 ==> r == src
  {
    if 0 == dst then src else dst
  }

  /**
   * The header after GetDumpHeader64's five UPDATE_IF_ZERO: every zero bug
   * check field takes the context's value cast to ULONG.
   */
  function FillBugCheck(h: Header64, b: BugCheckData): Header64
  {
    h.(bugCheckCode := UpdateIfZero(h.bugCheckCode, b.code) as u32,
       bugCheckParameter1 := UpdateIfZero(h.bugCheckParameter1, Trunc32(b.param1)),
       bugCheckParameter2 := UpdateIfZero(h.bugCheckParameter2, Trunc32(b.param2)),
       bugCheckParameter3 := UpdateIfZero(h.bugCheckParameter3, Trunc32(b.param3)),
       bugCheckParameter4 := UpdateIfZero(h.bugCheckParameter4, Trunc32(b.param4)))
  }

  /**
   * What the fill promises: a field the header already had is kept, a zero
   * one takes the low 32 bits of the context's value, and nothing else of
   * the header changes.
   */
  lemma FillBugCheckMeaning(h: Header64, b: BugCheckData)
    ensures var f := FillBugCheck(h, b);
            f.signature == h.signature && f.validDump == h.validDump
            && f.directoryTableBase == h.directoryTableBase
            && f.bugCheckCode == (if h.bugCheckCode == 0 then b.code else h.bugCheckCode)
            && f.bugCheckParameter1 == (if h.bugCheckParameter1 == 0 then b.param1 % U32_LIMIT else h.bugCheckParameter1)
            && f.bugCheckParameter2 == (if h.bugCheckParameter2 == 0 then b.param2 % U32_LIMIT else h.bugCheckParameter2)
            && f.bugCheckParameter3 == (if h.bugCheckParameter3 == 0 then b.param3 % U32_LIMIT else h.bugCheckParameter3)
            && f.bugCheckParameter4 == (if h.bugCheckParameter4 == 0 then b.param4 % U32_LIMIT else h.bugCheckParameter4)
  {
  }

  /** Filling twice is filling once. */
  lemma FillBugCheckIdempotent(h: Header64, b: BugCheckData)
    ensures FillBugCheck(FillBugCheck(h, b), b) == FillBugCheck(h, b)
  {
  }

  /**
   * GetDumpHeader64. `allocOk` is whether malloc succeeded, `readOk` whether
   * READ_EXACT of the header at DumpHeaderAddress got all its bytes and
   * `read` what it got. The header is rejected for a zero address, a failed
   * allocation or read, a bad Signature or a bad ValidDump; a header that
   * passes gets the context's bug check data in its zero fields. `header` is
   * None when nothing was read into the allocated header.
   */
  method GetDumpHeader64(dumpHeaderAddress: u64, allocOk: bool, readOk: bool, read: Header64, b: BugCheckData)
    returns (status: NtStatus, header: Option<Header64>)
    ensures dumpHeaderAddress == 0 ==> status == STATUS_UNSUCCESSFUL && header.None?
    ensures dumpHeaderAddress != 0 && !allocOk ==> status == STATUS_NO_MEMORY && header.None?
    ensures dumpHeaderAddress != 0 && allocOk && !readOk ==> status == STATUS_UNSUCCESSFUL && header.None?
    ensures dumpHeaderAddress != 0 && allocOk && readOk ==>
              header.Some?
              && (status == STATUS_SUCCESS <==> read.signature == DUMP_SIGNATURE64 && read.validDump == DUMP_VALID_DUMP64)
              && (status != STATUS_SUCCESS ==> status == STATUS_BAD_DATA && header.value == read)
              && (status == STATUS_SUCCESS ==> header.value == FillBugCheck(read, b))
  {
    if 0 == dumpHeaderAddress {
      return STATUS_UNSUCCESSFUL, None;
    }
    if !allocOk {
      return STATUS_NO_MEMORY, None;
    }
    if !readOk {
      return STATUS_UNSUCCESSFUL, None;
    }
    var h := read;
    if h.signature != DUMP_SIGNATURE64 {
      return STATUS_BAD_DATA, Some(h);
    }
    if h.validDump != DUMP_VALID_DUMP64 {
      return STATUS_BAD_DATA, Some(h);
    }
    h := h.(bugCheckCode := UpdateIfZero(h.bugCheckCode, b.code) as u32);
    h := h.(bugCheckParameter1 := UpdateIfZero(h.bugCheckParameter1, Trunc32(b.param1)));
    h := h.(bugCheckParameter2 := UpdateIfZero(h.bugCheckParameter2, Trunc32(b.param2)));
    h := h.(bugCheckParameter3 := UpdateIfZero(h.bugCheckParameter3, Trunc32(b.param3)));
    h := h.(bugCheckParameter4 := UpdateIfZero(h.bugCheckParameter4, Trunc32(b.param4)));
    return STATUS_SUCCESS, Some(h);
  }

  // ---------------------------------------------------------------- ARM64 translation

  // The masks and shifts of the walk are written as arithmetic on UINT64
  // values: `x & mask` of a mask of bits lo..hi-1 is x % 2^hi / 2^lo * 2^lo,
  // `(x >> s) & 0x1FF` is x / 2^s % 512.

  /** 2^48: ARM64_USED_VA_BITS is 48. */
  const VA_SPACE: int := 0x1_0000_0000_0000
  /** 2^47, bit 47: the bit repeated above the used ones. */
  const VA_HALF: int := 0x8000_0000_0000
  /** ARM64_UNUSED_VA_MASK, the upper 16 bits of a canonical high address. */
  const ARM64_UNUSED_VA_MASK: int := 0xFFFF
  /** 2^39, 2^30, 2^21 and 2^12: ARM64_PML4E_SHIFT, ARM64_PDPE_SHIFT, ARM64_PDE_SHIFT, ARM64_PTE_SHIFT. */
  const PML4E_UNIT: int := 0x80_0000_0000
  const PDPE_UNIT: int := 0x4000_0000
  const PDE_UNIT: int := 0x20_0000
  const PTE_UNIT: int := 0x1000
  /** What *PhysicalAddress is set to before the walk, (ULONGLONG)-1. */
  const ALL_ONES: u64 := 0xFFFF_FFFF_FFFF_FFFF

  /** x & ARM64_VALID_PFN_MASK (0x0000FFFFFFFFF000): bits 12 to 47. */
  function Pfn(x: u64): u64 { x % VA_SPACE / PTE_UNIT * PTE_UNIT }

  /** x & ARM64_1GB_PPE_PAGE_MASK (0x0000FFFFC0000000): bits 30 to 47. */
  function Frame1G(x: u64): u64 { x % VA_SPACE / PDPE_UNIT * PDPE_UNIT }

  /** x & ARM64_LARGE_PAGE_PDE_MASK (0x0000FFFFFFE00000): bits 21 to 47. */
  function Frame2M(x: u64): u64 { x % VA_SPACE / PDE_UNIT * PDE_UNIT }

  /** The NotLargePage bit (bit 1) of ARM64_HARDWARE_PTE: clear in a block entry. */
  predicate NotLargePage(e: u64) { e / 2 % 2 == 1 }

  /** The address's bits above the 48 used ones repeat bit 47, as the check at the walk's start demands. */
  predicate Canonical(va: u64)
  {
    var addr := va / VA_SPACE;
    var msb := va / VA_HALF % 2;
    !((msb != 0 && addr != ARM64_UNUSED_VA_MASK) || (msb == 0 && addr != 0))
  }

  /** The canonical addresses are the low and the high 2^47 of the address space. */
  lemma CanonicalMeans(va: u64)
    ensures Canonical(va) <==> va < VA_HALF || va >= U64_LIMIT - VA_HALF
  {
  }

  /** The 9-bit table index of va at the level whose entries each map `unit` bytes. */
  function Index(va: u64, unit: int): (i: nat)
    requires unit > 0
    ensures i < 512
  {
    va / unit % 512
  }

  /** The address of va's entry in the table at `table`: index * sizeof(UINT64) past it, in UINT64. */
  function EntryAddress(table: u64, va: u64, unit: int): u64
    requires unit > 0
  {
    Add64(table, Index(va, unit) * 8)
  }

  /**
   * An entry read from a table taken from a descriptor lies in that table's
   * 4 KiB page (the page frame of the descriptor) and is 8-byte aligned.
   */
  lemma EntryInTablePage(descriptor: u64, va: u64, unit: int)
    requires unit > 0
    ensures var table := Pfn(descriptor);
            var a := EntryAddress(table, va, unit);
            a / PTE_UNIT * PTE_UNIT == table && a % 8 == 0
  {
  }

  /**
   * VirtualToPhysical64 on values. `read` is the 8-byte read of
   * ReadFromDDRSectionByPhysicalAddress (its status and the little-endian
   * entry), `pa0` the value of *PhysicalAddress before the call. A zero
   * directory table base leaves *PhysicalAddress alone; from then on it is
   * all ones until the walk gives the address: a block entry (NotLargePage
   * clear) at the PPE ends it with a 1 GiB page, at the PDE with a 2 MiB
   * page, else the PTE gives the 4 KiB page. A failed read returns its
   * status.
   */
  function Translate(read: u64 -> (NtStatus, u64), dtbField: u64, va: u64, pa0: u64): (NtStatus, u64)
  {
    var dtb := Pfn(dtbField);
    if dtb == 0 then (STATUS_BAD_DATA, pa0)
    else if !Canonical(va) then (STATUS_BAD_DATA, ALL_ONES)
    else
      var pxe := read(EntryAddress(dtb, va, PML4E_UNIT));
      if !NtSuccess(pxe.0) then (pxe.0, ALL_ONES)
      else
        var ppe := read(EntryAddress(Pfn(pxe.1), va, PDPE_UNIT));
        if !NtSuccess(ppe.0) then (ppe.0, ALL_ONES)
        else if !NotLargePage(ppe.1) then (ppe.0, Add64(Frame1G(ppe.1), va % PDPE_UNIT))
        else
          var pde := read(EntryAddress(Pfn(ppe.1), va, PDE_UNIT));
          if !NtSuccess(pde.0) then (pde.0, ALL_ONES)
          else if !NotLargePage(pde.1) then (pde.0, Add64(Frame2M(pde.1), va % PDE_UNIT))
          else
            var pte := read(EntryAddress(Pfn(pde.1), va, PTE_UNIT));
            if !NtSuccess(pte.0) then (pte.0, ALL_ONES)
            else (STATUS_SUCCESS, Add64(Pfn(pte.1), va % PTE_UNIT))
  }

  /** pa is below 2^48 and at va's offset within its page of `unit` bytes. */
  predicate InPage(pa: u64, va: u64, unit: int)
    requires unit > 0
  {
    pa < VA_SPACE && pa % unit == va % unit
  }

  /**
   * What the translation promises: a zero directory table base and a
   * non-canonical address fail with STATUS_BAD_DATA, the first leaving the
   * physical address alone; any other failure is a failed read's status
   * and leaves it all ones; a success keeps va's offset within the page
   * the walk ends in, 1 GiB, 2 MiB or 4 KiB, and in the 4 KiB case the
   * page is the one the PTE names.
   */
  lemma TranslateMeaning(read: u64 -> (NtStatus, u64), dtbField: u64, va: u64, pa0: u64)
    ensures var t := Translate(read, dtbField, va, pa0);
            (Pfn(dtbField) == 0 ==> t == (STATUS_BAD_DATA, pa0))
            && (Pfn(dtbField) != 0 && !Canonical(va) ==> t == (STATUS_BAD_DATA, ALL_ONES))
            && (Pfn(dtbField) != 0 && Canonical(va) && !NtSuccess(t.0) ==> t.1 == ALL_ONES)
            && (NtSuccess(t.0) ==>
                  Pfn(dtbField) != 0 && Canonical(va)
                  && (InPage(t.1, va, PDPE_UNIT) || InPage(t.1, va, PDE_UNIT) || InPage(t.1, va, PTE_UNIT)))
  {
    var t := Translate(read, dtbField, va, pa0);
    if NtSuccess(t.0) {
      var pxe := read(EntryAddress(Pfn(dtbField), va, PML4E_UNIT));
      var ppe := read(EntryAddress(Pfn(pxe.1), va, PDPE_UNIT));
      var pde := read(EntryAddress(Pfn(ppe.1), va, PDE_UNIT));
      var pte := read(EntryAddress(Pfn(pde.1), va, PTE_UNIT));
      if !NotLargePage(ppe.1) {
        FrameKeepsOffset1G(ppe.1, va);
      } else if !NotLargePage(pde.1) {
        FrameKeepsOffset2M(pde.1, va);
      } else {
        FrameKeepsOffset4K(pte.1, va);
      }
    }
  }

  /** A 1 GiB block's frame plus va's offset in it: below 2^48, in that frame, at that offset. */
  lemma FrameKeepsOffset1G(e: u64, va: u64)
    ensures var pa := Frame1G(e) + va % PDPE_UNIT;
            pa < VA_SPACE && pa % PDPE_UNIT == va % PDPE_UNIT && pa / PDPE_UNIT * PDPE_UNIT == Frame1G(e)
  {
    var q := e % VA_SPACE / PDPE_UNIT;
    assert Frame1G(e) == q * PDPE_UNIT && q < 0x4_0000;
  }

  /** A 2 MiB block's frame plus va's offset in it: below 2^48, in that frame, at that offset. */
  lemma FrameKeepsOffset2M(e: u64, va: u64)
    ensures var pa := Frame2M(e) + va % PDE_UNIT;
            pa < VA_SPACE && pa % PDE_UNIT == va % PDE_UNIT && pa / PDE_UNIT * PDE_UNIT == Frame2M(e)
  {
    var q := e % VA_SPACE / PDE_UNIT;
    assert Frame2M(e) == q * PDE_UNIT && q < 0x800_0000;
  }

  /** A page's frame plus va's offset in it: below 2^48, in that frame, at that offset. */
  lemma FrameKeepsOffset4K(e: u64, va: u64)
    ensures var pa := Pfn(e) + va % PTE_UNIT;
            pa < VA_SPACE && pa % PTE_UNIT == va % PTE_UNIT && pa / PTE_UNIT * PTE_UNIT == Pfn(e)
  {
    var q := e % VA_SPACE / PTE_UNIT;
    assert Pfn(e) == q * PTE_UNIT && q < 0x10_0000_0000;
  }

  /**
   * A walk through table entries that are not blocks ends in the page the
   * PTE names: its frame, at va's offset.
   */
  lemma TranslatePageWalk(read: u64 -> (NtStatus, u64), dtbField: u64, va: u64, pa0: u64)
    requires Pfn(dtbField) != 0 && Canonical(va)
    requires var pxe := read(EntryAddress(Pfn(dtbField), va, PML4E_UNIT));
             var ppe := read(EntryAddress(Pfn(pxe.1), va, PDPE_UNIT));
             var pde := read(EntryAddress(Pfn(ppe.1), va, PDE_UNIT));
             var pte := read(EntryAddress(Pfn(pde.1), va, PTE_UNIT));
             NtSuccess(pxe.0) && NtSuccess(ppe.0) && NtSuccess(pde.0) && NtSuccess(pte.0)
             && NotLargePage(ppe.1) && NotLargePage(pde.1)
    ensures var pxe := read(EntryAddress(Pfn(dtbField), va, PML4E_UNIT));
            var ppe := read(EntryAddress(Pfn(pxe.1), va, PDPE_UNIT));
            var pde := read(EntryAddress(Pfn(ppe.1), va, PDE_UNIT));
            var pte := read(EntryAddress(Pfn(pde.1), va, PTE_UNIT));
            var t := Translate(read, dtbField, va, pa0);
            t.0 == STATUS_SUCCESS && t.1 / PTE_UNIT == Pfn(pte.1) / PTE_UNIT && t.1 % PTE_UNIT == va % PTE_UNIT
  {
  }

  /** The UINT64 each entry is read into, zeroed before the read. */
  const ZERO_ENTRY: seq<u8> := [0, 0, 0, 0, 0, 0, 0, 0]

  /**
   * The 8-byte reads of the walk: the offline reader by physical address
   * into a zeroed UINT64, taken little-endian.
   */
  function EntryReader(ctx: OU.OffContext, disk: seq<u8>): u64 -> (NtStatus, u64)
    requires ctx.ddrMemoryMapCount as nat <= |ctx.ddrMemoryMap|
  {
    (a: u64) =>
      var p := OU.ReadPlan(ctx.ddrMemoryMap, ctx.ddrMemoryMapCount as nat, disk, a, 8, true);
      (p.0, LE(ApplyChunks(ZERO_ENTRY, disk, p.1)) % U64_LIMIT)
  }

  /** One entry read of the walk: ReadFromDDRSectionByPhysicalAddress of a UINT64 that starts at 0. */
  method ReadEntry(ctx: OU.OffContext, disk: seq<u8>, a: u64) returns (status: NtStatus, value: u64)
    requires ctx.ddrMemoryMapCount as nat <= |ctx.ddrMemoryMap|
    ensures (status, value) == EntryReader(ctx, disk)(a)
  {
    var buffer := new u8[8](_ => 0);
    assert buffer[..] == ZERO_ENTRY;
    status := OU.ReadFromDDRSectionByPhysicalAddress(ctx, a, 8, disk, buffer);
    value := LE(buffer[..]) % U64_LIMIT;
  }

  /**
   * VirtualToPhysical64: the walk from the header's DirectoryTableBase,
   * reading each entry from the DDR sections.
   */
  method VirtualToPhysical64(ctx: OU.OffContext, disk: seq<u8>, directoryTableBase: u64, va: u64, pa0: u64)
    returns (status: NtStatus, pa: u64)
    requires ctx.ddrMemoryMapCount as nat <= |ctx.ddrMemoryMap|
    ensures (status, pa) == Translate(EntryReader(ctx, disk), directoryTableBase, va, pa0)
  {
    var dtb := Pfn(directoryTableBase);
    if dtb == 0 {
      return STATUS_BAD_DATA, pa0;
    }
    pa := ALL_ONES;
    var addr := va / VA_SPACE;
    var msb := va / VA_HALF % 2;
    if (msb != 0 && addr != ARM64_UNUSED_VA_MASK) || (msb == 0 && addr != 0) {
      return STATUS_BAD_DATA, pa;
    }
    var pxe, ppe, pde, pte;
    status, pxe := ReadEntry(ctx, disk, EntryAddress(dtb, va, PML4E_UNIT));
    if !NtSuccess(status) {
      return;
    }
    status, ppe := ReadEntry(ctx, disk, EntryAddress(Pfn(pxe), va, PDPE_UNIT));
    if !NtSuccess(status) {
      return;
    }
    if !NotLargePage(ppe) {
      pa := Add64(Frame1G(ppe), va % PDPE_UNIT);
      return;
    }
    status, pde := ReadEntry(ctx, disk, EntryAddress(Pfn(ppe), va, PDE_UNIT));
    if !NtSuccess(status) {
      return;
    }
    if !NotLargePage(pde) {
      pa := Add64(Frame2M(pde), va % PDE_UNIT);
      return;
    }
    status, pte := ReadEntry(ctx, disk, EntryAddress(Pfn(pde), va, PTE_UNIT));
    if !NtSuccess(status) {
      return;
    }
    pa := Add64(Pfn(pte), va % PTE_UNIT);
    status := STATUS_SUCCESS;
  }

  // ---------------------------------------------------------------- read by virtual address

  /** ADDRESS_NOT_PRESENT, (UINT64)-1. */
  const ADDRESS_NOT_PRESENT: u64 := 0xFFFF_FFFF_FFFF_FFFF

  /** The page check as written: the read's last byte, VA + Length - 1, below VA + 0x1000, in UINT64. */
  predicate PageCheckAsWritten(va: u64, length: u64)
  {
    Sub64(Add64(va, length), 1) < Add64(va, 0x1000)
  }

  /** The intended page check: the read's bytes stay in the 4 KiB page of VA. */
  predicate StaysInPage(va: u64, length: u64)
  {
    va % 0x1000 + length <= 0x1000
  }

  /** The intended check accepts a read of one byte or more exactly when its first and last bytes share a page. */
  lemma StaysInPageMeans(va: u64, length: u64)
    requires 1 <= length && va + length <= U64_LIMIT
    ensures StaysInPage(va, length) <==> va / 0x1000 == (va + length - 1) / 0x1000
  {
  }

  /**
   * Away from the top of the address space the check as written bounds the
   * length only: a read passes exactly when it is at most one page long,
   * wherever in its page it starts.
   */
  lemma PageCheckAsWrittenIsLengthBound(va: u64, length: u64)
    requires 1 <= length && va + 0x1000 < U64_LIMIT && va + length <= U64_LIMIT
    ensures PageCheckAsWritten(va, length) <==> length <= 0x1000
  {
  }

  /** As written, 16 bytes at 0xFF8 pass although they cross into the next page. */
  lemma AsWrittenAcceptsPageCrossing()
    ensures PageCheckAsWritten(0xFF8, 16) && !StaysInPage(0xFF8, 16)
    ensures 0xFF8 / 0x1000 != (0xFF8 + 16 - 1) / 0x1000
  {
  }

  /**
   * ReadFromDDRSectionByVirtualAddress64 with the intended page check. The
   * physical address is ADDRESS_NOT_PRESENT until the translation
   * succeeds; a read leaving VA's page fails with STATUS_INVALID_PARAMETER
   * and a failed translation with its status, both leaving the buffer
   * alone; otherwise the result is that of the read by physical address.
   */
  method ReadFromDDRSectionByVirtualAddress64(ctx: OU.OffContext, disk: seq<u8>, directoryTableBase: u64,
                                             va: u64, length: u64, buffer: array<u8>)
    returns (status: NtStatus, pa: u64)
    requires ctx.ddrMemoryMapCount as nat <= |ctx.ddrMemoryMap|
    modifies buffer
    ensures !StaysInPage(va, length) ==>
              status == STATUS_INVALID_PARAMETER && pa == ADDRESS_NOT_PRESENT && buffer[..] == old(buffer[..])
    ensures StaysInPage(va, length) ==>
              var t := Translate(EntryReader(ctx, disk), directoryTableBase, va, 0);
              if !NtSuccess(t.0) then status == t.0 && pa == ADDRESS_NOT_PRESENT && buffer[..] == old(buffer[..])
              else
                var plan := OU.ReadPlan(ctx.ddrMemoryMap, ctx.ddrMemoryMapCount as nat, disk, t.1, length, true);
                pa == t.1 && buffer[..] == ApplyChunks(old(buffer[..]), disk, plan.1)
                && status == (if NtSuccess(plan.0) then STATUS_SUCCESS else plan.0)
  {
    pa := ADDRESS_NOT_PRESENT;
    if !StaysInPage(va, length) {
      return STATUS_INVALID_PARAMETER, pa;
    }
    var st, physicalAddress := VirtualToPhysical64(ctx, disk, directoryTableBase, va, 0);
    if !NtSuccess(st) {
      return st, pa;
    }
    pa := physicalAddress;
    status := OU.ReadFromDDRSectionByPhysicalAddress(ctx, pa, length, disk, buffer);
    if !NtSuccess(status) {
      return;
    }
    status := STATUS_SUCCESS;
  }

  // ---------------------------------------------------------------- CPU context section

  /**
   * GetAmd64CPUContext: the first CPU_CONTEXT entry of the table's
   * SectionsCount entries gives CPUContextAddress (its Offset) and
   * TotalCpuContextSizeInBytes (its Size); without one the status stays
   * STATUS_UNSUCCESSFUL and both are kept.
   */
  method GetAmd64CPUContext(table: seq<SectionHeader>, sectionsCount: u32, cpuContextAddress: u64, cpuContextSize: u64)
    returns (status: NtStatus, address: u64, size: u64)
    requires sectionsCount as nat <= |table|
    ensures match FirstOfType(table[..sectionsCount], RAW_DUMP_SECTION_TYPE_CPU_CONTEXT)
            case Some(k) => status == STATUS_SUCCESS && address == table[k].offset && size == table[k].size
            case None => status == STATUS_UNSUCCESSFUL && address == cpuContextAddress && size == cpuContextSize
  {
    status, address, size := STATUS_UNSUCCESSFUL, cpuContextAddress, cpuContextSize;
    var sectionIndex: u32 := 0;
    while sectionIndex < sectionsCount
      invariant sectionIndex <= sectionsCount
      invariant FirstOfType(table[..sectionIndex], RAW_DUMP_SECTION_TYPE_CPU_CONTEXT).None?
    {
      FirstOfTypeExtend(table[..sectionIndex], table[sectionIndex], RAW_DUMP_SECTION_TYPE_CPU_CONTEXT);
      assert table[..sectionIndex + 1] == table[..sectionIndex] + [table[sectionIndex]];
      if RAW_DUMP_SECTION_TYPE_CPU_CONTEXT == table[sectionIndex].sectionType {
        assert table[..sectionsCount][..sectionIndex + 1] == table[..sectionIndex + 1];
        FirstOfTypePrefix(table[..sectionsCount], sectionIndex as nat + 1);
        return STATUS_SUCCESS, table[sectionIndex].offset, table[sectionIndex].size;
      }
      sectionIndex := sectionIndex + 1;
    }
    assert table[..sectionsCount] == table[..sectionIndex];
  }

  /** A first entry of a type found in a prefix is the first of the whole table. */
  lemma FirstOfTypePrefix(table: seq<SectionHeader>, n: nat)
    requires n <= |table| && FirstOfType(table[..n], RAW_DUMP_SECTION_TYPE_CPU_CONTEXT).Some?
    ensures FirstOfType(table, RAW_DUMP_SECTION_TYPE_CPU_CONTEXT) == FirstOfType(table[..n], RAW_DUMP_SECTION_TYPE_CPU_CONTEXT)
  {
    var k := FirstOfType(table[..n], RAW_DUMP_SECTION_TYPE_CPU_CONTEXT).value;
    assert table[k] == table[..n][k];
    assert forall j :: 0 <= j < k ==> table[j] == table[..n][j];
  }
}
