// The offline dump service's raw dump checks, DDR memory map builder and
// physical-address reader (OffDmpSvc/lib/buildparams.cpp), over the part of
// DMP_CONTEXT they use (OffDmpSvc/src/offdmpsvc.h).
module BuildParams {
  import opened Machine
  import opened Status
  import opened RawDumpDefs
  import opened DdrMemoryMap

  datatype SblDumpLocation = SBL_DUMP_LOCATION_INVALID | SBL_DUMP_LOCATION_EMMC | SBL_DUMP_LOCATION_SD
  datatype SblDumpFormat = SBL_DUMP_FORMAT_INVALID | SBL_DUMP_FORMAT_RAW | SBL_DUMP_FORMAT_FILE

  /**
   * The fields of DMP_CONTEXT these routines read and write. The context is a
   * plain struct handed from routine to routine, so it is a value here: each
   * routine returns the context it leaves behind. `sectionTable` is
   * RawDumpHeader->SectionTable, `ddrSections` the index the DDRSections
   * pointer designates in it, and `ddrMemoryMap` the allocated map.
   */
  datatype DmpContext = DmpContext(
    sblDumpLocation: SblDumpLocation,
    sblDumpFormat: SblDumpFormat,
    diskOffset: u64,
    rawDumpHeader: RawDumpHeader,
    sectionTable: seq<SectionHeader>,
    rawDumpTableSize: u32,
    ddrSections: nat,
    ddrMemoryMapCount: u32,
    ddrMemoryMap: seq<Entry>,
    totalDDRSizeInBytes: u64,
    totalSVSpecificSizeInBytes: u64,
    totalCpuContextSizeInBytes: u64,
    cpuContextAddress: u64,
    ddrSectionCount: u32,
    svSectionCount: u32,
    cpuContextSectionCount: u32,
    missingFlagsCount: u32,
    invalidSectionCount: u32,
    insufficientStorageSectionsCount: u32,
    invalidVersionCount: u32,
    ddrSectionsOverlapCount: u32,
    ddrSectionFragmentationCount: u32,
    largestSVSpecificSectionSize: u64)

  // ---------------------------------------------------------------- flags

  /**
   * ValidateRawDumpHeaderFlags: no reserved bit, not both defined bits, at
   * most one bit. A flag word of 0 passes.
   */
  function ValidateRawDumpHeaderFlags(flags: bv32): (ok: bool)
    ensures ok <==> (flags == RAW_DUMP_HEADER_FLAGS_UNKNOWN || flags == RAW_DUMP_HEADER_FLAGS_VALID
                     || flags == RAW_DUMP_HEADER_FLAGS_INSUFFICIENT_STORAGE)
  {
    if flags & !RAW_DUMP_HEADER_EXPECTED_BITS != 0 then false
    else if flags & RAW_DUMP_HEADER_EXPECTED_BITS == RAW_DUMP_HEADER_EXPECTED_BITS then false
    else if flags & (flags - 1) != 0 then false
    else true
  }

  // ---------------------------------------------------------------- header

  /**
   * RawDumpTableSize = sizeof(RAW_DUMP_HEADER) + (SectionsCount - 1) *
   * sizeof(RAW_DUMP_SECTION_HEADER), stored in a UINT32. The header embeds
   * the first entry, so this is room for the header fields and all entries.
   */
  function RawDumpTableSize(sectionsCount: u32): (r: u32)
    requires sectionsCount >= 1
    ensures r == (PACKED_RAW_DUMP_HEADER_SIZE + sectionsCount * PACKED_RAW_DUMP_SECTION_HEADER_SIZE) % U32_LIMIT
  {
    Trunc32(RAW_DUMP_HEADER_WITH_TABLE_SIZE + (sectionsCount - 1) * PACKED_RAW_DUMP_SECTION_HEADER_SIZE)
  }

  /** Up to 67,108,863 sections the table size does not wrap; one more and it does. */
  lemma RawDumpTableSizeExact(sectionsCount: u32)
    requires 1 <= sectionsCount
    ensures sectionsCount <= 67_108_863 <==> RawDumpTableSize(sectionsCount) == 56 + 64 * sectionsCount
  {
    var p := 64 * sectionsCount;
    if sectionsCount <= 67_108_863 {
      assert p <= 64 * 67_108_863;
      ModOfSmall(56 + p, U32_LIMIT);
    } else {
      assert 56 + p >= U32_LIMIT;
    }
  }

  /** The header checks of VerifyRawDumpHeader, independent of their order. */
  predicate HeaderChecksPass(h: RawDumpHeader)
  {
    h.signature == RAW_DUMP_HEADER_SIGNATURE && h.version == RAW_DUMP_HEADER_VERSION
    && ValidateRawDumpHeaderFlags(h.flags) && h.dumpSize != 0 && h.sectionsCount != 0
  }

  datatype HeaderOutcome = HeaderOutcome(hr: HResult, isValid: bool, ctx: DmpContext)

  /**
   * VerifyRawDumpHeader. The device reads are inputs: `headerRead` is the
   * status of positioning and reading the fixed header `hdr`, `allocOk`
   * whether the table buffer was allocated, and `tableRead` the status of
   * re-reading header and table, whose entries are `table`.
   */
  function VerifyRawDumpHeader(ctx: DmpContext, headerRead: HResult, hdr: RawDumpHeader,
                               allocOk: bool, tableRead: HResult, table: seq<SectionHeader>): (r: HeaderOutcome)
    requires |table| == hdr.sectionsCount
    ensures !Succeeded(headerRead) ==> r == HeaderOutcome(headerRead, false, ctx)
    ensures Succeeded(headerRead) && hdr.signature != RAW_DUMP_HEADER_SIGNATURE ==>
              r == HeaderOutcome(E_UNEXPECTED, false, ctx)
    ensures (Succeeded(headerRead) && hdr.signature == RAW_DUMP_HEADER_SIGNATURE
             && hdr.version != RAW_DUMP_HEADER_VERSION) ==>
              r == HeaderOutcome(E_NOTIMPL, false, ctx)
    ensures (Succeeded(headerRead) && hdr.signature == RAW_DUMP_HEADER_SIGNATURE
             && hdr.version == RAW_DUMP_HEADER_VERSION
             && (!ValidateRawDumpHeaderFlags(hdr.flags) || hdr.dumpSize == 0 || hdr.sectionsCount == 0)) ==>
              r == HeaderOutcome(E_UNEXPECTED, false, ctx)
    ensures Succeeded(headerRead) && HeaderChecksPass(hdr) ==>
              r.ctx.rawDumpTableSize == RawDumpTableSize(hdr.sectionsCount)
    ensures Succeeded(headerRead) && HeaderChecksPass(hdr) && !allocOk ==> r.hr == E_OUTOFMEMORY
    ensures Succeeded(headerRead) && HeaderChecksPass(hdr) && allocOk ==> r.hr == tableRead
    ensures r.isValid <==> Succeeded(headerRead) && HeaderChecksPass(hdr) && allocOk && Succeeded(tableRead)
    ensures r.isValid ==> r.ctx.rawDumpHeader == hdr && r.ctx.sectionTable == table
  {
    if !Succeeded(headerRead) then HeaderOutcome(headerRead, false, ctx)
    else if hdr.signature != RAW_DUMP_HEADER_SIGNATURE then HeaderOutcome(E_UNEXPECTED, false, ctx)
    else if hdr.version != RAW_DUMP_HEADER_VERSION then HeaderOutcome(E_NOTIMPL, false, ctx)
    else if !ValidateRawDumpHeaderFlags(hdr.flags) then HeaderOutcome(E_UNEXPECTED, false, ctx)
    else if hdr.dumpSize == 0 then HeaderOutcome(E_UNEXPECTED, false, ctx)
    else if hdr.sectionsCount == 0 then HeaderOutcome(E_UNEXPECTED, false, ctx)
    else
      var sized := ctx.(rawDumpTableSize := RawDumpTableSize(hdr.sectionsCount));
      if !allocOk then HeaderOutcome(E_OUTOFMEMORY, false, sized)
      else if !Succeeded(tableRead) then HeaderOutcome(tableRead, false, sized)
      else HeaderOutcome(tableRead, true, sized.(rawDumpHeader := hdr, sectionTable := table))
  }

  // ---------------------------------------------------------------- section table

  /** The per-entry findings of VerifyRawDumpSectionTable. */
  datatype SectionFault = BadVersion | MissingFlags | MisplacedStorage | UnknownType

  predicate Faulty(f: SectionFault, table: seq<SectionHeader>, j: nat)
    requires j < |table|
  {
    match f
    case BadVersion => table[j].version != RAW_DUMP_SECTION_HEADER_VERSION
    case MissingFlags => !ValidateRawDumpHeaderFlags(table[j].flags)
    case MisplacedStorage => HasInsufficientStorage(table[j].flags) && j != |table| - 1
    case UnknownType => !IsKnownType(table[j].sectionType)
  }

  /** Number of the first k entries with fault f. */
  function CountFaulty(f: SectionFault, table: seq<SectionHeader>, k: nat): (r: nat)
    requires k <= |table|
    ensures r <= k
  {
    if k == 0 then 0 else CountFaulty(f, table, k - 1) + (if Faulty(f, table, k - 1) then 1 else 0)
  }

  /** CPUContextAddress after a scan: the Offset of the last CPU-context entry, else unchanged. */
  function LastCpuOffset(table: seq<SectionHeader>, prior: u64): u64
  {
    if table == [] then prior
    else if table[|table| - 1].sectionType == RAW_DUMP_SECTION_TYPE_CPU_CONTEXT then table[|table| - 1].offset
    else LastCpuOffset(table[..|table| - 1], prior)
  }

  /** The context after scanning the first k entries. */
  function ScannedContext(ctx: DmpContext, k: nat): DmpContext
    requires k <= |ctx.sectionTable| < U32_LIMIT
  {
    var t := ctx.sectionTable;
    var p := t[..k];
    ctx.(ddrSectionCount := CountType(p, RAW_DUMP_SECTION_TYPE_DDR_RANGE),
         svSectionCount := CountType(p, RAW_DUMP_SECTION_TYPE_SV_SPECIFIC),
         cpuContextSectionCount := CountType(p, RAW_DUMP_SECTION_TYPE_CPU_CONTEXT),
         invalidSectionCount := CountFaulty(UnknownType, t, k),
         ddrSectionFragmentationCount := 0,
         ddrSectionsOverlapCount := 0,
         missingFlagsCount := CountFaulty(MissingFlags, t, k),
         insufficientStorageSectionsCount := CountFaulty(MisplacedStorage, t, k),
         invalidVersionCount := CountFaulty(BadVersion, t, k),
         largestSVSpecificSectionSize := MaxSizeOfType(p, RAW_DUMP_SECTION_TYPE_SV_SPECIFIC),
         ddrSections := FirstDdrOr(p, ctx.ddrSections),
         totalCpuContextSizeInBytes := Add64(ctx.totalCpuContextSizeInBytes, SumSizeOfType(p, RAW_DUMP_SECTION_TYPE_CPU_CONTEXT)),
         totalSVSpecificSizeInBytes := Add64(ctx.totalSVSpecificSizeInBytes, SumSizeOfType(p, RAW_DUMP_SECTION_TYPE_SV_SPECIFIC)),
         cpuContextAddress := LastCpuOffset(p, ctx.cpuContextAddress))
  }

  /**
   * VerifyRawDumpSectionTable. The counters are reset and re-tallied over
   * the SectionsCount entries; the CPU and SV totals are NOT reset and
   * accumulate onto their previous values. The verdict tests, in order: no
   * DDR section, a bad version, a flag word ValidateRawDumpHeaderFlags
   * rejects, a misplaced storage flag, an unknown type.
   */
  method VerifyRawDumpSectionTable(ctx: DmpContext) returns (hr: HResult, isValid: bool, ctx': DmpContext)
    requires |ctx.sectionTable| == ctx.rawDumpHeader.sectionsCount
    ensures ctx' == ScannedContext(ctx, |ctx.sectionTable|)
    ensures ctx'.ddrSectionCount == 0 ==> hr == E_BAD_DATA
    ensures ctx'.ddrSectionCount != 0 && ctx'.invalidVersionCount != 0 ==> hr == E_UNEXPECTED
    ensures ctx'.ddrSectionCount != 0 && ctx'.invalidVersionCount == 0 && ctx'.missingFlagsCount != 0 ==>
              hr == E_BAD_DATA
    ensures (ctx'.ddrSectionCount != 0 && ctx'.invalidVersionCount == 0 && ctx'.missingFlagsCount == 0
             && ctx'.insufficientStorageSectionsCount != 0) ==> hr == E_UNEXPECTED
    ensures (ctx'.ddrSectionCount != 0 && ctx'.invalidVersionCount == 0 && ctx'.missingFlagsCount == 0
             && ctx'.insufficientStorageSectionsCount == 0 && ctx'.invalidSectionCount != 0) ==> hr == E_BAD_DATA
    ensures hr == S_OK <==> ctx'.ddrSectionCount != 0 && ctx'.invalidVersionCount == 0 && ctx'.missingFlagsCount == 0
                            && ctx'.insufficientStorageSectionsCount == 0 && ctx'.invalidSectionCount == 0
    ensures isValid <==> hr == S_OK
  {
    var t := ctx.sectionTable;
    var s := ctx.(ddrSectionCount := 0, svSectionCount := 0, cpuContextSectionCount := 0,
                  invalidSectionCount := 0, ddrSectionFragmentationCount := 0, ddrSectionsOverlapCount := 0,
                  missingFlagsCount := 0, insufficientStorageSectionsCount := 0, invalidVersionCount := 0,
                  largestSVSpecificSectionSize := 0);
    var index: u32 := 0;
    while index < ctx.rawDumpHeader.sectionsCount
      invariant index as nat <= |t|
      invariant s == ScannedContext(ctx, index as nat)
    {
      s := ScanEntry(ctx, index, s);
      index := index + 1;
    }
    ctx' := s;
    isValid := false;
    if ctx'.ddrSectionCount == 0 {
      hr := E_BAD_DATA;
    } else if ctx'.invalidVersionCount > 0 {
      hr := E_UNEXPECTED;
    } else if ctx'.missingFlagsCount > 0 {
      hr := E_BAD_DATA;
    } else if ctx'.insufficientStorageSectionsCount > 0 {
      hr := E_UNEXPECTED;
    } else if ctx'.invalidSectionCount > 0 {
      hr := E_BAD_DATA;
    } else {
      isValid := true;
      hr := S_OK;
    }
  }

  /** The body of the scan loop for entry k. */
  method ScanEntry(ctx: DmpContext, k: u32, s: DmpContext) returns (s': DmpContext)
    requires k as nat < |ctx.sectionTable| == ctx.rawDumpHeader.sectionsCount as nat
    requires s == ScannedContext(ctx, k as nat)
    ensures s' == ScannedContext(ctx, k as nat + 1)
  {
    var t := ctx.sectionTable;
    var e := t[k];
    var s1 := CheckEntryFaults(ctx, k, s);
    s' := TallyEntryType(ctx, k, s1);
  }

  /** The version, flag and storage-flag checks of entry k. */
  method CheckEntryFaults(ctx: DmpContext, k: u32, s: DmpContext) returns (s': DmpContext)
    requires k as nat < |ctx.sectionTable| == ctx.rawDumpHeader.sectionsCount as nat
    requires s.invalidVersionCount == CountFaulty(BadVersion, ctx.sectionTable, k as nat)
    requires s.missingFlagsCount == CountFaulty(MissingFlags, ctx.sectionTable, k as nat)
    requires s.insufficientStorageSectionsCount == CountFaulty(MisplacedStorage, ctx.sectionTable, k as nat)
    ensures s' == s.(invalidVersionCount := CountFaulty(BadVersion, ctx.sectionTable, k as nat + 1),
                     missingFlagsCount := CountFaulty(MissingFlags, ctx.sectionTable, k as nat + 1),
                     insufficientStorageSectionsCount := CountFaulty(MisplacedStorage, ctx.sectionTable, k as nat + 1))
  {
    var e := ctx.sectionTable[k];
    s' := s;
    if e.version != RAW_DUMP_SECTION_HEADER_VERSION {
      s' := s'.(invalidVersionCount := s'.invalidVersionCount + 1);
    }
    if !ValidateRawDumpHeaderFlags(e.flags) {
      s' := s'.(missingFlagsCount := s'.missingFlagsCount + 1);
    }
    if HasInsufficientStorage(e.flags) && k != ctx.rawDumpHeader.sectionsCount - 1 {
      s' := s'.(insufficientStorageSectionsCount := s'.insufficientStorageSectionsCount + 1);
    }
  }

  /** The counters the type switch maintains. */
  datatype TypeTally = TypeTally(ddrCount: u32, ddrFirst: nat, cpuCount: u32, cpuTotal: u64, cpuAddress: u64,
                                 svCount: u32, svTotal: u64, svLargest: u64, invalid: u32)

  function TallyOf(s: DmpContext): TypeTally
  {
    TypeTally(s.ddrSectionCount, s.ddrSections, s.cpuContextSectionCount, s.totalCpuContextSizeInBytes,
              s.cpuContextAddress, s.svSectionCount, s.totalSVSpecificSizeInBytes,
              s.largestSVSpecificSectionSize, s.invalidSectionCount)
  }

  /** The type tallies after the first k entries. */
  function TypeTallyAfter(ctx: DmpContext, t: seq<SectionHeader>, k: nat): TypeTally
    requires k <= |t| < U32_LIMIT
  {
    TypeTally(CountType(t[..k], RAW_DUMP_SECTION_TYPE_DDR_RANGE), FirstDdrOr(t[..k], ctx.ddrSections),
                        CountType(t[..k], RAW_DUMP_SECTION_TYPE_CPU_CONTEXT),
                        Add64(ctx.totalCpuContextSizeInBytes, SumSizeOfType(t[..k], RAW_DUMP_SECTION_TYPE_CPU_CONTEXT)),
                        LastCpuOffset(t[..k], ctx.cpuContextAddress),
                        CountType(t[..k], RAW_DUMP_SECTION_TYPE_SV_SPECIFIC),
                        Add64(ctx.totalSVSpecificSizeInBytes, SumSizeOfType(t[..k], RAW_DUMP_SECTION_TYPE_SV_SPECIFIC)),
                        MaxSizeOfType(t[..k], RAW_DUMP_SECTION_TYPE_SV_SPECIFIC), CountFaulty(UnknownType, t, k))
  }

  /** The type switch of entry k. */
  method TallyEntryType(ctx: DmpContext, k: u32, s: DmpContext) returns (s': DmpContext)
    requires k as nat < |ctx.sectionTable| < U32_LIMIT
    requires TallyOf(s) == TypeTallyAfter(ctx, ctx.sectionTable, k as nat)
    ensures TallyOf(s') == TypeTallyAfter(ctx, ctx.sectionTable, k as nat + 1)
    ensures s' == s.(ddrSectionCount := s'.ddrSectionCount, ddrSections := s'.ddrSections,
                     cpuContextSectionCount := s'.cpuContextSectionCount,
                     totalCpuContextSizeInBytes := s'.totalCpuContextSizeInBytes,
                     cpuContextAddress := s'.cpuContextAddress,
                     svSectionCount := s'.svSectionCount, totalSVSpecificSizeInBytes := s'.totalSVSpecificSizeInBytes,
                     largestSVSpecificSectionSize := s'.largestSVSpecificSectionSize,
                     invalidSectionCount := s'.invalidSectionCount)
  {
    var t := ctx.sectionTable;
    var a := TallyOf(s);
    var b := TallyStep(ctx, t, k as nat, a);
    s' := s.(ddrSectionCount := b.ddrCount, ddrSections := b.ddrFirst,
             cpuContextSectionCount := b.cpuCount, totalCpuContextSizeInBytes := b.cpuTotal,
             cpuContextAddress := b.cpuAddress, svSectionCount := b.svCount,
             totalSVSpecificSizeInBytes := b.svTotal, largestSVSpecificSectionSize := b.svLargest,
             invalidSectionCount := b.invalid);
  }

  method TallyStep(ctx: DmpContext, t: seq<SectionHeader>, k: nat, a: TypeTally) returns (b: TypeTally)
    requires k < |t| < U32_LIMIT
    requires a == TypeTallyAfter(ctx, t, k)
    ensures b == TypeTallyAfter(ctx, t, k + 1)
  {
    var p := t[..k];
    assert t[..k + 1] == p + [t[k]];
    assert t[..k + 1][..k] == p;
    TypeStepOthers(t, k);
    var ty := t[k].sectionType;
    if ty == RAW_DUMP_SECTION_TYPE_DDR_RANGE {
      PrefixStep(t, k, RAW_DUMP_SECTION_TYPE_DDR_RANGE);
      b := a.(ddrFirst := if a.ddrCount == 0 then k else a.ddrFirst, ddrCount := a.ddrCount + 1);
    } else if ty == RAW_DUMP_SECTION_TYPE_CPU_CONTEXT {
      PrefixStep(t, k, RAW_DUMP_SECTION_TYPE_CPU_CONTEXT);
      Add64Assoc(ctx.totalCpuContextSizeInBytes, SumSizeOfType(p, RAW_DUMP_SECTION_TYPE_CPU_CONTEXT), t[k].size);
      b := a.(cpuCount := a.cpuCount + 1, cpuTotal := Add64(a.cpuTotal, t[k].size), cpuAddress := t[k].offset);
    } else if ty == RAW_DUMP_SECTION_TYPE_SV_SPECIFIC {
      PrefixStep(t, k, RAW_DUMP_SECTION_TYPE_SV_SPECIFIC);
      Add64Assoc(ctx.totalSVSpecificSizeInBytes, SumSizeOfType(p, RAW_DUMP_SECTION_TYPE_SV_SPECIFIC), t[k].size);
      b := a.(svCount := a.svCount + 1, svTotal := Add64(a.svTotal, t[k].size),
              svLargest := if a.svLargest < t[k].size then t[k].size else a.svLargest);
    } else {
      b := a.(invalid := a.invalid + 1);
    }
  }

  /** Entry k leaves the tallies of the types it does not have unchanged. */
  lemma TypeStepOthers(t: seq<SectionHeader>, k: nat)
    requires k < |t|
    ensures forall ty :: ty != t[k].sectionType ==>
              CountType(t[..k + 1], ty) == CountType(t[..k], ty)
              && SumSizeOfType(t[..k + 1], ty) == SumSizeOfType(t[..k], ty)
              && MaxSizeOfType(t[..k + 1], ty) == MaxSizeOfType(t[..k], ty)
              && FirstOfType(t[..k + 1], ty) == FirstOfType(t[..k], ty)
  {
    forall ty | ty != t[k].sectionType
      ensures CountType(t[..k + 1], ty) == CountType(t[..k], ty)
              && SumSizeOfType(t[..k + 1], ty) == SumSizeOfType(t[..k], ty)
              && MaxSizeOfType(t[..k + 1], ty) == MaxSizeOfType(t[..k], ty)
              && FirstOfType(t[..k + 1], ty) == FirstOfType(t[..k], ty)
    {
      PrefixStep(t, k, ty);
      FirstOfTypeIffCount(t[..k], ty);
    }
  }

  /** After a successful scan the DDR section run BuildDDRMemoryMap reads is inside the table. */
  lemma ScanLeavesDdrRunInTable(ctx: DmpContext)
    requires |ctx.sectionTable| < U32_LIMIT
    requires ScannedContext(ctx, |ctx.sectionTable|).ddrSectionCount != 0
    ensures var c := ScannedContext(ctx, |ctx.sectionTable|);
            c.ddrSections + c.ddrSectionCount as nat <= |c.sectionTable|
  {
    assert ctx.sectionTable[..|ctx.sectionTable|] == ctx.sectionTable;
    DdrSectionsInTable(ctx.sectionTable, ctx.ddrSections);
  }

  // ---------------------------------------------------------------- DDR memory map

  /** DDRSections[0 .. DDRSectionCount). */
  function DdrRun(ctx: DmpContext): seq<SectionHeader>
    requires ctx.ddrSections + ctx.ddrSectionCount as nat <= |ctx.sectionTable|
  {
    ctx.sectionTable[ctx.ddrSections .. ctx.ddrSections + ctx.ddrSectionCount as nat]
  }

  /**
   * The context after a fill stopped at the non-DDR section b of the run:
   * the total and count cover the sections before it, the rest of the map
   * stays zeroed.
   */
  function PartialMapContext(ctx: DmpContext, b: nat): DmpContext
    requires ctx.ddrSections + ctx.ddrSectionCount as nat <= |ctx.sectionTable|
    requires b < ctx.ddrSectionCount as nat
  {
    var run := DdrRun(ctx);
    ctx.(totalDDRSizeInBytes := SumSizeOfType(run[..b], RAW_DUMP_SECTION_TYPE_DDR_RANGE),
         ddrMemoryMapCount := b as u32,
         ddrMemoryMap := FillFrom(run[..b]) + seq(ctx.ddrSectionCount as nat - b, _ => ZeroEntry))
  }

  /**
   * The context after a complete fill and sort into map m: the total of the
   * whole run, the full count, and the sanity pass's holes and overlaps up to
   * its stopping point added to the counters.
   */
  function SortedMapContext(ctx: DmpContext, m: seq<Entry>): DmpContext
    requires ctx.ddrSections + ctx.ddrSectionCount as nat <= |ctx.sectionTable|
    requires |m| == ctx.ddrSectionCount as nat
  {
    var k := StopIndex(m);
    ctx.(totalDDRSizeInBytes := SumSizeOfType(DdrRun(ctx), RAW_DUMP_SECTION_TYPE_DDR_RANGE),
         ddrMemoryMapCount := ctx.ddrSectionCount,
         ddrMemoryMap := m,
         ddrSectionFragmentationCount := Add32(ctx.ddrSectionFragmentationCount, CountPairs(m, k, Hole)),
         ddrSectionsOverlapCount := Add32(ctx.ddrSectionsOverlapCount, CountPairs(m, k, Overlap)))
  }

  /**
   * BuildDDRMemoryMap. The run of DDRSectionCount sections starting at
   * DDRSections is copied into a fresh map until a non-DDR section is met
   * (E_BAD_DATA); the map is bubble-sorted by Base; the sanity pass then
   * stops at the first entry with End < Base or Size 0 (E_BAD_DATA) and
   * otherwise adds holes and overlaps between neighbours to the context's
   * counters, an overlap count other than 0 being E_BAD_DATA. Contiguous is
   * never set. The sort's UINT32 bounds need DDRSectionCount >= 1, which
   * VerifyRawDumpSectionTable guarantees.
   */
  method BuildDDRMemoryMap(ctx: DmpContext, allocOk: bool) returns (hr: HResult, ctx': DmpContext)
    requires 1 <= ctx.ddrSectionCount
    requires ctx.ddrSections + ctx.ddrSectionCount as nat <= |ctx.sectionTable|
    ensures !allocOk ==>
              hr == E_OUTOFMEMORY && ctx' == ctx.(totalDDRSizeInBytes := 0, ddrMemoryMapCount := 0, ddrMemoryMap := [])
    ensures allocOk && FirstNotOfType(DdrRun(ctx), RAW_DUMP_SECTION_TYPE_DDR_RANGE).Some? ==>
              hr == E_BAD_DATA
              && ctx' == PartialMapContext(ctx, FirstNotOfType(DdrRun(ctx), RAW_DUMP_SECTION_TYPE_DDR_RANGE).value)
    ensures allocOk && FirstNotOfType(DdrRun(ctx), RAW_DUMP_SECTION_TYPE_DDR_RANGE).None? ==>
              var m := ctx'.ddrMemoryMap;
              |m| == ctx.ddrSectionCount as nat && SortedByBase(m) && multiset(m) == multiset(FillFrom(DdrRun(ctx)))
              && ctx' == SortedMapContext(ctx, m)
              && (hr == S_OK <==> FirstDegenerate(m).None? && ctx'.ddrSectionsOverlapCount == 0)
              && (hr == S_OK || hr == E_BAD_DATA)
    ensures NoneContiguous(ctx'.ddrMemoryMap)
    ensures hr == S_OK && ctx.ddrSectionsOverlapCount == 0 ==>
              var m := ctx'.ddrMemoryMap;
              (forall j :: 0 <= j < |m| ==> !Degenerate(m[j]))
              && forall i, j :: 0 <= i < j < |m| ==> m[i].end < m[j].base
  {
    if !allocOk {
      return E_OUTOFMEMORY, ctx.(totalDDRSizeInBytes := 0, ddrMemoryMapCount := 0, ddrMemoryMap := []);
    }
    var run := DdrRun(ctx);
    var a := new Entry[ctx.ddrSectionCount](_ => ZeroEntry);
    var filled, total := FillDdrMap(run, a);
    if filled < |run| {
      PartialFillNotContiguous(run, filled, ctx.ddrSectionCount as nat - filled);
      return E_BAD_DATA, ctx.(totalDDRSizeInBytes := total, ddrMemoryMapCount := filled as u32, ddrMemoryMap := a[..]);
    }
    assert run[..filled] == run;
    FillFromNotContiguous(run);
    var frag, overlap;
    hr, frag, overlap := SortAndCheck(a, ctx.ddrSectionFragmentationCount, ctx.ddrSectionsOverlapCount);
    ctx' := ctx.(totalDDRSizeInBytes := total, ddrMemoryMapCount := ctx.ddrSectionCount, ddrMemoryMap := a[..],
                 ddrSectionFragmentationCount := frag, ddrSectionsOverlapCount := overlap);
  }

  /** The sort and the sanity pass of BuildDDRMemoryMap over a filled map. */
  method SortAndCheck(a: array<Entry>, frag0: u32, overlap0: u32) returns (hr: HResult, frag: u32, overlap: u32)
    requires 1 <= a.Length < U32_LIMIT
    requires forall i :: 0 <= i < a.Length ==> !a[i].contiguous
    modifies a
    ensures SortedByBase(a[..]) && multiset(a[..]) == multiset(old(a[..]))
    ensures frag == Add32(frag0, CountPairs(a[..], StopIndex(a[..]), Hole))
    ensures overlap == Add32(overlap0, CountPairs(a[..], StopIndex(a[..]), Overlap))
    ensures hr == S_OK <==> FirstDegenerate(a[..]).None? && overlap == 0
    ensures hr == S_OK || hr == E_BAD_DATA
    ensures forall i :: 0 <= i < a.Length ==> !a[i].contiguous
    ensures hr == S_OK && overlap0 == 0 ==>
              (forall j :: 0 <= j < a.Length ==> !Degenerate(a[j]))
              && forall i, j :: 0 <= i < j < a.Length ==> a[i].end < a[j].base
  {
    ghost var filledMap := a[..];
    BubbleSortByBase(a);
    var degenerate;
    degenerate, frag, overlap := SanityPass(a, frag0, overlap0);
    PermutationKeepsNotContiguous(filledMap, a[..]);
    if degenerate.Some? {
      hr := E_BAD_DATA;
    } else if overlap != 0 {
      hr := E_BAD_DATA;
    } else {
      hr := S_OK;
      if overlap0 == 0 {
        SortedNoOverlapDisjoint(a[..]);
      }
    }
  }

  /**
   * The sanity loop over a sorted map: stops at the first degenerate entry
   * and counts, up to there, neighbours with a hole and with an overlap onto
   * the given counters (UINT32 arithmetic).
   */
  method SanityPass(a: array<Entry>, frag: u32, overlap: u32) returns (degenerate: Option<nat>, frag': u32, overlap': u32)
    requires a.Length < U32_LIMIT
    ensures degenerate == FirstDegenerate(a[..])
    ensures frag' == Add32(frag, CountPairs(a[..], StopIndex(a[..]), Hole))
    ensures overlap' == Add32(overlap, CountPairs(a[..], StopIndex(a[..]), Overlap))
  {
    frag', overlap' := frag, overlap;
    var index := 0;
    while index < a.Length
      invariant index <= a.Length
      invariant forall j :: 0 <= j < index ==> !Degenerate(a[j])
      invariant frag' == Add32(frag, CountPairs(a[..], index, Hole))
      invariant overlap' == Add32(overlap, CountPairs(a[..], index, Overlap))
    {
      if a[index].end < a[index].base || a[index].size == 0 {
        return Some(index), frag', overlap';
      }
      if index > 0 {
        var kind := Classify(a[index - 1].end, a[index].base);
        if kind == Hole {
          Add32Assoc(frag, CountPairs(a[..], index, Hole), 1);
          frag' := Add32(frag', 1);
        } else if kind == Overlap {
          Add32Assoc(overlap, CountPairs(a[..], index, Overlap), 1);
          overlap' := Add32(overlap', 1);
        }
      }
      index := index + 1;
    }
    degenerate := None;
  }
}
