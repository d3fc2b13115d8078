// raw2dump's conversion context, its raw dump header and section table
// checks, and its DDR memory map builder, which marks Contiguous entries
// (raw2dump/src/dumputil.cpp, raw2dump/src/dumputil.h).
module Raw2DumpUtil {
  import opened Machine
  import opened Status
  import opened RawDumpDefs
  import opened DdrMemoryMap
  import DumpHeader

  /** DUMP_HEADER_STATUS: what became of the search for Windows' dump header. */
  datatype DumpHeaderStatus = DHS_UNKNOWN | DHS_NOT_FOUND | DHS_INVALID | DHS_NO_SVINFO | DHS_VALID

  /** MEMORY_TYPE of a complete memory map entry. */
  const MEMORY_OS: u32 := 1
  const MEMORY_NONOS: u32 := 2
  const MEMORY_NA: u32 := 3

  const PAGE_SIZE: u64 := 0x1000
  const PAGE_SHIFT: nat := 12
  const NON_OS_MEMORY_LIMIT: u64 := 0x2000_0000
  const NON_OS_SIZE_LIMIT: u64 := 0x1000_0000

  /**
   * The fields of DMP_CONTEXT the modelled operations read or write. The
   * section table and the DDR sections pointer into it are a sequence and
   * an index; file offsets are kept as the UINT64 bit patterns the code adds
   * them as.
   */
  datatype DmpContext = DmpContext(
    fileOffset: u64,
    rawDumpHeader: RawDumpHeader,
    sectionTable: seq<SectionHeader>,
    ddrSections: nat,
    ddrMemoryMapCount: u32,
    ddrMemoryMap: seq<Entry>,
    totalDDRSizeInBytes: u64,
    totalSVSpecificSizeInBytes: u64,
    totalCpuContextSizeInBytes: u64,
    ddrSectionCount: u32,
    svSectionCount: u32,
    cpuContextSectionCount: u32,
    missingFlagsCount: u32,
    invalidSectionCount: u32,
    insufficientStorageSectionsCount: u32,
    invalidVersionCount: u32,
    ddrSectionsOverlapCount: u32,
    ddrSectionFragmentationCount: u32,
    largestSVSpecificSectionSize: u64,
    totalNonOSDDRSizeInBytes: u64,
    is64Bit: bool,
    ddrFileOffset: u64,
    completeMemoryMapCount: u32,
    completeMemoryMap: seq<Entry>,
    dumpHeaderStatus: DumpHeaderStatus,
    sizeAccordingToMemoryDescriptors: u64,
    bugCheckParam1: u64,
    bugCheckParam2: u64,
    bugCheckParam3: u64,
    inMemDataVA: u64)

  // ---------------------------------------------------------------- header

  /** What one device read returned: its HRESULT, the number of bytes read, and what they decode to. */
  datatype ReadResult<T> = ReadResult(hr: HResult, bytes: nat, value: T)

  function ZeroSection(): SectionHeader
  {
    SectionHeader(0, 0, 0, 0, 0, SectionUnion(0, 0), seq(20, _ => 0))
  }

  /** The zeroed allocation for a table of n entries. */
  function ZeroedTable(n: nat): (r: seq<SectionHeader>)
    ensures |r| == n && forall j :: 0 <= j < n ==> r[j] == ZeroSection()
  {
    seq(n, _ => ZeroSection())
  }

  /**
   * VerifyRawDumpHeader as written. A failed header read returns its
   * HRESULT. A read of zero bytes also leaves for the exit, but with the
   * read's successful HRESULT, before any check. The five checks give
   * E_FAIL; a failed allocation E_FAIL; a failed or empty table read again
   * returns the read's HRESULT.
   */
  function VerifyRawDumpHeaderAsWritten(ctx: DmpContext, headerRead: ReadResult<RawDumpHeader>, allocOk: bool,
                                        tableRead: ReadResult<seq<SectionHeader>>): (r: (HResult, DmpContext))
    requires |tableRead.value| == headerRead.value.sectionsCount as nat
    ensures r.1 == ctx.(rawDumpHeader := r.1.rawDumpHeader, sectionTable := r.1.sectionTable)
    ensures !Succeeded(headerRead.hr) ==> r == (headerRead.hr, ctx)
    ensures Succeeded(headerRead.hr) && headerRead.bytes == 0 ==> r == (headerRead.hr, ctx)
  {
    if !Succeeded(headerRead.hr) || headerRead.bytes == 0 then (headerRead.hr, ctx)
    else HeaderChecks(ctx, headerRead.value, allocOk, tableRead, true)
  }

  /**
   * The checks after the header has been read into the context, then the
   * table allocation and read. `emptyReadCounts` selects the as-written exit
   * on an empty table read, which keeps the read's HRESULT.
   */
  function HeaderChecks(ctx: DmpContext, h: RawDumpHeader, allocOk: bool,
                        tableRead: ReadResult<seq<SectionHeader>>, emptyReadCounts: bool): (r: (HResult, DmpContext))
    requires |tableRead.value| == h.sectionsCount as nat
    ensures r.1 == ctx.(rawDumpHeader := h, sectionTable := r.1.sectionTable)
    ensures !DumpHeader.HeaderFieldsValid(h) ==> r.0 == E_FAIL && r.1.sectionTable == ctx.sectionTable
    ensures r.0 == S_OK <==>
              DumpHeader.HeaderFieldsValid(h) && allocOk && Succeeded(tableRead.hr)
              && (tableRead.bytes != 0 || (emptyReadCounts && tableRead.hr == S_OK))
    ensures r.0 == S_OK && tableRead.bytes != 0 ==> r.1.sectionTable == tableRead.value
  {
    var c := ctx.(rawDumpHeader := h);
    if h.signature != RAW_DUMP_HEADER_SIGNATURE then (E_FAIL, c)
    else if h.version != RAW_DUMP_HEADER_VERSION then (E_FAIL, c)
    else if !HasExpectedBits(h.flags) then (E_FAIL, c)
    else if h.dumpSize == 0 then (E_FAIL, c)
    else if h.sectionsCount == 0 then (E_FAIL, c)
    else if !allocOk then (E_FAIL, c.(sectionTable := []))
    else if !Succeeded(tableRead.hr) then (tableRead.hr, c.(sectionTable := ZeroedTable(h.sectionsCount as nat)))
    else if tableRead.bytes == 0 then
      (if emptyReadCounts then tableRead.hr else E_FAIL, c.(sectionTable := ZeroedTable(h.sectionsCount as nat)))
    else (S_OK, c.(sectionTable := tableRead.value))
  }

  /**
   * VerifyRawDumpHeader with both empty reads treated as the failures they
   * are: it succeeds, with S_OK, exactly when both reads delivered bytes,
   * the five header checks pass and the allocation succeeded; the header and
   * the whole table are then in the context.
   */
  function VerifyRawDumpHeader(ctx: DmpContext, headerRead: ReadResult<RawDumpHeader>, allocOk: bool,
                               tableRead: ReadResult<seq<SectionHeader>>): (r: (HResult, DmpContext))
    requires |tableRead.value| == headerRead.value.sectionsCount as nat
    ensures r.1 == ctx.(rawDumpHeader := r.1.rawDumpHeader, sectionTable := r.1.sectionTable)
    ensures Succeeded(r.0) <==> r.0 == S_OK
    ensures r.0 == S_OK <==>
              Succeeded(headerRead.hr) && headerRead.bytes != 0 && DumpHeader.HeaderFieldsValid(headerRead.value)
              && allocOk && Succeeded(tableRead.hr) && tableRead.bytes != 0
    ensures r.0 == S_OK ==>
              r.1.rawDumpHeader == headerRead.value && r.1.sectionTable == tableRead.value
              && |r.1.sectionTable| == r.1.rawDumpHeader.sectionsCount as nat
    ensures Succeeded(headerRead.hr) && headerRead.bytes != 0 && !DumpHeader.HeaderFieldsValid(headerRead.value) ==>
              r.0 == E_FAIL
  {
    if !Succeeded(headerRead.hr) then (headerRead.hr, ctx)
    else if headerRead.bytes == 0 then (E_FAIL, ctx)
    else HeaderChecks(ctx, headerRead.value, allocOk, tableRead, false)
  }

  /** Where both reads delivered bytes, the code as written and the corrected reading agree. */
  lemma HeaderAsWrittenAgrees(ctx: DmpContext, headerRead: ReadResult<RawDumpHeader>, allocOk: bool,
                              tableRead: ReadResult<seq<SectionHeader>>)
    requires |tableRead.value| == headerRead.value.sectionsCount as nat
    requires headerRead.bytes != 0 && tableRead.bytes != 0
    ensures VerifyRawDumpHeaderAsWritten(ctx, headerRead, allocOk, tableRead)
            == VerifyRawDumpHeader(ctx, headerRead, allocOk, tableRead)
  {
  }

  /**
   * An empty raw dump file: positioning and reading succeed with zero bytes
   * read. As written, VerifyRawDumpHeader returns S_OK without a single
   * check, over a header that fails them; the corrected reading fails.
   */
  lemma EmptyFileHeaderAccepted(ctx: DmpContext, h: RawDumpHeader, allocOk: bool, tableRead: ReadResult<seq<SectionHeader>>)
    requires |tableRead.value| == h.sectionsCount as nat
    requires ctx.rawDumpHeader.signature == 0
    ensures var r := VerifyRawDumpHeaderAsWritten(ctx, ReadResult(S_OK, 0, h), allocOk, tableRead);
            r.0 == S_OK && !DumpHeader.HeaderFieldsValid(r.1.rawDumpHeader)
    ensures VerifyRawDumpHeader(ctx, ReadResult(S_OK, 0, h), allocOk, tableRead).0 == E_FAIL
  {
  }

  // ---------------------------------------------------------------- section table

  /** lastDDRSectionIndex after scanning p: the index of its last DDR entry, 0 if it has none. */
  function LastDdr(p: seq<SectionHeader>): (r: nat)
    ensures r == 0 || r < |p|
  {
    if p == [] then 0
    else if p[|p| - 1].sectionType == RAW_DUMP_SECTION_TYPE_DDR_RANGE then |p| - 1
    else LastDdr(p[..|p| - 1])
  }

  /**
   * DDRSectionFragmentationCount after scanning p: the DDR entries that have
   * an earlier DDR entry which is not the entry just before them.
   */
  function Gaps(p: seq<SectionHeader>): (r: nat)
    ensures r <= |p|
  {
    if p == [] then 0
    else
      var q := p[..|p| - 1];
      Gaps(q) + (if p[|p| - 1].sectionType == RAW_DUMP_SECTION_TYPE_DDR_RANGE
                    && CountType(q, RAW_DUMP_SECTION_TYPE_DDR_RANGE) != 0 && |q| - LastDdr(q) != 1 then 1 else 0)
  }

  predicate IsDdr(s: SectionHeader)
  {
    s.sectionType == RAW_DUMP_SECTION_TYPE_DDR_RANGE
  }

  /** The DDR entries of p form one run of neighbouring entries. */
  predicate DdrEntriesAdjacent(p: seq<SectionHeader>)
  {
    forall i, l, j :: 0 <= i < l < j < |p| && IsDdr(p[i]) && IsDdr(p[j]) ==> IsDdr(p[l])
  }

  /** LastDdr names the last DDR entry when there is one. */
  lemma {:induction false} LastDdrIsLast(p: seq<SectionHeader>)
    ensures CountType(p, RAW_DUMP_SECTION_TYPE_DDR_RANGE) != 0 ==>
              IsDdr(p[LastDdr(p)]) && forall l :: LastDdr(p) < l < |p| ==> !IsDdr(p[l])
    ensures CountType(p, RAW_DUMP_SECTION_TYPE_DDR_RANGE) == 0 ==> forall l :: 0 <= l < |p| ==> !IsDdr(p[l])
  {
    if p != [] {
      var q := p[..|p| - 1];
      LastDdrIsLast(q);
      assert forall l :: 0 <= l < |q| ==> p[l] == q[l];
    }
  }

  /** The scan counts no fragmentation exactly when the DDR entries are neighbours. */
  lemma GapsZeroIffAdjacent(p: seq<SectionHeader>)
    ensures Gaps(p) == 0 <==> DdrEntriesAdjacent(p)
  {
    if Gaps(p) == 0 {
      NoGapsAdjacent(p);
    } else {
      GapsNotAdjacent(p);
    }
  }

  lemma {:induction false} NoGapsAdjacent(p: seq<SectionHeader>)
    requires Gaps(p) == 0
    ensures DdrEntriesAdjacent(p)
  {
    if p != [] {
      var q := p[..|p| - 1];
      NoGapsAdjacent(q);
      LastDdrIsLast(q);
      assert forall l :: 0 <= l < |q| ==> p[l] == q[l];
      forall i, l, j | 0 <= i < l < j < |p| && IsDdr(p[i]) && IsDdr(p[j]) ensures IsDdr(p[l]) {
        if j == |q| {
          assert IsDdr(q[i]);
          if l < |q| - 1 {
            assert IsDdr(q[|q| - 1]);
          }
        } else {
          assert IsDdr(q[i]) && IsDdr(q[j]);
        }
      }
    }
  }

  lemma GapsNotAdjacent(p: seq<SectionHeader>)
    requires Gaps(p) != 0
    ensures !DdrEntriesAdjacent(p)
  {
    var i, l, j := GapWitness(p);
  }

  /** A counted gap has a witness: two DDR entries with a non-DDR entry between them. */
  lemma {:induction false} GapWitness(p: seq<SectionHeader>) returns (i: nat, l: nat, j: nat)
    requires Gaps(p) != 0
    ensures i < l < j < |p| && IsDdr(p[i]) && IsDdr(p[j]) && !IsDdr(p[l])
  {
    var q := p[..|p| - 1];
    if Gaps(q) == 0 {
      LastDdrIsLast(q);
      i, l, j := LastDdr(q), |q| - 1, |q|;
      assert IsDdr(q[i]) && !IsDdr(q[l]);
    } else {
      i, l, j := GapWitness(q);
      assert IsDdr(q[i]) && IsDdr(q[j]) && !IsDdr(q[l]);
    }
  }

  /** The context after scanning the first k entries. */
  function ScannedContext(ctx: DmpContext, k: nat): DmpContext
    requires k <= |ctx.sectionTable| < U32_LIMIT
  {
    var t := ctx.sectionTable;
    var p := t[..k];
    ctx.(ddrMemoryMapCount := Add32(ctx.ddrMemoryMapCount, CountType(p, RAW_DUMP_SECTION_TYPE_DDR_RANGE)),
         ddrSections := FirstDdrOr(p, ctx.ddrSections),
         ddrSectionCount := CountType(p, RAW_DUMP_SECTION_TYPE_DDR_RANGE),
         ddrSectionFragmentationCount := Gaps(p),
         cpuContextSectionCount := CountType(p, RAW_DUMP_SECTION_TYPE_CPU_CONTEXT),
         totalCpuContextSizeInBytes := Add64(ctx.totalCpuContextSizeInBytes, SumSizeOfType(p, RAW_DUMP_SECTION_TYPE_CPU_CONTEXT)),
         svSectionCount := CountType(p, RAW_DUMP_SECTION_TYPE_SV_SPECIFIC),
         totalSVSpecificSizeInBytes := Add64(ctx.totalSVSpecificSizeInBytes, SumSizeOfType(p, RAW_DUMP_SECTION_TYPE_SV_SPECIFIC)),
         largestSVSpecificSectionSize := MaxSizeOfType(p, RAW_DUMP_SECTION_TYPE_SV_SPECIFIC),
         invalidSectionCount := DumpHeader.CountFails(DumpHeader.UnknownType, t, k),
         missingFlagsCount := DumpHeader.CountFails(DumpHeader.NoExpectedBits, t, k),
         insufficientStorageSectionsCount := DumpHeader.CountFails(DumpHeader.MisplacedStorage, t, k),
         invalidVersionCount := DumpHeader.CountFails(DumpHeader.BadVersion, t, k))
  }

  /** The version, flag and storage-flag counts of a scanned context are all zero. */
  predicate NoEntryFaults(s: DmpContext)
  {
    s.invalidVersionCount == 0 && s.missingFlagsCount == 0 && s.insufficientStorageSectionsCount == 0
  }

  /**
   * VerifyRawDumpSectionTable. The counters are reset and re-tallied over
   * the SectionsCount entries, except DDRMemoryMapCount and the CPU and SV
   * totals, which accumulate onto their previous values. There is no check
   * for a table without DDR sections. The verdict tests, in order, bad
   * versions, missing flags, misplaced storage flags, and finally unknown
   * types with a post-increment, so InvalidSectionCount ends one higher
   * whenever that last test is reached.
   */
  method VerifyRawDumpSectionTable(ctx: DmpContext) returns (status: NtStatus, ctx': DmpContext)
    requires |ctx.sectionTable| == ctx.rawDumpHeader.sectionsCount as nat
    ensures var s := ScannedContext(ctx, |ctx.sectionTable|);
            ctx' == s.(invalidSectionCount := if NoEntryFaults(s) then Add32(s.invalidSectionCount, 1) else s.invalidSectionCount)
            && (status == STATUS_SUCCESS <==> NoEntryFaults(s) && s.invalidSectionCount == 0)
            && (status == STATUS_SUCCESS || status == STATUS_UNSUCCESSFUL)
  {
    var s := ScanTable(ctx);
    status, ctx' := Verdict(s);
  }

  /** The scan loop over the SectionsCount entries of the table. */
  method ScanTable(ctx: DmpContext) returns (s: DmpContext)
    requires |ctx.sectionTable| == ctx.rawDumpHeader.sectionsCount as nat
    ensures s == ScannedContext(ctx, |ctx.sectionTable|)
  {
    var t := ctx.sectionTable;
    s := ctx.(ddrSectionCount := 0, svSectionCount := 0, cpuContextSectionCount := 0,
              invalidSectionCount := 0, ddrSectionFragmentationCount := 0,
              missingFlagsCount := 0, insufficientStorageSectionsCount := 0, invalidVersionCount := 0,
              largestSVSpecificSectionSize := 0);
    ScanStartsFromReset(ctx);
    var lastDDRSectionIndex: nat := 0;
    var index: u32 := 0;
    while index < ctx.rawDumpHeader.sectionsCount
      invariant index as nat <= |t|
      invariant s == ScannedContext(ctx, index as nat)
      invariant lastDDRSectionIndex == LastDdr(t[..index])
    {
      s, lastDDRSectionIndex := ScanEntry(ctx, index, s, lastDDRSectionIndex);
      index := index + 1;
    }
  }

  /** Before the first entry, the scanned context is the context with the reset counters. */
  lemma ScanStartsFromReset(ctx: DmpContext)
    requires |ctx.sectionTable| < U32_LIMIT
    ensures ScannedContext(ctx, 0) ==
              ctx.(ddrSectionCount := 0, svSectionCount := 0, cpuContextSectionCount := 0,
                   invalidSectionCount := 0, ddrSectionFragmentationCount := 0,
                   missingFlagsCount := 0, insufficientStorageSectionsCount := 0, invalidVersionCount := 0,
                   largestSVSpecificSectionSize := 0)
  {
    assert ctx.sectionTable[..0] == [];
  }

  /** The verdict after the scan, with InvalidSectionCount's post-increment. */
  method Verdict(s: DmpContext) returns (status: NtStatus, s': DmpContext)
    ensures s' == s.(invalidSectionCount := if NoEntryFaults(s) then Add32(s.invalidSectionCount, 1) else s.invalidSectionCount)
    ensures status == STATUS_SUCCESS <==> NoEntryFaults(s) && s.invalidSectionCount == 0
    ensures status == STATUS_SUCCESS || status == STATUS_UNSUCCESSFUL
  {
    status := STATUS_UNSUCCESSFUL;
    if s.invalidVersionCount > 0 || s.missingFlagsCount > 0 || s.insufficientStorageSectionsCount > 0 {
      return status, s;
    }
    var invalid := s.invalidSectionCount;
    s' := s.(invalidSectionCount := Add32(invalid, 1));
    if invalid > 0 {
      return status, s';
    }
    return STATUS_SUCCESS, s';
  }

  /** The body of the scan loop for entry k. */
  method ScanEntry(ctx: DmpContext, k: u32, s: DmpContext, lastDdr: nat) returns (s': DmpContext, lastDdr': nat)
    requires k as nat < |ctx.sectionTable| == ctx.rawDumpHeader.sectionsCount as nat
    requires s == ScannedContext(ctx, k as nat) && lastDdr == LastDdr(ctx.sectionTable[..k])
    ensures s' == ScannedContext(ctx, k as nat + 1) && lastDdr' == LastDdr(ctx.sectionTable[..k + 1])
  {
    var t := ctx.sectionTable;
    s' := EntryFaults(ctx, k, s);
    var a := TallyOf(s', lastDdr);
    var b := TallyStep(ctx, t, k as nat, a);
    s' := s'.(ddrMemoryMapCount := b.mapCount, ddrSectionCount := b.ddrCount, ddrSections := b.ddrFirst,
              ddrSectionFragmentationCount := b.frag, cpuContextSectionCount := b.cpuCount,
              totalCpuContextSizeInBytes := b.cpuTotal, svSectionCount := b.svCount,
              totalSVSpecificSizeInBytes := b.svTotal, largestSVSpecificSectionSize := b.svLargest,
              invalidSectionCount := b.invalid);
    lastDdr' := b.lastDdr;
  }

  /** The version, flag and storage-flag tests of entry k. */
  method EntryFaults(ctx: DmpContext, k: u32, s: DmpContext) returns (s': DmpContext)
    requires k as nat < |ctx.sectionTable| == ctx.rawDumpHeader.sectionsCount as nat
    requires s.invalidVersionCount == DumpHeader.CountFails(DumpHeader.BadVersion, ctx.sectionTable, k as nat)
    requires s.missingFlagsCount == DumpHeader.CountFails(DumpHeader.NoExpectedBits, ctx.sectionTable, k as nat)
    requires s.insufficientStorageSectionsCount == DumpHeader.CountFails(DumpHeader.MisplacedStorage, ctx.sectionTable, k as nat)
    ensures s' == s.(invalidVersionCount := DumpHeader.CountFails(DumpHeader.BadVersion, ctx.sectionTable, k as nat + 1),
                     missingFlagsCount := DumpHeader.CountFails(DumpHeader.NoExpectedBits, ctx.sectionTable, k as nat + 1),
                     insufficientStorageSectionsCount :=
                       DumpHeader.CountFails(DumpHeader.MisplacedStorage, ctx.sectionTable, k as nat + 1))
  {
    var e := ctx.sectionTable[k];
    s' := s;
    if e.version != RAW_DUMP_SECTION_HEADER_VERSION {
      s' := s'.(invalidVersionCount := s'.invalidVersionCount + 1);
    }
    if !HasExpectedBits(e.flags) {
      s' := s'.(missingFlagsCount := s'.missingFlagsCount + 1);
    }
    if HasInsufficientStorage(e.flags) && k != ctx.rawDumpHeader.sectionsCount - 1 {
      s' := s'.(insufficientStorageSectionsCount := s'.insufficientStorageSectionsCount + 1);
    }
  }

  /** The counters the type switch maintains. */
  datatype TypeTally = TypeTally(mapCount: u32, ddrCount: u32, ddrFirst: nat, lastDdr: nat, frag: u32,
                                 cpuCount: u32, cpuTotal: u64, svCount: u32, svTotal: u64, svLargest: u64, invalid: u32)

  function TallyOf(s: DmpContext, lastDdr: nat): TypeTally
  {
    TypeTally(s.ddrMemoryMapCount, s.ddrSectionCount, s.ddrSections, lastDdr, s.ddrSectionFragmentationCount,
              s.cpuContextSectionCount, s.totalCpuContextSizeInBytes, s.svSectionCount,
              s.totalSVSpecificSizeInBytes, s.largestSVSpecificSectionSize, s.invalidSectionCount)
  }

  /** The type tallies after the first k entries. */
  function TypeTallyAfter(ctx: DmpContext, t: seq<SectionHeader>, k: nat): TypeTally
    requires k <= |t| < U32_LIMIT
  {
    var p := t[..k];
    TypeTally(Add32(ctx.ddrMemoryMapCount, CountType(p, RAW_DUMP_SECTION_TYPE_DDR_RANGE)),
              CountType(p, RAW_DUMP_SECTION_TYPE_DDR_RANGE), FirstDdrOr(p, ctx.ddrSections), LastDdr(p), Gaps(p),
              CountType(p, RAW_DUMP_SECTION_TYPE_CPU_CONTEXT),
              Add64(ctx.totalCpuContextSizeInBytes, SumSizeOfType(p, RAW_DUMP_SECTION_TYPE_CPU_CONTEXT)),
              CountType(p, RAW_DUMP_SECTION_TYPE_SV_SPECIFIC),
              Add64(ctx.totalSVSpecificSizeInBytes, SumSizeOfType(p, RAW_DUMP_SECTION_TYPE_SV_SPECIFIC)),
              MaxSizeOfType(p, RAW_DUMP_SECTION_TYPE_SV_SPECIFIC),
              DumpHeader.CountFails(DumpHeader.UnknownType, t, k))
  }

  /** How LastDdr, Gaps and FirstDdrOr change when the prefix grows by entry k. */
  lemma DdrStep(t: seq<SectionHeader>, k: nat, prior: nat)
    requires k < |t|
    ensures LastDdr(t[..k + 1]) == if IsDdr(t[k]) then k else LastDdr(t[..k])
    ensures Gaps(t[..k + 1]) ==
              Gaps(t[..k]) + (if IsDdr(t[k]) && CountType(t[..k], RAW_DUMP_SECTION_TYPE_DDR_RANGE) != 0
                                 && k - LastDdr(t[..k]) != 1 then 1 else 0)
    ensures FirstDdrOr(t[..k + 1], prior) ==
              if IsDdr(t[k]) && CountType(t[..k], RAW_DUMP_SECTION_TYPE_DDR_RANGE) == 0 then k else FirstDdrOr(t[..k], prior)
  {
    assert t[..k + 1][..k] == t[..k];
    PrefixStep(t, k, RAW_DUMP_SECTION_TYPE_DDR_RANGE);
    FirstOfTypeIffCount(t[..k], RAW_DUMP_SECTION_TYPE_DDR_RANGE);
  }

  /** The type switch of entry k. */
  method TallyStep(ctx: DmpContext, t: seq<SectionHeader>, k: nat, a: TypeTally) returns (b: TypeTally)
    requires k < |t| < U32_LIMIT
    requires a == TypeTallyAfter(ctx, t, k)
    ensures b == TypeTallyAfter(ctx, t, k + 1)
  {
    var ty := t[k].sectionType;
    if ty == RAW_DUMP_SECTION_TYPE_DDR_RANGE {
      DdrEntryTally(ctx, t, k);
      var frag := if a.ddrCount != 0 && k - a.lastDdr != 1 then a.frag + 1 else a.frag;
      b := a.(mapCount := Add32(a.mapCount, 1), ddrFirst := if a.ddrCount == 0 then k else a.ddrFirst,
              frag := frag, lastDdr := k, ddrCount := a.ddrCount + 1);
    } else if ty == RAW_DUMP_SECTION_TYPE_CPU_CONTEXT {
      CpuEntryTally(ctx, t, k);
      b := a.(cpuCount := a.cpuCount + 1, cpuTotal := Add64(a.cpuTotal, t[k].size));
    } else if ty == RAW_DUMP_SECTION_TYPE_SV_SPECIFIC {
      SvEntryTally(ctx, t, k);
      b := a.(svCount := a.svCount + 1, svTotal := Add64(a.svTotal, t[k].size),
              svLargest := if a.svLargest < t[k].size then t[k].size else a.svLargest);
    } else {
      OtherEntryTally(ctx, t, k);
      b := a.(invalid := a.invalid + 1);
    }
  }

  lemma DdrEntryTally(ctx: DmpContext, t: seq<SectionHeader>, k: nat)
    requires k < |t| < U32_LIMIT && IsDdr(t[k])
    ensures var a := TypeTallyAfter(ctx, t, k);
            TypeTallyAfter(ctx, t, k + 1) ==
              a.(mapCount := Add32(a.mapCount, 1), ddrFirst := if a.ddrCount == 0 then k else a.ddrFirst,
                 frag := if a.ddrCount != 0 && k - a.lastDdr != 1 then a.frag + 1 else a.frag,
                 lastDdr := k, ddrCount := a.ddrCount + 1)
  {
    PrefixStep(t, k, RAW_DUMP_SECTION_TYPE_DDR_RANGE);
    PrefixStepOther(t, k, RAW_DUMP_SECTION_TYPE_CPU_CONTEXT);
    PrefixStepOther(t, k, RAW_DUMP_SECTION_TYPE_SV_SPECIFIC);
    DdrStep(t, k, ctx.ddrSections);
    Add32Assoc(ctx.ddrMemoryMapCount, CountType(t[..k], RAW_DUMP_SECTION_TYPE_DDR_RANGE), 1);
  }

  lemma CpuEntryTally(ctx: DmpContext, t: seq<SectionHeader>, k: nat)
    requires k < |t| < U32_LIMIT && t[k].sectionType == RAW_DUMP_SECTION_TYPE_CPU_CONTEXT
    ensures var a := TypeTallyAfter(ctx, t, k);
            TypeTallyAfter(ctx, t, k + 1) == a.(cpuCount := a.cpuCount + 1, cpuTotal := Add64(a.cpuTotal, t[k].size))
  {
    PrefixStep(t, k, RAW_DUMP_SECTION_TYPE_CPU_CONTEXT);
    PrefixStepOther(t, k, RAW_DUMP_SECTION_TYPE_DDR_RANGE);
    PrefixStepOther(t, k, RAW_DUMP_SECTION_TYPE_SV_SPECIFIC);
    DdrStep(t, k, ctx.ddrSections);
    Add64Assoc(ctx.totalCpuContextSizeInBytes, SumSizeOfType(t[..k], RAW_DUMP_SECTION_TYPE_CPU_CONTEXT), t[k].size);
  }

  lemma SvEntryTally(ctx: DmpContext, t: seq<SectionHeader>, k: nat)
    requires k < |t| < U32_LIMIT && t[k].sectionType == RAW_DUMP_SECTION_TYPE_SV_SPECIFIC
    ensures var a := TypeTallyAfter(ctx, t, k);
            TypeTallyAfter(ctx, t, k + 1) ==
              a.(svCount := a.svCount + 1, svTotal := Add64(a.svTotal, t[k].size),
                 svLargest := if a.svLargest < t[k].size then t[k].size else a.svLargest)
  {
    PrefixStep(t, k, RAW_DUMP_SECTION_TYPE_SV_SPECIFIC);
    PrefixStepOther(t, k, RAW_DUMP_SECTION_TYPE_DDR_RANGE);
    PrefixStepOther(t, k, RAW_DUMP_SECTION_TYPE_CPU_CONTEXT);
    DdrStep(t, k, ctx.ddrSections);
    Add64Assoc(ctx.totalSVSpecificSizeInBytes, SumSizeOfType(t[..k], RAW_DUMP_SECTION_TYPE_SV_SPECIFIC), t[k].size);
  }

  lemma OtherEntryTally(ctx: DmpContext, t: seq<SectionHeader>, k: nat)
    requires k < |t| < U32_LIMIT && !IsKnownType(t[k].sectionType)
    ensures var a := TypeTallyAfter(ctx, t, k);
            TypeTallyAfter(ctx, t, k + 1) == a.(invalid := a.invalid + 1)
  {
    PrefixStepOther(t, k, RAW_DUMP_SECTION_TYPE_DDR_RANGE);
    PrefixStepOther(t, k, RAW_DUMP_SECTION_TYPE_CPU_CONTEXT);
    PrefixStepOther(t, k, RAW_DUMP_SECTION_TYPE_SV_SPECIFIC);
    DdrStep(t, k, ctx.ddrSections);
  }

  /**
   * The scan accepts a table without any DDR section: one well-formed CPU
   * context entry passes every test.
   */
  lemma ScanAcceptsTableWithoutDdr(ctx: DmpContext)
    requires |ctx.sectionTable| == 1
    requires ctx.sectionTable[0] == ZeroSection().(flags := RAW_DUMP_HEADER_FLAGS_VALID, version := RAW_DUMP_SECTION_HEADER_VERSION,
                                                   sectionType := RAW_DUMP_SECTION_TYPE_CPU_CONTEXT)
    ensures var s := ScannedContext(ctx, 1);
            s.ddrSectionCount == 0 && NoEntryFaults(s) && s.invalidSectionCount == 0
  {
    var t := ctx.sectionTable;
    assert t[..1] == t;
    assert t[..1][..0] == [];
    assert !DumpHeader.Fails(DumpHeader.MisplacedStorage, t, 0);
  }

  // ---------------------------------------------------------------- DDR memory map

  /** DDRSections[0 .. DDRSectionCount). */
  function DdrRun(ctx: DmpContext): seq<SectionHeader>
    requires ctx.ddrSections + ctx.ddrSectionCount as nat <= |ctx.sectionTable|
  {
    ctx.sectionTable[ctx.ddrSections .. ctx.ddrSections + ctx.ddrSectionCount as nat]
  }

  /**
   * The sanity pass's marks on the first k entries of m: Contiguous is set
   * on entry 0 and on every entry that starts right after the previous
   * entry's End.
   */
  function MarkContiguous(m: seq<Entry>, k: nat): (r: seq<Entry>)
    requires k <= |m|
    ensures |r| == |m|
  {
    seq(|m|, j requires 0 <= j < |m| => MarkAt(m, j, k))
  }

  /**
   * MarkContiguous changes nothing but the marks, and entry j ends up marked
   * exactly when it was, or when j < k and it starts right after entry j - 1.
   */
  lemma MarksOf(m: seq<Entry>, k: nat)
    requires k <= |m|
    ensures forall j :: 0 <= j < |m| ==> SameButMark(MarkContiguous(m, k)[j], m[j])
    ensures forall j :: 0 <= j < |m| ==>
              (MarkContiguous(m, k)[j].contiguous <==> m[j].contiguous || (j < k && StartsAfterPrevious(m, j)))
  {
  }

  /** Entry j is the first, or starts at the address after the previous entry's End. */
  predicate StartsAfterPrevious(m: seq<Entry>, j: nat)
    requires j < |m|
  {
    j == 0 || m[j - 1].end + 1 == m[j].base
  }

  /** Entry j of MarkContiguous(m, k). */
  function MarkAt(m: seq<Entry>, j: nat, k: nat): (e: Entry)
    requires j < |m|
    ensures SameButMark(e, m[j])
    ensures e.contiguous <==> m[j].contiguous || (j < k && StartsAfterPrevious(m, j))
  {
    if j < k && (j == 0 || Classify(m[j - 1].end, m[j].base) == Adjacent) then m[j].(contiguous := true) else m[j]
  }

  /** x and y differ at most in their Contiguous marks. */
  predicate SameButMark(x: Entry, y: Entry)
  {
    x.base == y.base && x.end == y.end && x.size == y.size && x.offset == y.offset
    && x.memType == y.memType && x.ddrIndex == y.ddrIndex
  }

  /** The map with every Contiguous mark cleared. */
  function Plain(m: seq<Entry>): (r: seq<Entry>)
    ensures |r| == |m| && forall j :: 0 <= j < |m| ==> SameButMark(r[j], m[j]) && !r[j].contiguous
  {
    seq(|m|, j requires 0 <= j < |m| => m[j].(contiguous := false))
  }

  /** The context after a fill stopped at the non-DDR section b of the run. */
  function PartialMapContext(ctx: DmpContext, b: nat): DmpContext
    requires ctx.ddrSections + ctx.ddrSectionCount as nat <= |ctx.sectionTable|
    requires b < ctx.ddrSectionCount as nat
  {
    var run := DdrRun(ctx);
    ctx.(totalDDRSizeInBytes := SumSizeOfType(run[..b], RAW_DUMP_SECTION_TYPE_DDR_RANGE),
         ddrMemoryMapCount := b as u32,
         ddrMemoryMap := FillFrom(run[..b]) + seq(ctx.ddrSectionCount as nat - b, _ => ZeroEntry))
  }

  /**
   * The context after a complete fill and a sort into `sorted`: the total of
   * the whole run, the full count, the map with the sanity pass's marks up
   * to its stopping point, and its holes and overlaps added to the counters.
   */
  function MarkedMapContext(ctx: DmpContext, sorted: seq<Entry>): DmpContext
    requires ctx.ddrSections + ctx.ddrSectionCount as nat <= |ctx.sectionTable|
    requires |sorted| == ctx.ddrSectionCount as nat
  {
    var k := StopIndex(sorted);
    ctx.(totalDDRSizeInBytes := SumSizeOfType(DdrRun(ctx), RAW_DUMP_SECTION_TYPE_DDR_RANGE),
         ddrMemoryMapCount := ctx.ddrSectionCount,
         ddrMemoryMap := MarkContiguous(sorted, k),
         ddrSectionFragmentationCount := Add32(ctx.ddrSectionFragmentationCount, CountPairs(sorted, k, Hole)),
         ddrSectionsOverlapCount := Add32(ctx.ddrSectionsOverlapCount, CountPairs(sorted, k, Overlap)))
  }

  /**
   * BuildDDRMemoryMap. It refuses to start only when both the fragmentation
   * and the overlap counts are nonzero. The run of DDRSectionCount sections
   * at DDRSections is copied into a fresh map until a non-DDR section is met
   * (STATUS_BAD_DATA); the map is bubble-sorted by Base; the sanity pass
   * stops at the first entry with End < Base or Size 0 (STATUS_BAD_DATA),
   * counts holes and overlaps onto the context's counters and marks entry 0
   * and every entry adjacent to its predecessor Contiguous. A nonzero
   * overlap count is STATUS_UNSUCCESSFUL.
   */
  method BuildDDRMemoryMap(ctx: DmpContext, allocOk: bool) returns (status: NtStatus, ctx': DmpContext)
    requires ctx.ddrSections + ctx.ddrSectionCount as nat <= |ctx.sectionTable|
    ensures ctx.ddrSectionFragmentationCount != 0 && ctx.ddrSectionsOverlapCount != 0 ==>
              status == STATUS_UNSUCCESSFUL && ctx' == ctx
    ensures !(ctx.ddrSectionFragmentationCount != 0 && ctx.ddrSectionsOverlapCount != 0) && !allocOk ==>
              status == STATUS_NO_MEMORY && ctx' == ctx.(totalDDRSizeInBytes := 0, ddrMemoryMapCount := 0, ddrMemoryMap := [])
    ensures !(ctx.ddrSectionFragmentationCount != 0 && ctx.ddrSectionsOverlapCount != 0) && allocOk
            && FirstNotOfType(DdrRun(ctx), RAW_DUMP_SECTION_TYPE_DDR_RANGE).Some? ==>
              status == STATUS_BAD_DATA
              && ctx' == PartialMapContext(ctx, FirstNotOfType(DdrRun(ctx), RAW_DUMP_SECTION_TYPE_DDR_RANGE).value)
    ensures !(ctx.ddrSectionFragmentationCount != 0 && ctx.ddrSectionsOverlapCount != 0) && allocOk
            && FirstNotOfType(DdrRun(ctx), RAW_DUMP_SECTION_TYPE_DDR_RANGE).None? ==>
              var sorted := Plain(ctx'.ddrMemoryMap);
              |sorted| == ctx.ddrSectionCount as nat && SortedByBase(sorted)
              && multiset(sorted) == multiset(FillFrom(DdrRun(ctx)))
              && ctx' == MarkedMapContext(ctx, sorted)
              && (FirstDegenerate(sorted).Some? ==> status == STATUS_BAD_DATA)
              && (FirstDegenerate(sorted).None? && ctx'.ddrSectionsOverlapCount != 0 ==> status == STATUS_UNSUCCESSFUL)
              && (status == STATUS_SUCCESS <==> FirstDegenerate(sorted).None? && ctx'.ddrSectionsOverlapCount == 0)
    ensures status == STATUS_SUCCESS && ctx.ddrSectionsOverlapCount == 0 ==> WellFormedMarkedMap(ctx'.ddrMemoryMap)
  {
    if ctx.ddrSectionFragmentationCount != 0 && ctx.ddrSectionsOverlapCount != 0 {
      return STATUS_UNSUCCESSFUL, ctx;
    }
    if !allocOk {
      return STATUS_NO_MEMORY, ctx.(totalDDRSizeInBytes := 0, ddrMemoryMapCount := 0, ddrMemoryMap := []);
    }
    var run := DdrRun(ctx);
    var a := new Entry[ctx.ddrSectionCount](_ => ZeroEntry);
    var filled, total := FillDdrMap(run, a);
    if filled < |run| {
      return STATUS_BAD_DATA, ctx.(totalDDRSizeInBytes := total, ddrMemoryMapCount := filled as u32, ddrMemoryMap := a[..]);
    }
    assert run[..filled] == run;
    FillFromNotContiguous(run);
    var frag, overlap;
    status, frag, overlap := SortAndMark(a, ctx.ddrSectionFragmentationCount, ctx.ddrSectionsOverlapCount);
    ctx' := ctx.(totalDDRSizeInBytes := total, ddrMemoryMapCount := ctx.ddrSectionCount, ddrMemoryMap := a[..],
                 ddrSectionFragmentationCount := frag, ddrSectionsOverlapCount := overlap);
  }

  /**
   * The map a successful build leaves when no overlap was counted before:
   * well-formed entries, disjoint and increasing, each marked Contiguous
   * exactly when it is the first or starts right after its predecessor.
   */
  predicate WellFormedMarkedMap(m: seq<Entry>)
  {
    (forall j :: 0 <= j < |m| ==> !Degenerate(m[j]))
    && (forall i, j :: 0 <= i < j < |m| ==> m[i].end < m[j].base)
    && (forall j :: 0 <= j < |m| ==> (m[j].contiguous <==> StartsAfterPrevious(m, j)))
  }

  /**
   * The sort (skipped for an empty map) and the marking sanity pass over a
   * freshly filled map, with the verdict: BAD_DATA at a degenerate entry,
   * UNSUCCESSFUL with overlaps counted, else SUCCESS.
   */
  method SortAndMark(a: array<Entry>, frag0: u32, overlap0: u32) returns (status: NtStatus, frag: u32, overlap: u32)
    requires a.Length < U32_LIMIT
    requires forall j :: 0 <= j < a.Length ==> !a[j].contiguous
    modifies a
    ensures var sorted := Plain(a[..]);
            SortedByBase(sorted) && multiset(sorted) == multiset(old(a[..]))
            && a[..] == MarkContiguous(sorted, StopIndex(sorted))
            && frag == Add32(frag0, CountPairs(sorted, StopIndex(sorted), Hole))
            && overlap == Add32(overlap0, CountPairs(sorted, StopIndex(sorted), Overlap))
            && (FirstDegenerate(sorted).Some? ==> status == STATUS_BAD_DATA)
            && (FirstDegenerate(sorted).None? && overlap != 0 ==> status == STATUS_UNSUCCESSFUL)
            && (status == STATUS_SUCCESS <==> FirstDegenerate(sorted).None? && overlap == 0)
    ensures status == STATUS_SUCCESS && overlap0 == 0 ==> WellFormedMarkedMap(a[..])
  {
    ghost var filled := a[..];
    if a.Length >= 1 {
      BubbleSortByBase(a);
    }
    ghost var sorted := a[..];
    PermutationKeepsNotContiguous(filled, sorted);
    PlainOfUnmarked(sorted);
    var degenerate;
    degenerate, frag, overlap := MarkingSanityPass(a, frag0, overlap0);
    PlainOfMarked(sorted, StopIndex(sorted));
    if degenerate.Some? {
      status := STATUS_BAD_DATA;
    } else if overlap != 0 {
      status := STATUS_UNSUCCESSFUL;
    } else {
      status := STATUS_SUCCESS;
      if overlap0 == 0 {
        MarkedMapWellFormed(sorted);
      }
    }
  }

  /** Marking a whole map of well-formed entries without overlapping neighbours yields a well-formed marked map. */
  lemma MarkedMapWellFormed(m: seq<Entry>)
    requires forall j :: 0 <= j < |m| ==> !Degenerate(m[j]) && !m[j].contiguous
    requires CountPairs(m, |m|, Overlap) == 0
    ensures WellFormedMarkedMap(MarkContiguous(m, |m|))
  {
    SortedNoOverlapDisjoint(m);
    MarksOf(m, |m|);
    var r := MarkContiguous(m, |m|);
    forall j | 0 <= j < |r| ensures !Degenerate(r[j]) {
      assert SameButMark(r[j], m[j]);
    }
    forall i, j | 0 <= i < j < |r| ensures r[i].end < r[j].base {
      assert SameButMark(r[i], m[i]) && SameButMark(r[j], m[j]);
    }
    forall j | 0 <= j < |r| ensures r[j].contiguous <==> StartsAfterPrevious(r, j) {
      assert SameButMark(r[j], m[j]);
      if j > 0 {
        assert SameButMark(r[j - 1], m[j - 1]);
      }
    }
  }

  lemma PlainOfUnmarked(m: seq<Entry>)
    requires forall j :: 0 <= j < |m| ==> !m[j].contiguous
    ensures Plain(m) == m
  {
  }

  lemma PlainOfMarked(m: seq<Entry>, k: nat)
    requires k <= |m|
    requires forall j :: 0 <= j < |m| ==> !m[j].contiguous
    ensures Plain(MarkContiguous(m, k)) == m
  {
    MarksOf(m, k);
  }

  /**
   * The sanity loop over a sorted map, marking in place: it stops at the
   * first degenerate entry; up to there it counts holes and overlaps onto
   * the given counters (UINT32 arithmetic) and sets the Contiguous marks.
   */
  method MarkingSanityPass(a: array<Entry>, frag: u32, overlap: u32)
    returns (degenerate: Option<nat>, frag': u32, overlap': u32)
    requires a.Length < U32_LIMIT
    modifies a
    ensures degenerate == FirstDegenerate(old(a[..]))
    ensures a[..] == MarkContiguous(old(a[..]), StopIndex(old(a[..])))
    ensures frag' == Add32(frag, CountPairs(old(a[..]), StopIndex(old(a[..])), Hole))
    ensures overlap' == Add32(overlap, CountPairs(old(a[..]), StopIndex(old(a[..])), Overlap))
  {
    ghost var m := a[..];
    var stop;
    stop, frag', overlap' := SanityLoop(a, frag, overlap);
    StopsAt(m, stop);
    degenerate := if stop < a.Length then Some(stop) else None;
  }

  /** The loop of the sanity pass, returning the index it stopped at. */
  method SanityLoop(a: array<Entry>, frag: u32, overlap: u32) returns (stop: nat, frag': u32, overlap': u32)
    requires a.Length < U32_LIMIT
    modifies a
    ensures stop <= a.Length
    ensures forall j :: 0 <= j < stop ==> !Degenerate(old(a[..])[j])
    ensures stop < a.Length ==> Degenerate(old(a[..])[stop])
    ensures a[..] == MarkContiguous(old(a[..]), stop)
    ensures frag' == Add32(frag, CountPairs(old(a[..]), stop, Hole))
    ensures overlap' == Add32(overlap, CountPairs(old(a[..]), stop, Overlap))
  {
    ghost var m := a[..];
    frag', overlap' := frag, overlap;
    stop := 0;
    while stop < a.Length
      invariant stop <= a.Length
      invariant forall j :: 0 <= j < stop ==> !Degenerate(m[j])
      invariant a[..] == MarkContiguous(m, stop)
      invariant frag' == Add32(frag, CountPairs(m, stop, Hole))
      invariant overlap' == Add32(overlap, CountPairs(m, stop, Overlap))
    {
      var e := a[stop];
      assert e == m[stop];
      if e.end < e.base || e.size == 0 {
        return;
      }
      assert !Degenerate(m[stop]);
      frag', overlap' := SanityStep(a, m, stop, frag, overlap, frag', overlap');
      stop := stop + 1;
    }
  }

  /**
   * One iteration of the sanity loop at a well-formed entry: a hole or an
   * overlap with the previous entry is counted, otherwise the entry is
   * marked Contiguous.
   */
  method SanityStep(a: array<Entry>, ghost m: seq<Entry>, index: nat, ghost frag: u32, ghost overlap: u32,
                    fragAcc: u32, overlapAcc: u32) returns (fragAcc': u32, overlapAcc': u32)
    requires index < a.Length == |m| < U32_LIMIT && !Degenerate(m[index])
    requires a[..] == MarkContiguous(m, index)
    requires fragAcc == Add32(frag, CountPairs(m, index, Hole))
    requires overlapAcc == Add32(overlap, CountPairs(m, index, Overlap))
    modifies a
    ensures a[..] == MarkContiguous(m, index + 1)
    ensures fragAcc' == Add32(frag, CountPairs(m, index + 1, Hole))
    ensures overlapAcc' == Add32(overlap, CountPairs(m, index + 1, Overlap))
  {
    ghost var before := a[..];
    assert a[index] == m[index];
    PairCountStep(m, index, frag, overlap);
    fragAcc', overlapAcc' := fragAcc, overlapAcc;
    var mark := true;
    if index > 0 {
      assert a[index - 1].end == m[index - 1].end;
      var kind := Classify(a[index - 1].end, a[index].base);
      if kind == Hole {
        fragAcc' := Add32(fragAcc, 1);
        mark := false;
      } else if kind == Overlap {
        overlapAcc' := Add32(overlapAcc, 1);
        mark := false;
      }
    }
    if mark {
      a[index] := a[index].(contiguous := true);
    }
    assert a[index] == MarkAt(m, index, index + 1);
    assert a[..] == before[index := MarkAt(m, index, index + 1)];
    MarkStep(m, index);
  }

  /** How the wrapped hole and overlap counters change when the sanity pass moves past entry k. */
  lemma PairCountStep(m: seq<Entry>, k: nat, frag: u32, overlap: u32)
    requires k < |m| < U32_LIMIT
    ensures Add32(frag, CountPairs(m, k + 1, Hole)) ==
              if k > 0 && Classify(m[k - 1].end, m[k].base) == Hole
              then Add32(Add32(frag, CountPairs(m, k, Hole)), 1) else Add32(frag, CountPairs(m, k, Hole))
    ensures Add32(overlap, CountPairs(m, k + 1, Overlap)) ==
              if k > 0 && Classify(m[k - 1].end, m[k].base) == Overlap
              then Add32(Add32(overlap, CountPairs(m, k, Overlap)), 1) else Add32(overlap, CountPairs(m, k, Overlap))
  {
    Add32Assoc(frag, CountPairs(m, k, Hole), 1);
    Add32Assoc(overlap, CountPairs(m, k, Overlap), 1);
  }

  /** The sanity pass stops at k when the entries before k are well-formed and entry k, if any, is not. */
  lemma StopsAt(m: seq<Entry>, k: nat)
    requires k <= |m|
    requires forall j :: 0 <= j < k ==> !Degenerate(m[j])
    requires k < |m| ==> Degenerate(m[k])
    ensures StopIndex(m) == k
    ensures FirstDegenerate(m) == if k < |m| then Some(k) else None
  {
  }

  /** Extending the marked prefix by one entry changes only that entry. */
  lemma MarkStep(m: seq<Entry>, k: nat)
    requires k < |m|
    ensures MarkContiguous(m, k + 1) == MarkContiguous(m, k)[k := MarkAt(m, k, k + 1)]
  {
  }

  /**
   * The sort's pass bound as written, `DDRMemoryMapCount - 1` in UINT32: with
   * an empty map it wraps to 0xFFFFFFFF.
   */
  function SortPassBoundAsWritten(mapCount: u32): (r: u32)
    ensures 1 <= mapCount ==> r == mapCount - 1
    ensures mapCount == 0 ==> r == U32_MAX
  {
    Sub32(mapCount, 1)
  }

  /**
   * With an empty map the first pass runs, and so does its first comparison
   * (bound `DDRMemoryMapCount - 1 - i`), which reads entries 0 and 1 of an
   * allocation of no entries.
   */
  lemma EmptyMapSortReadsPastEnd()
    ensures 0 < SortPassBoundAsWritten(0)
    ensures 0 < Sub32(SortPassBoundAsWritten(0), 0) && !(0 + 1 < 0)
  {
  }

  /**
   * The intended pass bound: no passes over an empty map or a single entry.
   * The longest pass compares entries j and j + 1 for j < bound, so every
   * comparison stays inside the map, and every neighbouring pair of a map of
   * two or more entries is compared.
   */
  function SortPassBound(mapCount: u32): (r: nat)
    ensures r == 0 || r < mapCount
    ensures 2 <= mapCount ==> r + 1 == mapCount
  {
    if mapCount == 0 then 0 else mapCount - 1
  }
}
