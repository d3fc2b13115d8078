// The shared raw dump header and section table validators
// (common/lib/Dump_Header.cpp, common/include/Dump_Header.h).
module DumpHeader {
  import opened Machine
  import opened Status
  import opened RawDumpDefs

  /** RAW_DUMP_ERROR; RAW_DUMP_HEADER_OK and RAW_DUMP_SECTIONS_OK are both 0. */
  datatype RawDumpError =
    | RAW_DUMP_OK
    | RAW_DUMP_ARGS
    | RAW_DUMP_HEADER_SIGNATURE_INVALID
    | RAW_DUMP_HEADER_VERSION_INVALID
    | RAW_DUMP_HEADER_EXPECTED_BITS_INVALID
    | RAW_DUMP_HEADER_SIZE_INVALID
    | RAW_DUMP_HEADER_SECTION_COUNT_INVALID
    | RAW_DUMP_SECTION_VERSION_INVALID
    | RAW_DUMP_SECTION_FLAGS_INVALID
    | RAW_DUMP_SECTION_TYPE_INVALID
    | RAW_DUMP_SECTION_INSUFFICENT_STORAGE_INVALID

  const PROCESSOR_ARCHITECTURE_UNKNOWN: u32 := 0xFFFF

  /** SECTION_TABLE_STATS; FirstDDRSection is the index of the entry it points at. */
  datatype SectionTableStats = SectionTableStats(
    firstDDRSection: Option<nat>,
    ddrSectionCount: u32,
    totalDDRSizeInBytes: u64,
    cpuContextSectionCount: u32,
    totalCpuContextSizeInBytes: u64,
    cpuArchitecture: u32,
    svSectionCount: u32,
    totalSVSpecificSizeInBytes: u64,
    largestSVSpecificSectionSize: u64,
    invalidVersionCount: u32,
    invalidFlagsCount: u32,
    invalidSectionCount: u32,
    ddrSectionFragmentationCount: u32,
    ddrSectionsOverlapCount: u32,
    insufficientStorageSectionsCount: u32)

  /** The stats after ZeroMemory and the architecture reset. */
  const ClearedStats := SectionTableStats(None, 0, 0, 0, 0, PROCESSOR_ARCHITECTURE_UNKNOWN, 0, 0, 0, 0, 0, 0, 0, 0, 0)

  /** The five header conditions, independent of their order. */
  predicate HeaderFieldsValid(h: RawDumpHeader)
  {
    h.signature == RAW_DUMP_HEADER_SIGNATURE && h.version == RAW_DUMP_HEADER_VERSION
    && HasExpectedBits(h.flags) && h.dumpSize != 0 && h.sectionsCount != 0
  }

  /**
   * IsValidRawDumpHeader: the verdict and the value it leaves in `lastError`.
   * A missing header is RAW_DUMP_ARGS; otherwise the first failing check names
   * the error.
   */
  function IsValidRawDumpHeader(h: Option<RawDumpHeader>): (r: (bool, RawDumpError))
    ensures r.0 <==> (h.Some? && HeaderFieldsValid(h.value))
    ensures r.0 <==> r.1 == RAW_DUMP_OK
    ensures h.None? <==> r.1 == RAW_DUMP_ARGS
    ensures r.1 == RAW_DUMP_HEADER_SIGNATURE_INVALID <==>
              h.Some? && h.value.signature != RAW_DUMP_HEADER_SIGNATURE
    ensures r.1 == RAW_DUMP_HEADER_VERSION_INVALID <==>
              h.Some? && h.value.signature == RAW_DUMP_HEADER_SIGNATURE && h.value.version != RAW_DUMP_HEADER_VERSION
    ensures r.1 == RAW_DUMP_HEADER_EXPECTED_BITS_INVALID <==>
              h.Some? && h.value.signature == RAW_DUMP_HEADER_SIGNATURE && h.value.version == RAW_DUMP_HEADER_VERSION
              && !HasExpectedBits(h.value.flags)
    ensures r.1 == RAW_DUMP_HEADER_SIZE_INVALID <==>
              h.Some? && h.value.signature == RAW_DUMP_HEADER_SIGNATURE && h.value.version == RAW_DUMP_HEADER_VERSION
              && HasExpectedBits(h.value.flags) && h.value.dumpSize == 0
    ensures r.1 == RAW_DUMP_HEADER_SECTION_COUNT_INVALID <==>
              h.Some? && h.value.signature == RAW_DUMP_HEADER_SIGNATURE && h.value.version == RAW_DUMP_HEADER_VERSION
              && HasExpectedBits(h.value.flags) && h.value.dumpSize != 0 && h.value.sectionsCount == 0
  {
    match h
    case None => (false, RAW_DUMP_ARGS)
    case Some(hdr) =>
      if hdr.signature != RAW_DUMP_HEADER_SIGNATURE then (false, RAW_DUMP_HEADER_SIGNATURE_INVALID)
      else if hdr.version != RAW_DUMP_HEADER_VERSION then (false, RAW_DUMP_HEADER_VERSION_INVALID)
      else if !HasExpectedBits(hdr.flags) then (false, RAW_DUMP_HEADER_EXPECTED_BITS_INVALID)
      else if hdr.dumpSize == 0 then (false, RAW_DUMP_HEADER_SIZE_INVALID)
      else if hdr.sectionsCount == 0 then (false, RAW_DUMP_HEADER_SECTION_COUNT_INVALID)
      else (true, RAW_DUMP_OK)
  }

  /** The four per-entry checks of the section table scan. */
  datatype Check = BadVersion | NoExpectedBits | MisplacedStorage | UnknownType

  /** Entry j of the table fails check c. The storage flag is allowed on the last entry only. */
  predicate Fails(c: Check, table: seq<SectionHeader>, j: nat)
    requires j < |table|
  {
    match c
    case BadVersion => table[j].version != RAW_DUMP_SECTION_HEADER_VERSION
    case NoExpectedBits => !HasExpectedBits(table[j].flags)
    case MisplacedStorage => HasInsufficientStorage(table[j].flags) && j != |table| - 1
    case UnknownType => !IsKnownType(table[j].sectionType)
  }

  /** Number of the first k entries that fail check c. */
  function CountFails(c: Check, table: seq<SectionHeader>, k: nat): (r: nat)
    requires k <= |table|
    ensures r <= k
  {
    if k == 0 then 0 else CountFails(c, table, k - 1) + (if Fails(c, table, k - 1) then 1 else 0)
  }

  /** The error the scan records for entry j: the last of its failing checks, in scan order. */
  function EntryError(table: seq<SectionHeader>, j: nat): Option<RawDumpError>
    requires j < |table|
  {
    if Fails(UnknownType, table, j) then Some(RAW_DUMP_SECTION_TYPE_INVALID)
    else if Fails(MisplacedStorage, table, j) then Some(RAW_DUMP_SECTION_INSUFFICENT_STORAGE_INVALID)
    else if Fails(NoExpectedBits, table, j) then Some(RAW_DUMP_SECTION_FLAGS_INVALID)
    else if Fails(BadVersion, table, j) then Some(RAW_DUMP_SECTION_VERSION_INVALID)
    else None
  }

  /** `lastError` after scanning the first k entries: the error of the last failing entry. */
  function LastError(table: seq<SectionHeader>, k: nat): RawDumpError
    requires k <= |table|
  {
    if k == 0 then RAW_DUMP_OK
    else match EntryError(table, k - 1)
      case None => LastError(table, k - 1)
      case Some(e) => e
  }

  /** Architecture recorded by the scan: that of the last CPU entry, else UNKNOWN. */
  function LastCpuArchitecture(table: seq<SectionHeader>, k: nat): u32
    requires k <= |table|
  {
    if k == 0 then PROCESSOR_ARCHITECTURE_UNKNOWN
    else if table[k - 1].sectionType == RAW_DUMP_SECTION_TYPE_CPU_CONTEXT then CpuArchitecture(table[k - 1])
    else LastCpuArchitecture(table, k - 1)
  }

  /** The stats after scanning the first k entries of the table. */
  predicate TallyOf(table: seq<SectionHeader>, k: nat, s: SectionTableStats)
    requires k <= |table|
  {
    var p := table[..k];
    s.firstDDRSection == FirstOfType(p, RAW_DUMP_SECTION_TYPE_DDR_RANGE)
    && s.ddrSectionCount == CountType(p, RAW_DUMP_SECTION_TYPE_DDR_RANGE)
    && s.totalDDRSizeInBytes == SumSizeOfType(p, RAW_DUMP_SECTION_TYPE_DDR_RANGE)
    && s.cpuContextSectionCount == CountType(p, RAW_DUMP_SECTION_TYPE_CPU_CONTEXT)
    && s.totalCpuContextSizeInBytes == SumSizeOfType(p, RAW_DUMP_SECTION_TYPE_CPU_CONTEXT)
    && s.cpuArchitecture == LastCpuArchitecture(table, k)
    && s.svSectionCount == CountType(p, RAW_DUMP_SECTION_TYPE_SV_SPECIFIC)
    && s.totalSVSpecificSizeInBytes == SumSizeOfType(p, RAW_DUMP_SECTION_TYPE_SV_SPECIFIC)
    && s.largestSVSpecificSectionSize == MaxSizeOfType(p, RAW_DUMP_SECTION_TYPE_SV_SPECIFIC)
    && s.invalidVersionCount == CountFails(BadVersion, table, k)
    && s.invalidFlagsCount == CountFails(NoExpectedBits, table, k)
    && s.invalidSectionCount == CountFails(UnknownType, table, k)
    && s.ddrSectionFragmentationCount == 0
    && s.ddrSectionsOverlapCount == 0
    && s.insufficientStorageSectionsCount == CountFails(MisplacedStorage, table, k)
  }

  /**
   * ValidateRawDumpSectionTable: a missing table or stats struct, or a zero
   * entry count, gives E_INVALIDARG with the stats untouched; otherwise the
   * stats are the tally of the whole table, `lastError` is the error of the
   * last failing entry, and the result is E_FAIL exactly when some entry failed.
   */
  method ValidateRawDumpSectionTable(table: Option<seq<SectionHeader>>, entryCount: u32,
                                     statsPresent: bool, stats: SectionTableStats)
    returns (hr: HResult, statsOut: SectionTableStats, lastError: RawDumpError)
    requires table.Some? ==> |table.value| == entryCount
    ensures table.None? || !statsPresent || entryCount == 0 ==>
              hr == E_INVALIDARG && statsOut == stats && lastError == RAW_DUMP_ARGS
    ensures table.Some? && statsPresent && entryCount != 0 ==>
              TallyOf(table.value, entryCount as nat, statsOut)
              && lastError == LastError(table.value, entryCount as nat)
              && (hr == S_OK <==> lastError == RAW_DUMP_OK)
              && (hr == S_OK || hr == E_FAIL)
  {
    if table.None? || !statsPresent || entryCount == 0 {
      return E_INVALIDARG, stats, RAW_DUMP_ARGS;
    }
    var t := table.value;
    lastError := RAW_DUMP_OK;
    var first: Option<nat> := None;
    var ddrCount: u32, ddrTotal: u64 := 0, 0;
    var cpuCount: u32, cpuTotal: u64, arch: u32 := 0, 0, PROCESSOR_ARCHITECTURE_UNKNOWN;
    var svCount: u32, svTotal: u64, svLargest: u64 := 0, 0, 0;
    var badVersion: u32, badFlags: u32, badType: u32, badStorage: u32 := 0, 0, 0, 0;
    var index: u32 := 0;
    while index < entryCount
      invariant index <= entryCount
      invariant TallyOf(t, index as nat, SectionTableStats(first, ddrCount, ddrTotal, cpuCount, cpuTotal, arch,
                          svCount, svTotal, svLargest, badVersion, badFlags, badType, 0, 0, badStorage))
      invariant lastError == LastError(t, index as nat)
    {
      LastErrorStep(t, index as nat);
      badVersion, badFlags, badStorage, lastError :=
        CheckEntry(t, index, badVersion, badFlags, badStorage, lastError);
      first, ddrCount, ddrTotal, cpuCount, cpuTotal, arch, svCount, svTotal, svLargest, badType, lastError :=
        TallyEntryType(t, index, first, ddrCount, ddrTotal, cpuCount, cpuTotal, arch,
                       svCount, svTotal, svLargest, badType, lastError);
      index := index + 1;
    }
    statsOut := SectionTableStats(first, ddrCount, ddrTotal, cpuCount, cpuTotal, arch,
                                  svCount, svTotal, svLargest, badVersion, badFlags, badType, 0, 0, badStorage);
    hr := if lastError != RAW_DUMP_OK then E_FAIL else S_OK;
  }

  /** The version, flag and storage-flag checks of entry k of the scan. */
  method CheckEntry(t: seq<SectionHeader>, k: u32, badVersion: u32, badFlags: u32, badStorage: u32,
                    lastError: RawDumpError)
    returns (badVersion': u32, badFlags': u32, badStorage': u32, lastError': RawDumpError)
    requires k as nat < |t| < U32_LIMIT
    requires badVersion == CountFails(BadVersion, t, k as nat)
    requires badFlags == CountFails(NoExpectedBits, t, k as nat)
    requires badStorage == CountFails(MisplacedStorage, t, k as nat)
    ensures badVersion' == CountFails(BadVersion, t, k as nat + 1)
    ensures badFlags' == CountFails(NoExpectedBits, t, k as nat + 1)
    ensures badStorage' == CountFails(MisplacedStorage, t, k as nat + 1)
    ensures lastError' ==
      if Fails(MisplacedStorage, t, k as nat) then RAW_DUMP_SECTION_INSUFFICENT_STORAGE_INVALID
      else if Fails(NoExpectedBits, t, k as nat) then RAW_DUMP_SECTION_FLAGS_INVALID
      else if Fails(BadVersion, t, k as nat) then RAW_DUMP_SECTION_VERSION_INVALID
      else lastError
  {
    badVersion', badFlags', badStorage', lastError' := badVersion, badFlags, badStorage, lastError;
    var e := t[k];
    if e.version != RAW_DUMP_SECTION_HEADER_VERSION {
      badVersion' := badVersion' + 1;
      lastError' := RAW_DUMP_SECTION_VERSION_INVALID;
    }
    if !HasExpectedBits(e.flags) {
      badFlags' := badFlags' + 1;
      lastError' := RAW_DUMP_SECTION_FLAGS_INVALID;
    }
    if HasInsufficientStorage(e.flags) && k as nat != |t| - 1 {
      badStorage' := badStorage' + 1;
      lastError' := RAW_DUMP_SECTION_INSUFFICENT_STORAGE_INVALID;
    }
  }

  /** The type switch of entry k of the scan. */
  method TallyEntryType(t: seq<SectionHeader>, k: u32, first: Option<nat>, ddrCount: u32, ddrTotal: u64,
                        cpuCount: u32, cpuTotal: u64, arch: u32,
                        svCount: u32, svTotal: u64, svLargest: u64, badType: u32, lastError: RawDumpError)
    returns (first': Option<nat>, ddrCount': u32, ddrTotal': u64, cpuCount': u32, cpuTotal': u64, arch': u32,
             svCount': u32, svTotal': u64, svLargest': u64, badType': u32, lastError': RawDumpError)
    requires k as nat < |t| < U32_LIMIT
    requires first == FirstOfType(t[..k], RAW_DUMP_SECTION_TYPE_DDR_RANGE)
    requires ddrCount == CountType(t[..k], RAW_DUMP_SECTION_TYPE_DDR_RANGE)
    requires ddrTotal == SumSizeOfType(t[..k], RAW_DUMP_SECTION_TYPE_DDR_RANGE)
    requires cpuCount == CountType(t[..k], RAW_DUMP_SECTION_TYPE_CPU_CONTEXT)
    requires cpuTotal == SumSizeOfType(t[..k], RAW_DUMP_SECTION_TYPE_CPU_CONTEXT)
    requires arch == LastCpuArchitecture(t, k as nat)
    requires svCount == CountType(t[..k], RAW_DUMP_SECTION_TYPE_SV_SPECIFIC)
    requires svTotal == SumSizeOfType(t[..k], RAW_DUMP_SECTION_TYPE_SV_SPECIFIC)
    requires svLargest == MaxSizeOfType(t[..k], RAW_DUMP_SECTION_TYPE_SV_SPECIFIC)
    requires badType == CountFails(UnknownType, t, k as nat)
    ensures first' == FirstOfType(t[..k + 1], RAW_DUMP_SECTION_TYPE_DDR_RANGE)
    ensures ddrCount' == CountType(t[..k + 1], RAW_DUMP_SECTION_TYPE_DDR_RANGE)
    ensures ddrTotal' == SumSizeOfType(t[..k + 1], RAW_DUMP_SECTION_TYPE_DDR_RANGE)
    ensures cpuCount' == CountType(t[..k + 1], RAW_DUMP_SECTION_TYPE_CPU_CONTEXT)
    ensures cpuTotal' == SumSizeOfType(t[..k + 1], RAW_DUMP_SECTION_TYPE_CPU_CONTEXT)
    ensures arch' == LastCpuArchitecture(t, k as nat + 1)
    ensures svCount' == CountType(t[..k + 1], RAW_DUMP_SECTION_TYPE_SV_SPECIFIC)
    ensures svTotal' == SumSizeOfType(t[..k + 1], RAW_DUMP_SECTION_TYPE_SV_SPECIFIC)
    ensures svLargest' == MaxSizeOfType(t[..k + 1], RAW_DUMP_SECTION_TYPE_SV_SPECIFIC)
    ensures badType' == CountFails(UnknownType, t, k as nat + 1)
    ensures lastError' == if Fails(UnknownType, t, k as nat) then RAW_DUMP_SECTION_TYPE_INVALID else lastError
  {
    first', ddrCount', ddrTotal', cpuCount', cpuTotal', arch' := first, ddrCount, ddrTotal, cpuCount, cpuTotal, arch;
    svCount', svTotal', svLargest', badType', lastError' := svCount, svTotal, svLargest, badType, lastError;
    var e := t[k];
    assert CountFails(UnknownType, t, k as nat + 1) == badType as nat + (if Fails(UnknownType, t, k as nat) then 1 else 0);
    assert LastCpuArchitecture(t, k as nat + 1) == if e.sectionType == RAW_DUMP_SECTION_TYPE_CPU_CONTEXT then CpuArchitecture(e) else arch;
    if e.sectionType == RAW_DUMP_SECTION_TYPE_DDR_RANGE {
      PrefixStepOther(t, k as nat, RAW_DUMP_SECTION_TYPE_CPU_CONTEXT);
      PrefixStepOther(t, k as nat, RAW_DUMP_SECTION_TYPE_SV_SPECIFIC);
      first', ddrCount', ddrTotal' := TallyDdr(t, k, first, ddrCount, ddrTotal);
    } else if e.sectionType == RAW_DUMP_SECTION_TYPE_CPU_CONTEXT {
      PrefixStepOther(t, k as nat, RAW_DUMP_SECTION_TYPE_DDR_RANGE);
      PrefixStepOther(t, k as nat, RAW_DUMP_SECTION_TYPE_SV_SPECIFIC);
      cpuCount', cpuTotal' := TallyCpu(t, k, cpuCount, cpuTotal);
      arch' := CpuArchitecture(e);
    } else if e.sectionType == RAW_DUMP_SECTION_TYPE_SV_SPECIFIC {
      PrefixStepOther(t, k as nat, RAW_DUMP_SECTION_TYPE_DDR_RANGE);
      PrefixStepOther(t, k as nat, RAW_DUMP_SECTION_TYPE_CPU_CONTEXT);
      svCount', svTotal', svLargest' := TallySv(t, k, svCount, svTotal, svLargest);
    } else {
      PrefixStepOther(t, k as nat, RAW_DUMP_SECTION_TYPE_DDR_RANGE);
      PrefixStepOther(t, k as nat, RAW_DUMP_SECTION_TYPE_CPU_CONTEXT);
      PrefixStepOther(t, k as nat, RAW_DUMP_SECTION_TYPE_SV_SPECIFIC);
      badType' := badType + 1;
      lastError' := RAW_DUMP_SECTION_TYPE_INVALID;
    }
  }

  /** A DDR entry: the first one is remembered, and the count and total grow. */
  method TallyDdr(t: seq<SectionHeader>, k: u32, first: Option<nat>, ddrCount: u32, ddrTotal: u64)
    returns (first': Option<nat>, ddrCount': u32, ddrTotal': u64)
    requires k as nat < |t| < U32_LIMIT && t[k].sectionType == RAW_DUMP_SECTION_TYPE_DDR_RANGE
    requires first == FirstOfType(t[..k], RAW_DUMP_SECTION_TYPE_DDR_RANGE)
    requires ddrCount == CountType(t[..k], RAW_DUMP_SECTION_TYPE_DDR_RANGE)
    requires ddrTotal == SumSizeOfType(t[..k], RAW_DUMP_SECTION_TYPE_DDR_RANGE)
    ensures first' == FirstOfType(t[..k + 1], RAW_DUMP_SECTION_TYPE_DDR_RANGE)
    ensures ddrCount' == CountType(t[..k + 1], RAW_DUMP_SECTION_TYPE_DDR_RANGE)
    ensures ddrTotal' == SumSizeOfType(t[..k + 1], RAW_DUMP_SECTION_TYPE_DDR_RANGE)
  {
    PrefixStep(t, k as nat, RAW_DUMP_SECTION_TYPE_DDR_RANGE);
    first' := first;
    if ddrCount == 0 {
      first' := Some(k as nat);
    }
    ddrCount' := ddrCount + 1;
    ddrTotal' := Add64(ddrTotal, t[k].size);
  }

  /** A CPU context entry: the count and total grow. */
  method TallyCpu(t: seq<SectionHeader>, k: u32, cpuCount: u32, cpuTotal: u64) returns (cpuCount': u32, cpuTotal': u64)
    requires k as nat < |t| < U32_LIMIT && t[k].sectionType == RAW_DUMP_SECTION_TYPE_CPU_CONTEXT
    requires cpuCount == CountType(t[..k], RAW_DUMP_SECTION_TYPE_CPU_CONTEXT)
    requires cpuTotal == SumSizeOfType(t[..k], RAW_DUMP_SECTION_TYPE_CPU_CONTEXT)
    ensures cpuCount' == CountType(t[..k + 1], RAW_DUMP_SECTION_TYPE_CPU_CONTEXT)
    ensures cpuTotal' == SumSizeOfType(t[..k + 1], RAW_DUMP_SECTION_TYPE_CPU_CONTEXT)
  {
    PrefixStep(t, k as nat, RAW_DUMP_SECTION_TYPE_CPU_CONTEXT);
    cpuCount' := cpuCount + 1;
    cpuTotal' := Add64(cpuTotal, t[k].size);
  }

  /** An SV specific entry: the largest size, the count and the total are updated. */
  method TallySv(t: seq<SectionHeader>, k: u32, svCount: u32, svTotal: u64, svLargest: u64)
    returns (svCount': u32, svTotal': u64, svLargest': u64)
    requires k as nat < |t| < U32_LIMIT && t[k].sectionType == RAW_DUMP_SECTION_TYPE_SV_SPECIFIC
    requires svCount == CountType(t[..k], RAW_DUMP_SECTION_TYPE_SV_SPECIFIC)
    requires svTotal == SumSizeOfType(t[..k], RAW_DUMP_SECTION_TYPE_SV_SPECIFIC)
    requires svLargest == MaxSizeOfType(t[..k], RAW_DUMP_SECTION_TYPE_SV_SPECIFIC)
    ensures svCount' == CountType(t[..k + 1], RAW_DUMP_SECTION_TYPE_SV_SPECIFIC)
    ensures svTotal' == SumSizeOfType(t[..k + 1], RAW_DUMP_SECTION_TYPE_SV_SPECIFIC)
    ensures svLargest' == MaxSizeOfType(t[..k + 1], RAW_DUMP_SECTION_TYPE_SV_SPECIFIC)
  {
    PrefixStep(t, k as nat, RAW_DUMP_SECTION_TYPE_SV_SPECIFIC);
    svLargest' := svLargest;
    if svLargest < t[k].size {
      svLargest' := t[k].size;
    }
    svCount' := svCount + 1;
    svTotal' := Add64(svTotal, t[k].size);
  }

  /** How LastError changes when entry k is scanned. */
  lemma LastErrorStep(t: seq<SectionHeader>, k: nat)
    requires k < |t|
    ensures LastError(t, k + 1) ==
      if Fails(UnknownType, t, k) then RAW_DUMP_SECTION_TYPE_INVALID
      else if Fails(MisplacedStorage, t, k) then RAW_DUMP_SECTION_INSUFFICENT_STORAGE_INVALID
      else if Fails(NoExpectedBits, t, k) then RAW_DUMP_SECTION_FLAGS_INVALID
      else if Fails(BadVersion, t, k) then RAW_DUMP_SECTION_VERSION_INVALID
      else LastError(t, k)
  {
  }

  /** No failing entry among the first k exactly when `lastError` stays OK. */
  lemma {:induction false} LastErrorOkIff(table: seq<SectionHeader>, k: nat)
    requires k <= |table|
    ensures LastError(table, k) == RAW_DUMP_OK <==>
      (CountFails(BadVersion, table, k) == 0 && CountFails(NoExpectedBits, table, k) == 0
       && CountFails(MisplacedStorage, table, k) == 0 && CountFails(UnknownType, table, k) == 0)
  {
    if k > 0 {
      LastErrorOkIff(table, k - 1);
    }
  }

  /** `lastError` names a failing check of the highest-index failing entry. */
  lemma {:induction false} LastErrorIsOfLastFailingEntry(table: seq<SectionHeader>, k: nat, j: nat)
    requires j < k <= |table|
    requires EntryError(table, j).Some?
    requires forall i :: j < i < k ==> EntryError(table, i).None?
    ensures LastError(table, k) == EntryError(table, j).value
  {
    if k - 1 != j {
      LastErrorIsOfLastFailingEntry(table, k - 1, j);
    }
  }

  /** Every entry is counted once: the DDR, CPU, SV and unknown-type counts add up to k. */
  lemma {:induction false} TypeCountsPartition(table: seq<SectionHeader>, k: nat)
    requires k <= |table|
    ensures CountType(table[..k], RAW_DUMP_SECTION_TYPE_DDR_RANGE)
          + CountType(table[..k], RAW_DUMP_SECTION_TYPE_CPU_CONTEXT)
          + CountType(table[..k], RAW_DUMP_SECTION_TYPE_SV_SPECIFIC)
          + CountFails(UnknownType, table, k) == k
  {
    if k > 0 {
      TypeCountsPartition(table, k - 1);
      assert table[..k][..k - 1] == table[..k - 1];
    }
  }

  /** The largest SV size bounds every SV entry and, if there is one, is attained. */
  lemma {:induction false} MaxSizeOfTypeIsMax(table: seq<SectionHeader>, t: u32)
    ensures forall j :: 0 <= j < |table| && table[j].sectionType == t ==> table[j].size <= MaxSizeOfType(table, t)
    ensures MaxSizeOfType(table, t) != 0 ==>
              exists j :: 0 <= j < |table| && table[j].sectionType == t && table[j].size == MaxSizeOfType(table, t)
  {
    if table != [] {
      var p := table[..|table| - 1];
      MaxSizeOfTypeIsMax(p, t);
      assert forall j :: 0 <= j < |p| ==> table[j] == p[j];
    }
  }

  /** The per-type size total is the plain sum of those sizes, reduced modulo 2^64. */
  function PlainSum(table: seq<SectionHeader>, t: u32): nat
  {
    if table == [] then 0
    else PlainSum(table[..|table| - 1], t) + (if table[|table| - 1].sectionType == t then table[|table| - 1].size else 0)
  }

  lemma {:induction false} SumSizeOfTypeIsWrappedSum(table: seq<SectionHeader>, t: u32)
    ensures SumSizeOfType(table, t) == PlainSum(table, t) % U64_LIMIT
  {
    if table != [] {
      SumSizeOfTypeIsWrappedSum(table[..|table| - 1], t);
    }
  }
}
