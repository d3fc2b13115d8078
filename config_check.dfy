// The service's readiness checks (OffDmpSvc/lib/configcheck.cpp): which
// offline dump version the firmware offers, whether the registry enables
// offline dumps, whether the firmware left a dump to collect, and the UEFI
// flag that keeps the legacy driver from running. Firmware, registry and UEFI
// variable reads are inputs; the DMP_CONTEXT fields these routines write are
// a record passed in and returned.
module ConfigCheck {
  import opened Machine
  import opened Status

  const EFI_OFFLINE_CRASH_DUMP_CONFIGURATION_TABLE_VERSION: u32 := 0x2
  const RAW_DUMP_SUPPORTED_VIA_DEDICATED_PARTITION: u32 := 0x1
  /** The CrashDumpEnabled values of a complete and a kernel (summary) dump. */
  const DUMP_TYPE_FULL: u32 := 1
  const DUMP_TYPE_SUMMARY: u32 := 2

  /** OFFLINE_CRASH_DUMP_CONFIGURATION_TABLE. */
  datatype ConfigTable = ConfigTable(version: u32, abnormalResetOccurred: u32, offlineMemoryDumpCapable: u32)

  /** UEFI_SETTING: the value stored in WpDisableKernelModeOCD. */
  datatype UefiSetting = DISABLE_UEFI | ENABLE_UEFI

  function SettingValue(s: UefiSetting): u32
  {
    if s == DISABLE_UEFI then 0 else 1
  }

  /** The outcome of a query of a UEFI variable or of the firmware: its status and the value it returned. */
  datatype Query<T> = Query(status: NtStatus, value: T)

  /**
   * The CrashControl registry key as read: whether it could be opened, and
   * each value that could be read (None when RegQueryValueExW failed).
   */
  datatype Registry = Registry(keyOpened: bool, crashDumpEnabled: Option<u32>,
                               disablePrebootCrashDump: Option<u32>, enableOfflineDumps: Option<u32>)

  /** IS_DUMP_EXPECTED_CHKLIST. */
  datatype ExpectedChkList = ExpectedChkList(isAbnormalResetNonZero: bool, isUseCapabilityPresent: bool, isUseCapabilitySet: bool)

  const EMPTY_CHKLIST := ExpectedChkList(false, false, false)

  /** The IsDumpEnabled and IsDumpExpected bits of DUMP_PROGRESS. */
  datatype DumpProgress = DumpProgress(isDumpEnabled: bool, isDumpExpected: bool)

  /** The DMP_CONTEXT fields the readiness checks read and write. */
  datatype ReadyContext = ReadyContext(configTable: ConfigTable, sblDumpProgress: DumpProgress,
                                       isDumpExpectedChkList: ExpectedChkList, offlineMemoryDumpUseCapability: u32)

  // ------------------------------------------------------ decision rules

  /** A registry value that could not be read keeps the 0 it was initialised with. */
  function ValueOrZero(v: Option<u32>): u32
  {
    if v.Some? then v.value else 0
  }

  /** The registry enables offline dumps: preboot dumps not disabled, offline dumps on, a full or summary crash dump. */
  predicate RegistryEnables(r: Registry)
  {
    && r.keyOpened && r.crashDumpEnabled.Some?
    && ValueOrZero(r.disablePrebootCrashDump) == 0
    && ValueOrZero(r.enableOfflineDumps) != 0
    && (r.crashDumpEnabled.value == DUMP_TYPE_FULL || r.crashDumpEnabled.value == DUMP_TYPE_SUMMARY)
  }

  /** The firmware reports a dump: an abnormal reset, and a nonzero OfflineMemoryDumpUseCapability (read as a UINT32). */
  predicate DumpIsExpected(t: ConfigTable, cap: Query<u64>)
  {
    t.abnormalResetOccurred != 0 && NtSuccess(cap.status) && Trunc32(cap.value) != 0
  }

  /** The configuration table offers SBL dumps to the dedicated partition in a known version. */
  predicate VersionSupported(t: ConfigTable)
  {
    1 <= t.version <= EFI_OFFLINE_CRASH_DUMP_CONFIGURATION_TABLE_VERSION
    && t.offlineMemoryDumpCapable % 2 == RAW_DUMP_SUPPORTED_VIA_DEDICATED_PARTITION
  }

  // ------------------------------------------------------------ routines

  /**
   * SetWpDmpFlag: the variable is written (with setVal) only when it could
   * not be read or holds another value; the status is that of the write
   * when there is one, otherwise that of the read.
   */
  method SetWpDmpFlag(setVal: UefiSetting, read: Query<u32>, writeStatus: NtStatus)
    returns (status: NtStatus, written: Option<u32>)
    ensures written.Some? <==> !NtSuccess(read.status) || read.value != SettingValue(setVal)
    ensures written.Some? ==> written.value == SettingValue(setVal) && status == writeStatus
    ensures written.None? ==> status == read.status && NtSuccess(status)
  {
    status := read.status;
    var readFailed := false;
    if !NtSuccess(status) {
      readFailed := true;
    }
    written := None;
    if readFailed || read.value != SettingValue(setVal) {
      written := Some(SettingValue(setVal));
      status := writeStatus;
    }
  }

  /**
   * DetermineOfflineDumpVersion: the table returned by the query is kept;
   * a failed query gives HRESULT_FROM_NT of its status, a version of 0 or
   * above 2 E_NOTIMPL, a missing dedicated-partition bit E_UNEXPECTED.
   */
  method DetermineOfflineDumpVersion(query: Query<ConfigTable>) returns (result: HResult, table: ConfigTable)
    ensures table == query.value
    ensures result == S_OK <==> NtSuccess(query.status) && VersionSupported(query.value)
    ensures !NtSuccess(query.status) ==> result == FromNt(query.status)
    ensures NtSuccess(query.status) && (table.version == 0 || table.version > 2) ==> result == E_NOTIMPL
    ensures NtSuccess(query.status) && 1 <= table.version <= 2 && table.offlineMemoryDumpCapable % 2 == 0 ==>
              result == E_UNEXPECTED
    ensures result == S_OK || result == E_NOTIMPL || result == E_UNEXPECTED || result == FromNt(query.status)
  {
    table := query.value;
    if !NtSuccess(query.status) {
      return FromNt(query.status), table;
    }
    if table.version == 0 || table.version > EFI_OFFLINE_CRASH_DUMP_CONFIGURATION_TABLE_VERSION {
      return E_NOTIMPL, table;
    }
    if table.offlineMemoryDumpCapable % 2 != RAW_DUMP_SUPPORTED_VIA_DEDICATED_PARTITION {
      return E_UNEXPECTED, table;
    }
    result := S_OK;
  }

  /**
   * CheckOfflineCrashdumpEnabled: the output starts FALSE; a key that does
   * not open gives E_FAIL, an unreadable CrashDumpEnabled E_NOTIMPL, and
   * the two optional values default to 0. S_OK comes only with TRUE:
   * a readable registry that does not enable dumps leaves the initial E_FAIL.
   */
  method CheckOfflineCrashdumpEnabled(reg: Registry) returns (hr: HResult, isOfflineDumpEnabled: bool)
    ensures isOfflineDumpEnabled <==> RegistryEnables(reg)
    ensures hr == S_OK <==> isOfflineDumpEnabled
    ensures reg.keyOpened && reg.crashDumpEnabled.None? ==> hr == E_NOTIMPL
    ensures !isOfflineDumpEnabled && !(reg.keyOpened && reg.crashDumpEnabled.None?) ==> hr == E_FAIL
  {
    hr := E_FAIL;
    isOfflineDumpEnabled := false;
    if !reg.keyOpened {
      return;
    }
    if reg.crashDumpEnabled.None? {
      hr := E_NOTIMPL;
      return;
    }
    var crashDumpEnabled := reg.crashDumpEnabled.value;
    var disablePrebootCrashDump := ValueOrZero(reg.disablePrebootCrashDump);
    var enableOfflineDumps := ValueOrZero(reg.enableOfflineDumps);
    if disablePrebootCrashDump == 0 && enableOfflineDumps != 0 {
      if crashDumpEnabled == DUMP_TYPE_FULL || crashDumpEnabled == DUMP_TYPE_SUMMARY {
        isOfflineDumpEnabled := true;
        hr := S_OK;
      }
    }
  }

  /**
   * GetOfflineMemoryDumpUseCapability: the UINT64 variable is stored,
   * truncated to a UINT32, only when the read succeeds.
   */
  method GetOfflineMemoryDumpUseCapability(cap: Query<u64>, previous: u32) returns (hr: HResult, useCapability: u32)
    ensures hr == FromNt(cap.status)
    ensures useCapability == if NtSuccess(cap.status) then Trunc32(cap.value) else previous
  {
    useCapability := previous;
    if NtSuccess(cap.status) {
      useCapability := Trunc32(cap.value);
    }
    hr := FromNt(cap.status);
  }

  /**
   * IsSBLDumpExpected: the checklist is cleared, then each passed step sets
   * its bit. `expectedIn` is the caller's value of *IsDumpExpected, which is
   * written only with TRUE.
   */
  method IsSBLDumpExpected(ctx: ReadyContext, cap: Query<u64>, expectedIn: bool)
    returns (result: HResult, ctx': ReadyContext, isDumpExpected: bool)
    ensures ctx'.configTable == ctx.configTable && ctx'.sblDumpProgress == ctx.sblDumpProgress
    ensures ctx.configTable.abnormalResetOccurred == 0 ==>
              result == S_OK && isDumpExpected == expectedIn && ctx' == ctx.(isDumpExpectedChkList := EMPTY_CHKLIST)
    ensures ctx.configTable.abnormalResetOccurred != 0 ==>
              && ctx'.offlineMemoryDumpUseCapability == (if NtSuccess(cap.status) then Trunc32(cap.value) else ctx.offlineMemoryDumpUseCapability)
              && (result == S_OK <==> DumpIsExpected(ctx.configTable, cap))
              && (result != S_OK ==> result == E_UNEXPECTED && isDumpExpected == expectedIn)
              && (result == S_OK ==> isDumpExpected)
    ensures var c := ctx'.isDumpExpectedChkList;
            && (c.isAbnormalResetNonZero <==> ctx.configTable.abnormalResetOccurred != 0)
            && (c.isUseCapabilityPresent <==> c.isAbnormalResetNonZero && NtSuccess(cap.status))
            && (c.isUseCapabilitySet <==> DumpIsExpected(ctx.configTable, cap))
  {
    result := S_OK;
    isDumpExpected := expectedIn;
    ctx' := ctx.(isDumpExpectedChkList := EMPTY_CHKLIST);
    if ctx.configTable.abnormalResetOccurred == 0 {
      return;
    }
    ctx' := ctx'.(isDumpExpectedChkList := ctx'.isDumpExpectedChkList.(isAbnormalResetNonZero := true));
    var useCapability;
    result, useCapability := GetOfflineMemoryDumpUseCapability(cap, ctx'.offlineMemoryDumpUseCapability);
    ctx' := ctx'.(offlineMemoryDumpUseCapability := useCapability);
    if !Succeeded(result) {
      result := E_UNEXPECTED;
      return;
    }
    ctx' := ctx'.(isDumpExpectedChkList := ctx'.isDumpExpectedChkList.(isUseCapabilityPresent := true));
    if ctx'.offlineMemoryDumpUseCapability == 0 {
      result := E_UNEXPECTED;
      return;
    }
    ctx' := ctx'.(isDumpExpectedChkList := ctx'.isDumpExpectedChkList.(isUseCapabilitySet := true));
    isDumpExpected := true;
    result := S_OK;
  }

  /** Everything the readiness check reads from outside the process. */
  datatype Environment = Environment(privilege: HResult, flagRead: Query<u32>, flagWrite: NtStatus,
                                     configQuery: Query<ConfigTable>, registry: Registry, capability: Query<u64>)

  /** A readiness check that gets through all three stages. */
  predicate AllStagesPass(env: Environment)
  {
    && Succeeded(env.privilege)
    && NtSuccess(env.configQuery.status) && VersionSupported(env.configQuery.value)
    && RegistryEnables(env.registry)
    && DumpIsExpected(env.configQuery.value, env.capability)
  }

  /**
   * IsOffDumpReady. A missing context gives S_OK with nothing done. After
   * the privilege (a failure ends the check with its result) the UEFI flag
   * is set to DISABLE_UEFI whatever the outcome; then the version, enabled
   * and expected checks run in that order, each failure ending the check.
   * `flagWritten` is the value written to the UEFI flag, if any.
   */
  method IsOffDumpReady(ctx: Option<ReadyContext>, env: Environment)
    returns (result: HResult, ctx': Option<ReadyContext>, flagWritten: Option<u32>)
    ensures ctx.None? ==> result == S_OK && ctx' == None && flagWritten == None
    ensures ctx.Some? && !Succeeded(env.privilege) ==> result == env.privilege && ctx' == ctx && flagWritten == None
    ensures ctx.Some? && Succeeded(env.privilege) ==>
              && ctx'.Some?
              && ctx'.value.configTable == env.configQuery.value
              && (flagWritten.Some? <==> !NtSuccess(env.flagRead.status) || env.flagRead.value != SettingValue(DISABLE_UEFI))
              && (result == S_OK <==> AllStagesPass(env))
    ensures ctx.Some? && Succeeded(env.privilege) && NtSuccess(env.configQuery.status) && VersionSupported(env.configQuery.value) ==>
              && (ctx'.value.sblDumpProgress.isDumpEnabled <==> RegistryEnables(env.registry))
              && (ctx'.value.sblDumpProgress.isDumpExpected <==> result == S_OK)
    ensures ctx.Some? && Succeeded(env.privilege) && !(NtSuccess(env.configQuery.status) && VersionSupported(env.configQuery.value)) ==>
              ctx'.value == ctx.value.(configTable := env.configQuery.value)
    ensures ctx.Some? && Succeeded(env.privilege) && NtSuccess(env.configQuery.status) && VersionSupported(env.configQuery.value)
              && !RegistryEnables(env.registry) ==>
              ctx'.value.isDumpExpectedChkList == ctx.value.isDumpExpectedChkList
              && (result == E_FAIL || result == E_NOTIMPL)
  {
    if ctx.None? {
      return S_OK, None, None;
    }
    var c := ctx.value;
    result := env.privilege;
    if !Succeeded(result) {
      return result, ctx, None;
    }
    var flagStatus;
    flagStatus, flagWritten := SetWpDmpFlag(DISABLE_UEFI, env.flagRead, env.flagWrite);
    var table;
    result, table := DetermineOfflineDumpVersion(env.configQuery);
    c := c.(configTable := table);
    if !Succeeded(result) {
      return result, Some(c), flagWritten;
    }
    c := c.(sblDumpProgress := DumpProgress(false, false));
    var isGood;
    result, isGood := CheckOfflineCrashdumpEnabled(env.registry);
    if !Succeeded(result) {
      return result, Some(c), flagWritten;
    }
    c := c.(sblDumpProgress := c.sblDumpProgress.(isDumpEnabled := isGood));
    if !isGood {
      return E_UNEXPECTED, Some(c), flagWritten;
    }
    isGood := false;
    result, c, isGood := IsSBLDumpExpected(c, env.capability, isGood);
    if !Succeeded(result) {
      return result, Some(c), flagWritten;
    }
    c := c.(sblDumpProgress := c.sblDumpProgress.(isDumpExpected := isGood));
    if !isGood {
      return E_UNEXPECTED, Some(c), flagWritten;
    }
    ctx' := Some(c);
  }
}
